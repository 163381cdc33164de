/**
  The cluster exception ledger of the cleaning step: every cluster returned by the
  clustering service carries a suggestion and an optional list of per-member
  overrides (`{index, value}`).  The user can set an override for one member, revert
  it, or open and cancel an edit buffer; the step shows the value each member will
  take, counts the non-blank members and the custom edits, and pages through the
  clusters of one tab ten at a time.
 */
module Ledger {
  import opened Js
  import opened Paging

  datatype ClusterMember = ClusterMember(value: string, rowIds: int, shortTextCol: string)

  datatype ClusterException = ClusterException(index: int, value: string)

  /** A cluster; `exceptions == None` is a cluster whose list was never created. */
  datatype Cluster = Cluster(
    members: seq<ClusterMember>,
    suggestion: string,
    suggestionMode: string,
    confidence: real,
    exceptions: Option<seq<ClusterException>>)

  /** Clusters of one category (or column), keyed by cluster id. */
  type CategoryData = seq<Entry<Cluster>>

  /** Categories (or columns), keyed by name. */
  type GroupedData = seq<Entry<CategoryData>>

  datatype CleaningResponse = CleaningResponse(status: string, useCategory: bool, groupedData: Option<GroupedData>)


  // ---------------------------------------------------------------------------
  // Exception lists

  function OrEmpty(excs: Option<seq<ClusterException>>): seq<ClusterException>
  {
    match excs
    case None => []
    case Some(l) => l
  }

  /** `exceptions.filter((exc) => exc.index !== i)`. */
  function WithoutIndex(excs: seq<ClusterException>, i: int): (r: seq<ClusterException>)
    ensures forall e <- r :: e.index != i && e in excs
    ensures |r| <= |excs|
  {
    if excs == [] then []
    else (if excs[0].index == i then [] else [excs[0]]) + WithoutIndex(excs[1..], i)
  }

  /** The list after a non-blank custom edit of member `i`: its old entries dropped, the new one pushed. */
  function WithException(excs: Option<seq<ClusterException>>, i: int, v: string): (r: seq<ClusterException>)
    ensures |r| >= 1 && r[|r| - 1] == ClusterException(i, v)
    ensures forall e <- r :: e == ClusterException(i, v) || (e.index != i && e in OrEmpty(excs))
  {
    WithoutIndex(OrEmpty(excs), i) + [ClusterException(i, v)]
  }

  /** `exceptions.find((exc) => exc.index === i)?.value`. */
  function ExceptionFor(excs: seq<ClusterException>, i: int): (r: Option<string>)
    ensures r.None? <==> forall e <- excs :: e.index != i
    ensures r.Some? ==> ClusterException(i, r.value) in excs
  {
    if excs == [] then None
    else if excs[0].index == i then Some(excs[0].value)
    else ExceptionFor(excs[1..], i)
  }

  /** The override found is the value of the first entry for the member. */
  lemma {:induction false} ExceptionForFirst(excs: seq<ClusterException>, i: int)
    requires ExceptionFor(excs, i).Some?
    ensures exists k :: 0 <= k < |excs| && excs[k] == ClusterException(i, ExceptionFor(excs, i).value)
                        && forall j :: 0 <= j < k ==> excs[j].index != i
  {
    if excs[0].index != i {
      ExceptionForFirst(excs[1..], i);
      var v := ExceptionFor(excs, i).value;
      var k :| 0 <= k < |excs[1..]| && excs[1..][k] == ClusterException(i, v)
               && forall j :: 0 <= j < k ==> excs[1..][j].index != i;
      assert excs[k + 1] == ClusterException(i, v);
      forall j | 0 <= j < k + 1 ensures excs[j].index != i {
        if j > 0 { assert excs[j] == excs[1..][j - 1]; }
      }
    } else {
      assert excs[0] == ClusterException(i, ExceptionFor(excs, i).value);
    }
  }

  /** The number of entries for member `i`. */
  function EntriesFor(excs: seq<ClusterException>, i: int): nat
  {
    if excs == [] then 0 else (if excs[0].index == i then 1 else 0) + EntriesFor(excs[1..], i)
  }

  /** `getExceptionValue`: the first override of member `i`, or none. */
  function ExceptionValue(c: Cluster, i: int): (r: Option<string>)
    ensures r.None? <==> forall e <- OrEmpty(c.exceptions) :: e.index != i
    ensures r.Some? ==> ClusterException(i, r.value) in OrEmpty(c.exceptions)
  {
    match c.exceptions
    case None => None
    case Some(excs) => ExceptionFor(excs, i)
  }

  /** The value shown (and applied) for member `i`: its override if it has one, else the suggestion. */
  function FinalValue(c: Cluster, i: int): (v: string)
    ensures (forall e <- OrEmpty(c.exceptions) :: e.index != i) ==> v == c.suggestion
    ensures (exists e <- OrEmpty(c.exceptions) :: e.index == i) ==> ClusterException(i, v) in OrEmpty(c.exceptions)
  {
    match ExceptionValue(c, i)
    case Some(v) => v
    case None => c.suggestion
  }

  lemma {:induction false} WithoutIndexConcat(a: seq<ClusterException>, b: seq<ClusterException>, i: int)
    ensures WithoutIndex(a + b, i) == WithoutIndex(a, i) + WithoutIndex(b, i)
  {
    if a == [] {
      assert a + b == b;
    } else {
      var head := if a[0].index == i then [] else [a[0]];
      assert (a + b)[0] == a[0];
      assert (a + b)[1..] == a[1..] + b;
      assert WithoutIndex(a + b, i) == head + WithoutIndex(a[1..] + b, i);
      assert WithoutIndex(a, i) == head + WithoutIndex(a[1..], i);
      WithoutIndexConcat(a[1..], b, i);
      ConcatAssociative(head, WithoutIndex(a[1..], i), WithoutIndex(b, i));
    }
  }

  lemma {:induction false} WithoutIndexFacts(excs: seq<ClusterException>, i: int, j: int)
    ensures WithoutIndex(WithoutIndex(excs, i), i) == WithoutIndex(excs, i)
    ensures EntriesFor(WithoutIndex(excs, i), i) == 0
    ensures ExceptionFor(WithoutIndex(excs, i), i) == None
    ensures j != i ==> ExceptionFor(WithoutIndex(excs, i), j) == ExceptionFor(excs, j)
    ensures j != i ==> EntriesFor(WithoutIndex(excs, i), j) == EntriesFor(excs, j)
    ensures |WithoutIndex(excs, i)| + EntriesFor(excs, i) == |excs|
  {
    if excs != [] {
      WithoutIndexFacts(excs[1..], i, j);
      var rest := WithoutIndex(excs[1..], i);
      if excs[0].index != i {
        assert WithoutIndex(excs, i) == [excs[0]] + rest;
        assert ([excs[0]] + rest)[1..] == rest;
        assert WithoutIndex([excs[0]] + rest, i) == [excs[0]] + WithoutIndex(rest, i);
      } else {
        assert WithoutIndex(excs, i) == rest;
      }
    }
  }

  lemma {:induction false} ExceptionForLast(excs: seq<ClusterException>, e: ClusterException, j: int)
    ensures ExceptionFor(excs + [e], j) == if ExceptionFor(excs, j).Some? then ExceptionFor(excs, j)
                                          else if e.index == j then Some(e.value) else None
    ensures EntriesFor(excs + [e], j) == EntriesFor(excs, j) + (if e.index == j then 1 else 0)
  {
    if excs == [] {
      assert excs + [e] == [e];
    } else {
      assert (excs + [e])[1..] == excs[1..] + [e];
      ExceptionForLast(excs[1..], e, j);
    }
  }

  /**
    A non-blank custom edit of member `i` leaves exactly one entry for `i`, holding the
    new value and placed last; the entries for other members keep their values and order.
   */
  lemma {:induction false} CustomEditSpec(excs: Option<seq<ClusterException>>, i: int, v: string, j: int)
    ensures var r := WithException(excs, i, v);
      && EntriesFor(r, i) == 1
      && r[|r| - 1] == ClusterException(i, v)
      && WithoutIndex(r, i) == WithoutIndex(OrEmpty(excs), i)
      && ExceptionFor(r, i) == Some(v)
      && (j != i ==> ExceptionFor(r, j) == ExceptionFor(OrEmpty(excs), j))
  {
    var l := OrEmpty(excs);
    var e := ClusterException(i, v);
    var w := WithoutIndex(l, i);
    var r := WithException(excs, i, v);
    WithoutIndexFacts(l, i, j);
    assert EntriesFor(r, i) == 1 && ExceptionFor(r, i) == Some(v) by {
      ExceptionForLast(w, e, i);
    }
    assert j != i ==> ExceptionFor(r, j) == ExceptionFor(l, j) by {
      ExceptionForLast(w, e, j);
    }
    assert WithoutIndex(r, i) == w by {
      WithoutIndexConcat(w, [e], i);
      assert WithoutIndex([e], i) == [];
    }
  }

  /** Reverting member `i` removes every entry for `i` and keeps the others, in order. */
  lemma {:induction false} RevertSpec(excs: seq<ClusterException>, i: int, j: int)
    ensures EntriesFor(WithoutIndex(excs, i), i) == 0
    ensures ExceptionFor(WithoutIndex(excs, i), i) == None
    ensures j != i ==> ExceptionFor(WithoutIndex(excs, i), j) == ExceptionFor(excs, j)
    ensures j != i ==> EntriesFor(WithoutIndex(excs, i), j) == EntriesFor(excs, j)
  {
    WithoutIndexFacts(excs, i, j);
  }

  // ---------------------------------------------------------------------------
  // One entry per member

  /** No member has two entries. */
  predicate DistinctIndices(excs: seq<ClusterException>)
  {
    forall a, b :: 0 <= a < b < |excs| ==> excs[a].index != excs[b].index
  }

  /** Every entry names a member of a cluster with `n` members. */
  predicate IndicesInRange(excs: seq<ClusterException>, n: nat)
  {
    forall e <- excs :: 0 <= e.index < n
  }

  /** The members that have an entry. */
  function EditedIndices(excs: seq<ClusterException>): (r: set<int>)
    ensures forall k <- r :: exists e <- excs :: e.index == k
    ensures forall e <- excs :: e.index in r
  {
    if excs == [] then {} else {excs[0].index} + EditedIndices(excs[1..])
  }

  lemma {:induction false} WithoutIndexSubsequence(excs: seq<ClusterException>, i: int)
    requires DistinctIndices(excs)
    ensures DistinctIndices(WithoutIndex(excs, i))
  {
    if excs != [] {
      WithoutIndexSubsequence(excs[1..], i);
      var rest := WithoutIndex(excs[1..], i);
      if excs[0].index != i {
        var r := [excs[0]] + rest;
        forall b | 0 < b < |r| ensures r[0].index != r[b].index {
          assert r[b] in excs[1..];
        }
      }
    }
  }

  /** Edits and reverts keep one entry per member, and keep entries inside the member list. */
  lemma {:induction false} EditsKeepOneEntryPerMember(excs: Option<seq<ClusterException>>, i: int, v: string, n: nat)
    requires DistinctIndices(OrEmpty(excs))
    ensures DistinctIndices(WithException(excs, i, v))
    ensures DistinctIndices(WithoutIndex(OrEmpty(excs), i))
    ensures IndicesInRange(OrEmpty(excs), n) && 0 <= i < n ==> IndicesInRange(WithException(excs, i, v), n)
    ensures IndicesInRange(OrEmpty(excs), n) ==> IndicesInRange(WithoutIndex(OrEmpty(excs), i), n)
  {
    var w := WithoutIndex(OrEmpty(excs), i);
    WithoutIndexSubsequence(OrEmpty(excs), i);
    var r := w + [ClusterException(i, v)];
    forall a, b | 0 <= a < b < |r| ensures r[a].index != r[b].index {
      if b == |w| { assert r[a] in w; }
    }
  }

  /** With one entry per member, the list is as long as the set of edited members. */
  lemma {:induction false} EditCountIsEditedMembers(excs: seq<ClusterException>)
    requires DistinctIndices(excs)
    ensures |excs| == |EditedIndices(excs)|
  {
    if excs != [] {
      DistinctIndicesTail(excs);
      EditCountIsEditedMembers(excs[1..]);
      assert EditedIndices(excs) == {excs[0].index} + EditedIndices(excs[1..]);
    }
  }

  /** Past the first entry the indices stay distinct, and none of them is the first entry's. */
  lemma {:induction false} DistinctIndicesTail(excs: seq<ClusterException>)
    requires DistinctIndices(excs) && excs != []
    ensures DistinctIndices(excs[1..])
    ensures excs[0].index !in EditedIndices(excs[1..])
  {
    var rest := excs[1..];
    forall a, b | 0 <= a < b < |rest| ensures rest[a].index != rest[b].index {
      assert rest[a] == excs[a + 1] && rest[b] == excs[b + 1];
    }
    forall e | e in rest ensures e.index != excs[0].index {
      var b :| 0 <= b < |rest| && rest[b] == e;
      assert rest[b] == excs[b + 1];
    }
  }

  lemma {:induction false} EditedIndicesInRange(excs: seq<ClusterException>, n: nat)
    requires IndicesInRange(excs, n)
    ensures forall k <- EditedIndices(excs) :: 0 <= k < n
  {
    if excs != [] {
      assert IndicesInRange(excs[1..], n);
      EditedIndicesInRange(excs[1..], n);
    }
  }

  lemma {:induction false} SubsetOfRangeBound(s: set<int>, n: nat)
    requires forall k <- s :: 0 <= k < n
    ensures |s| <= n
  {
    if n == 0 {
      assert forall k :: k !in s;
      assert s == {};
    } else {
      SubsetOfRangeBound(s - {n - 1}, n - 1);
    }
  }

  /** With one in-range entry per member, a cluster never has more custom edits than members. */
  lemma {:induction false} EditCountBound(excs: seq<ClusterException>, n: nat)
    requires DistinctIndices(excs) && IndicesInRange(excs, n)
    ensures |excs| <= n
  {
    EditCountIsEditedMembers(excs);
    EditedIndicesInRange(excs, n);
    SubsetOfRangeBound(EditedIndices(excs), n);
  }

  // ---------------------------------------------------------------------------
  // Grouped data

  predicate HasCluster(gd: GroupedData, cat: string, id: string)
  {
    Get(gd, cat).Some? && Get(Get(gd, cat).value, id).Some?
  }

  function ClusterAt(gd: GroupedData, cat: string, id: string): Cluster
    requires HasCluster(gd, cat, id)
  {
    Get(Get(gd, cat).value, id).value
  }

  /** `groupedData[cat][id].exceptions = excs`, the shared cluster updated where it stands. */
  function SetExceptions(gd: GroupedData, cat: string, id: string, excs: seq<ClusterException>): GroupedData
    requires HasCluster(gd, cat, id)
  {
    var cd := Get(gd, cat).value;
    Assign(gd, cat, Assign(cd, id, ClusterAt(gd, cat, id).(exceptions := Some(excs))))
  }

  /** Updating one cluster's exceptions leaves every tab, every cluster id and every other cluster as it was. */
  lemma {:induction false} SetExceptionsSpec(gd: GroupedData, cat: string, id: string, excs: seq<ClusterException>,
                                            cat': string, id': string)
    requires HasCluster(gd, cat, id)
    ensures var r := SetExceptions(gd, cat, id, excs);
      && Keys(r) == Keys(gd)
      && (HasCluster(r, cat', id') <==> HasCluster(gd, cat', id'))
      && (HasCluster(gd, cat', id') ==>
            ClusterAt(r, cat', id') == if cat' == cat && id' == id
                                       then ClusterAt(gd, cat, id).(exceptions := Some(excs))
                                       else ClusterAt(gd, cat', id'))
  {
    var cd := Get(gd, cat).value;
    var c' := ClusterAt(gd, cat, id).(exceptions := Some(excs));
    GetAssign(gd, cat, Assign(cd, id, c'), cat');
    GetAssign(cd, id, c', id');
  }

  /** The response after a custom edit: unchanged for a blank value. */
  function CustomEdited(resp: CleaningResponse, cat: string, id: string, i: int, v: string): CleaningResponse
    requires resp.groupedData.Some? && HasCluster(resp.groupedData.value, cat, id)
  {
    if IsBlank(v) then resp
    else
      var gd := resp.groupedData.value;
      resp.(groupedData := Some(SetExceptions(gd, cat, id, WithException(ClusterAt(gd, cat, id).exceptions, i, v))))
  }

  /** The response after a revert: unchanged when the cluster has no exception list. */
  function Reverted(resp: CleaningResponse, cat: string, id: string, i: int): CleaningResponse
    requires resp.groupedData.Some? && HasCluster(resp.groupedData.value, cat, id)
  {
    var gd := resp.groupedData.value;
    var c := ClusterAt(gd, cat, id);
    if c.exceptions.None? then resp
    else resp.(groupedData := Some(SetExceptions(gd, cat, id, WithoutIndex(c.exceptions.value, i))))
  }

  /**
    After a non-blank custom edit the member shows the new value, every other member of the
    cluster shows what it showed before, and the suggestion is untouched.
   */
  lemma {:induction false} CustomEditShows(resp: CleaningResponse, cat: string, id: string, i: int, v: string, j: int)
    requires resp.groupedData.Some? && HasCluster(resp.groupedData.value, cat, id)
    requires !IsBlank(v)
    ensures var gd := resp.groupedData.value;
      var r := CustomEdited(resp, cat, id, i, v).groupedData.value;
      && HasCluster(r, cat, id)
      && FinalValue(ClusterAt(r, cat, id), i) == v
      && (j != i ==> FinalValue(ClusterAt(r, cat, id), j) == FinalValue(ClusterAt(gd, cat, id), j))
      && ClusterAt(r, cat, id).suggestion == ClusterAt(gd, cat, id).suggestion
  {
    var gd := resp.groupedData.value;
    var c := ClusterAt(gd, cat, id);
    var excs := WithException(c.exceptions, i, v);
    SetExceptionsSpec(gd, cat, id, excs, cat, id);
    CustomEditSpec(c.exceptions, i, v, j);
  }

  /** After a revert the member shows the cluster's suggestion again; the other members are unaffected. */
  lemma {:induction false} RevertShows(resp: CleaningResponse, cat: string, id: string, i: int, j: int)
    requires resp.groupedData.Some? && HasCluster(resp.groupedData.value, cat, id)
    ensures var gd := resp.groupedData.value;
      var r := Reverted(resp, cat, id, i).groupedData.value;
      && HasCluster(r, cat, id)
      && FinalValue(ClusterAt(r, cat, id), i) == ClusterAt(gd, cat, id).suggestion
      && (j != i ==> FinalValue(ClusterAt(r, cat, id), j) == FinalValue(ClusterAt(gd, cat, id), j))
  {
    var gd := resp.groupedData.value;
    var c := ClusterAt(gd, cat, id);
    if c.exceptions.Some? {
      SetExceptionsSpec(gd, cat, id, WithoutIndex(c.exceptions.value, i), cat, id);
      RevertSpec(c.exceptions.value, i, j);
    }
  }

  // ---------------------------------------------------------------------------
  // Counts

  /** `members.filter((m) => m.value && m.value.trim() !== "")`. */
  function DisplayMembers(members: seq<ClusterMember>): (r: seq<ClusterMember>)
    ensures |r| <= |members|
    ensures forall m <- r :: m in members && !IsBlank(m.value)
    ensures forall m <- members :: !IsBlank(m.value) ==> m in r
  {
    if members == [] then []
    else (if IsBlank(members[0].value) then [] else [members[0]]) + DisplayMembers(members[1..])
  }

  function ClusterItems(c: Cluster): nat
  {
    |DisplayMembers(c.members)|
  }

  function CategoryItems(cd: CategoryData): nat
  {
    SumValues(cd, ClusterItems)
  }

  function GroupedItems(gd: GroupedData): nat
  {
    SumValues(gd, CategoryItems)
  }

  /** The figure of `getTotalSuggestions`: non-blank members over every cluster of every tab, 0 without data. */
  function TotalSuggestions(resp: CleaningResponse): nat
  {
    match resp.groupedData
    case None => 0
    case Some(gd) => GroupedItems(gd)
  }

  function ExceptionCount(c: Cluster): nat
  {
    |OrEmpty(c.exceptions)|
  }

  function CategoryEdits(cd: CategoryData): nat
  {
    SumValues(cd, ExceptionCount)
  }

  /** The "custom edits" figure: the sum of the exception-list lengths. */
  function CustomEditCount(gd: GroupedData): (n: nat)
    ensures n == 0 <==> forall e <- gd :: forall c <- e.val :: OrEmpty(c.val.exceptions) == []
  {
    NoCustomEdits(gd);
    SumValues(gd, CategoryEdits)
  }

  lemma {:induction false} NoCustomEdits(gd: GroupedData)
    ensures SumValues(gd, CategoryEdits) == 0 <==> forall e <- gd :: forall c <- e.val :: OrEmpty(c.val.exceptions) == []
  {
    SumValuesZero(gd, CategoryEdits);
    forall e <- gd ensures CategoryEdits(e.val) == 0 <==> forall c <- e.val :: OrEmpty(c.val.exceptions) == [] {
      SumValuesZero(e.val, ExceptionCount);
    }
  }

  /** Changing exceptions never changes the member counts. */
  lemma {:induction false} EditsKeepTotal(gd: GroupedData, cat: string, id: string, excs: seq<ClusterException>)
    requires HasCluster(gd, cat, id)
    ensures GroupedItems(SetExceptions(gd, cat, id, excs)) == GroupedItems(gd)
  {
    var cd := Get(gd, cat).value;
    var c := ClusterAt(gd, cat, id);
    SumValuesAssign(cd, id, c.(exceptions := Some(excs)), ClusterItems);
    SumValuesAssign(gd, cat, Assign(cd, id, c.(exceptions := Some(excs))), CategoryItems);
  }

  /** Replacing one cluster's list moves the custom-edit figure by the change in that list's length. */
  lemma {:induction false} EditCountAfterSet(gd: GroupedData, cat: string, id: string, excs: seq<ClusterException>)
    requires HasCluster(gd, cat, id)
    ensures CustomEditCount(SetExceptions(gd, cat, id, excs)) + ExceptionCount(ClusterAt(gd, cat, id))
            == CustomEditCount(gd) + |excs|
  {
    var cd := Get(gd, cat).value;
    var c := ClusterAt(gd, cat, id);
    SumValuesAssign(cd, id, c.(exceptions := Some(excs)), ExceptionCount);
    SumValuesAssign(gd, cat, Assign(cd, id, c.(exceptions := Some(excs))), CategoryEdits);
  }

  /**
    With one entry per member, a custom edit adds one to the custom-edit figure when the
    member had no override and leaves it unchanged when it replaces one.
   */
  lemma {:induction false} CustomEditCountAfterEdit(gd: GroupedData, cat: string, id: string, i: int, v: string)
    requires HasCluster(gd, cat, id)
    requires DistinctIndices(OrEmpty(ClusterAt(gd, cat, id).exceptions))
    ensures var c := ClusterAt(gd, cat, id);
      CustomEditCount(SetExceptions(gd, cat, id, WithException(c.exceptions, i, v)))
      == CustomEditCount(gd) + (if ExceptionValue(c, i).None? then 1 else 0)
  {
    var c := ClusterAt(gd, cat, id);
    var l := OrEmpty(c.exceptions);
    EditCountAfterSet(gd, cat, id, WithException(c.exceptions, i, v));
    WithoutIndexFacts(l, i, i);
    OneEntryAtMost(l, i);
  }

  lemma {:induction false} OneEntryAtMost(excs: seq<ClusterException>, i: int)
    requires DistinctIndices(excs)
    ensures EntriesFor(excs, i) == if ExceptionFor(excs, i).Some? then 1 else 0
  {
    if excs != [] {
      OneEntryAtMost(excs[1..], i);
      if excs[0].index == i {
        NoEntryInTail(excs, i);
      }
    }
  }

  lemma {:induction false} NoEntryInTail(excs: seq<ClusterException>, i: int)
    requires DistinctIndices(excs) && excs != [] && excs[0].index == i
    ensures EntriesFor(excs[1..], i) == 0
  {
    var rest := excs[1..];
    forall b | 0 <= b < |rest| ensures rest[b].index != i {
      assert rest[b] == excs[b + 1];
    }
    NoEntryWhenAbsent(rest, i);
  }

  lemma {:induction false} NoEntryWhenAbsent(excs: seq<ClusterException>, i: int)
    requires forall b :: 0 <= b < |excs| ==> excs[b].index != i
    ensures EntriesFor(excs, i) == 0
  {
    if excs != [] {
      NoEntryWhenAbsent(excs[1..], i);
    }
  }

  // ---------------------------------------------------------------------------
  // Paging and display

  /** `currentPages[tab] || 1`. */
  function CurrentPage(pages: map<string, int>, tab: string): (p: int)
    ensures p != 0
    ensures (forall t <- pages :: pages[t] >= 1) ==> p >= 1 && (tab in pages ==> p == pages[tab])
  {
    if tab in pages && pages[tab] != 0 then pages[tab] else 1
  }

  /** `cluster.members.findIndex(...)` on value, row ids and column: equal members share an index. */
  function OriginalIndex(members: seq<ClusterMember>, m: ClusterMember): (r: int)
    ensures r == -1 <==> m !in members
    ensures 0 <= r ==> r < |members| && members[r] == m && m !in members[..r]
  {
    IndexOf(members, m)
  }

  /** A displayed member's index is the first position holding an equal member. */
  lemma {:induction false} DisplayedMemberIndex(members: seq<ClusterMember>, k: nat)
    requires k < |DisplayMembers(members)|
    ensures var m := DisplayMembers(members)[k];
      && 0 <= OriginalIndex(members, m) < |members|
      && members[OriginalIndex(members, m)] == m
      && forall j :: 0 <= j < OriginalIndex(members, m) ==> members[j] != m
  {
    var m := DisplayMembers(members)[k];
    assert m in DisplayMembers(members);
    var i := OriginalIndex(members, m);
    forall j | 0 <= j < i ensures members[j] != m {
      assert members[j] == members[..i][j];
    }
  }

  /** The clusters drawn on a page: those of the page that have a non-blank member. */
  function RenderedClusters(cd: CategoryData, page: int): (r: CategoryData)
    requires page >= 1
    ensures forall e <- r :: e in PageItems(cd, page) && DisplayMembers(e.val.members) != []
    ensures forall e <- PageItems(cd, page) :: DisplayMembers(e.val.members) != [] ==> e in r
  {
    Rendered(PageItems(cd, page))
  }

  function Rendered(entries: CategoryData): (r: CategoryData)
    ensures forall e <- r :: e in entries && DisplayMembers(e.val.members) != []
    ensures forall e <- entries :: DisplayMembers(e.val.members) != [] ==> e in r
  {
    if entries == [] then []
    else (if DisplayMembers(entries[0].val.members) == [] then [] else [entries[0]]) + Rendered(entries[1..])
  }

  // ---------------------------------------------------------------------------
  // Tabs and the edit buffer

  /**
    `tabNames`: the category names in category mode, the column names otherwise.
    `Object.keys` of missing grouped data throws a TypeError.
   */
  function TabNames(resp: CleaningResponse, columnNames: seq<string>): (r: Result<seq<string>>)
    ensures r.Err? <==> resp.useCategory && resp.groupedData.None?
    ensures resp.useCategory && r.Ok? ==> forall t :: t in r.value <==> Get(resp.groupedData.value, t).Some?
    ensures resp.useCategory && r.Ok? && UniqueKeys(resp.groupedData.value) ==> NoDuplicates(r.value)
    ensures !resp.useCategory ==> r == Ok(columnNames)
  {
    if !resp.useCategory then Ok(columnNames)
    else if resp.groupedData.None? then Err("TypeError")
    else Ok(Keys(resp.groupedData.value))
  }

  /**
    `getTabItemCount`: the number of clusters under a tab (the `clusters.length` its
    pagination uses), 0 for a tab without data.
   */
  function TabItemCount(gd: GroupedData, tab: string): (n: nat)
    ensures Get(gd, tab).None? ==> n == 0
    ensures Get(gd, tab).Some? ==> n == |Get(gd, tab).value|
  {
    match Get(gd, tab)
    case None => 0
    case Some(cd) => |Keys(cd)|
  }

  /** The key `${categoryName}-${clusterId}-${memberIndex}` of the edit buffer. */
  function EditKey(cat: string, id: string, i: int): string
  {
    cat + "-" + id + "-" + IntToString(i)
  }

  /** Within one cluster the edit keys of different members differ. */
  lemma {:induction false} EditKeysOfOneClusterDiffer(cat: string, id: string, i: nat, j: nat)
    requires i != j
    ensures EditKey(cat, id, i) != EditKey(cat, id, j)
  {
    var p := cat + "-" + id + "-";
    if EditKey(cat, id, i) == EditKey(cat, id, j) {
      assert p + NatToString(i) == p + NatToString(j);
      assert NatToString(i) == (p + NatToString(i))[|p|..];
      assert NatToString(j) == (p + NatToString(j))[|p|..];
      NatToStringInjective(i, j);
    }
  }
}

/** The cleaning step as a stateful component. */
module LedgerState {
  import opened Js
  import opened Ledger

  /** The state of the cleaning step (its `useState` slots). */
  class CleaningStep {
    var cleaningData: CleaningResponse
    var editingValues: map<string, string>
    var currentPages: map<string, int>
    var isLoading: bool
    const columnNames: seq<string>

    /** Pages are only ever set to a page number of at least 1. */
    ghost predicate Valid()
      reads this
    {
      forall t :: t in currentPages ==> currentPages[t] >= 1
    }

    constructor (initial: CleaningResponse, columnNames: seq<string>)
      ensures Valid()
      ensures cleaningData == initial && editingValues == map[] && currentPages == map[] && !isLoading
      ensures this.columnNames == columnNames
    {
      cleaningData := initial;
      editingValues := map[];
      currentPages := map[];
      isLoading := false;
      this.columnNames := columnNames;
    }

    /** `handleCustomEdit`: a blank value is ignored; otherwise the member's override is replaced. */
    method HandleCustomEdit(cat: string, id: string, memberIndex: int, customValue: string)
      requires cleaningData.groupedData.Some? && HasCluster(cleaningData.groupedData.value, cat, id)
      modifies this`cleaningData
      ensures cleaningData == CustomEdited(old(cleaningData), cat, id, memberIndex, customValue)
    {
      var blank := IsBlank(customValue);
      if !blank {
        var gd := cleaningData.groupedData.value;
        var excs := WithException(ClusterAt(gd, cat, id).exceptions, memberIndex, customValue);
        cleaningData := cleaningData.(groupedData := Some(SetExceptions(gd, cat, id, excs)));
      }
    }

    /** `handleRevertToSuggestion`: drops the member's override (if the list exists) and its edit buffer. */
    method HandleRevertToSuggestion(cat: string, id: string, memberIndex: int)
      requires cleaningData.groupedData.Some? && HasCluster(cleaningData.groupedData.value, cat, id)
      modifies this`cleaningData, this`editingValues
      ensures editingValues == old(editingValues) - {EditKey(cat, id, memberIndex)}
      ensures cleaningData == Reverted(old(cleaningData), cat, id, memberIndex)
    {
      cleaningData := Reverted(cleaningData, cat, id, memberIndex);
      editingValues := editingValues - {EditKey(cat, id, memberIndex)};
    }

    /** `handleStartEdit`: opens the member's edit buffer with the value currently shown. */
    method HandleStartEdit(cat: string, id: string, memberIndex: int, currentValue: string)
      modifies this`editingValues
      ensures editingValues == old(editingValues)[EditKey(cat, id, memberIndex) := currentValue]
    {
      editingValues := editingValues[EditKey(cat, id, memberIndex) := currentValue];
    }

    /** The input's `onChange`: replaces the text of an open edit buffer. */
    method HandleEditInput(key: string, text: string)
      modifies this`editingValues
      ensures editingValues == old(editingValues)[key := text]
    {
      editingValues := editingValues[key := text];
    }

    /** `handleCancelEdit`: closes the member's edit buffer and keeps the ledger as it was. */
    method HandleCancelEdit(cat: string, id: string, memberIndex: int)
      modifies this`editingValues
      ensures editingValues == old(editingValues) - {EditKey(cat, id, memberIndex)}
    {
      editingValues := editingValues - {EditKey(cat, id, memberIndex)};
    }

    /** `setCurrentPage` from the paging buttons, which only ever pass a page of at least 1. */
    method SetCurrentPage(tab: string, page: int)
      requires Valid() && page >= 1
      modifies this`currentPages
      ensures Valid()
      ensures currentPages == old(currentPages)[tab := page]
      ensures CurrentPage(currentPages, tab) == page
    {
      currentPages := currentPages[tab := page];
    }

    /**
      `handleContinue`: posts the whole ledger (`sent`) to the cleaning service; `reply` is
      the parsed body of a successful response, `None` when the request fails or the
      status is not ok.  The step hands on exactly the reply it got, and is no longer
      loading afterwards whatever happened.
     */
    method HandleContinue<R>(reply: Option<R>) returns (sent: CleaningResponse, handedOn: Option<R>)
      modifies this`isLoading
      ensures !isLoading
      ensures sent == cleaningData
      ensures handedOn == reply
    {
      isLoading := true;
      sent := cleaningData;
      handedOn := None;
      match reply {
        case Some(result) => handedOn := Some(result);
        case None =>
      }
      isLoading := false;
    }

    /** `getTotalSuggestions`: the nested loops over tabs and clusters. */
    method GetTotalSuggestions() returns (total: nat)
      ensures total == TotalSuggestions(cleaningData)
    {
      if cleaningData.groupedData.None? {
        return 0;
      }
      total := CountMembers(cleaningData.groupedData.value);
    }

    /**
      `getProcessedSuggestions`: the same count, without the guard for missing data, so
      `Object.values` of absent grouped data throws a TypeError.
     */
    method GetProcessedSuggestions() returns (processed: Result<nat>)
      ensures processed.Err? <==> cleaningData.groupedData.None?
      ensures processed.Ok? ==> processed.value == TotalSuggestions(cleaningData)
    {
      if cleaningData.groupedData.None? {
        return Err("TypeError");
      }
      var n := CountMembers(cleaningData.groupedData.value);
      processed := Ok(n);
    }
  }

  /** The nested `forEach` accumulation shared by the two counters. */
  method CountMembers(gd: GroupedData) returns (total: nat)
    ensures total == GroupedItems(gd)
  {
    total := 0;
    var i := 0;
    while i < |gd|
      invariant 0 <= i <= |gd|
      invariant total == SumValues(gd[..i], CategoryItems)
    {
      var cd := gd[i].val;
      var j := 0;
      var sub := 0;
      while j < |cd|
        invariant 0 <= j <= |cd|
        invariant sub == SumValues(cd[..j], ClusterItems)
      {
        sub := sub + |DisplayMembers(cd[j].val.members)|;
        assert cd[..j + 1][..j] == cd[..j];
        j := j + 1;
      }
      assert cd[..j] == cd;
      total := total + sub;
      assert gd[..i + 1][..i] == gd[..i];
      i := i + 1;
    }
    assert gd[..i] == gd;
  }
}
