/**
  The dashboard overview: totals over the user's past cleans, the six most recent cleans
  with how long ago each was made, and the position of a clean in the user's list.
 */
module Dashboard {
  import opened Js

  /** The figures kept for one cleaned column. */
  datatype Summary = Summary(
    column: string,
    totalValues: nat,
    beforeUnique: nat,
    afterUnique: nat,
    manualCorrections: nat,
    clusters: nat,
    majority: nat,
    singles: nat,
    spellCheck: nat,
    globalManual: nat,
    gkg: nat,
    llm: nat)

  /** One past clean of a file. */
  datatype Clean = Clean(fileName: string, cleaningMode: string, acceptanceRatio: real, cleanDate: string, summaries: seq<Summary>)

  /** `user.cleans || []`. */
  function CleansOf(cleans: Option<seq<Clean>>): (r: seq<Clean>)
    ensures cleans.None? ==> r == []
    ensures cleans.Some? ==> r == cleans.value
  {
    if cleans.Some? then cleans.value else []
  }

  // ---------------------------------------------------------------------------
  // Totals

  /** `summaries.reduce((sum, summary) => sum + summary.total_values, 0)`: the figure shown on a clean's row. */
  function SummaryTotal(summaries: seq<Summary>): nat
  {
    if summaries == [] then 0 else summaries[0].totalValues + SummaryTotal(summaries[1..])
  }

  /** The "Total Values" card: the row figures of every clean added up. */
  function TotalValues(cleans: seq<Clean>): nat
  {
    if cleans == [] then 0 else SummaryTotal(cleans[0].summaries) + TotalValues(cleans[1..])
  }

  /** The total of two lists of cleans is the sum of their totals. */
  lemma {:induction false} TotalValuesAppend(a: seq<Clean>, b: seq<Clean>)
    ensures TotalValues(a + b) == TotalValues(a) + TotalValues(b)
  {
    if a != [] {
      TotalValuesAppend(a[1..], b);
      assert (a + b)[1..] == a[1..] + b;
    } else {
      assert a + b == b;
    }
  }

  /** No row shows more values than the "Total Values" card. */
  lemma {:induction false} RowFigureBounded(cleans: seq<Clean>, i: nat)
    requires i < |cleans|
    ensures SummaryTotal(cleans[i].summaries) <= TotalValues(cleans)
  {
    if i > 0 {
      RowFigureBounded(cleans[1..], i - 1);
    }
  }

  function SumRatios(cleans: seq<Clean>): real
  {
    if cleans == [] then 0.0 else cleans[0].acceptanceRatio + SumRatios(cleans[1..])
  }

  /** The "Acceptance Rate" card before rounding: the mean ratio, and 0 without cleans. */
  function AverageAcceptance(cleans: seq<Clean>): (r: real)
    ensures cleans == [] ==> r == 0.0
  {
    if |cleans| > 0 then SumRatios(cleans) / (|cleans| as real) else 0.0
  }

  /** The mean lies between the smallest and the largest ratio. */
  lemma {:induction false} AverageBounded(cleans: seq<Clean>, lo: real, hi: real)
    requires cleans != []
    requires forall i :: 0 <= i < |cleans| ==> lo <= cleans[i].acceptanceRatio <= hi
    ensures lo <= AverageAcceptance(cleans) <= hi
  {
    SumBounded(cleans, lo, hi);
    var n := |cleans| as real;
    assert lo * n <= SumRatios(cleans) <= hi * n;
    assert SumRatios(cleans) / n >= lo by {
      assert SumRatios(cleans) >= lo * n;
    }
  }

  lemma {:induction false} SumBounded(cleans: seq<Clean>, lo: real, hi: real)
    requires forall i :: 0 <= i < |cleans| ==> lo <= cleans[i].acceptanceRatio <= hi
    ensures lo * (|cleans| as real) <= SumRatios(cleans) <= hi * (|cleans| as real)
  {
    if cleans != [] {
      SumBounded(cleans[1..], lo, hi);
      assert (|cleans| as real) == (|cleans[1..]| as real) + 1.0;
    }
  }

  // ---------------------------------------------------------------------------
  // Recent cleans

  const RecentCount: nat := 6

  /** The parsed time of a clean: `new Date(clean_date).getTime()`, given as `timeOf`. */
  function Time(c: Clean, timeOf: string -> int): int
  {
    timeOf(c.cleanDate)
  }

  predicate NewestFirst(cleans: seq<Clean>, timeOf: string -> int)
  {
    forall i, j :: 0 <= i < j < |cleans| ==> Time(cleans[i], timeOf) >= Time(cleans[j], timeOf)
  }

  /** Places `c` before the first clean that is not newer, so cleans of equal time keep their order. */
  function Insert(c: Clean, sorted: seq<Clean>, timeOf: string -> int): (r: seq<Clean>)
    ensures multiset(r) == multiset(sorted) + multiset{c}
    ensures |r| == |sorted| + 1
  {
    if sorted == [] || Time(c, timeOf) >= Time(sorted[0], timeOf) then [c] + sorted
    else
      assert sorted == [sorted[0]] + sorted[1..];
      [sorted[0]] + Insert(c, sorted[1..], timeOf)
  }

  lemma {:induction false} InsertSorted(c: Clean, sorted: seq<Clean>, timeOf: string -> int)
    requires NewestFirst(sorted, timeOf)
    ensures NewestFirst(Insert(c, sorted, timeOf), timeOf)
    ensures Insert(c, sorted, timeOf) != [] &&
            (Insert(c, sorted, timeOf)[0] == c || (sorted != [] && Insert(c, sorted, timeOf)[0] == sorted[0]))
  {
    if sorted == [] || Time(c, timeOf) >= Time(sorted[0], timeOf) {
      NewestFirstCons(c, sorted, timeOf);
    } else {
      var rest := Insert(c, sorted[1..], timeOf);
      InsertSorted(c, sorted[1..], timeOf);
      forall k | 0 <= k < |rest| ensures Time(sorted[0], timeOf) >= Time(rest[k], timeOf) {
        var x := rest[k];
        assert x in multiset(rest);
        if x != c {
          assert x in multiset(sorted[1..]);
          var m :| 0 <= m < |sorted[1..]| && sorted[1..][m] == x;
          assert sorted[m + 1] == x;
        }
      }
      NewestFirstCons(sorted[0], rest, timeOf);
    }
  }

  /** A clean no older than the first of a newest-first list can go in front of it. */
  lemma {:induction false} NewestFirstCons(h: Clean, rest: seq<Clean>, timeOf: string -> int)
    requires NewestFirst(rest, timeOf)
    requires rest == [] || Time(h, timeOf) >= Time(rest[0], timeOf)
    ensures NewestFirst([h] + rest, timeOf)
  {
    var r := [h] + rest;
    forall i, j | 0 <= i < j < |r| ensures Time(r[i], timeOf) >= Time(r[j], timeOf) {
      assert r[j] == rest[j - 1];
      if i > 0 {
        assert r[i] == rest[i - 1];
      } else if j > 1 {
        assert Time(rest[0], timeOf) >= Time(rest[j - 1], timeOf);
      }
    }
  }

  /** `[...cleans].sort((a, b) => time(b) - time(a))`: a stable sort, newest first. */
  function SortByDate(cleans: seq<Clean>, timeOf: string -> int): (r: seq<Clean>)
    ensures multiset(r) == multiset(cleans)
    ensures |r| == |cleans|
  {
    if cleans == [] then []
    else
      assert cleans == [cleans[0]] + cleans[1..];
      Insert(cleans[0], SortByDate(cleans[1..], timeOf), timeOf)
  }

  lemma {:induction false} SortByDateSorted(cleans: seq<Clean>, timeOf: string -> int)
    ensures NewestFirst(SortByDate(cleans, timeOf), timeOf)
  {
    if cleans != [] {
      SortByDateSorted(cleans[1..], timeOf);
      InsertSorted(cleans[0], SortByDate(cleans[1..], timeOf), timeOf);
    }
  }

  /** `recentCleans`: at most six cleans, newest first. */
  function RecentCleans(cleans: seq<Clean>, timeOf: string -> int): (r: seq<Clean>)
    ensures |r| == if |cleans| < RecentCount then |cleans| else RecentCount
  {
    Take(SortByDate(cleans, timeOf), RecentCount)
  }

  /** A prefix of a newest-first list is newest first, lies within it, and holds its newest members. */
  lemma {:induction false} NewestPrefix(sorted: seq<Clean>, n: nat, timeOf: string -> int)
    requires NewestFirst(sorted, timeOf) && n <= |sorted|
    ensures NewestFirst(sorted[..n], timeOf)
    ensures multiset(sorted[..n]) <= multiset(sorted)
    ensures forall c, i :: c in sorted && c !in sorted[..n] && 0 <= i < n ==> Time(c, timeOf) <= Time(sorted[..n][i], timeOf)
  {
    var r := sorted[..n];
    assert multiset(sorted) == multiset(r) + multiset(sorted[n..]) by {
      assert sorted == r + sorted[n..];
    }
    forall c, i | c in sorted && c !in r && 0 <= i < n ensures Time(c, timeOf) <= Time(r[i], timeOf) {
      var k :| 0 <= k < |sorted| && sorted[k] == c;
      assert k >= n;
    }
  }

  /**
    The recent list holds cleans of the user, newest first, and no clean left off it is
    newer than any clean on it.
   */
  lemma {:induction false} RecentCleansSpec(cleans: seq<Clean>, timeOf: string -> int)
    ensures NewestFirst(RecentCleans(cleans, timeOf), timeOf)
    ensures multiset(RecentCleans(cleans, timeOf)) <= multiset(cleans)
    ensures forall c, i :: c in cleans && c !in RecentCleans(cleans, timeOf) && 0 <= i < |RecentCleans(cleans, timeOf)| ==>
              Time(c, timeOf) <= Time(RecentCleans(cleans, timeOf)[i], timeOf)
  {
    var sorted := SortByDate(cleans, timeOf);
    var r := RecentCleans(cleans, timeOf);
    SortByDateSorted(cleans, timeOf);
    assert r == sorted[..|r|];
    NewestPrefix(sorted, |r|, timeOf);
    forall c | c in cleans ensures c in sorted {
      assert c in multiset(cleans);
    }
  }

  /** `cleans.findIndex((c) => c.file_name === clean.file_name && c.clean_date === clean.clean_date)`. */
  function CleanIndex(cleans: seq<Clean>, clean: Clean): (r: int)
    ensures -1 <= r < |cleans|
    ensures r == -1 <==> forall i :: 0 <= i < |cleans| ==>
              !(cleans[i].fileName == clean.fileName && cleans[i].cleanDate == clean.cleanDate)
    ensures r >= 0 ==> cleans[r].fileName == clean.fileName && cleans[r].cleanDate == clean.cleanDate
    ensures r >= 0 ==> forall i :: 0 <= i < r ==>
              !(cleans[i].fileName == clean.fileName && cleans[i].cleanDate == clean.cleanDate)
  {
    if cleans == [] then -1
    else if cleans[0].fileName == clean.fileName && cleans[0].cleanDate == clean.cleanDate then 0
    else
      var k := CleanIndex(cleans[1..], clean);
      if k == -1 then -1 else k + 1
  }

  /** Every recent clean is found in the user's list, so its "See Summary" opens a real clean. */
  lemma {:induction false} RecentCleansHaveIndex(cleans: seq<Clean>, timeOf: string -> int, i: nat)
    requires i < |RecentCleans(cleans, timeOf)|
    ensures 0 <= CleanIndex(cleans, RecentCleans(cleans, timeOf)[i]) < |cleans|
  {
    var r := RecentCleans(cleans, timeOf);
    RecentCleansSpec(cleans, timeOf);
    assert r[i] in multiset(r);
    assert r[i] in cleans;
  }

  // ---------------------------------------------------------------------------
  // "Time ago"

  const MillisPerHour: nat := 1000 * 60 * 60

  /** `Math.floor((now - then) / (1000 * 60 * 60))`, from millisecond times. */
  function DiffInHours(nowMillis: int, thenMillis: int): (h: int)
    ensures MillisPerHour * h <= nowMillis - thenMillis < MillisPerHour * (h + 1)
  {
    (nowMillis - thenMillis) / MillisPerHour
  }

  /** The number shown and whether it counts days rather than hours. */
  function AgoAmount(hours: int): (r: (int, bool))
    ensures !r.1 <==> hours < 24
    ensures hours < 24 ==> r.0 == hours
    ensures hours >= 24 ==> r.0 >= 1 && 24 * r.0 <= hours < 24 * (r.0 + 1)
  {
    if hours < 24 then (hours, false) else (hours / 24, true)
  }

  /** `${n} hour${n !== 1 ? "s" : ""} ago`, or the same with `day`. */
  function AgoText(n: int, days: bool): string
  {
    IntToString(n) + (if days then " day" else " hour") + (if n != 1 then "s" else "") + " ago"
  }

  /** `getTimeAgo` for a difference of `hours` whole hours. */
  function TimeAgo(hours: int): string
  {
    AgoText(AgoAmount(hours).0, AgoAmount(hours).1)
  }

  /** The text starts with the amount written in decimal, then a space and the unit. */
  lemma {:induction false} AgoTextReadsBack(n: nat, days: bool)
    ensures var t := AgoText(n, days);
            var k := |NatToString(n)|;
            k + 1 < |t| && IsDigits(t[..k]) && DigitsValue(t[..k]) == n && t[k] == ' '
            && (days <==> t[k + 1] == 'd')
  {
    var digits := NatToString(n);
    var rest := (if days then " day" else " hour") + (if n != 1 then "s" else "") + " ago";
    assert AgoText(n, days) == digits + rest;
    assert (digits + rest)[..|digits|] == digits;
    NatToStringRoundTrip(n);
  }

  /** The unit is plural exactly when the amount is not 1. */
  lemma {:induction false} AgoTextPlural(n: int, days: bool)
    ensures EndsWith(AgoText(n, days), "s ago") <==> n != 1
  {
    var unit := (if days then " day" else " hour");
    var t := AgoText(n, days);
    if n != 1 {
      assert t == IntToString(n) + unit + "s" + " ago";
      assert t[|t| - 5..] == "s ago";
    } else {
      assert t == IntToString(n) + unit + " ago";
      assert t[|t| - 5] == unit[|unit| - 1];
    }
  }

  /**
    For a past date, the text reads back as the number of hours below a day, and as the
    whole number of days otherwise, in the singular exactly when that number is 1.
   */
  lemma {:induction false} TimeAgoSpec(hours: int)
    requires hours >= 0
    ensures hours < 24 ==> TimeAgo(hours) == AgoText(hours, false)
    ensures hours >= 24 ==> TimeAgo(hours) == AgoText(hours / 24, true) && 24 * (hours / 24) <= hours < 24 * (hours / 24 + 1)
    ensures EndsWith(TimeAgo(hours), "s ago") <==> AgoAmount(hours).0 != 1
  {
    AgoTextPlural(AgoAmount(hours).0, AgoAmount(hours).1);
  }
}
