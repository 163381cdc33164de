/**
  The mock processing service: with the category approach and a category column it answers
  with a fixed set of clusters per category; otherwise it answers with the per-column
  suggestions of the normaliser, capped at twenty distinct values per column.
 */
module Process {
  import opened Js
  import opened Types
  import opened Ledger
  import opened Suggest

  datatype ProcessRequest = ProcessRequest(
    rawData: seq<Row>,
    selectedColumns: seq<string>,
    useCategory: bool,
    categoryColumn: Option<string>)

  datatype ProcessReply =
    | GroupedReply(status: string, useCategory: bool, groupedData: GroupedData)
    | ColumnReply(status: string, useCategory: bool, suggestions: CleaningData)
    | ProcessFailed(httpStatus: nat, error: string)

  const ProcessCap: nat := 20

  function BrandMember(value: string, rowIds: int): ClusterMember
  {
    ClusterMember(value, rowIds, "brand_name")
  }

  function SpellCluster(a: ClusterMember, b: ClusterMember, suggestion: string, confidence: real): Cluster
  {
    Cluster([a, b], suggestion, "spell_checker", confidence, None)
  }

  /** `useCategory && categoryColumn`: a category column counts only when it is a non-empty name. */
  predicate UsesCategory(request: ProcessRequest)
  {
    request.useCategory && request.categoryColumn.Some? && request.categoryColumn.value != ""
  }

  /**
    The POST handler; `None` stands for a body that does not parse or lacks the arrays it
    reads, which makes the handler throw.
   */
  method ProcessPost(request: Option<ProcessRequest>) returns (reply: ProcessReply)
    ensures request.None? ==> reply == ProcessFailed(500, "Failed to process data")
    ensures request.Some? && UsesCategory(request.value) ==> reply == GroupedReply("success", true, Fixture())
    ensures request.Some? && !UsesCategory(request.value) ==>
              reply == ColumnReply("success", false, SuggestionMap(request.value.rawData, request.value.selectedColumns, ProcessCap))
  {
    if request.None? {
      return ProcessFailed(500, "Failed to process data");
    }
    var req := request.value;
    if UsesCategory(req) {
      reply := GroupedReply("success", true, Fixture());
    } else {
      var suggestions := BuildSuggestions(req.rawData, req.selectedColumns, ProcessCap);
      reply := ColumnReply("success", false, suggestions);
    }
  }

  lemma {:induction false} NonBlankWhenFirstIsNot(s: string)
    requires s != [] && !IsWhitespace(s[0])
    ensures !IsBlank(s)
  {
    assert TrimStart(s) == s;
    assert s[0..] == s;
    TrimEndRemovesWhitespace(s);
  }

  lemma {:induction false} SpellClusterItems(a: string, ra: int, b: string, rb: int, suggestion: string, confidence: real)
    requires a != [] && !IsWhitespace(a[0]) && b != [] && !IsWhitespace(b[0])
    ensures ClusterItems(SpellCluster(BrandMember(a, ra), BrandMember(b, rb), suggestion, confidence)) == 2
  {
    NonBlankWhenFirstIsNot(a);
    NonBlankWhenFirstIsNot(b);
    var ms := [BrandMember(a, ra), BrandMember(b, rb)];
    assert ms[1..] == [BrandMember(b, rb)] && ms[1..][1..] == [];
  }

  lemma {:induction false} OneSum<V>(k: string, v: V, f: V -> nat)
    ensures SumValues([Entry(k, v)], f) == f(v)
  {
    assert [Entry(k, v)][..0] == [];
  }

  lemma {:induction false} TwoSum<V>(k1: string, v1: V, k2: string, v2: V, f: V -> nat)
    ensures SumValues([Entry(k1, v1), Entry(k2, v2)], f) == f(v1) + f(v2)
  {
    assert [Entry(k1, v1), Entry(k2, v2)][..1] == [Entry(k1, v1)];
    OneSum(k1, v1, f);
  }

  lemma {:induction false} ThreeSum<V>(k1: string, v1: V, k2: string, v2: V, k3: string, v3: V, f: V -> nat)
    ensures SumValues([Entry(k1, v1), Entry(k2, v2), Entry(k3, v3)], f) == f(v1) + f(v2) + f(v3)
  {
    assert [Entry(k1, v1), Entry(k2, v2), Entry(k3, v3)][..2] == [Entry(k1, v1), Entry(k2, v2)];
    TwoSum(k1, v1, k2, v2, f);
  }

  function Toyota(): Cluster { SpellCluster(BrandMember("toyota", 2), BrandMember("tayota", 3), "Toyota", 0.9) }
  function Honda(): Cluster { SpellCluster(BrandMember("honda", 5), BrandMember("handa", 8), "Honda", 0.85) }
  function Apple(): Cluster { SpellCluster(BrandMember("apple", 12), BrandMember("aple", 15), "Apple", 0.95) }
  function Pfizer(): Cluster { SpellCluster(BrandMember("pfizer", 20), BrandMember("pfiser", 22), "Pfizer", 0.88) }

  /** The clusters returned for the category approach, whatever the rows. */
  function Fixture(): GroupedData
  {
    [ Entry("CARS", [Entry("cluster_1", Toyota()), Entry("cluster_2", Honda())]),
      Entry("TECHNOLOGY", [Entry("cluster_1", Apple())]),
      Entry("HEALTHCARE", [Entry("cluster_1", Pfizer())]) ]
  }

  lemma ToyotaItems() ensures ClusterItems(Toyota()) == 2 { SpellClusterItems("toyota", 2, "tayota", 3, "Toyota", 0.9); }
  lemma HondaItems() ensures ClusterItems(Honda()) == 2 { SpellClusterItems("honda", 5, "handa", 8, "Honda", 0.85); }
  lemma AppleItems() ensures ClusterItems(Apple()) == 2 { SpellClusterItems("apple", 12, "aple", 15, "Apple", 0.95); }
  lemma PfizerItems() ensures ClusterItems(Pfizer()) == 2 { SpellClusterItems("pfizer", 20, "pfiser", 22, "Pfizer", 0.88); }

  /** The fixture has three categories: CARS, TECHNOLOGY and HEALTHCARE. */
  lemma FixtureCategories()
    ensures Keys(Fixture()) == ["CARS", "TECHNOLOGY", "HEALTHCARE"]
  {
  }

  /** The fixture has eight members to review. */
  lemma FixtureItems()
    ensures GroupedItems(Fixture()) == 8
  {
    var cars := [Entry("cluster_1", Toyota()), Entry("cluster_2", Honda())];
    var tech := [Entry("cluster_1", Apple())];
    var health := [Entry("cluster_1", Pfizer())];
    ToyotaItems();
    HondaItems();
    AppleItems();
    PfizerItems();
    TwoSum("cluster_1", Toyota(), "cluster_2", Honda(), ClusterItems);
    OneSum("cluster_1", Apple(), ClusterItems);
    OneSum("cluster_1", Pfizer(), ClusterItems);
    ThreeSum("CARS", cars, "TECHNOLOGY", tech, "HEALTHCARE", health, CategoryItems);
  }

  /** No cluster of the fixture carries exceptions yet. */
  lemma FixtureHasNoEdits()
    ensures CustomEditCount(Fixture()) == 0
  {
    var cars := [Entry("cluster_1", Toyota()), Entry("cluster_2", Honda())];
    var tech := [Entry("cluster_1", Apple())];
    var health := [Entry("cluster_1", Pfizer())];
    TwoSum("cluster_1", Toyota(), "cluster_2", Honda(), ExceptionCount);
    OneSum("cluster_1", Apple(), ExceptionCount);
    OneSum("cluster_1", Pfizer(), ExceptionCount);
    ThreeSum("CARS", cars, "TECHNOLOGY", tech, "HEALTHCARE", health, CategoryEdits);
  }
}
