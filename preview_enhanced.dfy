/**
  The dashboard's preview step: the profiled columns are shown as cards (categorical,
  then numeric, then text, ten per page), only short-text columns can be picked for
  cleaning, the "category approach" preselects every short-text column plus the
  important category, and a search box narrows the data table by column name and value.
 */
module PreviewEnhanced {
  import opened Js
  import opened Types
  import opened Paging

  /** What the step reads of a column profiled by the service. */
  datatype ProfiledColumn = ProfiledColumn(name: string, columnType: ColumnType, isShortText: bool, important: bool)

  // ---------------------------------------------------------------------------
  // Column classification

  /** `columns.filter((col) => col.type === t)`. */
  function OfType(columns: seq<ProfiledColumn>, t: ColumnType): (r: seq<ProfiledColumn>)
    ensures |r| <= |columns|
    ensures forall i :: 0 <= i < |r| ==> r[i].columnType == t
    ensures forall c <- r :: c in columns
    ensures forall c <- columns :: c.columnType == t ==> c in r
  {
    if columns == [] then []
    else (if columns[0].columnType == t then [columns[0]] else []) + OfType(columns[1..], t)
  }

  /** A column the user may tick: a text column flagged as short text. */
  predicate Selectable(c: ProfiledColumn)
  {
    c.columnType == Text && c.isShortText
  }

  /** `textColumns.filter((col) => col.isShortText)`. */
  function ShortText(columns: seq<ProfiledColumn>): (r: seq<ProfiledColumn>)
    ensures forall i :: 0 <= i < |r| ==> Selectable(r[i]) && r[i] in columns
    ensures forall c <- columns :: Selectable(c) ==> c in r
  {
    if columns == [] then []
    else (if Selectable(columns[0]) then [columns[0]] else []) + ShortText(columns[1..])
  }

  function Names(columns: seq<ProfiledColumn>): (r: seq<string>)
    ensures |r| == |columns|
    ensures forall i :: 0 <= i < |columns| ==> r[i] == columns[i].name
  {
    seq(|columns|, i requires 0 <= i < |columns| => columns[i].name)
  }

  /** The test of `importantCategoryColumn`. */
  predicate ImportantCategorical(c: ProfiledColumn)
  {
    c.columnType == Categorical && c.important
  }

  /**
    `categoricalColumns.find((col) => col.important)`: the first important categorical
    column, since filtering keeps the order of the columns.
   */
  function ImportantCategory(columns: seq<ProfiledColumn>): (r: Option<ProfiledColumn>)
    ensures r.Some? ==> r.value in columns && r.value.columnType == Categorical && r.value.important
    ensures r.None? ==> forall i :: 0 <= i < |columns| ==> !(columns[i].columnType == Categorical && columns[i].important)
    ensures r.Some? ==> exists k :: 0 <= k < |columns| && columns[k] == r.value
                                    && forall j :: 0 <= j < k ==> !ImportantCategorical(columns[j])
  {
    if columns == [] then None
    else if ImportantCategorical(columns[0]) then
      assert columns[0] == columns[0];
      Some(columns[0])
    else
      var r := ImportantCategory(columns[1..]);
      assert r.Some? ==> exists k :: 0 <= k < |columns| && columns[k] == r.value
                                     && forall j :: 0 <= j < k ==> !ImportantCategorical(columns[j]) by {
        if r.Some? {
          var k :| 0 <= k < |columns[1..]| && columns[1..][k] == r.value
                   && forall j :: 0 <= j < k ==> !ImportantCategorical(columns[1..][j]);
          assert columns[k + 1] == r.value;
          forall j | 0 <= j < k + 1 ensures !ImportantCategorical(columns[j]) {
            if j > 0 { assert columns[j] == columns[1..][j - 1]; }
          }
        }
      }
      r
  }

  /** `columns.find((col) => col.name === name)`. */
  function FindColumn(columns: seq<ProfiledColumn>, name: string): (r: Option<ProfiledColumn>)
    ensures r.Some? ==> r.value in columns && r.value.name == name
    ensures r.None? ==> forall i :: 0 <= i < |columns| ==> columns[i].name != name
  {
    if columns == [] then None
    else if columns[0].name == name then Some(columns[0])
    else FindColumn(columns[1..], name)
  }

  /** `[...categoricalColumns, ...numericColumns, ...textColumns]`. */
  function DisplayOrder(columns: seq<ProfiledColumn>): (r: seq<ProfiledColumn>)
    ensures forall c :: c in r <==> c in columns
  {
    OfType(columns, Categorical) + OfType(columns, Numeric) + OfType(columns, Text)
  }

  function Rank(t: ColumnType): nat
  {
    match t
    case Categorical => 0
    case Numeric => 1
    case Text => 2
  }

  /** The cards show every column exactly once, categorical first, then numeric, then text. */
  lemma {:induction false} DisplayOrderSpec(columns: seq<ProfiledColumn>)
    ensures multiset(DisplayOrder(columns)) == multiset(columns)
    ensures forall i, j :: 0 <= i < j < |DisplayOrder(columns)| ==>
              Rank(DisplayOrder(columns)[i].columnType) <= Rank(DisplayOrder(columns)[j].columnType)
  {
    DisplayOrderPermutation(columns);
    var d := DisplayOrder(columns);
    forall i, j | 0 <= i < j < |d| ensures Rank(d[i].columnType) <= Rank(d[j].columnType) {
      DisplayOrderBlock(columns, i);
      DisplayOrderBlock(columns, j);
    }
  }

  /** The rank of the card at position `i` is the block it falls in. */
  lemma DisplayOrderBlock(columns: seq<ProfiledColumn>, i: nat)
    requires i < |DisplayOrder(columns)|
    ensures var na := |OfType(columns, Categorical)|;
            var nb := |OfType(columns, Numeric)|;
            Rank(DisplayOrder(columns)[i].columnType) == if i < na then 0 else if i < na + nb then 1 else 2
  {
    var a := OfType(columns, Categorical);
    var b := OfType(columns, Numeric);
    var c := OfType(columns, Text);
    if i < |a| {
      assert DisplayOrder(columns)[i] == a[i];
    } else if i < |a| + |b| {
      assert DisplayOrder(columns)[i] == b[i - |a|];
    } else {
      assert DisplayOrder(columns)[i] == c[i - |a| - |b|];
    }
  }

  lemma {:induction false} DisplayOrderPermutation(columns: seq<ProfiledColumn>)
    ensures multiset(DisplayOrder(columns)) == multiset(columns)
  {
    if columns != [] {
      var c := columns[0];
      var rest := columns[1..];
      DisplayOrderPermutation(rest);
      assert columns == [c] + rest;
      ThreeBlocks(columns);
      ThreeBlocks(rest);
      OfTypeCons(columns, Categorical);
      OfTypeCons(columns, Numeric);
      OfTypeCons(columns, Text);
    }
  }

  lemma ThreeBlocks(columns: seq<ProfiledColumn>)
    ensures multiset(DisplayOrder(columns)) ==
              multiset(OfType(columns, Categorical)) + multiset(OfType(columns, Numeric)) + multiset(OfType(columns, Text))
  {
  }

  lemma {:induction false} OfTypeCons(columns: seq<ProfiledColumn>, t: ColumnType)
    requires columns != []
    ensures multiset(OfType(columns, t)) ==
              (if columns[0].columnType == t then multiset{columns[0]} else multiset{}) + multiset(OfType(columns[1..], t))
  {
  }

  /** The column cards on page `columnPage`. */
  function ColumnPage(columns: seq<ProfiledColumn>, columnPage: int): seq<ProfiledColumn>
    requires columnPage >= 1
  {
    PageItems(DisplayOrder(columns), columnPage)
  }

  /** `paginatedColumns.filter((col) => col.type === "text" && col.isShortText)`, by name. */
  function VisibleShortTextNames(columns: seq<ProfiledColumn>, columnPage: int): seq<string>
    requires columnPage >= 1
  {
    Names(ShortText(ColumnPage(columns, columnPage)))
  }

  // ---------------------------------------------------------------------------
  // Selection

  /** `handleColumnToggle`: a click changes the selection only for a short-text column. */
  function AfterToggle(columns: seq<ProfiledColumn>, selection: seq<string>, name: string): (r: seq<string>)
    ensures (FindColumn(columns, name).None? || !Selectable(FindColumn(columns, name).value)) ==> r == selection
    ensures FindColumn(columns, name).Some? && Selectable(FindColumn(columns, name).value) ==> r == Toggled(selection, name)
  {
    var column := FindColumn(columns, name);
    if column.Some? && Selectable(column.value) then Toggled(selection, name) else selection
  }

  /** The test `(name) => !visible.some((col) => col.name === name)`. */
  function NotIn(visible: seq<string>): string -> bool
  {
    (n: string) => n !in visible
  }

  /**
    `handleSelectAllShortText`: when every visible short-text column is already selected they
    are all removed, otherwise they are all added to the selection.
   */
  function SelectAllVisible(selection: seq<string>, visible: seq<string>): (r: seq<string>)
    ensures (forall v <- visible :: v in selection) ==> forall x :: x in r <==> x in selection && x !in visible
    ensures (exists v <- visible :: v !in selection) ==> forall x :: x in r <==> x in selection || x in visible
  {
    if forall i :: 0 <= i < |visible| ==> visible[i] in selection then
      var r := Filter(selection, NotIn(visible));
      assert forall x :: x in r <==> x in selection && x !in visible by {
        forall x ensures x in r <==> x in selection && x !in visible {
          FilterKeeps(selection, NotIn(visible), x);
        }
      }
      r
    else
      var r := Distinct(selection + visible);
      assert forall x :: x in r <==> x in selection || x in visible by {
        forall x ensures x in r <==> x in selection || x in visible {
          assert x in selection + visible <==> x in selection || x in visible;
        }
      }
      r
  }

  /** Removing: none of the visible columns stays selected, and every other one does. */
  lemma {:induction false} SelectAllRemoves(selection: seq<string>, visible: seq<string>, x: string)
    requires forall i :: 0 <= i < |visible| ==> visible[i] in selection
    ensures x in SelectAllVisible(selection, visible) <==> x in selection && x !in visible
  {
    FilterKeeps(selection, NotIn(visible), x);
  }

  /**
    Adding: the result holds the prior selection and every visible column, each once, and a
    selection without duplicates keeps its order at the front.
   */
  lemma {:induction false} SelectAllAdds(selection: seq<string>, visible: seq<string>)
    requires exists i :: 0 <= i < |visible| && visible[i] !in selection
    ensures NoDuplicates(SelectAllVisible(selection, visible))
    ensures forall x :: x in SelectAllVisible(selection, visible) <==> x in selection || x in visible
    ensures NoDuplicates(selection) ==> selection <= SelectAllVisible(selection, visible)
  {
    var r := SelectAllVisible(selection, visible);
    assert r == Distinct(selection + visible);
    forall x ensures x in r <==> x in selection || x in visible {
      assert x in selection + visible <==> x in selection || x in visible;
    }
    if NoDuplicates(selection) {
      DistinctPrefix(selection, visible);
      DistinctOfUnique(selection);
    }
  }

  /**
    `handleCategoryApproachSelection`: choosing the approach with an important category
    selects every short-text column followed by that category; any other choice clears
    the selection.
   */
  function CategorySelection(columns: seq<ProfiledColumn>, useCategory: bool): (r: seq<string>)
    ensures !useCategory || ImportantCategory(columns).None? ==> r == []
    ensures useCategory && ImportantCategory(columns).Some? ==>
              |r| == |ShortText(columns)| + 1 && r[|r| - 1] == ImportantCategory(columns).value.name
    ensures useCategory && ImportantCategory(columns).Some? ==>
              forall c <- columns :: Selectable(c) ==> c.name in r[..|r| - 1]
  {
    var important := ImportantCategory(columns);
    if useCategory && important.Some? then Names(ShortText(columns)) + [important.value.name] else []
  }

  /**
    With the approach chosen, every name but the last belongs to a selectable column and the
    last is the important category, which is itself never selectable.
   */
  lemma {:induction false} CategorySelectionSpec(columns: seq<ProfiledColumn>, i: nat)
    requires ImportantCategory(columns).Some?
    requires i < |CategorySelection(columns, true)|
    ensures i < |CategorySelection(columns, true)| - 1 ==>
              exists c :: c in columns && Selectable(c) && c.name == CategorySelection(columns, true)[i]
    ensures !Selectable(ImportantCategory(columns).value)
  {
    var r := CategorySelection(columns, true);
    if i < |r| - 1 {
      var c := ShortText(columns)[i];
      assert c in columns && Selectable(c) && c.name == r[i];
    }
  }

  /** An important category is a categorical column, so `hasCategoricalColumns` holds with it. */
  lemma {:induction false} ImportantImpliesCategorical(columns: seq<ProfiledColumn>)
    ensures ImportantCategory(columns).Some? ==> |OfType(columns, Categorical)| > 0
  {
    if ImportantCategory(columns).Some? {
      var c := ImportantCategory(columns).value;
      var k :| 0 <= k < |columns| && columns[k] == c;
      OfTypeKeeps(columns, Categorical, k);
    }
  }

  /**
    `selectedColumns.length === 0 || (hasCategoricalColumns && hasImportantCategory &&
    useCategoryApproach === null) || isLoading`: continue is enabled iff something is
    selected, nothing is loading, and the approach is chosen whenever there is an
    important category.
   */
  function ContinueDisabled(columns: seq<ProfiledColumn>, selection: seq<string>, approach: Option<bool>, loading: bool): (disabled: bool)
    ensures !disabled <==> selection != [] && !loading && (ImportantCategory(columns).Some? ==> approach.Some?)
  {
    ImportantImpliesCategorical(columns);
    |selection| == 0 || (|OfType(columns, Categorical)| > 0 && ImportantCategory(columns).Some? && approach.None?) || loading
  }

  lemma {:induction false} OfTypeKeeps(columns: seq<ProfiledColumn>, t: ColumnType, k: nat)
    requires k < |columns| && columns[k].columnType == t
    ensures |OfType(columns, t)| > 0
  {
    if k > 0 {
      OfTypeKeeps(columns[1..], t, k - 1);
    }
  }

  /** The arguments of `onContinue`: the category column only when the approach is chosen and exists. */
  datatype ContinueArgs = ContinueArgs(selection: seq<string>, useCategory: Option<bool>, categoryColumn: Option<string>)

  function ContinueWith(columns: seq<ProfiledColumn>, selection: seq<string>, approach: Option<bool>): (r: ContinueArgs)
    ensures r.selection == selection && r.useCategory == approach
    ensures r.categoryColumn.Some? <==> approach == Some(true) && ImportantCategory(columns).Some?
    ensures r.categoryColumn.Some? ==> r.categoryColumn.value == ImportantCategory(columns).value.name
  {
    var important := ImportantCategory(columns);
    ContinueArgs(selection, approach, if approach == Some(true) && important.Some? then Some(important.value.name) else None)
  }

  // ---------------------------------------------------------------------------
  // Search

  /** `column.name.toLowerCase().includes(searchTerm.toLowerCase())`. */
  predicate NameMatches(c: ProfiledColumn, term: string)
  {
    Includes(ToLower(c.name), ToLower(term))
  }

  /** `filteredColumns`: the columns whose name contains the term, ignoring case. */
  function MatchingColumns(columns: seq<ProfiledColumn>, term: string): (r: seq<ProfiledColumn>)
    ensures forall i :: 0 <= i < |r| ==> NameMatches(r[i], term) && r[i] in columns
    ensures forall c <- columns :: NameMatches(c, term) ==> c in r
  {
    if columns == [] then []
    else (if NameMatches(columns[0], term) then [columns[0]] else []) + MatchingColumns(columns[1..], term)
  }

  /** `value && String(value).toLowerCase().includes(searchTerm.toLowerCase())`. */
  predicate CellMatches(row: Row, c: ProfiledColumn, term: string)
  {
    var v := Get(row, c.name);
    v.Some? && v.value != "" && Includes(ToLower(v.value), ToLower(term))
  }

  /** A row is kept when the term is empty or one of the matching columns holds it. */
  predicate RowMatches(row: Row, visible: seq<ProfiledColumn>, term: string)
  {
    term == "" || exists i :: 0 <= i < |visible| && CellMatches(row, visible[i], term)
  }

  /** `filteredData`. */
  function MatchingRows(rows: seq<Row>, columns: seq<ProfiledColumn>, term: string): (r: seq<Row>)
    ensures |r| <= |rows|
  {
    if rows == [] then []
    else (if RowMatches(rows[0], MatchingColumns(columns, term), term) then [rows[0]] else [])
         + MatchingRows(rows[1..], columns, term)
  }

  /** A row is shown iff it is in the data and passes the search. */
  lemma {:induction false} MatchingRowsSpec(rows: seq<Row>, columns: seq<ProfiledColumn>, term: string, row: Row)
    ensures row in MatchingRows(rows, columns, term) <==> row in rows && RowMatches(row, MatchingColumns(columns, term), term)
  {
    if rows != [] {
      MatchingRowsSpec(rows[1..], columns, term, row);
      assert rows == [rows[0]] + rows[1..];
    }
  }

  /** An empty search shows every column and every row. */
  lemma {:induction false} EmptySearchShowsAll(rows: seq<Row>, columns: seq<ProfiledColumn>)
    ensures MatchingColumns(columns, "") == columns
    ensures MatchingRows(rows, columns, "") == rows
  {
    EmptySearchMatchesColumns(columns);
    EmptySearchMatchesRows(rows, columns);
  }

  lemma {:induction false} EmptySearchMatchesColumns(columns: seq<ProfiledColumn>)
    ensures MatchingColumns(columns, "") == columns
  {
    if columns != [] {
      assert NameMatches(columns[0], "") by {
        assert ToLower("") == "";
        IncludesEmpty(ToLower(columns[0].name));
      }
      EmptySearchMatchesColumns(columns[1..]);
      assert columns == [columns[0]] + columns[1..];
    }
  }

  lemma {:induction false} EmptySearchMatchesRows(rows: seq<Row>, columns: seq<ProfiledColumn>)
    ensures MatchingRows(rows, columns, "") == rows
  {
    if rows != [] {
      EmptySearchMatchesRows(rows[1..], columns);
      assert rows == [rows[0]] + rows[1..];
    }
  }

  // ---------------------------------------------------------------------------
  // State

  class PreviewStepEnhanced {
    const columns: seq<ProfiledColumn>
    const rawData: seq<Row>
    var selectedColumns: seq<string>
    var searchTerm: string
    var currentPage: int
    var isLoading: bool
    var useCategoryApproach: Option<bool>
    var columnPage: int

    /** Both page numbers start at 1 and never drop below it. */
    ghost predicate Valid()
      reads this
    {
      currentPage >= 1 && columnPage >= 1
    }

    constructor (columns: seq<ProfiledColumn>, rawData: seq<Row>, initialSelection: seq<string>)
      ensures Valid()
      ensures this.columns == columns && this.rawData == rawData && selectedColumns == initialSelection
      ensures searchTerm == "" && currentPage == 1 && !isLoading && useCategoryApproach == None && columnPage == 1
    {
      this.columns := columns;
      this.rawData := rawData;
      selectedColumns := initialSelection;
      searchTerm := "";
      currentPage := 1;
      isLoading := false;
      useCategoryApproach := None;
      columnPage := 1;
    }

    method HandleColumnToggle(name: string)
      modifies this`selectedColumns
      ensures selectedColumns == AfterToggle(columns, old(selectedColumns), name)
    {
      var column := FindColumn(columns, name);
      if column.Some? && Selectable(column.value) {
        selectedColumns := Toggled(selectedColumns, name);
      }
    }

    method HandleSelectAllShortText()
      requires Valid()
      modifies this`selectedColumns
      ensures selectedColumns == SelectAllVisible(old(selectedColumns), VisibleShortTextNames(columns, columnPage))
    {
      var visible := VisibleShortTextNames(columns, columnPage);
      if forall i :: 0 <= i < |visible| ==> visible[i] in selectedColumns {
        selectedColumns := Filter(selectedColumns, NotIn(visible));
      } else {
        selectedColumns := Distinct(selectedColumns + visible);
      }
    }

    method HandleCategoryApproachSelection(useCategory: bool)
      modifies this`useCategoryApproach, this`selectedColumns
      ensures useCategoryApproach == Some(useCategory)
      ensures selectedColumns == CategorySelection(columns, useCategory)
    {
      useCategoryApproach := Some(useCategory);
      selectedColumns := CategorySelection(columns, useCategory);
    }

    /** The effect that picks the category approach once, when an important category exists and nothing was chosen. */
    method AutoSelectCategoryApproach()
      modifies this`useCategoryApproach, this`selectedColumns
      ensures old(useCategoryApproach).None? && ImportantCategory(columns).Some? ==>
                useCategoryApproach == Some(true) && selectedColumns == CategorySelection(columns, true)
      ensures !(old(useCategoryApproach).None? && ImportantCategory(columns).Some?) ==>
                useCategoryApproach == old(useCategoryApproach) && selectedColumns == old(selectedColumns)
    {
      ImportantImpliesCategorical(columns);
      if |OfType(columns, Categorical)| > 0 && ImportantCategory(columns).Some? && useCategoryApproach.None? {
        HandleCategoryApproachSelection(true);
      }
    }

    /** Typing in the search box; the effect on `searchTerm` sends the rows back to page 1. */
    method SetSearchTerm(term: string)
      requires Valid()
      modifies this`searchTerm, this`currentPage
      ensures Valid()
      ensures searchTerm == term && currentPage == 1
    {
      searchTerm := term;
      currentPage := 1;
    }

    /** "Previous" on the rows: `Math.max(1, currentPage - 1)`. */
    method PreviousPage()
      requires Valid()
      modifies this`currentPage
      ensures Valid()
      ensures currentPage == if old(currentPage) > 1 then old(currentPage) - 1 else 1
    {
      currentPage := if currentPage - 1 > 1 then currentPage - 1 else 1;
    }

    /** "Next" on the rows, drawn only with more than one page: `Math.min(totalPages, currentPage + 1)`. */
    method NextPage()
      requires Valid()
      requires TotalPages(|MatchingRows(rawData, columns, searchTerm)|) > 1
      modifies this`currentPage
      ensures Valid()
      ensures var total := TotalPages(|MatchingRows(rawData, columns, searchTerm)|);
              currentPage == if old(currentPage) + 1 < total then old(currentPage) + 1 else total
    {
      var total := TotalPages(|MatchingRows(rawData, columns, searchTerm)|);
      currentPage := if currentPage + 1 < total then currentPage + 1 else total;
    }

    /** The column pager's four buttons: first, previous, next and last. */
    method SetColumnPage(target: int)
      requires Valid()
      requires TotalPages(|columns|) > 1
      modifies this`columnPage
      ensures Valid()
      ensures target <= 1 ==> columnPage == 1
      ensures 1 < target < TotalPages(|columns|) ==> columnPage == target
      ensures target >= TotalPages(|columns|) ==> columnPage == TotalPages(|columns|)
    {
      var total := TotalPages(|columns|);
      columnPage := if target <= 1 then 1 else if target < total then target else total;
    }

    /** The rows on the current page. */
    function PageRows(): seq<Row>
      requires Valid()
      reads this
    {
      PageItems(MatchingRows(rawData, columns, searchTerm), currentPage)
    }

    /** `handleContinue`: the arguments of `onContinue`; `isLoading` is false again afterwards. */
    method HandleContinue() returns (args: ContinueArgs)
      modifies this`isLoading
      ensures !isLoading
      ensures args == ContinueWith(columns, selectedColumns, useCategoryApproach)
    {
      isLoading := true;
      args := ContinueWith(columns, selectedColumns, useCategoryApproach);
      isLoading := false;
    }
  }
}
