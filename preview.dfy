/**
  The plain preview step: counts of text and problematic columns, the first five rows,
  a free toggle of the column selection and a domain pick that gate the way to cleaning.
 */
module Preview {
  import opened Js
  import opened Types

  const PreviewRows: nat := 5

  /** `columns.filter((col) => col.type === "text").length`. */
  function TextColumnCount(columns: seq<ColumnInfo>): (n: nat)
    ensures n <= |columns|
  {
    if columns == [] then 0
    else (if columns[0].columnType == Text then 1 else 0) + TextColumnCount(columns[1..])
  }

  /** `columns.filter((col) => col.isProblematic).length`. */
  function ProblematicCount(columns: seq<ColumnInfo>): (n: nat)
    ensures n <= |columns|
  {
    if columns == [] then 0
    else (if columns[0].isProblematic then 1 else 0) + ProblematicCount(columns[1..])
  }

  /** Each count is zero exactly when no column qualifies, and the full length exactly when all do. */
  lemma {:induction false} CountsSpec(columns: seq<ColumnInfo>)
    ensures TextColumnCount(columns) == 0 <==> forall i :: 0 <= i < |columns| ==> columns[i].columnType != Text
    ensures TextColumnCount(columns) == |columns| <==> forall i :: 0 <= i < |columns| ==> columns[i].columnType == Text
    ensures ProblematicCount(columns) == 0 <==> forall i :: 0 <= i < |columns| ==> !columns[i].isProblematic
    ensures ProblematicCount(columns) == |columns| <==> forall i :: 0 <= i < |columns| ==> columns[i].isProblematic
  {
    if columns != [] {
      var rest := columns[1..];
      CountsSpec(rest);
      assert forall i :: 1 <= i < |columns| ==> columns[i] == rest[i - 1];
    }
  }

  /** The counts of two lists of columns add up. */
  lemma {:induction false} CountsAppend(a: seq<ColumnInfo>, b: seq<ColumnInfo>)
    ensures TextColumnCount(a + b) == TextColumnCount(a) + TextColumnCount(b)
    ensures ProblematicCount(a + b) == ProblematicCount(a) + ProblematicCount(b)
  {
    if a != [] {
      CountsAppend(a[1..], b);
      assert (a + b)[1..] == a[1..] + b;
    } else {
      assert a + b == b;
    }
  }

  /** `rawData.slice(0, 5)`: the rows shown under "Data Preview". */
  function PreviewData(rawData: seq<Row>): (r: seq<Row>)
    ensures |r| == if |rawData| < PreviewRows then |rawData| else PreviewRows
    ensures r <= rawData
  {
    Take(rawData, PreviewRows)
  }

  /** `row[column.name] || "-"`: what a preview cell shows. */
  function CellText(row: Row, column: string): (r: string)
    ensures r != ""
    ensures Get(row, column).Some? && Get(row, column).value != "" ==> r == Get(row, column).value
  {
    var v := Get(row, column);
    if v.Some? && v.value != "" then v.value else "-"
  }

  /** Only text columns get an enabled checkbox. */
  predicate CheckboxEnabled(column: ColumnInfo)
  {
    column.columnType == Text
  }

  /** `selectedColumns.length === 0 || !selectedDomain`. */
  predicate ContinueDisabled(selection: seq<string>, domain: string)
  {
    |selection| == 0 || domain == ""
  }

  /** What `onContinue` is called with. */
  datatype ContinueCall = ContinueCall(selectedColumns: seq<string>, domain: string)

  class PreviewStep {
    var selectedColumns: seq<string>
    var selectedDomain: string

    constructor ()
      ensures selectedColumns == [] && selectedDomain == ""
    {
      selectedColumns := [];
      selectedDomain := "";
    }

    /** `handleColumnToggle`: any column name, enabled checkbox or not, is toggled. */
    method HandleColumnToggle(name: string)
      modifies this`selectedColumns
      ensures selectedColumns == Toggled(old(selectedColumns), name)
      ensures name in selectedColumns <==> name !in old(selectedColumns)
      ensures forall x :: x != name ==> (x in selectedColumns <==> x in old(selectedColumns))
    {
      forall x ensures x in Toggled(selectedColumns, name) <==> if x == name then name !in selectedColumns else x in selectedColumns {
        ToggledSpec(selectedColumns, name, x);
      }
      selectedColumns := Toggled(selectedColumns, name);
    }

    method SelectDomain(domain: string)
      modifies this`selectedDomain
      ensures selectedDomain == domain
    {
      selectedDomain := domain;
    }

    /**
      The continue button: no call while it is disabled, that is unless at least one column
      is selected and a domain is chosen; otherwise exactly the selection and the domain.
     */
    method Continue() returns (call: Option<ContinueCall>)
      ensures call.None? <==> ContinueDisabled(selectedColumns, selectedDomain)
      ensures call.Some? <==> |selectedColumns| >= 1 && |selectedDomain| >= 1
      ensures call.Some? ==> call.value == ContinueCall(selectedColumns, selectedDomain)
    {
      if ContinueDisabled(selectedColumns, selectedDomain) {
        call := None;
      } else {
        call := Some(ContinueCall(selectedColumns, selectedDomain));
      }
    }
  }
}
