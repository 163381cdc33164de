/**
  The records shared by the steps of the cleaning wizard: the profile of an uploaded
  column, a reviewed cleaning mapping, and a data row.
 */
module Types {
  import opened Js

  datatype ColumnType = Numeric | Categorical | Text

  /** The profile of one uploaded column. */
  datatype ColumnInfo = ColumnInfo(
    name: string,
    columnType: ColumnType,
    missingCount: nat,
    uniqueCount: nat,
    sampleValues: seq<string>,
    isProblematic: bool)

  /** One suggested replacement for a column value, as reviewed by the user. */
  datatype CleaningMapping = CleaningMapping(original: string, suggested: string, accepted: bool, userDefined: Option<string>)

  /** Mappings per column name. */
  type CleaningData = seq<Entry<seq<CleaningMapping>>>

  /** A data row: column name to cell text, in column order. */
  type Row = seq<Entry<string>>

  /** `data.map((row) => row[column]).filter((v) => v && v.trim())`. */
  function NonBlankValues(rows: seq<Row>, column: string): (r: seq<string>)
    ensures |r| <= |rows|
    ensures forall v <- r :: !IsBlank(v)
  {
    if rows == [] then []
    else
      var v := Get(rows[0], column);
      (if v.Some? && !IsBlank(v.value) then [v.value] else []) + NonBlankValues(rows[1..], column)
  }

  /** A value is a candidate source iff some row holds it, non-blank, under the column. */
  lemma {:induction false} NonBlankValuesSpec(rows: seq<Row>, column: string, v: string)
    ensures v in NonBlankValues(rows, column) <==> !IsBlank(v) && exists i :: 0 <= i < |rows| && Get(rows[i], column) == Some(v)
  {
    if rows != [] {
      NonBlankValuesSpec(rows[1..], column, v);
      if exists i :: 0 <= i < |rows[1..]| && Get(rows[1..][i], column) == Some(v) {
        var i :| 0 <= i < |rows[1..]| && Get(rows[1..][i], column) == Some(v);
        assert Get(rows[i + 1], column) == Some(v);
      }
      if exists i :: 0 <= i < |rows| && Get(rows[i], column) == Some(v) {
        var i :| 0 <= i < |rows| && Get(rows[i], column) == Some(v);
        if i > 0 { assert Get(rows[1..][i - 1], column) == Some(v); }
      }
    }
  }

  /** The test `(n) => n !== name`. */
  function Except(name: string): string -> bool
  {
    (n: string) => n != name
  }

  /** `prev.includes(c) ? prev.filter((n) => n !== c) : [...prev, c]`: the selection after a checkbox click. */
  function Toggled(selection: seq<string>, name: string): seq<string>
  {
    if name in selection then Filter(selection, Except(name)) else selection + [name]
  }

  /** A click removes a selected column and adds an unselected one; every other column stays as it was. */
  lemma {:induction false} ToggledSpec(selection: seq<string>, name: string, x: string)
    ensures x in Toggled(selection, name) <==> if x == name then name !in selection else x in selection
  {
    if name in selection {
      FilterKeeps(selection, Except(name), x);
    }
  }

  /** Clicking an unselected column appends it; clicking it again restores the selection exactly. */
  lemma {:induction false} ToggleTwice(selection: seq<string>, name: string)
    requires name !in selection
    ensures Toggled(selection, name) == selection + [name]
    ensures Toggled(Toggled(selection, name), name) == selection
  {
    var t := selection + [name];
    FilterAllExcept(t, name);
    assert t[..|t| - 1] == selection;
  }

  /** Dropping a value from a list that holds it only at the end leaves the rest. */
  lemma {:induction false} FilterAllExcept(s: seq<string>, name: string)
    requires s != [] && s[|s| - 1] == name && name !in s[..|s| - 1]
    ensures Filter(s, Except(name)) == s[..|s| - 1]
  {
    if |s| > 1 {
      FilterAllExcept(s[1..], name);
      assert s[1..][..|s[1..]| - 1] == s[..|s| - 1][1..];
    }
  }
}
