/**
  The export step: rewriting the uploaded rows through the accepted cleaning mappings,
  the per-column statistics, the CSV text, the cleaning map and the download names.
 */
module Export {
  import opened Js
  import opened Types

  /** `mapping.userDefined || mapping.suggested`: an empty user value falls back to the suggestion. */
  function Replacement(m: CleaningMapping): string
  {
    if m.userDefined.Some? && m.userDefined.value != "" then m.userDefined.value else m.suggested
  }

  /** `cleaningData[column] || []`. */
  function MappingsOf(cd: CleaningData, column: string): seq<CleaningMapping>
  {
    match Get(cd, column)
    case None => []
    case Some(ms) => ms
  }

  /** `mappings.find((m) => m.original === value && m.accepted)`. */
  function FindAccepted(ms: seq<CleaningMapping>, v: string): (r: Option<CleaningMapping>)
    ensures r.Some? ==> r.value in ms && r.value.original == v && r.value.accepted
    ensures r.None? <==> forall m <- ms :: !(m.original == v && m.accepted)
  {
    if ms == [] then None
    else if ms[0].original == v && ms[0].accepted then Some(ms[0])
    else FindAccepted(ms[1..], v)
  }

  /** The mapping chosen is the first accepted one for the value. */
  lemma {:induction false} FindAcceptedFirst(ms: seq<CleaningMapping>, v: string, i: nat)
    requires i < |ms| && ms[i].original == v && ms[i].accepted
    requires forall j :: 0 <= j < i ==> !(ms[j].original == v && ms[j].accepted)
    ensures FindAccepted(ms, v) == Some(ms[i])
  {
    if i > 0 {
      FindAcceptedFirst(ms[1..], v, i - 1);
    }
  }

  // ---------------------------------------------------------------------------
  // Cleaned rows

  /** What a selected column of the original row becomes: the replacement of the first accepted match, else the value. */
  function CleanedValue(row: Row, column: string, cd: CleaningData): Option<string>
  {
    match Get(row, column)
    case None => None
    case Some(v) =>
      match FindAccepted(MappingsOf(cd, column), v)
      case None => Some(v)
      case Some(m) => Some(Replacement(m))
  }

  /** One pass of the column loop: `cleanedRow[column] = ...` when the original value has an accepted mapping. */
  function CleanColumn(acc: Row, row: Row, column: string, cd: CleaningData): Row
  {
    match Get(row, column)
    case None => acc
    case Some(v) =>
      match FindAccepted(MappingsOf(cd, column), v)
      case None => acc
      case Some(m) => Assign(acc, column, Replacement(m))
  }

  /** The row copy after the column loop has run over `columns`. */
  function CleanRow(row: Row, columns: seq<string>, cd: CleaningData): Row
  {
    if columns == [] then row
    else CleanColumn(CleanRow(row, columns[..|columns| - 1], cd), row, columns[|columns| - 1], cd)
  }

  /**
    A cleaned row has the original's columns in the original order; a selected column holds
    the replacement of the first accepted mapping of its original value (or that value when
    there is none), and every other column is copied unchanged.
   */
  lemma {:induction false} CleanRowSpec(row: Row, columns: seq<string>, cd: CleaningData, k: string)
    ensures Keys(CleanRow(row, columns, cd)) == Keys(row)
    ensures Get(CleanRow(row, columns, cd), k) == if k in columns then CleanedValue(row, k, cd) else Get(row, k)
  {
    if columns != [] {
      var prefix := columns[..|columns| - 1];
      var c := columns[|columns| - 1];
      assert columns == prefix + [c];
      CleanRowSpec(row, prefix, cd, k);
      CleanRowSpec(row, prefix, cd, c);
      var acc := CleanRow(row, prefix, cd);
      match Get(row, c)
      case None =>
      case Some(v) =>
        match FindAccepted(MappingsOf(cd, c), v)
        case None =>
        case Some(m) =>
          GetAssign(acc, c, Replacement(m), k);
    }
  }

  /** `cleanedData`: every original row copied and cleaned, in order. */
  method CleanedData(originalData: seq<Row>, cd: CleaningData, selectedColumns: seq<string>) returns (out: seq<Row>)
    ensures |out| == |originalData|
    ensures forall i :: 0 <= i < |out| ==> out[i] == CleanRow(originalData[i], selectedColumns, cd)
  {
    out := [];
    var i := 0;
    while i < |originalData|
      invariant 0 <= i <= |originalData|
      invariant |out| == i
      invariant forall r :: 0 <= r < i ==> out[r] == CleanRow(originalData[r], selectedColumns, cd)
    {
      var row := originalData[i];
      var cleanedRow := row;
      var j := 0;
      while j < |selectedColumns|
        invariant 0 <= j <= |selectedColumns|
        invariant cleanedRow == CleanRow(row, selectedColumns[..j], cd)
      {
        var column := selectedColumns[j];
        match Get(row, column) {
          case None =>
          case Some(v) =>
            var mapping := FindAccepted(MappingsOf(cd, column), v);
            if mapping.Some? {
              cleanedRow := Assign(cleanedRow, column, Replacement(mapping.value));
            }
        }
        assert selectedColumns[..j + 1][..j] == selectedColumns[..j];
        j := j + 1;
      }
      assert selectedColumns[..j] == selectedColumns;
      out := out + [cleanedRow];
      i := i + 1;
    }
  }

  // ---------------------------------------------------------------------------
  // Statistics

  datatype ColumnStats = ColumnStats(total: nat, cleaned: nat)

  /** `mappings.filter((m) => m.accepted).length`. */
  function AcceptedCount(ms: seq<CleaningMapping>): (n: nat)
    ensures n <= |ms|
  {
    if ms == [] then 0 else (if ms[0].accepted then 1 else 0) + AcceptedCount(ms[1..])
  }

  /** The statistics of one column: all its mappings and the accepted ones. */
  function StatsFor(cd: CleaningData, column: string): (s: ColumnStats)
    ensures s.cleaned <= s.total
    ensures Get(cd, column).None? ==> s == ColumnStats(0, 0)
  {
    ColumnStats(|MappingsOf(cd, column)|, AcceptedCount(MappingsOf(cd, column)))
  }

  /** The statistics object after the loop has run over `columns`. */
  function StatsOf(cd: CleaningData, columns: seq<string>): seq<Entry<ColumnStats>>
  {
    if columns == [] then []
    else Assign(StatsOf(cd, columns[..|columns| - 1]), columns[|columns| - 1], StatsFor(cd, columns[|columns| - 1]))
  }

  /** `cleaningStats`. */
  method CleaningStats(cd: CleaningData, selectedColumns: seq<string>) returns (stats: seq<Entry<ColumnStats>>)
    ensures stats == StatsOf(cd, selectedColumns)
  {
    stats := [];
    var j := 0;
    while j < |selectedColumns|
      invariant 0 <= j <= |selectedColumns|
      invariant stats == StatsOf(cd, selectedColumns[..j])
    {
      var column := selectedColumns[j];
      stats := Assign(stats, column, StatsFor(cd, column));
      StatsOfStep(cd, selectedColumns, j);
      j := j + 1;
    }
    assert selectedColumns[..j] == selectedColumns;
  }

  /** One more pass of the loop assigns the next column's statistics. */
  lemma {:induction false} StatsOfStep(cd: CleaningData, columns: seq<string>, j: nat)
    requires j < |columns|
    ensures StatsOf(cd, columns[..j + 1]) == Assign(StatsOf(cd, columns[..j]), columns[j], StatsFor(cd, columns[j]))
  {
    assert columns[..j + 1][..j] == columns[..j];
  }

  /**
    The statistics hold one key per selected column, in first-selection order, each with
    that column's total and accepted counts; nothing else.
   */
  lemma {:induction false} StatsSpec(cd: CleaningData, columns: seq<string>, k: string)
    ensures Keys(StatsOf(cd, columns)) == Distinct(columns)
    ensures Get(StatsOf(cd, columns), k) == if k in columns then Some(StatsFor(cd, k)) else None
  {
    if columns != [] {
      var prefix := columns[..|columns| - 1];
      var c := columns[|columns| - 1];
      assert columns == prefix + [c];
      StatsSpec(cd, prefix, k);
      GetAssign(StatsOf(cd, prefix), c, StatsFor(cd, c), k);
    }
  }

  function StatCleaned(s: ColumnStats): nat
  {
    s.cleaned
  }

  /** `totalChanges`: the accepted counts summed over the statistics. */
  function TotalChanges(stats: seq<Entry<ColumnStats>>): nat
  {
    SumValues(stats, StatCleaned)
  }

  /** The accepted counts of the given columns, summed. */
  function AcceptedOver(cd: CleaningData, columns: seq<string>): nat
  {
    if columns == [] then 0
    else AcceptedOver(cd, columns[..|columns| - 1]) + AcceptedCount(MappingsOf(cd, columns[|columns| - 1]))
  }

  /** `totalChanges` counts every selected column once, however often it was selected. */
  lemma {:induction false} TotalChangesSpec(cd: CleaningData, columns: seq<string>)
    ensures TotalChanges(StatsOf(cd, columns)) == AcceptedOver(cd, Distinct(columns))
  {
    if columns != [] {
      var prefix := columns[..|columns| - 1];
      var c := columns[|columns| - 1];
      assert columns == prefix + [c];
      var stats := StatsOf(cd, prefix);
      var d := Distinct(prefix);
      TotalChangesSpec(cd, prefix);
      StatsSpec(cd, prefix, c);
      if c in d {
        TotalChangesRepeat(cd, prefix, c);
      } else {
        TotalChangesNew(cd, prefix, c);
      }
    }
  }

  /** Selecting a column again leaves the total as it was. */
  lemma {:induction false} TotalChangesRepeat(cd: CleaningData, prefix: seq<string>, c: string)
    requires c in Distinct(prefix)
    ensures TotalChanges(Assign(StatsOf(cd, prefix), c, StatsFor(cd, c))) == TotalChanges(StatsOf(cd, prefix))
  {
    StatsSpec(cd, prefix, c);
    SumValuesAssign(StatsOf(cd, prefix), c, StatsFor(cd, c), StatCleaned);
  }

  /** Selecting a new column adds its accepted count to the total. */
  lemma {:induction false} TotalChangesNew(cd: CleaningData, prefix: seq<string>, c: string)
    requires c !in Distinct(prefix)
    ensures TotalChanges(Assign(StatsOf(cd, prefix), c, StatsFor(cd, c)))
            == TotalChanges(StatsOf(cd, prefix)) + AcceptedCount(MappingsOf(cd, c))
    ensures AcceptedOver(cd, Distinct(prefix) + [c]) == AcceptedOver(cd, Distinct(prefix)) + AcceptedCount(MappingsOf(cd, c))
  {
    var stats := StatsOf(cd, prefix);
    var d := Distinct(prefix);
    StatsSpec(cd, prefix, c);
    AssignAppends(stats, c, StatsFor(cd, c));
    var e := Entry(c, StatsFor(cd, c));
    assert (stats + [e])[..|stats|] == stats;
    assert (d + [c])[..|d|] == d;
  }

  // ---------------------------------------------------------------------------
  // CSV text

  /** `row[header] || ""`. */
  function Field(row: Row, header: string): string
  {
    match Get(row, header)
    case None => ""
    case Some(v) => v
  }

  function Quote(s: string): string
  {
    "\"" + s + "\""
  }

  /** The quoted fields of one row under the given headers. */
  function QuotedFields(row: Row, headers: seq<string>): (r: seq<string>)
    ensures |r| == |headers|
  {
    seq(|headers|, i requires 0 <= i < |headers| => Quote(Field(row, headers[i])))
  }

  /** `Object.keys(cleanedData[0] || {})`. */
  function CsvHeaders(rows: seq<Row>): seq<string>
  {
    if rows == [] then [] else Keys(rows[0])
  }

  /** The header line followed by one line per row. */
  function CsvLines(rows: seq<Row>): (lines: seq<string>)
    ensures |lines| == |rows| + 1
  {
    var headers := CsvHeaders(rows);
    [Join(headers, ",")] + seq(|rows|, i requires 0 <= i < |rows| => Join(QuotedFields(rows[i], headers), ","))
  }

  /** The text of the downloaded CSV. */
  function Csv(rows: seq<Row>): string
  {
    Join(CsvLines(rows), "\n")
  }

  /** No column name or cell holds the character `c`. */
  predicate FreeOf(rows: seq<Row>, c: char)
  {
    forall r <- rows :: forall e <- r :: c !in e.key && c !in e.val
  }

  lemma {:induction false} FieldFreeOf(rows: seq<Row>, i: nat, h: string, c: char)
    requires FreeOf(rows, c) && i < |rows|
    ensures c !in Field(rows[i], h)
  {
    var r := Get(rows[i], h);
    assert rows[i] in rows;
    if r.Some? {
      assert Entry(h, r.value) in rows[i];
    }
  }

  lemma {:induction false} HeadersFreeOf(rows: seq<Row>, c: char)
    requires FreeOf(rows, c)
    ensures forall h <- CsvHeaders(rows) :: c !in h
  {
    if rows != [] {
      assert rows[0] in rows;
      forall k | 0 <= k < |rows[0]| ensures c !in Keys(rows[0])[k] {
        assert rows[0][k] in rows[0];
      }
    }
  }

  lemma {:induction false} QuotedFieldsFreeOf(rows: seq<Row>, i: nat, c: char)
    requires FreeOf(rows, c) && i < |rows| && c != '"'
    ensures forall f <- QuotedFields(rows[i], CsvHeaders(rows)) :: c !in f
  {
    var headers := CsvHeaders(rows);
    forall f <- QuotedFields(rows[i], headers) ensures c !in f {
      var k :| 0 <= k < |headers| && QuotedFields(rows[i], headers)[k] == f;
      FieldFreeOf(rows, i, headers[k], c);
    }
  }

  lemma {:induction false} CsvLinesFreeOfBreaks(rows: seq<Row>)
    requires FreeOf(rows, '\n')
    ensures forall l <- CsvLines(rows) :: '\n' !in l
  {
    var lines := CsvLines(rows);
    forall l | l in lines ensures '\n' !in l {
      var k :| 0 <= k < |lines| && lines[k] == l;
      CsvLineFreeOfBreaks(rows, k);
    }
  }

  lemma {:induction false} CsvLineFreeOfBreaks(rows: seq<Row>, k: nat)
    requires FreeOf(rows, '\n') && k <= |rows|
    ensures '\n' !in CsvLines(rows)[k]
  {
    if k == 0 {
      HeaderLineFreeOf(rows, '\n');
    } else {
      DataLineFreeOf(rows, k - 1, '\n');
    }
  }

  lemma {:induction false} HeaderLineFreeOf(rows: seq<Row>, c: char)
    requires FreeOf(rows, c) && c != ','
    ensures c !in CsvLines(rows)[0]
  {
    CsvHeaderLine(rows);
    HeadersFreeOf(rows, c);
    JoinAvoids(CsvHeaders(rows), ",", c);
  }

  lemma {:induction false} DataLineFreeOf(rows: seq<Row>, i: nat, c: char)
    requires FreeOf(rows, c) && i < |rows| && c != '"' && c != ','
    ensures c !in CsvLines(rows)[i + 1]
  {
    CsvDataLine(rows, i);
    QuotedFieldsFreeOf(rows, i, c);
    JoinAvoids(QuotedFields(rows[i], CsvHeaders(rows)), ",", c);
  }

  /** Line 0 is the header line. */
  lemma {:induction false} CsvHeaderLine(rows: seq<Row>)
    ensures CsvLines(rows)[0] == Join(CsvHeaders(rows), ",")
  {
  }

  /** Line `i + 1` is the quoted fields of row `i`. */
  lemma {:induction false} CsvDataLine(rows: seq<Row>, i: nat)
    requires i < |rows|
    ensures CsvLines(rows)[i + 1] == Join(QuotedFields(rows[i], CsvHeaders(rows)), ",")
  {
  }

  /**
    When no name or cell contains a line break, splitting the CSV on line breaks gives back
    exactly the header line and one line per row.
   */
  lemma {:induction false} CsvLinesRoundTrip(rows: seq<Row>)
    requires FreeOf(rows, '\n')
    ensures Split(Csv(rows), '\n') == CsvLines(rows)
  {
    var lines := CsvLines(rows);
    CsvLinesFreeOfBreaks(rows);
    SplitJoin(lines, '\n');
  }

  /**
    When no name or cell also contains a comma, row line `i` splits on commas into one field per
    header, field `j` being row `i`'s cell under header `j` in double quotes (`""` when the
    row lacks it); embedded double quotes are written as they are.
   */
  lemma {:induction false} CsvFieldsRoundTrip(rows: seq<Row>, i: nat)
    requires FreeOf(rows, '\n') && FreeOf(rows, ',')
    requires i < |rows| && |CsvHeaders(rows)| >= 1
    ensures Split(CsvLines(rows)[i + 1], ',') == QuotedFields(rows[i], CsvHeaders(rows))
  {
    QuotedFieldsFreeOf(rows, i, ',');
    SplitJoin(QuotedFields(rows[i], CsvHeaders(rows)), ',');
  }

  // ---------------------------------------------------------------------------
  // Cleaning map

  datatype MapEntry = MapEntry(original: string, cleaned: string)

  /** `mappings.filter((m) => m.accepted).map((m) => ({original, cleaned}))`. */
  function AcceptedEntries(ms: seq<CleaningMapping>): (r: seq<MapEntry>)
    ensures |r| == AcceptedCount(ms)
    ensures forall m <- ms :: m.accepted ==> MapEntry(m.original, Replacement(m)) in r
  {
    if ms == [] then []
    else (if ms[0].accepted then [MapEntry(ms[0].original, Replacement(ms[0]))] else []) + AcceptedEntries(ms[1..])
  }

  /** Every entry of the map comes from an accepted mapping. */
  lemma {:induction false} AcceptedEntriesSound(ms: seq<CleaningMapping>, k: nat)
    requires k < |AcceptedEntries(ms)|
    ensures exists m <- ms :: m.accepted && AcceptedEntries(ms)[k] == MapEntry(m.original, Replacement(m))
  {
    var head := if ms[0].accepted then [MapEntry(ms[0].original, Replacement(ms[0]))] else [];
    if k < |head| {
      assert ms[0] in ms;
    } else {
      AcceptedEntriesSound(ms[1..], k - |head|);
      var m :| m in ms[1..] && m.accepted && AcceptedEntries(ms[1..])[k - |head|] == MapEntry(m.original, Replacement(m));
      assert m in ms;
    }
  }

  /** The reduce over `Object.entries(cleaningData)`, assigning each column's accepted entries. */
  function CleaningMap(cd: CleaningData): seq<Entry<seq<MapEntry>>>
  {
    if cd == [] then []
    else Assign(CleaningMap(cd[..|cd| - 1]), cd[|cd| - 1].key, AcceptedEntries(cd[|cd| - 1].val))
  }

  /** The map covers every column with mappings (selected or not), holding that column's accepted entries. */
  lemma {:induction false} CleaningMapSpec(cd: CleaningData, k: string)
    requires UniqueKeys(cd)
    ensures Keys(CleaningMap(cd)) == Keys(cd)
    ensures Get(CleaningMap(cd), k) == match Get(cd, k)
                                       case None => None
                                       case Some(ms) => Some(AcceptedEntries(ms))
  {
    if cd != [] {
      var prefix := cd[..|cd| - 1];
      var e := cd[|cd| - 1];
      assert cd == prefix + [e];
      assert Keys(cd) == Keys(prefix) + [e.key];
      assert UniqueKeys(prefix) by {
        forall a, b | 0 <= a < b < |Keys(prefix)| ensures Keys(prefix)[a] != Keys(prefix)[b] {
          assert Keys(prefix)[a] == Keys(cd)[a] && Keys(prefix)[b] == Keys(cd)[b];
        }
      }
      assert e.key !in Keys(prefix) by {
        forall a | 0 <= a < |Keys(prefix)| ensures Keys(prefix)[a] != e.key {
          assert Keys(prefix)[a] == Keys(cd)[a] && e.key == Keys(cd)[|cd| - 1];
        }
      }
      CleaningMapSpec(prefix, k);
      GetAssign(CleaningMap(prefix), e.key, AcceptedEntries(e.val), k);
      GetAppend(prefix, e.key, e.val, k);
    }
  }

  // ---------------------------------------------------------------------------
  // Download names

  /** `cleaned_${fileName}`. */
  function CsvFileName(fileName: string): (r: string)
    ensures |r| == 8 + |fileName|
    ensures r[..8] == "cleaned_" && r[8..] == fileName
  {
    "cleaned_" + fileName
  }

  predicate ExtensionChar(c: char)
  {
    c != '.' && c != '/'
  }

  /** The length of the longest suffix free of `.` and `/`. */
  function TailRun(s: string): (k: nat)
    ensures k <= |s|
    ensures forall i :: |s| - k <= i < |s| ==> ExtensionChar(s[i])
    ensures k < |s| ==> !ExtensionChar(s[|s| - k - 1])
  {
    if s == [] || !ExtensionChar(s[|s| - 1]) then 0
    else
      var k := TailRun(s[..|s| - 1]);
      assert forall i :: |s| - (k + 1) <= i < |s| - 1 ==> s[i] == s[..|s| - 1][i];
      k + 1
  }

  /** Where `/\.[^/.]+$/` matches: a dot followed by one or more characters other than `.` and `/`, up to the end. */
  function ExtensionDot(s: string): (r: Option<nat>)
    ensures r.Some? ==> r.value + 1 < |s| && s[r.value] == '.'
    ensures r.Some? ==> forall i :: r.value < i < |s| ==> ExtensionChar(s[i])
    ensures r.None? ==> forall p :: 0 <= p < |s| - 1 && s[p] == '.' ==> exists i :: p < i < |s| && !ExtensionChar(s[i])
  {
    var k := TailRun(s);
    if 1 <= k < |s| && s[|s| - k - 1] == '.' then Some(|s| - k - 1)
    else
      NoExtensionDot(s, k);
      None
  }

  lemma {:induction false} NoExtensionDot(s: string, k: nat)
    requires k == TailRun(s)
    requires !(1 <= k < |s| && s[|s| - k - 1] == '.')
    ensures forall p :: 0 <= p < |s| - 1 && s[p] == '.' ==> exists i :: p < i < |s| && !ExtensionChar(s[i])
  {
    var w := |s| - k - 1;
    assert forall p :: 0 <= p < |s| - 1 && s[p] == '.' ==> p < w;
    assert 0 < w ==> !ExtensionChar(s[w]);
  }

  /** `fileName.replace(/\.[^/.]+$/, ".json")`: the trailing extension, if any, becomes `.json`. */
  function ReplaceExtension(fileName: string): (r: string)
    ensures ExtensionDot(fileName).Some? ==> r == fileName[..ExtensionDot(fileName).value] + ".json"
    ensures ExtensionDot(fileName).None? ==> r == fileName
  {
    match ExtensionDot(fileName)
    case None => fileName
    case Some(p) => fileName[..p] + ".json"
  }

  /** `cleaning_map_${...}`. */
  function MapFileName(fileName: string): string
  {
    "cleaning_map_" + ReplaceExtension(fileName)
  }

  /** A name with an extension gets `.json` in its place. */
  lemma MapFileNameOfCsv()
    ensures MapFileName("a.csv") == "cleaning_map_a.json"
  {
    assert "a.csv"[..4] == "a.cs" && "a.cs"[..3] == "a.c" && "a.c"[..2] == "a.";
    assert TailRun("a.") == 0;
    assert TailRun("a.csv") == 3;
    assert ExtensionDot("a.csv") == Some(1);
    assert "a.csv"[..1] == "a";
  }

  /** Only the last extension is replaced. */
  lemma MapFileNameOfGz()
    ensures MapFileName("a.b.gz") == "cleaning_map_a.b.json"
  {
    assert "a.b.gz"[..5] == "a.b.g" && "a.b.g"[..4] == "a.b.";
    assert TailRun("a.b.") == 0;
    assert TailRun("a.b.gz") == 2;
    assert ExtensionDot("a.b.gz") == Some(3);
    assert "a.b.gz"[..3] == "a.b";
  }
}
