/**
  The upload step: the chosen file format's extension and size checks, the three
  delimited-text readers (CSV, TXT with a sniffed delimiter, TSV), the JSON reader, the
  dispatch between them, the per-column profile computed from the parsed rows, and the
  component state (`uploading`, `error`) around a file being processed.
 */
module Upload {
  import opened Js
  import opened Types

  // ---------------------------------------------------------------------------
  // Formats and validation

  datatype Format = Format(value: string, caption: string, extensions: seq<string>)

  /** Ten mebibytes: the largest accepted file size. */
  const MaxFileSize: nat := 10 * 1024 * 1024

  /** What the component reads of a `File`: its name and its size in bytes. */
  datatype FileMeta = FileMeta(name: string, size: nat)

  /** `supportedFormats.find((f) => f.value === value)` over the five supported formats. */
  function FormatOf(value: string): (r: Option<Format>)
    ensures r.Some? ==> r.value.value == value && r.value.extensions != []
  {
    if value == "csv" then Some(Format("csv", "CSV", [".csv"]))
    else if value == "json" then Some(Format("json", "JSON", [".json"]))
    else if value == "txt" then Some(Format("txt", "TXT", [".txt"]))
    else if value == "xls" then Some(Format("xls", "Excel", [".xls", ".xlsx"]))
    else if value == "tsv" then Some(Format("tsv", "TSV", [".tsv"]))
    else None
  }

  /** A format is found exactly for the five supported values. */
  lemma {:induction false} FormatOfSupported(value: string)
    ensures FormatOf(value).Some? <==> value in {"csv", "json", "txt", "xls", "tsv"}
  {
  }

  /** `extensions.some((ext) => name.toLowerCase().endsWith(ext))`. */
  predicate HasExtension(name: string, extensions: seq<string>)
  {
    exists i :: 0 <= i < |extensions| && EndsWith(ToLower(name), extensions[i])
  }

  function WrongTypeMessage(format: Format): string
  {
    "Please upload a " + format.caption + " file (" + Join(format.extensions, ", ") + ")."
  }

  const UnknownTypeMessage := "Please select a valid file type."
  const TooLargeMessage := "File size must be less than 10MB."

  /** `validateFile`: the message shown for a file the chosen format refuses, or `None`. */
  function ValidateFile(fileType: string, file: FileMeta): (r: Option<string>)
    ensures r.None? <==>
              FormatOf(fileType).Some?
              && HasExtension(file.name, FormatOf(fileType).value.extensions)
              && file.size <= MaxFileSize
  {
    var format := FormatOf(fileType);
    if format.None? then Some(UnknownTypeMessage)
    else if !HasExtension(file.name, format.value.extensions) then Some(WrongTypeMessage(format.value))
    else if file.size > MaxFileSize then Some(TooLargeMessage)
    else None
  }

  /** Which message a refused file gets: the format check comes first, then the name, then the size. */
  lemma {:induction false} ValidateFileMessages(fileType: string, file: FileMeta)
    ensures FormatOf(fileType).None? ==> ValidateFile(fileType, file) == Some(UnknownTypeMessage)
    ensures FormatOf(fileType).Some?
            && !HasExtension(file.name, FormatOf(fileType).value.extensions) ==>
              ValidateFile(fileType, file) == Some(WrongTypeMessage(FormatOf(fileType).value))
    ensures FormatOf(fileType).Some?
            && HasExtension(file.name, FormatOf(fileType).value.extensions)
            && file.size > MaxFileSize ==>
              ValidateFile(fileType, file) == Some(TooLargeMessage)
  {
  }

  /** The extension check ignores the letter case of the name. */
  lemma {:induction false} UpperCaseNameAccepted()
    ensures ValidateFile("csv", FileMeta("A.CSV", MaxFileSize)).None?
  {
    assert ToLower("A.CSV") == "a.csv";
    assert EndsWith(ToLower("A.CSV"), [".csv"][0]);
  }

  /** A file of exactly 10 MiB passes and one byte more is refused. */
  lemma {:induction false} SizeLimitExample()
    ensures ValidateFile("csv", FileMeta("a.csv", MaxFileSize + 1)) == Some(TooLargeMessage)
  {
    assert ToLower("a.csv") == "a.csv";
    assert EndsWith(ToLower("a.csv"), [".csv"][0]);
  }

  /** Excel accepts either of its two extensions; an unknown type is refused outright. */
  lemma {:induction false} ExcelAndUnknownExamples()
    ensures ValidateFile("xls", FileMeta("b.xlsx", 0)).None?
    ensures ValidateFile("pdf", FileMeta("c.pdf", 0)) == Some(UnknownTypeMessage)
  {
    assert ToLower("b.xlsx") == "b.xlsx";
    assert EndsWith(ToLower("b.xlsx"), [".xls", ".xlsx"][1]);
  }

  /** The `accept` attribute of the file input: the chosen format's extensions, or ".csv". */
  function AcceptedExtensions(fileType: string): (r: string)
    ensures r != ""
    ensures FormatOf(fileType).None? ==> r == ".csv"
  {
    var format := FormatOf(fileType);
    var joined := if format.Some? then Join(format.value.extensions, ",") else "";
    if joined == "" then ".csv" else joined
  }

  lemma {:induction false} AcceptedExtensionsExamples()
    ensures AcceptedExtensions("xls") == ".xls,.xlsx"
    ensures AcceptedExtensions("tsv") == ".tsv"
  {
    assert Join([".xls", ".xlsx"], ",") == ".xls" + "," + Join([".xlsx"], ",");
  }

  // ---------------------------------------------------------------------------
  // Delimited text

  /** `line.trim()` is truthy: the line is kept. */
  predicate NotBlank(line: string)
  {
    !IsBlank(line)
  }

  /** `text.split("\n").filter((line) => line.trim())`. */
  function Lines(text: string): seq<string>
  {
    Filter(Split(text, '\n'), NotBlank)
  }

  /** `v.trim().replace(/"/g, "")` for CSV and TXT, `v.trim()` for TSV. */
  function CleanCell(s: string, stripQuotes: bool): string
  {
    if stripQuotes then RemoveAll(Trim(s), '"') else Trim(s)
  }

  /** `line.split(delimiter).map(clean)`. */
  function Cells(line: string, delimiter: char, stripQuotes: bool): (r: seq<string>)
    ensures |r| == |Split(line, delimiter)|
  {
    var parts := Split(line, delimiter);
    seq(|parts|, i requires 0 <= i < |parts| => CleanCell(parts[i], stripQuotes))
  }

  /** `values[index] || ""`: a missing field reads as the empty string. */
  function CellAt(values: seq<string>, index: nat): string
  {
    if index < |values| then values[index] else ""
  }

  /** The object that `headers.forEach((header, index) => { row[header] = values[index] || "" })` fills. */
  function BuildRow(headers: seq<string>, values: seq<string>): Row
  {
    if headers == [] then []
    else Assign(BuildRow(headers[..|headers| - 1], values), headers[|headers| - 1], CellAt(values, |headers| - 1))
  }

  /** Every row has exactly the header names as keys, each once, in first-occurrence order. */
  lemma {:induction false} BuildRowKeys(headers: seq<string>, values: seq<string>)
    ensures Keys(BuildRow(headers, values)) == Distinct(headers)
    ensures UniqueKeys(BuildRow(headers, values))
  {
    if headers != [] {
      BuildRowKeys(headers[..|headers| - 1], values);
    }
  }

  /**
    The value under a header is the field at the header's last position (a repeated header
    is overwritten), or "" when the line has fewer fields; extra fields are dropped.
   */
  lemma {:induction false} BuildRowValue(headers: seq<string>, values: seq<string>, i: nat)
    requires i < |headers|
    requires forall j :: i < j < |headers| ==> headers[j] != headers[i]
    ensures Get(BuildRow(headers, values), headers[i]) == Some(CellAt(values, i))
    decreases |headers|
  {
    var last := |headers| - 1;
    var prefix := headers[..|headers| - 1];
    var k := headers[i];
    BuildRowGet(headers, values, k);
    if i < last {
      assert headers[last] != k;
      assert Get(BuildRow(headers, values), k) == Get(BuildRow(prefix, values), k);
      assert prefix[i] == k;
      BuildRowValue(prefix, values, i);
    }
  }

  lemma {:induction false} BuildRowGet(headers: seq<string>, values: seq<string>, k: string)
    requires headers != []
    ensures Get(BuildRow(headers, values), k) ==
              if k == headers[|headers| - 1] then Some(CellAt(values, |headers| - 1))
              else Get(BuildRow(headers[..|headers| - 1], values), k)
  {
    GetAssign(BuildRow(headers[..|headers| - 1], values), headers[|headers| - 1], CellAt(values, |headers| - 1), k);
  }

  /** The rows built from the data lines, one per line, under the given headers. */
  function LineRows(headers: seq<string>, lines: seq<string>, delimiter: char, stripQuotes: bool): (rows: seq<Row>)
    ensures |rows| == |lines|
  {
    if lines == [] then []
    else LineRows(headers, lines[..|lines| - 1], delimiter, stripQuotes) + [BuildRow(headers, Cells(lines[|lines| - 1], delimiter, stripQuotes))]
  }

  lemma {:induction false} LineRowsAt(headers: seq<string>, lines: seq<string>, delimiter: char, stripQuotes: bool, i: nat)
    requires i < |lines|
    ensures LineRows(headers, lines, delimiter, stripQuotes)[i] == BuildRow(headers, Cells(lines[i], delimiter, stripQuotes))
  {
    if i < |lines| - 1 {
      LineRowsAt(headers, lines[..|lines| - 1], delimiter, stripQuotes, i);
    }
  }

  /** The header fields: the cells of the first non-blank line. */
  function Headers(text: string, delimiter: char, stripQuotes: bool): seq<string>
    requires |Lines(text)| >= 1
  {
    Cells(Lines(text)[0], delimiter, stripQuotes)
  }

  /** The rows of a delimited text: none when fewer than two non-blank lines remain. */
  function DelimitedRows(text: string, delimiter: char, stripQuotes: bool): (rows: seq<Row>)
    ensures |rows| == if |Lines(text)| < 2 then 0 else |Lines(text)| - 1
  {
    var lines := Lines(text);
    if |lines| < 2 then [] else LineRows(Headers(text, delimiter, stripQuotes), lines[1..], delimiter, stripQuotes)
  }

  /** Row `i` comes from the non-blank line `i + 1`, keyed by the distinct headers. */
  lemma {:induction false} DelimitedRowAt(text: string, delimiter: char, stripQuotes: bool, i: nat)
    requires i < |DelimitedRows(text, delimiter, stripQuotes)|
    ensures |Lines(text)| >= 2
    ensures DelimitedRows(text, delimiter, stripQuotes)[i] ==
              BuildRow(Headers(text, delimiter, stripQuotes), Cells(Lines(text)[i + 1], delimiter, stripQuotes))
    ensures Keys(DelimitedRows(text, delimiter, stripQuotes)[i]) == Distinct(Headers(text, delimiter, stripQuotes))
  {
    var lines := Lines(text);
    LineRowsAt(Headers(text, delimiter, stripQuotes), lines[1..], delimiter, stripQuotes, i);
    assert lines[1..][i] == lines[i + 1];
    BuildRowKeys(Headers(text, delimiter, stripQuotes), Cells(lines[i + 1], delimiter, stripQuotes));
  }

  /** Stripped cells hold no double quote. */
  lemma {:induction false} CellsUnquoted(line: string, delimiter: char, v: string)
    requires v in Cells(line, delimiter, true)
    ensures '"' !in v
  {
  }

  /** With quote stripping, no header and no value contains a double quote. */
  lemma {:induction false} DelimitedRowsUnquoted(text: string, delimiter: char, i: nat, k: string)
    requires i < |DelimitedRows(text, delimiter, true)|
    requires Get(DelimitedRows(text, delimiter, true)[i], k).Some?
    ensures '"' !in k
    ensures '"' !in Get(DelimitedRows(text, delimiter, true)[i], k).value
  {
    DelimitedRowAt(text, delimiter, true, i);
    var headers := Headers(text, delimiter, true);
    var values := Cells(Lines(text)[i + 1], delimiter, true);
    assert k in Distinct(headers);
    CellsUnquoted(Lines(text)[0], delimiter, k);
    BuildRowCells(headers, values, k);
    var v := Get(BuildRow(headers, values), k).value;
    if v != "" {
      CellsUnquoted(Lines(text)[i + 1], delimiter, v);
    }
  }

  /** Each value of a built row is one of the line's fields or the empty padding. */
  lemma {:induction false} BuildRowCells(headers: seq<string>, values: seq<string>, k: string)
    requires Get(BuildRow(headers, values), k).Some?
    ensures Get(BuildRow(headers, values), k).value in values || Get(BuildRow(headers, values), k).value == ""
  {
    var last := |headers| - 1;
    GetAssign(BuildRow(headers[..last], values), headers[last], CellAt(values, last), k);
    if k != headers[last] {
      BuildRowCells(headers[..last], values, k);
    }
  }

  /** One more pass of the forEach assigns the next header. */
  lemma {:induction false} BuildRowStep(headers: seq<string>, values: seq<string>, i: nat)
    requires i < |headers|
    ensures BuildRow(headers[..i + 1], values) == Assign(BuildRow(headers[..i], values), headers[i], CellAt(values, i))
  {
    assert headers[..i + 1][..i] == headers[..i];
  }

  /** `row` as the forEach over the headers fills it. */
  method ZipRow(headers: seq<string>, values: seq<string>) returns (row: Row)
    ensures row == BuildRow(headers, values)
  {
    row := [];
    var i := 0;
    while i < |headers|
      invariant 0 <= i <= |headers|
      invariant row == BuildRow(headers[..i], values)
    {
      BuildRowStep(headers, values, i);
      row := Assign(row, headers[i], CellAt(values, i));
      i := i + 1;
    }
    assert headers[..|headers|] == headers;
  }

  /** `lines.slice(1).map(...)`: one filled row per data line. */
  method ZipLines(headers: seq<string>, lines: seq<string>, delimiter: char, stripQuotes: bool) returns (rows: seq<Row>)
    ensures rows == LineRows(headers, lines, delimiter, stripQuotes)
  {
    rows := [];
    var n := 0;
    while n < |lines|
      invariant 0 <= n <= |lines|
      invariant rows == LineRows(headers, lines[..n], delimiter, stripQuotes)
    {
      var row := ZipRow(headers, Cells(lines[n], delimiter, stripQuotes));
      assert lines[..n + 1][..n] == lines[..n];
      rows := rows + [row];
      n := n + 1;
    }
    assert lines[..|lines|] == lines;
  }

  /** The body shared by `parseCSV`, `parseTXT` (after the delimiter is chosen) and `parseTSV`. */
  method ParseDelimited(text: string, delimiter: char, stripQuotes: bool) returns (rows: seq<Row>)
    ensures rows == DelimitedRows(text, delimiter, stripQuotes)
  {
    var lines := Lines(text);
    if |lines| < 2 {
      return [];
    }
    rows := ZipLines(Cells(lines[0], delimiter, stripQuotes), lines[1..], delimiter, stripQuotes);
  }

  /** `parseCSV`: comma-separated, fields trimmed and stripped of double quotes. */
  method ParseCsv(text: string) returns (rows: seq<Row>)
    ensures rows == DelimitedRows(text, ',', true)
  {
    rows := ParseDelimited(text, ',', true);
  }

  /** `parseTSV`: tab-separated, fields only trimmed. */
  method ParseTsv(text: string) returns (rows: seq<Row>)
    ensures rows == DelimitedRows(text, '\t', false)
  {
    rows := ParseDelimited(text, '\t', false);
  }

  /** The delimiter `parseTXT` reads off the first non-blank line. */
  function TxtDelimiter(firstLine: string): char
  {
    if '\t' in firstLine then '\t' else if ';' in firstLine then ';' else ','
  }

  /** What `parseTXT` returns. */
  function TxtRows(text: string): seq<Row>
  {
    var lines := Lines(text);
    if |lines| < 2 then [] else DelimitedRows(text, TxtDelimiter(lines[0]), true)
  }

  /** `parseTXT`: the delimiter is a tab if the header line has one, else ";" if it has one, else ",". */
  method ParseTxt(text: string) returns (rows: seq<Row>)
    ensures rows == TxtRows(text)
  {
    var lines := Lines(text);
    if |lines| < 2 {
      return [];
    }
    var firstLine := lines[0];
    var delimiter := ',';
    if '\t' in firstLine {
      delimiter := '\t';
    } else if ';' in firstLine {
      delimiter := ';';
    }
    rows := ParseDelimited(text, delimiter, true);
  }

  /** A TXT file whose header line has neither a tab nor a ";" reads exactly as CSV. */
  lemma {:induction false} TxtWithoutTabOrSemicolonIsCsv(text: string)
    requires |Lines(text)| >= 2 ==> '\t' !in Lines(text)[0] && ';' !in Lines(text)[0]
    ensures TxtRows(text) == DelimitedRows(text, ',', true)
  {
  }

  lemma {:induction false} NotInTrim(s: string, c: char)
    requires c !in s
    ensures c !in Trim(s)
  {
    var t := TrimStart(s);
    var k := |s| - |t|;
    assert c !in t by {
      forall i | 0 <= i < |t| ensures t[i] != c { assert t[i] == s[k + i]; }
    }
    var r := TrimEnd(t);
    forall i | 0 <= i < |r| ensures r[i] != c { assert r[i] == t[i]; }
  }

  lemma {:induction false} NotInJoinedPart(parts: seq<string>, sep: string, c: char, i: nat)
    requires i < |parts|
    requires c !in Join(parts, sep)
    ensures c !in parts[i]
  {
    if |parts| > 1 {
      assert Join(parts, sep) == parts[0] + sep + Join(parts[1..], sep);
      if i > 0 {
        NotInJoinedPart(parts[1..], sep, c, i - 1);
      }
    }
  }

  /** Without double quotes on a line, stripping them changes nothing. */
  lemma {:induction false} CellsWithoutQuotes(line: string, delimiter: char)
    requires '"' !in line
    ensures Cells(line, delimiter, true) == Cells(line, delimiter, false)
  {
    var parts := Split(line, delimiter);
    forall i | 0 <= i < |parts|
      ensures CleanCell(parts[i], true) == CleanCell(parts[i], false)
    {
      NotInJoinedPart(parts, [delimiter], '"', i);
      NotInTrim(parts[i], '"');
    }
  }

  /** Every non-blank line of a text is a piece of it. */
  lemma {:induction false} LinesFree(text: string, c: char, n: nat)
    requires c != '\n' && c !in text
    requires n < |Lines(text)|
    ensures c !in Lines(text)[n]
  {
    var parts := Split(text, '\n');
    FilterKeeps(parts, NotBlank, Lines(text)[n]);
    var j :| 0 <= j < |parts| && parts[j] == Lines(text)[n];
    NotInJoinedPart(parts, ['\n'], c, j);
  }

  lemma {:induction false} LineRowsWithoutQuotes(headers: seq<string>, lines: seq<string>, delimiter: char)
    requires forall n :: 0 <= n < |lines| ==> '"' !in lines[n]
    ensures LineRows(headers, lines, delimiter, true) == LineRows(headers, lines, delimiter, false)
  {
    if lines != [] {
      var last := |lines| - 1;
      LineRowsWithoutQuotes(headers, lines[..last], delimiter);
      CellsWithoutQuotes(lines[last], delimiter);
    }
  }

  /** A tab-delimited TXT file without double quotes reads exactly as TSV. */
  lemma {:induction false} TxtWithTabIsTsv(text: string)
    requires '"' !in text
    requires |Lines(text)| >= 2 ==> '\t' in Lines(text)[0]
    ensures TxtRows(text) == DelimitedRows(text, '\t', false)
  {
    var lines := Lines(text);
    if |lines| >= 2 {
      LinesFree(text, '"', 0);
      CellsWithoutQuotes(lines[0], '\t');
      forall n | 0 <= n < |lines[1..]|
        ensures '"' !in lines[1..][n]
      {
        LinesFree(text, '"', n + 1);
      }
      LineRowsWithoutQuotes(Headers(text, '\t', true), lines[1..], '\t');
    }
  }

  // ---------------------------------------------------------------------------
  // JSON

  /** An element of the parsed data: an object, or `null`. */
  datatype Record = ObjectRecord(row: Row) | NullRecord

  /** What `JSON.parse(text)` produced, as far as `parseJSON` tells values apart. */
  datatype JsonDocument =
    | JsonArray(items: seq<Record>)
    | JsonObject(fields: Row)
    | JsonNull
    | JsonPrimitive
    | JsonSyntaxError

  const InvalidJsonMessage := "Invalid JSON format"

  /**
    `parseJSON`: an array as it is, any other value of type "object" (including `null`)
    wrapped in a one-element list. Every other case, including the inner "must contain an
    array" error, is caught and rethrown as "Invalid JSON format".
   */
  function ParseJson(doc: JsonDocument): (r: Result<seq<Record>>)
    ensures r.Err? <==> doc.JsonPrimitive? || doc.JsonSyntaxError?
    ensures r.Err? ==> r.message == InvalidJsonMessage
    ensures doc.JsonArray? ==> r == Ok(doc.items)
    ensures doc.JsonObject? || doc.JsonNull? ==> r.Ok? && |r.value| == 1
  {
    match doc
    case JsonArray(items) => Ok(items)
    case JsonObject(fields) => Ok([ObjectRecord(fields)])
    case JsonNull => Ok([NullRecord])
    case _ => Err(InvalidJsonMessage)
  }

  // ---------------------------------------------------------------------------
  // Dispatch

  const UnsupportedMessage := "Unsupported file type"

  function Objects(rows: seq<Row>): (r: seq<Record>)
    ensures |r| == |rows|
    ensures forall i :: 0 <= i < |rows| ==> r[i] == ObjectRecord(rows[i])
  {
    seq(|rows|, i requires 0 <= i < |rows| => ObjectRecord(rows[i]))
  }

  /** What `parseFile` returns or throws; `doc` is what `JSON.parse` makes of `text`. */
  function ParsedFile(fileType: string, text: string, doc: JsonDocument): Result<seq<Record>>
  {
    if fileType == "csv" || fileType == "xls" then Ok(Objects(DelimitedRows(text, ',', true)))
    else if fileType == "json" then ParseJson(doc)
    else if fileType == "txt" then Ok(Objects(TxtRows(text)))
    else if fileType == "tsv" then Ok(Objects(DelimitedRows(text, '\t', false)))
    else Err(UnsupportedMessage)
  }

  /** Excel files go through the CSV reader; a type outside the five formats is refused. */
  lemma {:induction false} ParsedFileDispatch(fileType: string, text: string, doc: JsonDocument)
    ensures ParsedFile("xls", text, doc) == ParsedFile("csv", text, doc)
    ensures FormatOf(fileType).None? ==> ParsedFile(fileType, text, doc) == Err(UnsupportedMessage)
    ensures FormatOf(fileType).Some? && fileType != "json" ==> ParsedFile(fileType, text, doc).Ok?
  {
    if fileType in {"csv", "json", "txt", "xls", "tsv"} {
      assert FormatOf(fileType).Some?;
    }
  }

  /** `parseFile`. */
  method ParseFile(fileType: string, text: string, doc: JsonDocument) returns (r: Result<seq<Record>>)
    ensures r == ParsedFile(fileType, text, doc)
  {
    if fileType == "csv" || fileType == "xls" {
      var rows := ParseCsv(text);
      r := Ok(Objects(rows));
    } else if fileType == "json" {
      r := ParseJson(doc);
    } else if fileType == "txt" {
      var rows := ParseTxt(text);
      r := Ok(Objects(rows));
    } else if fileType == "tsv" {
      var rows := ParseTsv(text);
      r := Ok(Objects(rows));
    } else {
      r := Err(UnsupportedMessage);
    }
  }

  // ---------------------------------------------------------------------------
  // Column profile

  /** Whether `!isNaN(Number(v))`; `Number` is not modelled, so the test is a parameter. */
  type NumericTest = string -> bool

  function NumericValues(values: seq<string>, isNumeric: NumericTest): (r: seq<string>)
    ensures |r| <= |values|
    ensures forall v <- r :: isNumeric(v) && v in values
    ensures forall v :: multiset(r)[v] == if isNumeric(v) then multiset(values)[v] else 0
  {
    if values == [] then []
    else
      assert values == [values[0]] + values[1..];
      (if isNumeric(values[0]) then [values[0]] else []) + NumericValues(values[1..], isNumeric)
  }

  /**
    The column type: numeric when numeric values are more than 80% of the non-blank ones,
    else categorical when the distinct ones are fewer than half of them and fewer than 20,
    else text. The ratios are compared by cross-multiplication.
   */
  function Classify(nonBlank: nat, numeric: nat, distinct: nat): ColumnType
  {
    if 5 * numeric > 4 * nonBlank then Numeric
    else if 2 * distinct < nonBlank && distinct < 20 then Categorical
    else Text
  }

  /** A text column is problematic when its distinct values are more than 70% of the non-blank ones. */
  function Problematic(columnType: ColumnType, nonBlank: nat, distinct: nat): bool
  {
    columnType == Text && 10 * distinct > 7 * nonBlank
  }

  /** The entry `analyzeColumns` builds for one header. */
  function Profile(rows: seq<Row>, header: string, isNumeric: NumericTest): (c: ColumnInfo)
    ensures c.name == header
    ensures c.missingCount + |NonBlankValues(rows, header)| == |rows|
    ensures c.uniqueCount == |Distinct(NonBlankValues(rows, header))| <= |rows| - c.missingCount
    ensures |c.sampleValues| <= 5 && c.sampleValues == Take(Distinct(NonBlankValues(rows, header)), 5)
  {
    var values := NonBlankValues(rows, header);
    var unique := Distinct(values);
    var columnType := Classify(|values|, |NumericValues(values, isNumeric)|, |unique|);
    ColumnInfo(header, columnType, |rows| - |values|, |unique|, Take(unique, 5), Problematic(columnType, |values|, |unique|))
  }

  /** The samples are distinct non-blank values of the column, in order of first appearance. */
  lemma {:induction false} ProfileSamples(rows: seq<Row>, header: string, isNumeric: NumericTest)
    ensures NoDuplicates(Profile(rows, header, isNumeric).sampleValues)
    ensures forall v <- Profile(rows, header, isNumeric).sampleValues ::
              !IsBlank(v) && exists i :: 0 <= i < |rows| && Get(rows[i], header) == Some(v)
  {
    var values := NonBlankValues(rows, header);
    var samples := Profile(rows, header, isNumeric).sampleValues;
    forall v <- samples
      ensures !IsBlank(v) && exists i :: 0 <= i < |rows| && Get(rows[i], header) == Some(v)
    {
      NonBlankValuesSpec(rows, header, v);
    }
  }

  /** The classification and the problem flag, in the terms the component states them. */
  lemma {:induction false} ProfileClassification(rows: seq<Row>, header: string, isNumeric: NumericTest)
    ensures var c := Profile(rows, header, isNumeric);
            var n := |NonBlankValues(rows, header)|;
            var numeric := |NumericValues(NonBlankValues(rows, header), isNumeric)|;
            && (c.columnType == Numeric <==> 5 * numeric > 4 * n)
            && (c.columnType == Categorical <==> 5 * numeric <= 4 * n && 2 * c.uniqueCount < n && c.uniqueCount < 20)
            && (c.isProblematic <==> c.columnType == Text && 10 * c.uniqueCount > 7 * n)
  {
  }

  /** A column with no non-blank value is text, and not problematic. */
  lemma {:induction false} AllBlankColumn(rows: seq<Row>, header: string, isNumeric: NumericTest)
    requires forall i :: 0 <= i < |rows| ==> Get(rows[i], header).None? || IsBlank(Get(rows[i], header).value)
    ensures Profile(rows, header, isNumeric).columnType == Text
    ensures !Profile(rows, header, isNumeric).isProblematic
    ensures Profile(rows, header, isNumeric).missingCount == |rows|
  {
    var values := NonBlankValues(rows, header);
    if values != [] {
      NonBlankValuesSpec(rows, header, values[0]);
    }
  }

  /** A problematic column is always a text column whose values are mostly distinct. */
  lemma {:induction false} ProblematicIsText(rows: seq<Row>, header: string, isNumeric: NumericTest)
    requires Profile(rows, header, isNumeric).isProblematic
    ensures Profile(rows, header, isNumeric).columnType == Text
    ensures Profile(rows, header, isNumeric).uniqueCount > 0
  {
  }

  /** The row of a record known to be an object. */
  function RowOf(r: Record): Row
  {
    if r.ObjectRecord? then r.row else []
  }

  function RowsOf(data: seq<Record>): (rows: seq<Row>)
    ensures |rows| == |data|
  {
    seq(|data|, i requires 0 <= i < |data| => RowOf(data[i]))
  }

  /** The message of the `TypeError` the runtime throws when a `null` record is read. */
  const NullRecordMessage := "TypeError"

  /**
    `analyzeColumns`: one profile per key of the first record, in key order. Reading a key of
    a `null` record throws; with no headers no record is read after the first.
   */
  function AnalyzeColumns(data: seq<Record>, isNumeric: NumericTest): (r: Result<seq<ColumnInfo>>)
    ensures data == [] ==> r == Ok([])
    ensures r.Ok? && data != [] ==>
              data[0].ObjectRecord? && |r.value| == |data[0].row|
              && forall j :: 0 <= j < |r.value| ==> r.value[j] == Profile(RowsOf(data), data[0].row[j].key, isNumeric)
    ensures r.Err? <==> data != [] && (data[0].NullRecord? || (data[0].row != [] && exists i :: 0 <= i < |data| && data[i].NullRecord?))
  {
    if data == [] then Ok([])
    else if data[0].NullRecord? then Err(NullRecordMessage)
    else
      var headers := Keys(data[0].row);
      if headers != [] && exists i :: 0 <= i < |data| && data[i].NullRecord? then Err(NullRecordMessage)
      else Ok(seq(|headers|, j requires 0 <= j < |headers| => Profile(RowsOf(data), headers[j], isNumeric)))
  }

  /** Parsed delimited text never holds a `null` record, so its analysis always succeeds. */
  lemma {:induction false} AnalyzeObjects(rows: seq<Row>, isNumeric: NumericTest)
    ensures AnalyzeColumns(Objects(rows), isNumeric).Ok?
    ensures RowsOf(Objects(rows)) == rows
  {
  }

  // ---------------------------------------------------------------------------
  // Processing a file

  /** What `onFileUpload` receives. */
  datatype Upload = Upload(file: FileMeta, data: seq<Record>, columns: seq<ColumnInfo>, fileType: string)

  const NoDataMessage := "No valid data found in the file."

  /** What `processFile` hands on, or the message it stores when a step throws. */
  function ProcessOutcome(file: FileMeta, fileType: string, text: string, doc: JsonDocument, isNumeric: NumericTest): (r: Result<Upload>)
    ensures r.Ok? ==> r.value.data != [] && r.value.file == file && r.value.fileType == fileType
  {
    var parsed := ParsedFile(fileType, text, doc);
    if parsed.Err? then Err(parsed.message)
    else if parsed.value == [] then Err(NoDataMessage)
    else
      var columns := AnalyzeColumns(parsed.value, isNumeric);
      if columns.Err? then Err(columns.message)
      else Ok(Upload(file, parsed.value, columns.value, fileType))
  }

  /** Text with fewer than two non-blank lines, an empty JSON array, is reported as holding no data. */
  lemma {:induction false} NoDataOutcomes(file: FileMeta, text: string, doc: JsonDocument, isNumeric: NumericTest)
    ensures |Lines(text)| < 2 ==> ProcessOutcome(file, "csv", text, doc, isNumeric) == Err(NoDataMessage)
    ensures |Lines(text)| < 2 ==> ProcessOutcome(file, "tsv", text, doc, isNumeric) == Err(NoDataMessage)
    ensures |Lines(text)| < 2 ==> ProcessOutcome(file, "txt", text, doc, isNumeric) == Err(NoDataMessage)
    ensures doc == JsonArray([]) ==> ProcessOutcome(file, "json", text, doc, isNumeric) == Err(NoDataMessage)
  {
    if |Lines(text)| < 2 {
      assert ParsedFile("csv", text, doc) == Ok([]);
      assert ParsedFile("tsv", text, doc) == Ok([]);
      assert ParsedFile("txt", text, doc) == Ok([]);
    }
  }

  /** A JSON document that is `null` passes the reader and fails in the analysis. */
  lemma {:induction false} NullDocumentOutcome(file: FileMeta, text: string, isNumeric: NumericTest)
    ensures ProcessOutcome(file, "json", text, JsonNull, isNumeric) == Err(NullRecordMessage)
  {
  }

  /** A delimited file with a header line and a data line always reaches `onFileUpload`. */
  lemma {:induction false} DelimitedUploads(file: FileMeta, fileType: string, text: string, doc: JsonDocument, isNumeric: NumericTest)
    requires fileType in {"csv", "xls", "txt", "tsv"}
    requires |Lines(text)| >= 2
    ensures ProcessOutcome(file, fileType, text, doc, isNumeric).Ok?
  {
    if fileType == "txt" {
      TxtParsed(text, doc);
      RowsOutcome(file, "txt", text, doc, isNumeric, TxtRows(text));
    } else if fileType == "tsv" {
      TsvParsed(text, doc);
      RowsOutcome(file, "tsv", text, doc, isNumeric, DelimitedRows(text, '\t', false));
    } else if fileType == "csv" {
      CsvParsed(text, doc);
      RowsOutcome(file, "csv", text, doc, isNumeric, DelimitedRows(text, ',', true));
    } else {
      ParsedFileDispatch(fileType, text, doc);
      CsvParsed(text, doc);
      RowsOutcome(file, "xls", text, doc, isNumeric, DelimitedRows(text, ',', true));
    }
  }

  lemma {:induction false} TxtParsed(text: string, doc: JsonDocument)
    requires |Lines(text)| >= 2
    ensures ParsedFile("txt", text, doc) == Ok(Objects(TxtRows(text))) && TxtRows(text) != []
  {
    assert TxtRows(text) != [] by {
      assert |DelimitedRows(text, TxtDelimiter(Lines(text)[0]), true)| == |Lines(text)| - 1;
    }
    assert ParsedFile("txt", text, doc) == Ok(Objects(TxtRows(text))) by {
      assert "txt" != "csv" && "txt" != "xls" && "txt" != "json";
    }
  }

  lemma {:induction false} TsvParsed(text: string, doc: JsonDocument)
    requires |Lines(text)| >= 2
    ensures ParsedFile("tsv", text, doc) == Ok(Objects(DelimitedRows(text, '\t', false))) && DelimitedRows(text, '\t', false) != []
  {
    assert DelimitedRows(text, '\t', false) != [];
    assert "tsv" != "csv" && "tsv" != "xls" && "tsv" != "json" && "tsv" != "txt";
  }

  lemma {:induction false} CsvParsed(text: string, doc: JsonDocument)
    requires |Lines(text)| >= 2
    ensures ParsedFile("csv", text, doc) == Ok(Objects(DelimitedRows(text, ',', true))) && DelimitedRows(text, ',', true) != []
  {
    assert DelimitedRows(text, ',', true) != [];
  }

  /** Parsed rows, when there are any, always make a successful upload. */
  lemma {:induction false} RowsOutcome(file: FileMeta, fileType: string, text: string, doc: JsonDocument, isNumeric: NumericTest, rows: seq<Row>)
    requires ParsedFile(fileType, text, doc) == Ok(Objects(rows)) && rows != []
    ensures ProcessOutcome(file, fileType, text, doc, isNumeric).Ok?
  {
    AnalyzeObjects(rows, isNumeric);
  }

  // ---------------------------------------------------------------------------
  // Dropping a file

  /** The file type the step starts with. */
  const InitialFileType := "csv"

  /**
    What dropping `files` leads to when the handler reads the selected type: `None` when no
    file was dropped, the message shown when the first file is refused or fails, and
    otherwise what is handed on.
   */
  function DropOutcome(selected: string, files: seq<FileMeta>, text: string, doc: JsonDocument, isNumeric: NumericTest): (r: Option<Result<Upload>>)
    ensures r.None? <==> files == []
    ensures files != [] && ValidateFile(selected, files[0]).Some? ==> r == Some(Err(ValidateFile(selected, files[0]).value))
    ensures files != [] && ValidateFile(selected, files[0]).None? ==> r == Some(ProcessOutcome(files[0], selected, text, doc, isNumeric))
    ensures r.Some? && r.value.Ok? ==> r.value.value.fileType == selected
  {
    if files == [] then None
    else
      var validation := ValidateFile(selected, files[0]);
      if validation.Some? then Some(Err(validation.value))
      else Some(ProcessOutcome(files[0], selected, text, doc, isNumeric))
  }

  /**
    The drop handler as written: its `useCallback` lists no dependencies, so it keeps the
    `validateFile` and `processFile` of the first render, which read the initial type
    whatever `selected` is now.
   */
  function DropOutcomeAsWritten(selected: string, files: seq<FileMeta>, text: string, doc: JsonDocument, isNumeric: NumericTest): (r: Option<Result<Upload>>)
    ensures r == DropOutcome(InitialFileType, files, text, doc, isNumeric)
  {
    if files == [] then None
    else
      var validation := ValidateFile(InitialFileType, files[0]);
      if validation.Some? then Some(Err(validation.value))
      else Some(ProcessOutcome(files[0], InitialFileType, text, doc, isNumeric))
  }

  /**
    With JSON selected, a dropped `data.json` is refused as not being a CSV file by the
    handler as written, while the JSON format accepts it.
   */
  lemma {:induction false} StaleDropRefusesSelectedFormat(text: string, doc: JsonDocument, isNumeric: NumericTest)
    ensures ValidateFile("json", FileMeta("data.json", 100)).None?
    ensures DropOutcomeAsWritten("json", [FileMeta("data.json", 100)], text, doc, isNumeric) == Some(Err("Please upload a CSV file (.csv)."))
    ensures DropOutcome("json", [FileMeta("data.json", 100)], text, doc, isNumeric) != DropOutcomeAsWritten("json", [FileMeta("data.json", 100)], text, doc, isNumeric)
  {
    var file := FileMeta("data.json", 100);
    JsonAcceptsDataJson();
    CsvRefusesDataJson();
    JsonOutcomeMessages(file, text, doc, isNumeric);
    assert "Please upload a CSV file (.csv)." !in {InvalidJsonMessage, NoDataMessage, NullRecordMessage};
  }

  lemma {:induction false} JsonAcceptsDataJson()
    ensures ValidateFile("json", FileMeta("data.json", 100)).None?
  {
    assert ToLower("data.json") == "data.json";
    assert EndsWith(ToLower("data.json"), [".json"][0]);
  }

  lemma {:induction false} CsvRefusesDataJson()
    ensures ValidateFile(InitialFileType, FileMeta("data.json", 100)) == Some("Please upload a CSV file (.csv).")
  {
    assert ToLower("data.json") == "data.json";
    assert "data.json"[5..] == "json" != ".csv";
    assert !HasExtension("data.json", [".csv"]);
    assert Join([".csv"], ", ") == ".csv";
    assert WrongTypeMessage(FormatOf("csv").value) == "Please upload a CSV file (.csv).";
  }

  /** The messages a JSON upload can fail with. */
  lemma {:induction false} JsonOutcomeMessages(file: FileMeta, text: string, doc: JsonDocument, isNumeric: NumericTest)
    ensures ProcessOutcome(file, "json", text, doc, isNumeric).Err? ==>
              ProcessOutcome(file, "json", text, doc, isNumeric).message in {InvalidJsonMessage, NoDataMessage, NullRecordMessage}
  {
    assert ParsedFile("json", text, doc) == ParseJson(doc);
  }

  /** The component state of the upload step. */
  class UploadStep {
    var selectedFileType: string
    var dragActive: bool
    var uploading: bool
    var error: Option<string>

    constructor ()
      ensures selectedFileType == InitialFileType && !dragActive && !uploading && error == None
    {
      selectedFileType := InitialFileType;
      dragActive := false;
      uploading := false;
      error := None;
    }

    method SelectFileType(value: string)
      modifies this`selectedFileType
      ensures selectedFileType == value
    {
      selectedFileType := value;
    }

    /** `handleDrag`: enter and over light the drop zone, leave dims it, other events change nothing. */
    method HandleDrag(eventType: string)
      modifies this`dragActive
      ensures eventType == "dragenter" || eventType == "dragover" ==> dragActive
      ensures eventType == "dragleave" ==> !dragActive
      ensures eventType !in {"dragenter", "dragover", "dragleave"} ==> dragActive == old(dragActive)
    {
      if eventType == "dragenter" || eventType == "dragover" {
        dragActive := true;
      } else if eventType == "dragleave" {
        dragActive := false;
      }
    }

    /**
      `processFile`: the error is cleared and `uploading` set while the file is read, parsed
      and analysed; afterwards `uploading` is false again and either the upload is handed on
      or the message of what was thrown is stored.
     */
    method ProcessFile(file: FileMeta, text: string, doc: JsonDocument, isNumeric: NumericTest) returns (handedOn: Option<Upload>)
      modifies this`uploading, this`error
      ensures !uploading
      ensures ProcessOutcome(file, selectedFileType, text, doc, isNumeric).Ok? ==>
                error == None && handedOn == Some(ProcessOutcome(file, selectedFileType, text, doc, isNumeric).value)
      ensures ProcessOutcome(file, selectedFileType, text, doc, isNumeric).Err? ==>
                error == Some(ProcessOutcome(file, selectedFileType, text, doc, isNumeric).message) && handedOn == None
    {
      uploading := true;
      error := None;
      handedOn := None;
      var parsed := ParseFile(selectedFileType, text, doc);
      if parsed.Err? {
        error := Some(parsed.message);
      } else if parsed.value == [] {
        error := Some(NoDataMessage);
      } else {
        var columns := AnalyzeColumns(parsed.value, isNumeric);
        if columns.Err? {
          error := Some(columns.message);
        } else {
          handedOn := Some(Upload(file, parsed.value, columns.value, selectedFileType));
        }
      }
      uploading := false;
    }

    /**
      `handleFileSelect`: only the first file is looked at; a refused file sets the error and
      is not processed.
     */
    method HandleFileSelect(files: seq<FileMeta>, text: string, doc: JsonDocument, isNumeric: NumericTest) returns (handedOn: Option<Upload>)
      modifies this`uploading, this`error
      ensures files == [] ==> handedOn == None && error == old(error) && uploading == old(uploading)
      ensures files != [] && ValidateFile(selectedFileType, files[0]).Some? ==>
                handedOn == None && error == ValidateFile(selectedFileType, files[0]) && uploading == old(uploading)
      ensures files != [] && ValidateFile(selectedFileType, files[0]).None? ==>
                !uploading
                && (ProcessOutcome(files[0], selectedFileType, text, doc, isNumeric).Ok? ==>
                      error == None && handedOn == Some(ProcessOutcome(files[0], selectedFileType, text, doc, isNumeric).value))
                && (ProcessOutcome(files[0], selectedFileType, text, doc, isNumeric).Err? ==>
                      error == Some(ProcessOutcome(files[0], selectedFileType, text, doc, isNumeric).message) && handedOn == None)
    {
      handedOn := None;
      if files == [] {
        return;
      }
      var validation := ValidateFile(selectedFileType, files[0]);
      if validation.Some? {
        error := validation;
        return;
      }
      handedOn := ProcessFile(files[0], text, doc, isNumeric);
    }

    /**
      `handleDrop`, reading the type selected now: the drop zone is dimmed, then the first
      dropped file is handled as a selected one.
     */
    method HandleDrop(files: seq<FileMeta>, text: string, doc: JsonDocument, isNumeric: NumericTest) returns (handedOn: Option<Upload>)
      modifies this`dragActive, this`uploading, this`error
      ensures !dragActive
      ensures files == [] ==> handedOn == None && error == old(error) && uploading == old(uploading)
      ensures files != [] && ValidateFile(selectedFileType, files[0]).Some? ==>
                handedOn == None && error == ValidateFile(selectedFileType, files[0]) && uploading == old(uploading)
      ensures files != [] && ValidateFile(selectedFileType, files[0]).None? ==>
                !uploading
                && (ProcessOutcome(files[0], selectedFileType, text, doc, isNumeric).Ok? ==>
                      error == None && handedOn == Some(ProcessOutcome(files[0], selectedFileType, text, doc, isNumeric).value))
                && (ProcessOutcome(files[0], selectedFileType, text, doc, isNumeric).Err? ==>
                      error == Some(ProcessOutcome(files[0], selectedFileType, text, doc, isNumeric).message) && handedOn == None)
    {
      dragActive := false;
      handedOn := HandleFileSelect(files, text, doc, isNumeric);
    }
  }
}
