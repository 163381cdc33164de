/**
  The suggestion normaliser of the mock suggestion services: for every requested column,
  the distinct non-blank values (first occurrences first, up to a cap) each get a suggestion
  made by trimming, collapsing whitespace runs to one space, lower-casing, and upper-casing
  the first word character of every word; only values the normaliser changes are proposed.
 */
module Suggest {
  import opened Js
  import opened Types

  // ---------------------------------------------------------------------------
  // Normalisation

  /** `s.replace(/\s+/g, " ")`: every whitespace run becomes one space. */
  function CollapseWhitespace(s: string): (r: string)
    ensures |r| <= |s|
    decreases |s|
  {
    if s == [] then []
    else if IsWhitespace(s[0]) then " " + CollapseWhitespace(TrimStart(s[1..]))
    else [s[0]] + CollapseWhitespace(s[1..])
  }

  /** Every whitespace character is a plain space. */
  predicate SpacesOnly(r: string)
  {
    forall k :: 0 <= k < |r| && IsWhitespace(r[k]) ==> r[k] == ' '
  }

  /** No two whitespace characters are adjacent. */
  predicate NoDoubleSpace(r: string)
  {
    forall k :: 0 <= k < |r| - 1 ==> !(IsWhitespace(r[k]) && IsWhitespace(r[k + 1]))
  }

  /** What the whitespace run starting a string leaves behind ends where the string ends. */
  lemma {:induction false} CollapseEnd(s: string, rest: string)
    requires s != [] && IsWhitespace(s[0]) && rest == TrimStart(s[1..])
    ensures rest == [] ==> IsWhitespace(s[|s| - 1])
    ensures rest != [] ==> rest[|rest| - 1] == s[|s| - 1]
  {
    var t := s[1..];
    if |s| > 1 {
      assert t[|t| - 1] == s[|s| - 1];
      if rest == [] {
        TrimStartRemovesWhitespace(t);
        assert t[..|t| - |rest|] == t;
      } else {
        assert rest[|rest| - 1] == t[|t| - 1];
      }
    }
  }

  /** Putting a character in front of a collapsed string keeps it collapsed when that character is a space followed by none. */
  lemma {:induction false} ConsKeepsSpacing(h: char, rest: string)
    requires SpacesOnly(rest) && NoDoubleSpace(rest)
    requires IsWhitespace(h) ==> h == ' ' && (rest == [] || !IsWhitespace(rest[0]))
    ensures SpacesOnly([h] + rest) && NoDoubleSpace([h] + rest)
  {
    var r := [h] + rest;
    forall k | 0 <= k < |r| && IsWhitespace(r[k]) ensures r[k] == ' ' {
      if k > 0 { assert r[k] == rest[k - 1]; }
    }
    forall k | 0 <= k < |r| - 1 ensures !(IsWhitespace(r[k]) && IsWhitespace(r[k + 1])) {
      if k > 0 { assert r[k] == rest[k - 1] && r[k + 1] == rest[k]; }
    }
  }

  /**
    Collapsing leaves only single plain spaces, and keeps whether the string starts and
    ends with whitespace; only the empty string collapses to the empty string.
   */
  lemma {:induction false} CollapseShape(s: string)
    ensures var r := CollapseWhitespace(s);
      && (r == [] <==> s == [])
      && SpacesOnly(r)
      && NoDoubleSpace(r)
      && (r != [] ==> (IsWhitespace(r[0]) <==> IsWhitespace(s[0])))
      && (r != [] ==> (IsWhitespace(r[|r| - 1]) <==> IsWhitespace(s[|s| - 1])))
    decreases |s|
  {
    if s != [] {
      var ws := IsWhitespace(s[0]);
      var tail := if ws then TrimStart(s[1..]) else s[1..];
      CollapseShape(tail);
      var rest := CollapseWhitespace(tail);
      var h := if ws then ' ' else s[0];
      assert CollapseWhitespace(s) == [h] + rest;
      assert IsWhitespace(h) == ws;
      ConsKeepsSpacing(h, rest);
      if ws {
        CollapseEnd(s, tail);
      } else if tail != [] {
        assert tail[|tail| - 1] == s[|s| - 1];
      }
      if rest != [] {
        assert ([h] + rest)[|rest|] == rest[|rest| - 1];
      }
    }
  }

  /** Word character `k` starts a word: the `\b\w` match of the title-casing step. */
  predicate AtWordStart(t: string, k: nat)
    requires k < |t|
  {
    IsWordChar(t[k]) && (k == 0 || !IsWordChar(t[k - 1]))
  }

  /** `.replace(/\b\w/g, (l) => l.toUpperCase())`. */
  function CapitaliseWords(t: string): (r: string)
    ensures |r| == |t|
  {
    seq(|t|, k requires 0 <= k < |t| => if AtWordStart(t, k) then UpperChar(t[k]) else t[k])
  }

  /** `s.toLowerCase().replace(/\b\w/g, ...)`. */
  function TitleCase(s: string): (r: string)
    ensures |r| == |s|
  {
    CapitaliseWords(ToLower(s))
  }

  /** The suggestion made for a value. */
  function Normalise(v: string): string
  {
    TitleCase(CollapseWhitespace(Trim(v)))
  }

  /** Title-casing keeps whitespace where it was, and words where they were. */
  lemma {:induction false} TitleCaseKeepsShape(s: string, k: nat)
    requires k < |s|
    ensures IsWhitespace(TitleCase(s)[k]) <==> IsWhitespace(s[k])
    ensures IsWordChar(TitleCase(s)[k]) <==> IsWordChar(s[k])
    ensures LowerChar(TitleCase(s)[k]) == LowerChar(s[k])
  {
  }

  /** Title-casing keeps the spacing of a collapsed string. */
  lemma {:induction false} TitleCaseKeepsSpacing(x: string)
    requires SpacesOnly(x) && NoDoubleSpace(x)
    requires x == [] || (!IsWhitespace(x[0]) && !IsWhitespace(x[|x| - 1]))
    ensures var r := TitleCase(x);
      && SpacesOnly(r) && NoDoubleSpace(r)
      && (r == [] || (!IsWhitespace(r[0]) && !IsWhitespace(r[|r| - 1])))
  {
    var r := TitleCase(x);
    assert SpacesOnly(r) by {
      forall k | 0 <= k < |r| && IsWhitespace(r[k]) ensures r[k] == ' ' {
        TitleCaseKeepsShape(x, k);
        assert x[k] == ' ';
        assert ToLower(x)[k] == ' ';
      }
    }
    assert NoDoubleSpace(r) by {
      forall k | 0 <= k < |r| - 1 ensures !(IsWhitespace(r[k]) && IsWhitespace(r[k + 1])) {
        TitleCaseKeepsShape(x, k);
        TitleCaseKeepsShape(x, k + 1);
      }
    }
    if r != [] {
      TitleCaseKeepsShape(x, 0);
      TitleCaseKeepsShape(x, |x| - 1);
    }
  }

  /** Title-casing leaves every word start in upper case and every other letter in lower case. */
  lemma {:induction false} TitleCaseCasing(x: string)
    ensures var r := TitleCase(x);
      && (forall k :: 0 <= k < |r| && AtWordStart(r, k) ==> !('a' <= r[k] <= 'z'))
      && (forall k :: 0 <= k < |r| && !AtWordStart(r, k) ==> !('A' <= r[k] <= 'Z'))
  {
    var r := TitleCase(x);
    var l := ToLower(x);
    forall k | 0 <= k < |r| ensures AtWordStart(r, k) <==> AtWordStart(l, k) {
      TitleCaseKeepsShape(x, k);
      if k > 0 { TitleCaseKeepsShape(x, k - 1); }
    }
  }

  /** Collapsing and title-casing a string without whitespace at its ends gives the shape of a suggestion. */
  lemma {:induction false} CollapsedTitleShape(t: string)
    requires t == [] || (!IsWhitespace(t[0]) && !IsWhitespace(t[|t| - 1]))
    ensures var r := TitleCase(CollapseWhitespace(t));
      && |r| <= |t|
      && (r == [] || (!IsWhitespace(r[0]) && !IsWhitespace(r[|r| - 1])))
      && SpacesOnly(r)
      && NoDoubleSpace(r)
      && (forall k :: 0 <= k < |r| && AtWordStart(r, k) ==> !('a' <= r[k] <= 'z'))
      && (forall k :: 0 <= k < |r| && !AtWordStart(r, k) ==> !('A' <= r[k] <= 'Z'))
  {
    var x := CollapseWhitespace(t);
    assert SpacesOnly(x) && NoDoubleSpace(x) && (x == [] || (!IsWhitespace(x[0]) && !IsWhitespace(x[|x| - 1]))) by {
      CollapseShape(t);
    }
    TitleCaseKeepsSpacing(x);
    TitleCaseCasing(x);
  }

  /**
    A suggestion has no whitespace at either end, only single spaces inside, its word
    starts in upper case and every other letter in lower case.
   */
  lemma {:induction false} NormaliseShape(v: string)
    ensures var r := Normalise(v);
      && |r| <= |v|
      && (r == [] || (!IsWhitespace(r[0]) && !IsWhitespace(r[|r| - 1])))
      && SpacesOnly(r)
      && NoDoubleSpace(r)
      && (forall k :: 0 <= k < |r| && AtWordStart(r, k) ==> !('a' <= r[k] <= 'z'))
      && (forall k :: 0 <= k < |r| && !AtWordStart(r, k) ==> !('A' <= r[k] <= 'Z'))
  {
    CollapsedTitleShape(Trim(v));
  }

  /** A string already in collapsed form is left as it is. */
  lemma {:induction false} CollapseOfCollapsed(s: string)
    requires SpacesOnly(s) && NoDoubleSpace(s)
    ensures CollapseWhitespace(s) == s
    decreases |s|
  {
    if s != [] {
      var t := s[1..];
      assert SpacesOnly(t) && NoDoubleSpace(t) by {
        assert forall k :: 0 <= k < |t| ==> t[k] == s[k + 1];
      }
      CollapseOfCollapsed(t);
      if IsWhitespace(s[0]) {
        assert t == [] || !IsWhitespace(t[0]) by {
          if t != [] { assert t[0] == s[1]; }
        }
        assert TrimStart(t) == t;
      }
    }
  }

  lemma {:induction false} TitleCaseIdempotent(x: string)
    ensures TitleCase(TitleCase(x)) == TitleCase(x)
  {
    var r := TitleCase(x);
    assert ToLower(r) == ToLower(x) by {
      forall k | 0 <= k < |x| ensures ToLower(r)[k] == ToLower(x)[k] {
        TitleCaseKeepsShape(x, k);
      }
    }
  }

  /** Normalising a suggestion gives the same suggestion. */
  lemma {:induction false} NormaliseIdempotent(v: string)
    ensures Normalise(Normalise(v)) == Normalise(v)
  {
    var x := CollapseWhitespace(Trim(v));
    var r := Normalise(v);
    NormaliseShape(v);
    TrimOfTrimmed(r);
    CollapseOfCollapsed(r);
    TitleCaseIdempotent(x);
  }

  /** The letter after an apostrophe starts a word of its own. */
  lemma TitleCaseExample()
    ensures TitleCase("o'neil") == "O'Neil"
  {
    var l := ToLower("o'neil");
    assert l == "o'neil";
    assert AtWordStart(l, 0) && AtWordStart(l, 2);
    assert !AtWordStart(l, 1) && !AtWordStart(l, 3) && !AtWordStart(l, 4) && !AtWordStart(l, 5);
  }

  // ---------------------------------------------------------------------------
  // Candidates and suggestions of one column

  /**
    `[...new Set(values)].slice(0, cap)`: the first `cap` distinct non-blank values of the
    column, in the order of their first occurrence.
   */
  function Candidates(rows: seq<Row>, column: string, cap: nat): (r: seq<string>)
    ensures |r| <= cap
    ensures NoDuplicates(r)
    ensures forall v <- r :: v in NonBlankValues(rows, column)
    ensures r <= Distinct(NonBlankValues(rows, column))
    ensures |r| == if cap <= |Distinct(NonBlankValues(rows, column))| then cap else |Distinct(NonBlankValues(rows, column))|
  {
    var d := Distinct(NonBlankValues(rows, column));
    var r := Take(d, cap);
    assert r == d[..|r|];
    r
  }

  /** The candidates keep the order in which the values first occur in the column. */
  lemma {:induction false} CandidatesInFirstOccurrenceOrder(rows: seq<Row>, column: string, cap: nat, a: nat, b: nat)
    requires a < b < |Candidates(rows, column, cap)|
    ensures var values := NonBlankValues(rows, column);
      var r := Candidates(rows, column, cap);
      IndexOf(values, r[a]) < IndexOf(values, r[b])
  {
    DistinctInFirstOccurrenceOrder(NonBlankValues(rows, column), a, b);
  }

  /** Below the cap, every distinct non-blank value of the column is a candidate. */
  lemma {:induction false} CandidatesComplete(rows: seq<Row>, column: string, cap: nat, v: string)
    requires |Distinct(NonBlankValues(rows, column))| <= cap
    requires v in NonBlankValues(rows, column)
    ensures v in Candidates(rows, column, cap)
  {
    assert Take(Distinct(NonBlankValues(rows, column)), cap) == Distinct(NonBlankValues(rows, column));
  }

  /** The proposals made for a list of values: those the normaliser changes, in order, none accepted. */
  function SuggestionsFrom(values: seq<string>): (r: seq<CleaningMapping>)
    ensures |r| <= |values|
    ensures forall m <- r :: m.original in values && m.suggested == Normalise(m.original)
                             && m.original != m.suggested && !m.accepted && m.userDefined.None?
    ensures forall v <- values :: Normalise(v) != v ==> CleaningMapping(v, Normalise(v), false, None) in r
  {
    if values == [] then []
    else
      var v := values[0];
      (if Normalise(v) != v then [CleaningMapping(v, Normalise(v), false, None)] else []) + SuggestionsFrom(values[1..])
  }

  /** The proposals for one column, with the given cap on distinct values. */
  function ColumnSuggestions(rows: seq<Row>, column: string, cap: nat): seq<CleaningMapping>
  {
    SuggestionsFrom(Candidates(rows, column, cap))
  }

  /** The suggestion object after the column loop has run over `columns`. */
  function SuggestionMap(rows: seq<Row>, columns: seq<string>, cap: nat): CleaningData
  {
    if columns == [] then []
    else Assign(SuggestionMap(rows, columns[..|columns| - 1], cap), columns[|columns| - 1],
                ColumnSuggestions(rows, columns[|columns| - 1], cap))
  }

  /** `columns.forEach(...)` filling the suggestion object. */
  method BuildSuggestions(rows: seq<Row>, columns: seq<string>, cap: nat) returns (out: CleaningData)
    ensures out == SuggestionMap(rows, columns, cap)
  {
    out := [];
    var j := 0;
    while j < |columns|
      invariant 0 <= j <= |columns|
      invariant out == SuggestionMap(rows, columns[..j], cap)
    {
      var column := columns[j];
      out := Assign(out, column, ColumnSuggestions(rows, column, cap));
      assert columns[..j + 1][..j] == columns[..j];
      j := j + 1;
    }
    assert columns[..j] == columns;
  }

  /** One key per requested column (possibly with an empty list), in first-request order, and no other key. */
  lemma {:induction false} SuggestionMapSpec(rows: seq<Row>, columns: seq<string>, cap: nat, k: string)
    ensures Keys(SuggestionMap(rows, columns, cap)) == Distinct(columns)
    ensures Get(SuggestionMap(rows, columns, cap), k) == if k in columns then Some(ColumnSuggestions(rows, k, cap)) else None
  {
    if columns != [] {
      var prefix := columns[..|columns| - 1];
      var c := columns[|columns| - 1];
      assert columns == prefix + [c];
      SuggestionMapSpec(rows, prefix, cap, k);
      GetAssign(SuggestionMap(rows, prefix, cap), c, ColumnSuggestions(rows, c, cap), k);
    }
  }

  // ---------------------------------------------------------------------------
  // The get-cleaning-suggestions route

  datatype SuggestionsRequest = SuggestionsRequest(columns: seq<string>, data: seq<Row>)

  datatype SuggestionsReply =
    | Suggestions(body: CleaningData)
    | SuggestionsFailed(httpStatus: nat, error: string)

  const SuggestionsCap: nat := 25

  /**
    The POST handler; `None` stands for a body that does not parse or lacks the arrays it
    reads, which makes the handler throw.
   */
  method GetCleaningSuggestions(request: Option<SuggestionsRequest>) returns (reply: SuggestionsReply)
    ensures request.None? ==> reply == SuggestionsFailed(500, "Failed to get cleaning suggestions")
    ensures request.Some? ==> reply == Suggestions(SuggestionMap(request.value.data, request.value.columns, SuggestionsCap))
  {
    if request.None? {
      return SuggestionsFailed(500, "Failed to get cleaning suggestions");
    }
    var body := BuildSuggestions(request.value.data, request.value.columns, SuggestionsCap);
    reply := Suggestions(body);
  }
}
