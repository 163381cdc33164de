/**
  JavaScript semantics shared by the Cleanlify components: the whitespace set of
  `String.prototype.trim` and of the regular-expression class `\s`, ASCII case
  mapping, `split`/`join` on a one-character separator, `includes`, `endsWith`,
  first-occurrence de-duplication (`[...new Set(xs)]`), clamped `slice`, objects
  with insertion-ordered keys, and the decimal rendering of integers inside
  template literals.
 */
module Js {

  datatype Option<+T> = None | Some(value: T)

  /** A value or the message of the `Error` that was thrown. */
  datatype Result<+T> = Ok(value: T) | Err(message: string)

  // ---------------------------------------------------------------------------
  // Characters

  /** WhiteSpace and LineTerminator code points (what `trim` removes and `\s` matches). */
  predicate IsWhitespace(c: char)
  {
    || c == ' ' || c == '\t' || c == '\n' || c == '\U{000B}' || c == '\U{000C}' || c == '\r'
    || c == '\U{00A0}' || c == '\U{1680}' || ('\U{2000}' <= c <= '\U{200A}')
    || c == '\U{2028}' || c == '\U{2029}' || c == '\U{202F}' || c == '\U{205F}'
    || c == '\U{3000}' || c == '\U{FEFF}'
  }

  /** The regular-expression class `\w`: `[A-Za-z0-9_]`. */
  predicate IsWordChar(c: char)
  {
    ('a' <= c <= 'z') || ('A' <= c <= 'Z') || ('0' <= c <= '9') || c == '_'
  }

  predicate AllWhitespace(s: string)
  {
    forall i :: 0 <= i < |s| ==> IsWhitespace(s[i])
  }

  function LowerChar(c: char): (d: char)
    ensures IsWordChar(d) <==> IsWordChar(c)
    ensures IsWhitespace(d) <==> IsWhitespace(c)
    ensures !('A' <= d <= 'Z')
  {
    if 'A' <= c <= 'Z' then (c as int + 32) as char else c
  }

  function UpperChar(c: char): (d: char)
    ensures IsWordChar(d) <==> IsWordChar(c)
    ensures IsWhitespace(d) <==> IsWhitespace(c)
    ensures !('a' <= d <= 'z')
    ensures LowerChar(d) == LowerChar(c)
  {
    if 'a' <= c <= 'z' then (c as int - 32) as char else c
  }

  /** `toLowerCase`, restricted to the ASCII letters. */
  function ToLower(s: string): (r: string)
    ensures |r| == |s|
    ensures forall i :: 0 <= i < |s| ==> r[i] == LowerChar(s[i])
  {
    seq(|s|, i requires 0 <= i < |s| => LowerChar(s[i]))
  }

  // ---------------------------------------------------------------------------
  // trim

  /** The number of whitespace characters `s` starts with. */
  function LeadingWhitespace(s: string): (n: nat)
    ensures n <= |s|
    ensures n < |s| ==> !IsWhitespace(s[n])
  {
    if s == [] || !IsWhitespace(s[0]) then 0 else 1 + LeadingWhitespace(s[1..])
  }

  /** The number of whitespace characters `s` ends with. */
  function TrailingWhitespace(s: string): (n: nat)
    ensures n <= |s|
    ensures n < |s| ==> !IsWhitespace(s[|s| - n - 1])
  {
    if s == [] || !IsWhitespace(s[|s| - 1]) then 0 else 1 + TrailingWhitespace(s[..|s| - 1])
  }

  /** `trimStart`: the suffix of `s` after its leading whitespace. */
  function TrimStart(s: string): (r: string)
    ensures |r| <= |s|
    ensures r == [] || !IsWhitespace(r[0])
  {
    s[LeadingWhitespace(s)..]
  }

  /** What `trimStart` removes is all whitespace. */
  lemma {:induction false} TrimStartRemovesWhitespace(s: string)
    ensures AllWhitespace(s[..|s| - |TrimStart(s)|])
  {
    if s != [] && IsWhitespace(s[0]) {
      TrimStartRemovesWhitespace(s[1..]);
      var k := LeadingWhitespace(s);
      assert k == 1 + LeadingWhitespace(s[1..]);
      forall i | 0 <= i < k ensures IsWhitespace(s[..k][i]) {
        if i > 0 { assert s[..k][i] == s[1..][..k - 1][i - 1]; }
      }
    }
  }

  /** `trimEnd`: the prefix of `s` before its trailing whitespace. */
  function TrimEnd(s: string): (r: string)
    ensures |r| <= |s|
    ensures r == [] || !IsWhitespace(r[|r| - 1])
  {
    s[..|s| - TrailingWhitespace(s)]
  }

  /** What `trimEnd` removes is all whitespace. */
  lemma {:induction false} TrimEndRemovesWhitespace(s: string)
    ensures AllWhitespace(s[|TrimEnd(s)|..])
  {
    if s != [] && IsWhitespace(s[|s| - 1]) {
      var p := s[..|s| - 1];
      TrimEndRemovesWhitespace(p);
      var k := |s| - TrailingWhitespace(s);
      assert k == |p| - TrailingWhitespace(p);
      forall i | k <= i < |s| ensures IsWhitespace(s[i]) {
        if i < |s| - 1 { assert s[i] == p[k..][i - k]; }
      }
    }
  }

  /** `String.prototype.trim`: the longest middle part of `s` without whitespace at its ends. */
  function Trim(s: string): (r: string)
    ensures |r| <= |s|
    ensures r == [] || (!IsWhitespace(r[0]) && !IsWhitespace(r[|r| - 1]))
  {
    TrimEnd(TrimStart(s))
  }

  /** `!v || v.trim() === ""` for a string `v`. */
  predicate IsBlank(s: string)
  {
    Trim(s) == []
  }

  lemma {:induction false} AllWhitespaceTrimsAway(s: string)
    requires AllWhitespace(s)
    ensures TrimStart(s) == []
  {
    if s != [] {
      AllWhitespaceTrimsAway(s[1..]);
    }
  }

  lemma {:induction false} BlankIffAllWhitespace(s: string)
    ensures IsBlank(s) <==> AllWhitespace(s)
  {
    var t := TrimStart(s);
    TrimStartRemovesWhitespace(s);
    TrimEndRemovesWhitespace(t);
    if AllWhitespace(s) {
      AllWhitespaceTrimsAway(s);
    }
    if IsBlank(s) {
      var k := |s| - |t|;
      assert t[0..] == t;
      assert AllWhitespace(t);
      assert s == s[..k] + t;
    }
  }

  lemma {:induction false} TrimOfTrimmed(s: string)
    requires s == [] || (!IsWhitespace(s[0]) && !IsWhitespace(s[|s| - 1]))
    ensures Trim(s) == s
  {
  }

  // ---------------------------------------------------------------------------
  // Searching

  /** `s.endsWith(suffix)`. */
  predicate EndsWith(s: string, suffix: string)
  {
    |suffix| <= |s| && s[|s| - |suffix|..] == suffix
  }

  /** `hay.includes(needle)`. */
  predicate Includes(hay: string, needle: string)
    decreases |hay|
  {
    (|needle| <= |hay| && hay[..|needle|] == needle) || (hay != [] && Includes(hay[1..], needle))
  }

  lemma {:induction false} IncludesAt(hay: string, needle: string, i: nat)
    requires i + |needle| <= |hay| && hay[i..i + |needle|] == needle
    ensures Includes(hay, needle)
    decreases i
  {
    if i > 0 {
      assert hay[1..][i - 1..i - 1 + |needle|] == hay[i..i + |needle|];
      IncludesAt(hay[1..], needle, i - 1);
    }
  }

  lemma {:induction false} IncludesEmpty(hay: string)
    ensures Includes(hay, "")
  {
    IncludesAt(hay, "", 0);
  }

  /** `s.indexOf(x)`: the first position holding `x`, or -1. */
  function IndexOf<T(==)>(s: seq<T>, x: T): (i: int)
    ensures -1 <= i < |s|
    ensures i == -1 <==> x !in s
    ensures 0 <= i ==> s[i] == x && x !in s[..i]
  {
    if s == [] then -1
    else if s[0] == x then 0
    else
      var j := IndexOf(s[1..], x);
      if j == -1 then -1
      else
        assert s[..j + 1] == [s[0]] + s[1..][..j];
        j + 1
  }

  // ---------------------------------------------------------------------------
  // split and join

  /** `parts.join(sep)`. */
  function Join(parts: seq<string>, sep: string): string
  {
    if |parts| == 0 then ""
    else if |parts| == 1 then parts[0]
    else parts[0] + sep + Join(parts[1..], sep)
  }

  /** `s.split(sep)` for a one-character separator: at least one piece, none holding `sep`. */
  function Split(s: string, sep: char): (parts: seq<string>)
    ensures |parts| >= 1
    ensures forall p <- parts :: sep !in p
    ensures Join(parts, [sep]) == s
    decreases |s|
  {
    var i := IndexOf(s, sep);
    if i == -1 then [s]
    else
      var rest := Split(s[i + 1..], sep);
      var parts := [s[..i]] + rest;
      assert parts[1..] == rest;
      assert Join(parts, [sep]) == s by {
        assert s == s[..i] + [sep] + s[i + 1..];
      }
      parts
  }

  /** A character found in neither the parts nor the separator is not in their join. */
  lemma {:induction false} JoinAvoids(parts: seq<string>, sep: string, c: char)
    requires c !in sep
    requires forall p <- parts :: c !in p
    ensures c !in Join(parts, sep)
  {
    if |parts| > 1 {
      JoinAvoids(parts[1..], sep, c);
    }
  }

  lemma {:induction false} SplitJoin(parts: seq<string>, sep: char)
    requires |parts| >= 1
    requires forall p <- parts :: sep !in p
    ensures Split(Join(parts, [sep]), sep) == parts
    decreases |parts|
  {
    if |parts| > 1 {
      var s := Join(parts, [sep]);
      assert s == parts[0] + [sep] + Join(parts[1..], [sep]);
      assert s[|parts[0]|] == sep;
      assert s[..|parts[0]|] == parts[0];
      IndexOfUnique(s, sep, |parts[0]|);
      var i := IndexOf(s, sep);
      assert s[i + 1..] == Join(parts[1..], [sep]);
      SplitJoin(parts[1..], sep);
    }
  }

  /** `s.replace(/<c>/g, "")`: every occurrence of `c` removed. */
  function RemoveAll(s: string, c: char): (r: string)
    ensures c !in r
    ensures |r| <= |s|
    ensures c !in s ==> r == s
  {
    if s == [] then []
    else (if s[0] == c then [] else [s[0]]) + RemoveAll(s[1..], c)
  }

  // ---------------------------------------------------------------------------
  // Collections

  predicate NoDuplicates<T(==)>(s: seq<T>)
  {
    forall i, j :: 0 <= i < j < |s| ==> s[i] != s[j]
  }

  /** `s.filter(keep)`. */
  function Filter<T>(s: seq<T>, keep: T -> bool): (r: seq<T>)
    ensures |r| <= |s|
  {
    if s == [] then [] else (if keep(s[0]) then [s[0]] else []) + Filter(s[1..], keep)
  }

  /** Concatenation regroups freely; stated apart so that callers need not prove it in a crowded context. */
  lemma ConcatAssociative<T>(x: seq<T>, y: seq<T>, z: seq<T>)
    ensures x + (y + z) == (x + y) + z
  {
  }

  /** An element survives the filter iff it is in the input and passes the test. */
  lemma {:induction false} FilterKeeps<T>(s: seq<T>, keep: T -> bool, x: T)
    ensures x in Filter(s, keep) <==> x in s && keep(x)
  {
    if s != [] {
      FilterKeeps(s[1..], keep, x);
      assert s == [s[0]] + s[1..];
    }
  }

  /** `[...new Set(s)]`: the distinct elements of `s` in first-occurrence order. */
  function Distinct<T(==)>(s: seq<T>): (r: seq<T>)
    ensures NoDuplicates(r)
    ensures forall x <- r :: x in s
    ensures forall x <- s :: x in r
    ensures |r| <= |s|
  {
    if s == [] then []
    else
      var d := Distinct(s[..|s| - 1]);
      var x := s[|s| - 1];
      assert s == s[..|s| - 1] + [x];
      if x in d then d else d + [x]
  }

  /** De-duplicating a list that has no duplicates changes nothing. */
  lemma {:induction false} DistinctOfUnique<T>(s: seq<T>)
    requires NoDuplicates(s)
    ensures Distinct(s) == s
  {
    if s != [] {
      var init := s[..|s| - 1];
      DistinctOfUnique(init);
      assert s == init + [s[|s| - 1]];
    }
  }

  /** `[...new Set([...a, ...b])]` starts with `[...new Set(a)]`. */
  lemma {:induction false} DistinctPrefix<T>(a: seq<T>, b: seq<T>)
    ensures Distinct(a) <= Distinct(a + b)
    decreases |b|
  {
    if b == [] {
      assert a + b == a;
    } else {
      var b' := b[..|b| - 1];
      DistinctPrefix(a, b');
      assert (a + b)[..|a + b| - 1] == a + b';
    }
  }

  lemma {:induction false} DistinctInFirstOccurrenceOrder<T>(s: seq<T>, i: nat, j: nat)
    requires i < j < |Distinct(s)|
    ensures IndexOf(s, Distinct(s)[i]) < IndexOf(s, Distinct(s)[j])
    decreases |s|
  {
    var p := s[..|s| - 1];
    var x := s[|s| - 1];
    var d := Distinct(p);
    var r := Distinct(s);
    assert s == p + [x];
    IndexOfAppend(p, x, r[i]);
    IndexOfAppend(p, x, r[j]);
    if j < |d| {
      DistinctInFirstOccurrenceOrder(p, i, j);
    } else {
      assert r[j] == x && x !in d && x !in p;
      assert r[i] in p;
    }
  }

  lemma {:induction false} IndexOfUnique<T>(s: seq<T>, y: T, m: nat)
    requires m < |s| && s[m] == y && y !in s[..m]
    ensures IndexOf(s, y) == m
  {
    if m > 0 {
      assert s[0] == s[..m][0];
      assert s[1..][..m - 1] == s[..m][1..];
      IndexOfUnique(s[1..], y, m - 1);
    }
  }

  lemma {:induction false} IndexOfAppend<T>(p: seq<T>, x: T, y: T)
    ensures y in p ==> IndexOf(p + [x], y) == IndexOf(p, y)
    ensures y !in p && y == x ==> IndexOf(p + [x], y) == |p|
    ensures y !in p && y != x ==> IndexOf(p + [x], y) == -1
  {
    var s := p + [x];
    if y in p {
      var m := IndexOf(p, y);
      assert s[..m] == p[..m];
      IndexOfUnique(s, y, m);
    } else if y == x {
      assert s[..|p|] == p;
      IndexOfUnique(s, y, |p|);
    }
  }

  /** `s.slice(0, n)`. */
  function Take<T>(s: seq<T>, n: nat): (r: seq<T>)
    ensures |r| == if n <= |s| then n else |s|
    ensures forall i :: 0 <= i < |r| ==> r[i] == s[i]
  {
    if n <= |s| then s[..n] else s
  }

  /** `s.slice(start, end)` for non-negative bounds: clamped to the sequence, empty when end <= start. */
  function Slice<T>(s: seq<T>, start: nat, end: nat): (r: seq<T>)
    ensures |r| == if start >= |s| || end <= start then 0
                   else (if end <= |s| then end else |s|) - start
    ensures forall i :: 0 <= i < |r| ==> r[i] == s[start + i]
  {
    var e := if end <= |s| then end else |s|;
    if start >= e then [] else s[start..e]
  }

  /** `Math.ceil(n / d)` for a non-negative `n`. */
  function CeilDiv(n: nat, d: nat): (q: nat)
    requires d > 0
    ensures q * d >= n && (q == 0 || (q - 1) * d < n)
  {
    (n + d - 1) / d
  }

  // ---------------------------------------------------------------------------
  // Objects with insertion-ordered keys

  datatype Entry<V> = Entry(key: string, val: V)

  function Keys<V>(o: seq<Entry<V>>): (ks: seq<string>)
    ensures |ks| == |o|
    ensures forall i :: 0 <= i < |o| ==> ks[i] == o[i].key
  {
    if o == [] then [] else [o[0].key] + Keys(o[1..])
  }

  /** A JavaScript object never holds one key twice. */
  predicate UniqueKeys<V>(o: seq<Entry<V>>)
  {
    NoDuplicates(Keys(o))
  }

  /** `o[k]`: the value under `k`, `None` standing for `undefined`. */
  function Get<V>(o: seq<Entry<V>>, k: string): (r: Option<V>)
    ensures r.None? <==> k !in Keys(o)
    ensures r.Some? ==> Entry(k, r.value) in o
  {
    if o == [] then None
    else if o[0].key == k then Some(o[0].val)
    else
      var r := Get(o[1..], k);
      assert Keys(o) == [o[0].key] + Keys(o[1..]);
      r
  }

  lemma {:induction false} GetUnique<V>(o: seq<Entry<V>>, i: nat)
    requires UniqueKeys(o) && i < |o|
    ensures Get(o, o[i].key) == Some(o[i].val)
    decreases i
  {
    if i > 0 {
      GetUnique(o[1..], i - 1);
    }
  }

  /** `o[k] = v`: replaces the value of an existing key in place, or appends the key. */
  function Assign<V>(o: seq<Entry<V>>, k: string, v: V): (r: seq<Entry<V>>)
    ensures Keys(r) == if k in Keys(o) then Keys(o) else Keys(o) + [k]
  {
    if o == [] then [Entry(k, v)]
    else if o[0].key == k then
      var r := [Entry(k, v)] + o[1..];
      assert r[1..] == o[1..];
      r
    else
      var r := [o[0]] + Assign(o[1..], k, v);
      assert r[1..] == Assign(o[1..], k, v);
      r
  }

  /** After `o[k] = v`, reading `k` gives `v` and every other key reads as before. */
  lemma {:induction false} GetAssign<V>(o: seq<Entry<V>>, k: string, v: V, k': string)
    ensures Get(Assign(o, k, v), k') == if k' == k then Some(v) else Get(o, k')
  {
    if o != [] && o[0].key != k {
      GetAssign(o[1..], k, v, k');
    }
  }

  lemma {:induction false} AssignKeepsUniqueKeys<V>(o: seq<Entry<V>>, k: string, v: V)
    requires UniqueKeys(o)
    ensures UniqueKeys(Assign(o, k, v))
  {
    var ks := Keys(o);
    var ks' := Keys(Assign(o, k, v));
    if k !in ks {
      assert ks' == ks + [k];
      forall i, j | 0 <= i < j < |ks'| ensures ks'[i] != ks'[j] {
        if j < |ks| { assert ks'[i] == ks[i] && ks'[j] == ks[j]; }
        else { assert ks'[i] == ks[i]; }
      }
    }
  }

  /** Assigning a key the object does not hold appends it. */
  lemma {:induction false} AssignAppends<V>(o: seq<Entry<V>>, k: string, v: V)
    requires k !in Keys(o)
    ensures Assign(o, k, v) == o + [Entry(k, v)]
  {
    if o != [] {
      assert o[0].key != k by {
        assert Keys(o)[0] == o[0].key;
      }
      assert k !in Keys(o[1..]) by {
        forall j | 0 <= j < |o| - 1 ensures Keys(o[1..])[j] != k {
          assert Keys(o[1..])[j] == Keys(o)[j + 1];
        }
      }
      AssignAppends(o[1..], k, v);
      calc {
        Assign(o, k, v);
        [o[0]] + Assign(o[1..], k, v);
        [o[0]] + (o[1..] + [Entry(k, v)]);
        { assert [o[0]] + o[1..] == o; }
        o + [Entry(k, v)];
      }
    }
  }

  /** Reading an object with one entry appended. */
  lemma {:induction false} GetAppend<V>(o: seq<Entry<V>>, k: string, v: V, k': string)
    ensures Get(o + [Entry(k, v)], k') == if k' in Keys(o) then Get(o, k') else if k' == k then Some(v) else None
  {
    if o == [] {
      assert o + [Entry(k, v)] == [Entry(k, v)];
    } else {
      assert (o + [Entry(k, v)])[1..] == o[1..] + [Entry(k, v)];
      assert Keys(o) == [o[0].key] + Keys(o[1..]);
      GetAppend(o[1..], k, v, k');
    }
  }

  /** `delete o[k]`. */
  function Delete<V>(o: seq<Entry<V>>, k: string): (r: seq<Entry<V>>)
    ensures Get(r, k) == None
    ensures forall k' :: k' != k ==> Get(r, k') == Get(o, k')
    ensures forall i :: 0 <= i < |r| ==> r[i] in o
  {
    if o == [] then []
    else if o[0].key == k then Delete(o[1..], k)
    else
      var r := [o[0]] + Delete(o[1..], k);
      assert r[1..] == Delete(o[1..], k);
      assert Keys(r) == [o[0].key] + Keys(r[1..]);
      r
  }

  /** The sum of `f` over the values of an object, in key order (`Object.values(o).reduce(...)`). */
  function SumValues<V>(o: seq<Entry<V>>, f: V -> nat): nat
  {
    if o == [] then 0 else SumValues(o[..|o| - 1], f) + f(o[|o| - 1].val)
  }

  /** A sum of naturals is 0 exactly when every term is. */
  lemma {:induction false} SumValuesZero<V>(o: seq<Entry<V>>, f: V -> nat)
    ensures SumValues(o, f) == 0 <==> forall e <- o :: f(e.val) == 0
  {
    if o != [] {
      var init, last := o[..|o| - 1], o[|o| - 1];
      assert o == init + [last];
      SumValuesZero(init, f);
      assert forall e <- o :: e in init || e == last;
    }
  }

  lemma {:induction false} SumValuesConcat<V>(a: seq<Entry<V>>, b: seq<Entry<V>>, f: V -> nat)
    ensures SumValues(a + b, f) == SumValues(a, f) + SumValues(b, f)
    decreases |b|
  {
    if b == [] {
      assert a + b == a;
    } else {
      assert (a + b)[..|a + b| - 1] == a + b[..|b| - 1];
      SumValuesConcat(a, b[..|b| - 1], f);
    }
  }

  /** Replacing the value under `k` changes the sum by the difference of `f` on the two values. */
  lemma {:induction false} SumValuesAssign<V>(o: seq<Entry<V>>, k: string, v: V, f: V -> nat)
    requires Get(o, k).Some?
    ensures SumValues(Assign(o, k, v), f) + f(Get(o, k).value) == SumValues(o, f) + f(v)
  {
    var e, rest := o[0], o[1..];
    assert o == [e] + rest;
    SumValuesCons(e, rest, f);
    if e.key == k {
      SumValuesCons(Entry(k, v), rest, f);
    } else {
      SumValuesAssign(rest, k, v, f);
      SumValuesCons(e, Assign(rest, k, v), f);
    }
  }

  lemma {:induction false} SumValuesCons<V>(e: Entry<V>, rest: seq<Entry<V>>, f: V -> nat)
    ensures SumValues([e] + rest, f) == f(e.val) + SumValues(rest, f)
  {
    SumValuesConcat([e], rest, f);
    assert SumValues([e], f) == f(e.val) by { assert [e][..0] == []; }
  }

  // ---------------------------------------------------------------------------
  // Numbers in template literals

  function DigitChar(d: nat): (c: char)
    requires d < 10
    ensures '0' <= c <= '9'
  {
    ('0' as int + d) as char
  }

  predicate IsDigits(s: string)
  {
    forall i :: 0 <= i < |s| ==> '0' <= s[i] <= '9'
  }

  /** The decimal rendering of a non-negative integer, as `${n}` writes it. */
  function NatToString(n: nat): (s: string)
    ensures |s| >= 1 && IsDigits(s)
    ensures s[0] == '0' ==> n == 0 && s == "0"
  {
    if n < 10 then [DigitChar(n)] else NatToString(n / 10) + [DigitChar(n % 10)]
  }

  /** The decimal rendering of an integer, with a leading `-` for negative values. */
  function IntToString(n: int): (s: string)
    ensures |s| >= 1
    ensures s[0] == '-' <==> n < 0
  {
    if n < 0 then "-" + NatToString(-n) else NatToString(n)
  }

  /** The value of a string of decimal digits. */
  function DigitsValue(s: string): nat
    requires IsDigits(s)
  {
    if s == [] then 0 else 10 * DigitsValue(s[..|s| - 1]) + (s[|s| - 1] as int - '0' as int)
  }

  lemma {:induction false} NatToStringRoundTrip(n: nat)
    ensures DigitsValue(NatToString(n)) == n
  {
    if n >= 10 {
      var s := NatToString(n);
      assert s[..|s| - 1] == NatToString(n / 10);
      NatToStringRoundTrip(n / 10);
    }
  }

  lemma {:induction false} NatToStringInjective(m: nat, n: nat)
    requires NatToString(m) == NatToString(n)
    ensures m == n
  {
    NatToStringRoundTrip(m);
    NatToStringRoundTrip(n);
  }
}
