/**
 * The parts of Python's built-in types that the compendium tools rely on:
 * the exceptions they raise or let escape, `str` methods (find, split,
 * join, strip, replace, upper, lower, splitlines) and insertion-ordered
 * dictionaries. Strings are sequences of code points, as in Python 3.
 */
module Py {

  datatype Option<T> = None | Some(value: T)

  /** The exceptions the tools raise or let escape; each aborts the run. */
  datatype Error =
    | IndexError(context: string)
    | KeyError(key: string)
    | ValueError(message: string)
    | TypeError(message: string)

  datatype Result<T> = Ok(value: T) | Err(error: Error)

  const NBSP: char := '\U{A0}'

  // ---------------------------------------------------------------------
  // Characters
  // ---------------------------------------------------------------------

  /** `str.isspace()` on one code point (the set `split()` and `strip()` use). */
  predicate IsSpace(c: char) {
    || c == ' '
    || ('\t' <= c <= '\r')
    || ('\U{1C}' <= c <= '\U{1F}')
    || c == '\U{85}'
    || c == NBSP
    || c == '\U{1680}'
    || ('\U{2000}' <= c <= '\U{200A}')
    || c == '\U{2028}' || c == '\U{2029}'
    || c == '\U{202F}' || c == '\U{205F}' || c == '\U{3000}'
  }

  predicate NoSpace(s: string) {
    forall i :: 0 <= i < |s| ==> !IsSpace(s[i])
  }

  predicate NoChar(s: string, c: char) {
    forall i :: 0 <= i < |s| ==> s[i] != c
  }

  /** `str.upper()` on one code point, for the Latin-1 range (ß becomes "SS"). */
  function UpperChar(c: char): string {
    if 'a' <= c <= 'z' then [(c as int - 32) as char]
    else if c == '\U{DF}' then "SS"
    else if c == '\U{B5}' then ['\U{39C}']
    else if c == '\U{FF}' then ['\U{178}']
    else if '\U{E0}' <= c <= '\U{FE}' && c != '\U{F7}' then [(c as int - 32) as char]
    else [c]
  }

  /** `str.lower()` on one code point, for the Latin-1 range. */
  function LowerChar(c: char): char {
    if 'A' <= c <= 'Z' then (c as int + 32) as char
    else if '\U{C0}' <= c <= '\U{DE}' && c != '\U{D7}' then (c as int + 32) as char
    else c
  }

  function Upper(s: string): string {
    if |s| == 0 then "" else UpperChar(s[0]) + Upper(s[1..])
  }

  function Lower(s: string): (r: string)
    ensures |r| == |s|
    ensures forall i :: 0 <= i < |s| ==> r[i] == LowerChar(s[i])
  {
    seq(|s|, i requires 0 <= i < |s| => LowerChar(s[i]))
  }

  // ---------------------------------------------------------------------
  // Searching
  // ---------------------------------------------------------------------

  predicate StartsWith(s: string, prefix: string) {
    |prefix| <= |s| && s[..|prefix|] == prefix
  }

  predicate OccursAt(s: string, sub: string, i: nat) {
    i + |sub| <= |s| && s[i..i + |sub|] == sub
  }

  /** `s.find(sub)`, with -1 written as None. */
  function Find(s: string, sub: string): (r: Option<nat>)
    ensures r.Some? ==> OccursAt(s, sub, r.value)
    ensures r.Some? ==> forall j: nat :: j < r.value ==> !OccursAt(s, sub, j)
    ensures r.None? ==> forall j: nat :: !OccursAt(s, sub, j)
    decreases |s|
  {
    if |s| < |sub| then None
    else if s[..|sub|] == sub then Some(0)
    else
      var r := Find(s[1..], sub);
      FindStep(s, sub, r);
      match r
      case Some(j) => Some(j + 1)
      case None => None
  }

  lemma OccursShift(s: string, sub: string, j: nat)
    requires |s| > 0
    ensures OccursAt(s, sub, j + 1) <==> OccursAt(s[1..], sub, j)
  {
    if j + 1 + |sub| <= |s| {
      assert s[j + 1..j + 1 + |sub|] == s[1..][j..j + |sub|];
    }
  }

  lemma FindStep(s: string, sub: string, r: Option<nat>)
    requires |s| > 0 && !OccursAt(s, sub, 0)
    requires r.Some? ==> OccursAt(s[1..], sub, r.value)
    requires r.Some? ==> forall j: nat :: j < r.value ==> !OccursAt(s[1..], sub, j)
    requires r.None? ==> forall j: nat :: !OccursAt(s[1..], sub, j)
    ensures r.Some? ==> OccursAt(s, sub, r.value + 1)
    ensures r.Some? ==> forall j: nat :: j < r.value + 1 ==> !OccursAt(s, sub, j)
    ensures r.None? ==> forall j: nat :: !OccursAt(s, sub, j)
  {
    forall j: nat ensures OccursAt(s, sub, j) ==> j > 0 && OccursAt(s[1..], sub, j - 1) {
      if j > 0 {
        OccursShift(s, sub, j - 1);
      }
    }
    if r.Some? {
      OccursShift(s, sub, r.value);
    }
  }

  /** `sub in s` */
  predicate Contains(s: string, sub: string) {
    Find(s, sub).Some?
  }

  /** The first occurrence is where one occurs and none occurs before. */
  lemma FindFirst(s: string, sub: string, i: nat)
    requires OccursAt(s, sub, i) && forall j: nat :: j < i ==> !OccursAt(s, sub, j)
    ensures Find(s, sub) == Some(i)
  {
  }

  // ---------------------------------------------------------------------
  // split(sep), join, replace
  // ---------------------------------------------------------------------

  /** `s.split(sep)` for a non-empty separator: every occurrence, left to right. */
  function Split(s: string, sep: string): (parts: seq<string>)
    requires |sep| > 0
    ensures |parts| >= 1
    decreases |s|
  {
    match Find(s, sep)
    case None => [s]
    case Some(i) => [s[..i]] + Split(s[i + |sep|..], sep)
  }

  /** `sep.join(parts)` */
  function Join(sep: string, parts: seq<string>): string {
    if |parts| == 0 then ""
    else if |parts| == 1 then parts[0]
    else parts[0] + sep + Join(sep, parts[1..])
  }

  /** `s.replace(old, new)` for a non-empty `old`: Python's own identity `new.join(s.split(old))`. */
  function Replace(s: string, target: string, repl: string): string
    requires |target| > 0
  {
    Join(repl, Split(s, target))
  }

  /** Splitting and joining back with the same separator gives the string back. */
  lemma {:induction false} JoinSplit(s: string, sep: string)
    requires |sep| > 0
    ensures Join(sep, Split(s, sep)) == s
    decreases |s|
  {
    match Find(s, sep)
    case None =>
    case Some(i) =>
      var rest := s[i + |sep|..];
      var tail := Split(rest, sep);
      JoinSplit(rest, sep);
      JoinCons(sep, s[..i], tail);
      assert s[i..i + |sep|] == sep;
      assert s == s[..i] + sep + rest;
  }

  lemma JoinCons(sep: string, head: string, tail: seq<string>)
    requires |tail| >= 1
    ensures Join(sep, [head] + tail) == head + sep + Join(sep, tail)
  {
    assert ([head] + tail)[1..] == tail;
  }

  /** No piece of a split contains the separator. */
  lemma {:induction false} SplitPiecesFree(s: string, sep: string)
    requires |sep| > 0
    ensures forall k :: 0 <= k < |Split(s, sep)| ==> !Contains(Split(s, sep)[k], sep)
    decreases |s|
  {
    match Find(s, sep)
    case None =>
    case Some(i) =>
      SplitPiecesFree(s[i + |sep|..], sep);
      if Contains(s[..i], sep) {
        var j := Find(s[..i], sep).value;
        assert s[..i][j..j + |sep|] == s[j..j + |sep|];
        assert OccursAt(s, sep, j);
        assert false;
      }
  }

  /** The first piece is the text before the first occurrence; there is a second piece iff the separator occurs. */
  lemma SplitHead(s: string, sep: string)
    requires |sep| > 0
    ensures Find(s, sep).None? ==> Split(s, sep) == [s]
    ensures Find(s, sep).Some? ==>
      && |Split(s, sep)| >= 2
      && Split(s, sep)[0] == s[..Find(s, sep).value]
      && Split(s, sep)[1..] == Split(s[Find(s, sep).value + |sep|..], sep)
  {
  }

  lemma ReplaceAbsent(s: string, target: string, repl: string)
    requires |target| > 0
    requires Find(s, target).None?
    ensures Replace(s, target, repl) == s
  {
  }

  /** Replacing a separator that starts the string and does not occur after it. */
  lemma ReplaceLeading(s: string, target: string, repl: string, rest: string)
    requires |target| > 0
    requires s == target + rest
    requires Find(rest, target).None?
    ensures Replace(s, target, repl) == repl + rest
  {
    assert s[..|target|] == target;
    assert Find(s, target) == Some(0);
    assert s[|target|..] == rest;
    assert Split(rest, target) == [rest];
    assert Split(s, target) == [""] + [rest];
    JoinCons(repl, "", [rest]);
  }

  /** Replacing one character by another changes exactly the positions holding it. */
  lemma {:induction false} ReplaceCharPointwise(s: string, a: char, b: char)
    ensures |Replace(s, [a], [b])| == |s|
    ensures forall i :: 0 <= i < |s| ==> Replace(s, [a], [b])[i] == (if s[i] == a then b else s[i])
    decreases |s|
  {
    match Find(s, [a])
    case None =>
      assert forall i :: 0 <= i < |s| ==> s[i] != a by {
        forall i | 0 <= i < |s| ensures s[i] != a {
          assert !OccursAt(s, [a], i);
          assert s[i..i + 1] == [s[i]];
        }
      }
    case Some(k) =>
      var rest := s[k + 1..];
      var tail := Split(rest, [a]);
      ReplaceCharPointwise(rest, a, b);
      JoinCons([b], s[..k], tail);
      assert s[k..k + 1] == [a];
      assert forall j :: 0 <= j < k ==> s[j] != a by {
        forall j | 0 <= j < k ensures s[j] != a {
          assert !OccursAt(s, [a], j);
          assert s[j..j + 1] == [s[j]];
        }
      }
      var r := Replace(s, [a], [b]);
      assert r == s[..k] + [b] + Replace(rest, [a], [b]);
      forall i | 0 <= i < |s| ensures r[i] == (if s[i] == a then b else s[i]) {
        if i > k {
          assert r[i] == Replace(rest, [a], [b])[i - k - 1];
          assert rest[i - k - 1] == s[i];
        }
      }
  }

  // ---------------------------------------------------------------------
  // split() on whitespace, strip()
  // ---------------------------------------------------------------------

  /** Length of the leading run of whitespace. */
  function SpanSpace(s: string): (n: nat)
    ensures n <= |s|
    ensures forall i :: 0 <= i < n ==> IsSpace(s[i])
    ensures n < |s| ==> !IsSpace(s[n])
  {
    if |s| > 0 && IsSpace(s[0]) then 1 + SpanSpace(s[1..]) else 0
  }

  /** Length of the leading run of non-whitespace. */
  function SpanWord(s: string): (n: nat)
    ensures n <= |s|
    ensures forall i :: 0 <= i < n ==> !IsSpace(s[i])
    ensures n < |s| ==> IsSpace(s[n])
  {
    if |s| > 0 && !IsSpace(s[0]) then 1 + SpanWord(s[1..]) else 0
  }

  /** `s.split()`: the maximal runs of non-whitespace, in order. */
  function Tokens(s: string): (ts: seq<string>)
    ensures forall k :: 0 <= k < |ts| ==> |ts[k]| > 0 && NoSpace(ts[k])
    decreases |s|
  {
    var i := SpanSpace(s);
    if i == |s| then []
    else
      var rest := s[i..];
      var j := SpanWord(rest);
      [rest[..j]] + Tokens(rest[j..])
  }

  /** A word followed by whitespace (or nothing) is the first token. */
  lemma TokensOfWord(w: string, rest: string)
    requires |w| > 0 && NoSpace(w)
    requires rest == [] || IsSpace(rest[0])
    ensures Tokens(w + rest) == [w] + Tokens(rest)
  {
    var s := w + rest;
    assert !IsSpace(s[0]);
    assert SpanSpace(s) == 0;
    assert s[0..] == s;
    SpanWordOf(w, rest);
    assert s[..|w|] == w && s[|w|..] == rest;
  }

  lemma {:induction false} SpanWordOf(w: string, rest: string)
    requires NoSpace(w)
    requires rest == [] || IsSpace(rest[0])
    ensures SpanWord(w + rest) == |w|
    decreases |w|
  {
    if |w| > 0 {
      assert (w + rest)[1..] == w[1..] + rest;
      SpanWordOf(w[1..], rest);
    } else {
      assert w + rest == rest;
    }
  }

  /** Leading whitespace does not change the tokens. */
  lemma {:induction false} TokensSkipSpace(sp: string, s: string)
    requires forall i :: 0 <= i < |sp| ==> IsSpace(sp[i])
    ensures Tokens(sp + s) == Tokens(s)
    decreases |sp|
  {
    if |sp| > 0 {
      var t := sp + s;
      assert IsSpace(t[0]);
      assert t[1..] == sp[1..] + s;
      TokensSkipSpace(sp[1..], s);
      SpanSpaceTail(t);
    } else {
      assert sp + s == s;
    }
  }

  lemma SpanSpaceTail(t: string)
    requires |t| > 0 && IsSpace(t[0])
    ensures Tokens(t) == Tokens(t[1..])
  {
    var u := t[1..];
    var i := SpanSpace(t);
    assert i == 1 + SpanSpace(u);
    assert t[i..] == u[i - 1..];
    TokensDropSpace(t);
    TokensDropSpace(u);
  }

  /** The tokens do not depend on the leading whitespace. */
  lemma TokensDropSpace(s: string)
    ensures Tokens(s) == Tokens(s[SpanSpace(s)..])
  {
    var i := SpanSpace(s);
    var r := s[i..];
    if i == |s| {
      assert r == [];
    } else {
      assert r[0] == s[i];
      assert SpanSpace(r) == 0;
      assert r[0..] == r;
    }
  }

  function RStrip(s: string): (r: string)
    ensures |r| <= |s| && r == s[..|r|]
    ensures r == [] || !IsSpace(r[|r| - 1])
    ensures forall i :: |r| <= i < |s| ==> IsSpace(s[i])
  {
    if |s| > 0 && IsSpace(s[|s| - 1]) then RStrip(s[..|s| - 1]) else s
  }

  function LStrip(s: string): (r: string)
    ensures r == s[SpanSpace(s)..]
  {
    s[SpanSpace(s)..]
  }

  /** `s.strip()`: without leading and trailing whitespace. */
  function Strip(s: string): (r: string)
    ensures r == [] || (!IsSpace(r[0]) && !IsSpace(r[|r| - 1]))
  {
    RStrip(LStrip(s))
  }

  /** Stripping keeps a prefix whose first and last characters are not whitespace. */
  lemma StripKeepsPrefix(s: string, p: string)
    requires |p| > 0 && StartsWith(s, p)
    requires !IsSpace(p[0]) && !IsSpace(p[|p| - 1])
    ensures StartsWith(Strip(s), p)
  {
    assert SpanSpace(s) == 0;
    assert LStrip(s) == s;
    var r := RStrip(s);
    assert s[|p| - 1] == p[|p| - 1];
    assert |r| >= |p|;
    assert r[..|p|] == s[..|p|];
  }

  /** A string without leading or trailing whitespace is its own strip. */
  lemma StripNoop(s: string)
    requires s == [] || (!IsSpace(s[0]) && !IsSpace(s[|s| - 1]))
    ensures Strip(s) == s
  {
    if s != [] {
      assert SpanSpace(s) == 0;
      assert LStrip(s) == s;
    }
  }

  /** Lower-casing keeps whitespace and non-whitespace apart, so it commutes with strip(). */
  lemma StripLower(s: string)
    ensures Strip(Lower(s)) == Lower(Strip(s))
  {
    SpanSpaceLower(s);
    var k := SpanSpace(s);
    assert Lower(s)[k..] == Lower(s[k..]);
    RStripLower(s[k..]);
  }

  lemma LowerKeepsSpace(c: char)
    ensures IsSpace(LowerChar(c)) <==> IsSpace(c)
  {
  }

  lemma {:induction false} SpanSpaceLower(s: string)
    ensures SpanSpace(Lower(s)) == SpanSpace(s)
    decreases |s|
  {
    if |s| > 0 {
      LowerKeepsSpace(s[0]);
      assert Lower(s)[1..] == Lower(s[1..]);
      SpanSpaceLower(s[1..]);
    }
  }

  lemma {:induction false} RStripLower(t: string)
    ensures RStrip(Lower(t)) == Lower(RStrip(t))
    decreases |t|
  {
    if |t| > 0 {
      LowerKeepsSpace(t[|t| - 1]);
      assert Lower(t)[..|t| - 1] == Lower(t[..|t| - 1]);
      RStripLower(t[..|t| - 1]);
    }
  }

  /** Joining whitespace-free, non-empty words with single spaces and splitting on whitespace gives the words back. */
  lemma {:induction false} TokensJoin(ws: seq<string>)
    requires forall k :: 0 <= k < |ws| ==> |ws[k]| > 0 && NoSpace(ws[k])
    ensures Tokens(Join(" ", ws)) == ws
    decreases |ws|
  {
    if |ws| == 0 {
      assert SpanSpace("") == 0;
    } else if |ws| == 1 {
      TokensOfWord(ws[0], "");
      assert ws[0] + "" == ws[0];
      assert SpanSpace("") == 0;
    } else {
      var tail := Join(" ", ws[1..]);
      TokensJoin(ws[1..]);
      assert Join(" ", ws) == ws[0] + " " + tail;
      TokensSpaced(ws[0], tail, ws[1..]);
      assert [ws[0]] + ws[1..] == ws;
    }
  }

  /** A word, a space and more text: the word, then the text's tokens. */
  lemma TokensSpaced(w: string, tail: string, rest: seq<string>)
    requires |w| > 0 && NoSpace(w) && Tokens(tail) == rest
    ensures Tokens(w + " " + tail) == [w] + rest
  {
    assert w + " " + tail == w + (" " + tail);
    TokensOfWord(w, " " + tail);
    TokensSkipSpace(" ", tail);
  }

  // ---------------------------------------------------------------------
  // splitlines()
  // ---------------------------------------------------------------------

  /** The line boundaries `str.splitlines()` recognises ("\r\n" counts as one). */
  predicate IsLineBreak(c: char) {
    c == '\n' || c == '\r' || c == '\U{0B}' || c == '\U{0C}'
    || ('\U{1C}' <= c <= '\U{1E}') || c == '\U{85}' || c == '\U{2028}' || c == '\U{2029}'
  }

  /** Index of the first line boundary, if any. */
  function FindBreak(s: string): (r: Option<nat>)
    ensures r.Some? ==> r.value < |s| && IsLineBreak(s[r.value])
    ensures r.Some? ==> forall j :: 0 <= j < r.value ==> !IsLineBreak(s[j])
    ensures r.None? ==> forall j :: 0 <= j < |s| ==> !IsLineBreak(s[j])
  {
    if |s| == 0 then None
    else if IsLineBreak(s[0]) then Some(0)
    else match FindBreak(s[1..]) { case Some(j) => Some(j + 1) case None => None }
  }

  /** `s.splitlines()`: the lines without their boundaries and without a trailing empty line. */
  function SplitLines(s: string): (lines: seq<string>)
    ensures forall k :: 0 <= k < |lines| ==> FindBreak(lines[k]).None?
    decreases |s|
  {
    match FindBreak(s)
    case None => if |s| == 0 then [] else [s]
    case Some(i) =>
      var width := if s[i] == '\r' && i + 1 < |s| && s[i + 1] == '\n' then 2 else 1;
      [s[..i]] + SplitLines(s[i + width..])
  }

  // ---------------------------------------------------------------------
  // Insertion-ordered dictionaries
  // ---------------------------------------------------------------------

  /** A Python dict: (key, value) pairs in insertion order, each key once. */
  type Dict<V> = seq<(string, V)>

  predicate HasKey<V>(d: Dict<V>, k: string) {
    exists i :: 0 <= i < |d| && d[i].0 == k
  }

  predicate DistinctKeys<V>(d: Dict<V>) {
    forall i, j :: 0 <= i < j < |d| ==> d[i].0 != d[j].0
  }

  /** Position of a key, if present. */
  function IndexOf<V>(d: Dict<V>, k: string): (r: Option<nat>)
    ensures r.Some? ==> r.value < |d| && d[r.value].0 == k
    ensures r.Some? ==> forall j :: 0 <= j < r.value ==> d[j].0 != k
    ensures r.None? <==> !HasKey(d, k)
  {
    if |d| == 0 then None
    else if d[0].0 == k then Some(0)
    else match IndexOf(d[1..], k) {
      case Some(j) => Some(j + 1)
      case None => assert forall i :: 1 <= i < |d| ==> d[i] == d[1..][i - 1]; None
    }
  }

  /** `d[k]` (a KeyError when k is missing). */
  function Get<V>(d: Dict<V>, k: string): Result<V>
  {
    match IndexOf(d, k)
    case Some(i) => Ok(d[i].1)
    case None => Err(KeyError(""))
  }

  /** `d[k] = v`: an existing key keeps its place, a new key goes last. */
  function Put<V>(d: Dict<V>, k: string, v: V): (r: Dict<V>)
    ensures DistinctKeys(d) ==> DistinctKeys(r)
    ensures HasKey(d, k) ==> |r| == |d|
    ensures !HasKey(d, k) ==> r == d + [(k, v)]
    ensures Get(r, k) == Ok(v)
    ensures forall k' :: k' != k ==> Get(r, k') == Get(d, k')
  {
    match IndexOf(d, k)
    case Some(i) =>
      var r := d[i := (k, v)];
      assert forall j :: 0 <= j < |d| && j != i ==> r[j] == d[j];
      assert r[i].0 == k;
      assert HasKey(r, k);
      assert IndexOf(r, k) == Some(i);
      assert forall k' :: k' != k ==> IndexOf(r, k') == IndexOf(d, k') by {
        forall k' | k' != k ensures IndexOf(r, k') == IndexOf(d, k') {
          IndexOfUpdate(d, i, k, v, k');
        }
      }
      r
    case None =>
      var r := d + [(k, v)];
      assert forall k' :: k' != k ==> IndexOf(r, k') == IndexOf(d, k') by {
        forall k' | k' != k ensures IndexOf(r, k') == IndexOf(d, k') {
          IndexOfAppend(d, k, v, k');
        }
      }
      IndexOfAppendNew(d, k, v);
      r
  }

  lemma {:induction false} IndexOfUpdate<V>(d: Dict<V>, i: nat, k: string, v: V, k': string)
    requires i < |d| && d[i].0 == k && k' != k
    ensures IndexOf(d[i := (k, v)], k') == IndexOf(d, k')
    decreases |d|
  {
    var r := d[i := (k, v)];
    if |d| > 0 && d[0].0 != k' {
      if i > 0 {
        assert r[1..] == d[1..][i - 1 := (k, v)];
        IndexOfUpdate(d[1..], i - 1, k, v, k');
      } else {
        assert r[1..] == d[1..];
      }
    }
  }

  lemma {:induction false} IndexOfAppend<V>(d: Dict<V>, k: string, v: V, k': string)
    requires k' != k
    ensures IndexOf(d + [(k, v)], k') == IndexOf(d, k')
    decreases |d|
  {
    var r := d + [(k, v)];
    if |d| > 0 && d[0].0 != k' {
      assert r[1..] == d[1..] + [(k, v)];
      IndexOfAppend(d[1..], k, v, k');
    }
  }

  lemma IndexOfAppendNew<V>(d: Dict<V>, k: string, v: V)
    requires !HasKey(d, k)
    ensures IndexOf(d + [(k, v)], k) == Some(|d|)
  {
    var r := d + [(k, v)];
    assert r[|d|].0 == k;
    assert forall j :: 0 <= j < |d| ==> r[j] == d[j];
  }

  /** Successive `d[k] = v` for the pairs, in order. */
  function PutAll<V>(d: Dict<V>, ps: seq<(string, V)>): Dict<V>
    decreases |ps|
  {
    if |ps| == 0 then d else PutAll(Put(d, ps[0].0, ps[0].1), ps[1..])
  }

  /** Index of the last pair with key k. */
  function LastWith<V>(ps: seq<(string, V)>, k: string): (r: Option<nat>)
    ensures r.Some? ==> r.value < |ps| && ps[r.value].0 == k
    ensures r.Some? ==> forall j :: r.value < j < |ps| ==> ps[j].0 != k
    ensures r.None? ==> forall j :: 0 <= j < |ps| ==> ps[j].0 != k
  {
    if |ps| == 0 then None
    else if ps[|ps| - 1].0 == k then Some(|ps| - 1)
    else LastWith(ps[..|ps| - 1], k)
  }

  /**
   * After a run of assignments a key maps to the value of its last
   * assignment, and to its target value when it was not assigned.
   */
  lemma {:induction false} PutAllGet<V>(d: Dict<V>, ps: seq<(string, V)>, k: string)
    ensures LastWith(ps, k).Some? ==> Get(PutAll(d, ps), k) == Ok(ps[LastWith(ps, k).value].1)
    ensures LastWith(ps, k).None? ==> Get(PutAll(d, ps), k) == Get(d, k)
    decreases |ps|
  {
    if |ps| > 0 {
      var d' := Put(d, ps[0].0, ps[0].1);
      PutAllGet(d', ps[1..], k);
      PutAllGetCons(d, ps, k, Get(PutAll(d', ps[1..]), k));
    }
  }

  /** The step of PutAllGet: the first assignment only matters when no later one has the key. */
  lemma PutAllGetCons<V>(d: Dict<V>, ps: seq<(string, V)>, k: string, g: Result<V>)
    requires |ps| > 0 && g == Get(PutAll(Put(d, ps[0].0, ps[0].1), ps[1..]), k)
    requires LastWith(ps[1..], k).Some? ==> g == Ok(ps[1..][LastWith(ps[1..], k).value].1)
    requires LastWith(ps[1..], k).None? ==> g == Get(Put(d, ps[0].0, ps[0].1), k)
    ensures LastWith(ps, k).Some? ==> Get(PutAll(d, ps), k) == Ok(ps[LastWith(ps, k).value].1)
    ensures LastWith(ps, k).None? ==> Get(PutAll(d, ps), k) == Get(d, k)
  {
    assert PutAll(d, ps) == PutAll(Put(d, ps[0].0, ps[0].1), ps[1..]);
    LastWithTail(ps, k);
    if LastWith(ps[1..], k).Some? {
      var j := LastWith(ps[1..], k).value;
      assert ps[1..][j] == ps[j + 1];
    }
  }

  lemma LastWithTail<V>(ps: seq<(string, V)>, k: string)
    requires |ps| > 0
    ensures LastWith(ps[1..], k).Some? ==> LastWith(ps, k) == Some(LastWith(ps[1..], k).value + 1)
    ensures LastWith(ps[1..], k).None? ==> (if ps[0].0 == k then LastWith(ps, k) == Some(0) else LastWith(ps, k).None?)
  {
    var t := LastWith(ps[1..], k);
    assert forall j :: 1 <= j < |ps| ==> ps[j] == ps[1..][j - 1];
    if t.Some? {
      assert ps[t.value + 1] == ps[1..][t.value];
    }
  }

  /** Appending one pair is one more assignment. */
  lemma {:induction false} PutAllSnoc<V>(d: Dict<V>, ps: seq<(string, V)>, p: (string, V))
    ensures PutAll(d, ps + [p]) == Put(PutAll(d, ps), p.0, p.1)
    decreases |ps|
  {
    if |ps| == 0 {
      assert [p][1..] == [];
    } else {
      assert (ps + [p])[1..] == ps[1..] + [p];
      PutAllSnoc(Put(d, ps[0].0, ps[0].1), ps[1..], p);
    }
  }

  lemma {:induction false} PutAllAppend<V>(d: Dict<V>, ps: seq<(string, V)>, qs: seq<(string, V)>)
    ensures PutAll(d, ps + qs) == PutAll(PutAll(d, ps), qs)
    decreases |ps|
  {
    if |ps| == 0 {
      assert ps + qs == qs;
    } else {
      assert (ps + qs)[1..] == ps[1..] + qs;
      PutAllAppend(Put(d, ps[0].0, ps[0].1), ps[1..], qs);
    }
  }
}
