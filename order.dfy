/**
 * The two orders the conversion walks the compendium in:
 * `sorted(...)` over category names (Python compares strings code point
 * by code point) and `sorted(parse_version(x) for x in ...)` over module
 * and requirement numbers. Both are a stable sort of keyed entries; a key
 * is a sequence of integers compared lexicographically, a shorter prefix
 * first, as Python compares strings and tuples.
 */
module Order {
  import opened Py

  // ---------------------------------------------------------------------
  // Lexicographic order on integer sequences
  // ---------------------------------------------------------------------

  /** `a <= b` for Python strings (as code points) and tuples. */
  predicate LexLe(a: seq<int>, b: seq<int>) {
    |a| == 0 || (|b| > 0 && (a[0] < b[0] || (a[0] == b[0] && LexLe(a[1..], b[1..]))))
  }

  lemma {:induction false} LexTotal(a: seq<int>, b: seq<int>)
    ensures LexLe(a, b) || LexLe(b, a)
  {
    if |a| > 0 && |b| > 0 && a[0] == b[0] {
      LexTotal(a[1..], b[1..]);
    }
  }

  lemma {:induction false} LexTrans(a: seq<int>, b: seq<int>, c: seq<int>)
    requires LexLe(a, b) && LexLe(b, c)
    ensures LexLe(a, c)
  {
    if |a| > 0 && a[0] == b[0] && b[0] == c[0] {
      LexTrans(a[1..], b[1..], c[1..]);
    }
  }

  lemma {:induction false} LexAntisym(a: seq<int>, b: seq<int>)
    requires LexLe(a, b) && LexLe(b, a)
    ensures a == b
  {
    if |a| > 0 {
      LexAntisym(a[1..], b[1..]);
      assert a == [a[0]] + a[1..] && b == [b[0]] + b[1..];
    }
  }

  // ---------------------------------------------------------------------
  // Stable sort of keyed entries
  // ---------------------------------------------------------------------

  /** An entry to sort: its key and the text it stands for. */
  type Keyed = (seq<int>, string)

  predicate Sorted(xs: seq<Keyed>) {
    forall i, j :: 0 <= i < j < |xs| ==> LexLe(xs[i].0, xs[j].0)
  }

  /** The texts of the entries, in order. */
  function Texts(xs: seq<Keyed>): (r: seq<string>)
    ensures |r| == |xs|
    ensures forall i :: 0 <= i < |xs| ==> r[i] == xs[i].1
  {
    if |xs| == 0 then [] else [xs[0].1] + Texts(xs[1..])
  }

  /**
   * Puts `x` before the first entry whose key is not smaller, so that
   * entries with equal keys keep the order they were given in.
   */
  function Insert(xs: seq<Keyed>, x: Keyed): (r: seq<Keyed>)
    ensures |r| == |xs| + 1
    ensures multiset(r) == multiset(xs) + multiset{x}
  {
    if |xs| == 0 || LexLe(x.0, xs[0].0) then [x] + xs
    else
      assert xs == [xs[0]] + xs[1..];
      [xs[0]] + Insert(xs[1..], x)
  }

  /** Insertion sort: the earliest entry is inserted last, before its equals. */
  function Sort(xs: seq<Keyed>): (r: seq<Keyed>)
    ensures |r| == |xs|
    ensures multiset(r) == multiset(xs)
  {
    if |xs| == 0 then [] else
      assert xs == [xs[0]] + xs[1..];
      Insert(Sort(xs[1..]), xs[0])
  }

  /** Every key of `xs` is at least `k`. */
  predicate Above(k: seq<int>, xs: seq<Keyed>) {
    forall j :: 0 <= j < |xs| ==> LexLe(k, xs[j].0)
  }

  lemma SortedCons(x: Keyed, xs: seq<Keyed>)
    requires Sorted(xs) && Above(x.0, xs)
    ensures Sorted([x] + xs)
  {
    var r := [x] + xs;
    forall i, j | 0 <= i < j < |r| ensures LexLe(r[i].0, r[j].0) {
      if i > 0 {
        assert r[i] == xs[i - 1] && r[j] == xs[j - 1];
      }
    }
  }

  lemma AboveSorted(x: Keyed, xs: seq<Keyed>)
    requires Sorted(xs) && |xs| > 0 && LexLe(x.0, xs[0].0)
    ensures Above(x.0, xs)
  {
    forall j | 0 <= j < |xs| ensures LexLe(x.0, xs[j].0) {
      if j > 0 {
        LexTrans(x.0, xs[0].0, xs[j].0);
      }
    }
  }

  /** An entry below every key of `xs` and `x` stays below after the insertion. */
  lemma AboveInsert(k: seq<int>, xs: seq<Keyed>, x: Keyed)
    requires Above(k, xs) && LexLe(k, x.0)
    ensures Above(k, Insert(xs, x))
  {
    var r := Insert(xs, x);
    forall j | 0 <= j < |r| ensures LexLe(k, r[j].0) {
      assert r[j] in multiset(r);
      if r[j] != x {
        assert r[j] in multiset(xs);
        var i :| 0 <= i < |xs| && xs[i] == r[j];
      }
    }
  }

  lemma {:induction false} InsertSorted(xs: seq<Keyed>, x: Keyed)
    requires Sorted(xs)
    ensures Sorted(Insert(xs, x))
  {
    if |xs| == 0 {
    } else if LexLe(x.0, xs[0].0) {
      AboveSorted(x, xs);
      SortedCons(x, xs);
    } else {
      LexTotal(x.0, xs[0].0);
      var tail := xs[1..];
      assert Sorted(tail);
      InsertSorted(tail, x);
      if |tail| > 0 {
        assert tail[0] == xs[1];
        AboveSorted(xs[0], tail);
      }
      AboveInsert(xs[0].0, tail, x);
      SortedCons(xs[0], Insert(tail, x));
    }
  }

  /** The sort orders by key. */
  lemma {:induction false} SortSorted(xs: seq<Keyed>)
    ensures Sorted(Sort(xs))
  {
    if |xs| > 0 {
      SortSorted(xs[1..]);
      InsertSorted(Sort(xs[1..]), xs[0]);
    }
  }

  lemma {:induction false} InsertTexts(xs: seq<Keyed>, x: Keyed)
    ensures multiset(Texts(Insert(xs, x))) == multiset(Texts(xs)) + multiset{x.1}
  {
    if |xs| == 0 || LexLe(x.0, xs[0].0) {
      assert ([x] + xs)[1..] == xs;
    } else {
      InsertTexts(xs[1..], x);
      var r := [xs[0]] + Insert(xs[1..], x);
      assert r[1..] == Insert(xs[1..], x);
      assert multiset(Texts(xs)) == multiset{xs[0].1} + multiset(Texts(xs[1..]));
    }
  }

  /** The sort keeps every text as often as it was given. */
  lemma {:induction false} SortTexts(xs: seq<Keyed>)
    ensures multiset(Texts(Sort(xs))) == multiset(Texts(xs))
  {
    if |xs| > 0 {
      SortTexts(xs[1..]);
      InsertTexts(Sort(xs[1..]), xs[0]);
      assert multiset(Texts(xs)) == multiset{xs[0].1} + multiset(Texts(xs[1..]));
    }
  }

  /** The entries of `xs` whose key is `k`, in their order. */
  function WithKey(xs: seq<Keyed>, k: seq<int>): (r: seq<Keyed>)
    ensures |r| <= |xs|
    ensures forall i :: 0 <= i < |r| ==> r[i].0 == k && r[i] in xs
  {
    if |xs| == 0 then []
    else (if xs[0].0 == k then [xs[0]] else []) + WithKey(xs[1..], k)
  }

  /** `WithKey` of an entry followed by more entries. */
  lemma WithKeyCons(x: Keyed, xs: seq<Keyed>, k: seq<int>)
    ensures WithKey([x] + xs, k) == (if x.0 == k then [x] else []) + WithKey(xs, k)
  {
    assert ([x] + xs)[1..] == xs;
  }

  lemma {:induction false} InsertWithKey(xs: seq<Keyed>, x: Keyed, k: seq<int>)
    ensures WithKey(Insert(xs, x), k) == (if x.0 == k then [x] else []) + WithKey(xs, k)
  {
    if |xs| == 0 || LexLe(x.0, xs[0].0) {
      WithKeyCons(x, xs, k);
    } else {
      var y, rest := xs[0], xs[1..];
      assert xs == [y] + rest;
      assert Insert(xs, x) == [y] + Insert(rest, x);
      InsertWithKey(rest, x, k);
      WithKeyCons(y, Insert(rest, x), k);
      WithKeyCons(y, rest, k);
      if x.0 == k {
        LexTotal(k, k);
        assert y.0 != k;
      }
    }
  }

  /**
   * The sort is stable: the entries with any one key come out in the
   * order they were given in, as with Python's `sorted`.
   */
  lemma {:induction false} SortStable(xs: seq<Keyed>, k: seq<int>)
    ensures WithKey(Sort(xs), k) == WithKey(xs, k)
  {
    if |xs| > 0 {
      SortStable(xs[1..], k);
      InsertWithKey(Sort(xs[1..]), xs[0], k);
    }
  }

  /** Entries whose key is the image of their text under `key`. */
  function KeyedBy(texts: seq<string>, key: string -> seq<int>): (r: seq<Keyed>)
    ensures |r| == |texts|
    ensures forall i :: 0 <= i < |texts| ==> r[i] == (key(texts[i]), texts[i])
    ensures Texts(r) == texts
  {
    if |texts| == 0 then [] else [(key(texts[0]), texts[0])] + KeyedBy(texts[1..], key)
  }

  /**
   * Sorting texts by a key of their own: the result is a permutation of
   * the texts, in non-decreasing key order.
   */
  lemma SortKeyedBy(texts: seq<string>, key: string -> seq<int>)
    ensures multiset(Texts(Sort(KeyedBy(texts, key)))) == multiset(texts)
    ensures forall i, j :: 0 <= i < j < |texts| ==>
      LexLe(key(Texts(Sort(KeyedBy(texts, key)))[i]), key(Texts(Sort(KeyedBy(texts, key)))[j]))
  {
    var xs := KeyedBy(texts, key);
    var r := Sort(xs);
    SortSorted(xs);
    SortTexts(xs);
    SortKeepsKeys(texts, key);
    var t := Texts(r);
    forall i, j | 0 <= i < j < |texts| ensures LexLe(key(t[i]), key(t[j])) {
      assert LexLe(r[i].0, r[j].0);
    }
  }

  /** Every sorted entry still carries the key of its own text. */
  lemma SortKeepsKeys(texts: seq<string>, key: string -> seq<int>)
    ensures forall i :: 0 <= i < |texts| ==> Sort(KeyedBy(texts, key))[i].0 == key(Sort(KeyedBy(texts, key))[i].1)
  {
    var xs := KeyedBy(texts, key);
    var r := Sort(xs);
    forall i | 0 <= i < |r| ensures r[i].0 == key(r[i].1) {
      assert r[i] in multiset(xs);
      var k :| 0 <= k < |xs| && xs[k] == r[i];
    }
  }

  // ---------------------------------------------------------------------
  // sorted() on category names
  // ---------------------------------------------------------------------

  /** The code points of a string: Python orders strings by these. */
  function CodePoints(s: string): (r: seq<int>)
    ensures |r| == |s|
    ensures forall i :: 0 <= i < |s| ==> r[i] == s[i] as int
  {
    seq(|s|, i requires 0 <= i < |s| => s[i] as int)
  }

  /** `sorted(names)` */
  function SortedNames(names: seq<string>): seq<string> {
    Texts(Sort(KeyedBy(names, CodePoints)))
  }

  /** The sorted names are the given names, in code point order. */
  lemma SortedNamesOrder(names: seq<string>)
    ensures multiset(SortedNames(names)) == multiset(names)
    ensures forall i, j :: 0 <= i < j < |names| ==>
      LexLe(CodePoints(SortedNames(names)[i]), CodePoints(SortedNames(names)[j]))
  {
    SortKeyedBy(names, CodePoints);
  }

  // ---------------------------------------------------------------------
  // parse_version for dotted decimal numbers
  // ---------------------------------------------------------------------

  predicate IsDigit(c: char) {
    '0' <= c <= '9'
  }

  /** A non-empty run of decimal digits. */
  predicate IsNumeral(p: string) {
    |p| > 0 && forall i :: 0 <= i < |p| ==> IsDigit(p[i])
  }

  /** A numeral without superfluous leading zeros: what `str(int)` writes. */
  predicate IsCanonicalNumeral(p: string) {
    IsNumeral(p) && (p[0] != '0' || |p| == 1)
  }

  /** The value of a numeral. */
  function NumeralValue(p: string): nat
    requires IsNumeral(p)
  {
    var d := (p[|p| - 1] as int - '0' as int);
    if |p| == 1 then d else 10 * NumeralValue(p[..|p| - 1]) + d
  }

  /** `str(n)` */
  function NatStr(n: nat): (r: string)
    ensures IsCanonicalNumeral(r)
  {
    var d := ((n % 10) + '0' as int) as char;
    if n < 10 then [d] else NatStr(n / 10) + [d]
  }

  lemma {:induction false} NumeralPositive(p: string)
    requires IsNumeral(p) && p[0] != '0'
    ensures NumeralValue(p) >= 1
  {
    if |p| > 1 {
      NumeralPositive(p[..|p| - 1]);
    }
  }

  /** Reading a canonical numeral and writing the number gives it back. */
  lemma {:induction false} NumeralRoundTrip(p: string)
    requires IsCanonicalNumeral(p)
    ensures NatStr(NumeralValue(p)) == p
  {
    if |p| > 1 {
      var init := p[..|p| - 1];
      var d := p[|p| - 1] as int - '0' as int;
      NumeralPositive(init);
      NumeralRoundTrip(init);
      LastDigit(NumeralValue(init), d);
      assert p == init + [p[|p| - 1]];
    }
  }

  /** The last decimal digit of 10q + d is d, and the rest is q. */
  lemma LastDigit(q: nat, d: int)
    requires 0 <= d < 10
    ensures (10 * q + d) / 10 == q && (10 * q + d) % 10 == d
  {
  }

  /** Writing a number and reading it back gives the number. */
  lemma {:induction false} NatStrRoundTrip(n: nat)
    ensures NumeralValue(NatStr(n)) == n
  {
    if n >= 10 {
      NatStrRoundTrip(n / 10);
      var s := NatStr(n);
      assert s[..|s| - 1] == NatStr(n / 10);
    }
  }

  predicate AllNumerals(pieces: seq<string>) {
    forall k :: 0 <= k < |pieces| ==> IsNumeral(pieces[k])
  }

  /**
   * `parse_version(x)` for the release numbers the compendium uses
   * ("1", "4.4", "1.2.2"): dot-separated numerals. Anything else raises
   * packaging's InvalidVersion, a ValueError.
   */
  function ParseRelease(x: string): (r: Result<seq<nat>>)
    ensures r.Ok? <==> AllNumerals(Split(x, "."))
    ensures r.Ok? ==> |r.value| == |Split(x, ".")|
                      && forall k :: 0 <= k < |r.value| ==> r.value[k] == NumeralValue(Split(x, ".")[k])
    ensures r.Err? ==> r.error == ValueError("Invalid version: '" + x + "'")
  {
    var pieces := Split(x, ".");
    if AllNumerals(pieces) then
      Ok(seq(|pieces|, k requires 0 <= k < |pieces| => NumeralValue(pieces[k])))
    else
      Err(ValueError("Invalid version: '" + x + "'"))
  }

  /** `str(version)` of a release: its numbers written out and joined by dots. */
  function ReleaseStr(v: seq<nat>): string {
    Join(".", seq(|v|, k requires 0 <= k < |v| => NatStr(v[k])))
  }

  /** The comparison key of a release: trailing zeros do not count ("1.0" == "1"). */
  function ReleaseKey(v: seq<nat>): (r: seq<int>)
    ensures |r| <= |v|
    ensures |r| > 0 ==> r[|r| - 1] != 0
    ensures forall k :: 0 <= k < |r| ==> r[k] == v[k]
    ensures forall k :: |r| <= k < |v| ==> v[k] == 0
  {
    if |v| > 0 && v[|v| - 1] == 0 then ReleaseKey(v[..|v| - 1]) else v
  }

  /** A release number in the form `str(parse_version(x))` writes. */
  predicate IsCanonicalRelease(x: string) {
    forall k :: 0 <= k < |Split(x, ".")| ==> IsCanonicalNumeral(Split(x, ".")[k])
  }

  /** The sort key of a release number, for numbers that parse. */
  function VersionKey(x: string): seq<int> {
    match ParseRelease(x)
    case Ok(v) => ReleaseKey(v)
    case Err(_) => []
  }

  /** Parsing then printing gives back a canonical release number. */
  lemma CanonicalReleaseRoundTrip(x: string)
    requires IsCanonicalRelease(x)
    ensures ParseRelease(x).Ok? && ReleaseStr(ParseRelease(x).value) == x
  {
    var pieces := Split(x, ".");
    var v := ParseRelease(x).value;
    var written := seq(|v|, k requires 0 <= k < |v| => NatStr(v[k]));
    forall k | 0 <= k < |pieces| ensures written[k] == pieces[k] {
      NumeralRoundTrip(pieces[k]);
    }
    assert written == pieces;
    JoinSplit(x, ".");
  }

  /** The entries `sorted(parse_version(x) for x in keys)` sorts; the first invalid key stops it. */
  function VersionEntries(keys: seq<string>): (r: Result<seq<Keyed>>)
    ensures r.Ok? ==> |r.value| == |keys|
    ensures r.Ok? ==> forall i :: 0 <= i < |keys| ==> ParseRelease(keys[i]).Ok?
    ensures r.Err? ==> exists i :: 0 <= i < |keys| && ParseRelease(keys[i]) == Err(r.error)
    ensures r.Ok? ==> forall i :: 0 <= i < |keys| ==>
      r.value[i] == (ReleaseKey(ParseRelease(keys[i]).value), ReleaseStr(ParseRelease(keys[i]).value))
  {
    if |keys| == 0 then Ok([])
    else match ParseRelease(keys[0])
      case Err(e) => Err(e)
      case Ok(v) =>
        match VersionEntries(keys[1..])
        case Err(e) => Err(e)
        case Ok(rest) => Ok([(ReleaseKey(v), ReleaseStr(v))] + rest)
  }

  /** `[str(parse_version(x)) for x in keys]`, for keys that all parse. */
  function Printed(keys: seq<string>): (r: seq<string>)
    requires forall i :: 0 <= i < |keys| ==> ParseRelease(keys[i]).Ok?
    ensures |r| == |keys|
    ensures forall i :: 0 <= i < |keys| ==> r[i] == ReleaseStr(ParseRelease(keys[i]).value)
  {
    if |keys| == 0 then [] else [ReleaseStr(ParseRelease(keys[0]).value)] + Printed(keys[1..])
  }

  /**
   * `[str(v) for v in sorted(parse_version(x) for x in keys)]`: it raises
   * exactly when some key is not a version, with that key's error, and
   * otherwise holds every key's printed version as often as it occurs.
   */
  function SortedVersions(keys: seq<string>): (r: Result<seq<string>>)
    ensures r.Ok? <==> forall i :: 0 <= i < |keys| ==> ParseRelease(keys[i]).Ok?
    ensures r.Err? ==> exists i :: 0 <= i < |keys| && ParseRelease(keys[i]) == Err(r.error)
    ensures r.Ok? ==> multiset(r.value) == multiset(Printed(keys))
  {
    match VersionEntries(keys)
    case Err(e) => Err(e)
    case Ok(es) =>
      SortTexts(es);
      assert Texts(es) == Printed(keys);
      Ok(Texts(Sort(es)))
  }

  lemma {:induction false} VersionEntriesCanonical(keys: seq<string>)
    requires forall i :: 0 <= i < |keys| ==> IsCanonicalRelease(keys[i])
    ensures VersionEntries(keys) == Ok(KeyedBy(keys, VersionKey))
  {
    if |keys| > 0 {
      CanonicalReleaseRoundTrip(keys[0]);
      VersionEntriesCanonical(keys[1..]);
    }
  }

  /**
   * For canonical release numbers the sorted strings are exactly the keys,
   * in version order, so that looking them up again cannot miss.
   */
  lemma SortedVersionsOrder(keys: seq<string>)
    requires forall i :: 0 <= i < |keys| ==> IsCanonicalRelease(keys[i])
    ensures SortedVersions(keys).Ok?
    ensures multiset(SortedVersions(keys).value) == multiset(keys)
    ensures forall i, j :: 0 <= i < j < |keys| ==>
      LexLe(VersionKey(SortedVersions(keys).value[i]), VersionKey(SortedVersions(keys).value[j]))
  {
    VersionEntriesCanonical(keys);
    SortKeyedBy(keys, VersionKey);
  }

  /** A key that does not parse stops the sort with its error. */
  lemma SortedVersionsInvalid(keys: seq<string>, i: nat)
    requires i < |keys| && ParseRelease(keys[i]).Err?
    ensures SortedVersions(keys).Err?
  {
  }

  /** The release of two dot-free numerals. */
  lemma ParseTwo(a: string, b: string)
    requires IsNumeral(a) && IsNumeral(b) && NoChar(a, '.') && NoChar(b, '.')
    ensures ParseRelease(a + "." + b) == Ok([NumeralValue(a), NumeralValue(b)])
  {
    SplitDotted(a, b);
    var v := ParseRelease(a + "." + b);
    assert AllNumerals([a, b]);
    assert v.Ok? && |v.value| == 2;
    assert v.value[0] == NumeralValue(a) && v.value[1] == NumeralValue(b);
    assert v.value == [NumeralValue(a), NumeralValue(b)];
  }

  /** The release of one canonical numeral. */
  lemma ParseOne(a: string)
    requires IsNumeral(a) && NoChar(a, '.')
    ensures ParseRelease(a) == Ok([NumeralValue(a)])
  {
    SplitUndotted(a);
    assert AllNumerals([a]);
    var v := ParseRelease(a);
    assert v.Ok? && |v.value| == 1 && v.value[0] == NumeralValue(a);
    assert v.value == [NumeralValue(a)];
  }

  /** A trailing zero component does not change the comparison key. */
  lemma ZeroComponentIgnored(a: string, b: string)
    requires IsNumeral(a) && IsNumeral(b) && NoChar(a, '.') && NoChar(b, '.') && NumeralValue(b) == 0
    ensures VersionKey(a + "." + b) == VersionKey(a)
  {
    ParseTwo(a, b);
    ParseOne(a);
    var n := NumeralValue(a);
    assert VersionKey(a) == ReleaseKey([n]);
    assert VersionKey(a + "." + b) == ReleaseKey([n, 0]);
    assert [n, 0][..1] == [n];
  }

  /** "1.0" and "1" compare equal. */
  lemma TrailingZeroIgnored()
    ensures VersionKey("1.0") == VersionKey("1")
  {
    assert "1" + "." + "0" == "1.0";
    assert NumeralValue("0") == 0;
    ZeroComponentIgnored("1", "0");
  }

  /** "1.10" comes after "1.9", unlike in string order. */
  lemma NumericComponents()
    ensures LexLe(VersionKey("1.9"), VersionKey("1.10")) && !LexLe(VersionKey("1.10"), VersionKey("1.9"))
  {
    assert "1" + "." + "9" == "1.9";
    assert "1" + "." + "10" == "1.10";
    ParseTwo("1", "9");
    ParseTwo("1", "10");
    assert NumeralValue("10") == 10 by {
      assert "10"[..1] == "1";
    }
    assert ReleaseKey([1, 9]) == [1, 9];
    assert ReleaseKey([1, 10]) == [1, 10];
    assert [1, 9][1..] == [9] && [1, 10][1..] == [10];
  }

  lemma SplitUndotted(a: string)
    requires NoChar(a, '.')
    ensures Split(a, ".") == [a]
  {
    forall j: nat | j < |a| ensures !OccursAt(a, ".", j) {
      assert a[j..j + 1] == [a[j]];
    }
  }

  lemma SplitDotted(a: string, b: string)
    requires NoChar(a, '.') && NoChar(b, '.')
    ensures Split(a + "." + b, ".") == [a, b]
  {
    var s := a + "." + b;
    forall j: nat | j < |a| ensures !OccursAt(s, ".", j) {
      assert s[j..j + 1] == [a[j]];
    }
    assert OccursAt(s, ".", |a|) by {
      assert s[|a|..|a| + 1] == ".";
    }
    var f := Find(s, ".");
    assert f.Some?;
    assert f.value == |a|;
    assert s[..|a|] == a;
    assert s[|a| + 1..] == b;
    SplitUndotted(b);
    SplitHead(s, ".");
  }
}
