/**
 * tools/download_and_convert.py: `get_or_create` and the table-building
 * loops of `main`, which turn the extracted compendium into the output
 * tables bausteinkategorie, baustein, rolle, anforderung, gefaehrdung
 * and anforderung_gefaehrdung.
 *
 * Every loop of `main` is a method proved against a fold (a run of
 * steps that stops at the first exception, as a Python loop does); the
 * properties of the tables are proved about the folds.
 */
module Convert {
  import opened Py
  import opened Common
  import opened Order
  import opened Bsi

  // ---------------------------------------------------------------------
  // The requirement label: re.search(r'(.*)[\s]\((.*)\)', label)
  // ---------------------------------------------------------------------

  /** A whitespace character followed by "(": where the type part of a label may open. */
  predicate OpensType(s: string, i: nat) {
    i + 1 < |s| && IsSpace(s[i]) && s[i + 1] == '('
  }

  /** The last position before `n` that holds `c`. */
  function LastIndex(s: string, c: char, n: nat): (r: Option<nat>)
    requires n <= |s|
    ensures r.Some? ==> r.value < n && s[r.value] == c
    ensures r.Some? ==> forall j :: r.value < j < n ==> s[j] != c
    ensures r.None? ==> forall j :: 0 <= j < n ==> s[j] != c
  {
    if n == 0 then None else if s[n - 1] == c then Some(n - 1) else LastIndex(s, c, n - 1)
  }

  /** The last position before `n` where a type part may open. */
  function LastOpening(s: string, n: nat): (r: Option<nat>)
    requires n <= |s|
    ensures r.Some? ==> r.value < n && OpensType(s, r.value)
    ensures r.Some? ==> forall j :: r.value < j < n ==> !OpensType(s, j)
    ensures r.None? ==> forall j :: 0 <= j < n ==> !OpensType(s, j)
  {
    if n == 0 then None else if OpensType(s, n - 1) then Some(n - 1) else LastOpening(s, n - 1)
  }

  /**
   * The title and the type of a requirement label. Both groups are greedy:
   * the type closes at the last ")" and opens at the last whitespace-"("
   * before it. A label without such a pair raises a ValueError. The
   * pattern's `.` is taken to match every character (see README).
   */
  function ParseLabel(text: string): (r: Result<(string, string)>)
    ensures r.Err? <==> forall i, j :: 0 <= i && i + 2 <= j < |text| && OpensType(text, i) ==> text[j] != ')'
    ensures r.Err? ==> r.error == ValueError("Anforderungstyp missing: " + text)
    ensures r.Ok? ==>
      var i := |r.value.0|;
      var j := i + 2 + |r.value.1|;
      && j < |text| && text[..i] == r.value.0 && OpensType(text, i)
      && text[i + 2..j] == r.value.1 && text[j] == ')'
      && (forall p :: j < p < |text| ==> text[p] != ')')
      && (forall p :: i < p && p + 2 <= j ==> !OpensType(text, p))
  {
    var err := Err(ValueError("Anforderungstyp missing: " + text));
    match LastIndex(text, ')', |text|)
    case None => err
    case Some(j) =>
      if j == 0 then err
      else match LastOpening(text, j - 1)
        case None => err
        case Some(i) => Ok((text[..i], text[i + 2..j]))
  }

  /**
   * A title, one whitespace character and a type in parentheses parse back
   * into that title and type, provided the type holds no whitespace-"(".
   */
  lemma ParseLabelCompose(title: string, space: char, kind: string)
    requires IsSpace(space)
    requires forall p :: 0 <= p < |kind| - 1 ==> !(IsSpace(kind[p]) && kind[p + 1] == '(')
    ensures ParseLabel(title + [space] + "(" + kind + ")") == Ok((title, kind))
  {
    var text := title + [space] + "(" + kind + ")";
    var i := |title|;
    var j := |text| - 1;
    LabelLayout(text, title, space, kind);
    assert LastIndex(text, ')', |text|) == Some(j);
    forall p | i < p < j - 1 ensures !OpensType(text, p) {
      if p > i + 1 {
        assert text[p] == kind[p - i - 2] && text[p + 1] == kind[p - i - 1];
      }
    }
    LastOpeningIs(text, j - 1, i);
  }

  /** Where the title, the whitespace, the parentheses and the type sit in a composed label. */
  lemma LabelLayout(text: string, title: string, space: char, kind: string)
    requires text == title + [space] + "(" + kind + ")"
    ensures |text| == |title| + |kind| + 3
    ensures text[|title|] == space && text[|title| + 1] == '(' && text[|text| - 1] == ')'
    ensures text[..|title|] == title && text[|title| + 2..|text| - 1] == kind
    ensures forall p :: |title| + 2 <= p < |text| - 1 ==> text[p] == kind[p - |title| - 2]
  {
  }

  lemma LastOpeningIs(s: string, n: nat, i: nat)
    requires n <= |s| && i < n && OpensType(s, i)
    requires forall j :: i < j < n ==> !OpensType(s, j)
    ensures LastOpening(s, n) == Some(i)
  {
  }

  // ---------------------------------------------------------------------
  // The requirement type
  // ---------------------------------------------------------------------

  /** `c in t.upper()` */
  predicate HasLetter(t: string, c: char) {
    exists i :: 0 <= i < |Upper(t)| && Upper(t)[i] == c
  }

  /**
   * The type as tools/download_and_convert.py computes it: three separate
   * `if`s, each testing the value the previous one may have replaced.
   */
  function ClassifyTypeAsWritten(kind: string): string {
    var t1 := if HasLetter(kind, 'B') then "Basis" else kind;
    var t2 := if HasLetter(t1, 'S') then "Standard" else t1;
    if HasLetter(t2, 'H') then "Hoch" else t2
  }

  /**
   * The type the three tests evidently intend: "B" a basic, "S" a standard
   * and "H" a high-protection requirement, the first matching test deciding;
   * an unrecognised type is kept as written.
   */
  function ClassifyType(kind: string): string {
    if HasLetter(kind, 'B') then "Basis"
    else if HasLetter(kind, 'S') then "Standard"
    else if HasLetter(kind, 'H') then "Hoch"
    else kind
  }

  predicate IsAsciiLetters(s: string) {
    forall i :: 0 <= i < |s| ==> 'a' <= s[i] <= 'z' || 'A' <= s[i] <= 'Z'
  }

  function AsciiUpper(c: char): char {
    if 'a' <= c <= 'z' then (c as int - 32) as char else c
  }

  /** On ASCII letters `upper()` works letter by letter. */
  lemma {:induction false} UpperAscii(s: string)
    requires IsAsciiLetters(s)
    ensures |Upper(s)| == |s|
    ensures forall i :: 0 <= i < |s| ==> Upper(s)[i] == AsciiUpper(s[i])
  {
    if |s| > 0 {
      UpperAscii(s[1..]);
      assert Upper(s) == [AsciiUpper(s[0])] + Upper(s[1..]);
    }
  }

  lemma BasisLetters()
    ensures HasLetter("Basis", 'B') && HasLetter("Basis", 'S')
  {
    UpperAscii("Basis");
    assert Upper("Basis")[0] == 'B' && Upper("Basis")[2] == 'S';
  }

  lemma StandardLetters()
    ensures HasLetter("Standard", 'S') && !HasLetter("Standard", 'H') && !HasLetter("Standard", 'B')
  {
    StandardUpper();
    assert "STANDARD"[0] == 'S';
    assert 'H' !in "STANDARD" && 'B' !in "STANDARD";
  }

  lemma StandardUpper()
    ensures Upper("Standard") == "STANDARD"
  {
    UpperAscii("Standard");
  }

  lemma HochLetters()
    ensures HasLetter("Hoch", 'H') && !HasLetter("Hoch", 'B') && !HasLetter("Hoch", 'S')
  {
    var w := "Hoch";
    UpperAscii(w);
    assert Upper(w) == "HOCH";
    assert Upper(w)[0] == 'H';
    assert 'B' !in "HOCH" && 'S' !in "HOCH";
  }

  lemma TypeNameLetters()
    ensures HasLetter("Basis", 'B') && HasLetter("Basis", 'S')
    ensures HasLetter("Standard", 'S') && !HasLetter("Standard", 'H') && !HasLetter("Standard", 'B')
    ensures HasLetter("Hoch", 'H') && !HasLetter("Hoch", 'B') && !HasLetter("Hoch", 'S')
  {
    BasisLetters();
    StandardLetters();
    HochLetters();
  }

  /**
   * As written, a type with a "B" is first set to "Basis", which holds an
   * "S" and so becomes "Standard": no requirement is ever classified basic.
   */
  lemma ClassifyTypeAsWrittenNeverBasis(kind: string)
    ensures ClassifyTypeAsWritten(kind) != "Basis"
    ensures HasLetter(kind, 'B') ==> ClassifyTypeAsWritten(kind) == "Standard"
  {
    TypeNameLetters();
  }

  /** The smallest witness: the type "B" of a basic requirement. */
  lemma ClassifyTypeAsWrittenOnB()
    ensures ClassifyTypeAsWritten("B") == "Standard"
    ensures ClassifyType("B") == "Basis"
  {
    assert Upper("B") == "B";
    assert Upper("B")[0] == 'B';
    ClassifyTypeAsWrittenNeverBasis("B");
  }

  /** The correction changes exactly the types holding a "B". */
  lemma ClassifyTypeFixesOnlyB(kind: string)
    ensures ClassifyType(kind) == ClassifyTypeAsWritten(kind) <==> !HasLetter(kind, 'B')
  {
    TypeNameLetters();
  }

  /** Each of the three type names is chosen exactly by its letter. */
  lemma ClassifyTypeNames(kind: string)
    ensures ClassifyType(kind) == "Basis" <==> HasLetter(kind, 'B')
    ensures ClassifyType(kind) == "Standard" <==> !HasLetter(kind, 'B') && HasLetter(kind, 'S')
    ensures ClassifyType(kind) == "Hoch" <==> !HasLetter(kind, 'B') && !HasLetter(kind, 'S') && HasLetter(kind, 'H')
  {
    TypeNameLetters();
  }

  // ---------------------------------------------------------------------
  // The role override: re.search(r'.*\[(.*)]', title) and the comma split
  // ---------------------------------------------------------------------

  /**
   * The text between the last "[" that a later "]" closes and the last
   * "]"; None when no "[" has a "]" after it.
   */
  function RoleGroup(title: string): (r: Option<string>)
    ensures r.None? <==> forall i, j :: 0 <= i < j < |title| && title[i] == '[' ==> title[j] != ']'
    ensures r.Some? ==>
      exists i, j :: 0 <= i < j < |title| && title[i] == '[' && title[j] == ']'
        && r.value == title[i + 1..j]
        && (forall p :: j < p < |title| ==> title[p] != ']')
        && (forall p :: i < p < j ==> title[p] != '[')
  {
    match LastIndex(title, ']', |title|)
    case None => None
    case Some(j) =>
      match LastIndex(title, '[', j)
      case None => None
      case Some(i) => Some(title[i + 1..j])
  }

  /** A title, " [", roles without brackets and "]" give the roles back, and the title by `split(' [')[0]`. */
  lemma RoleGroupCompose(title: string, roles: string)
    requires !Contains(title, " [")
    requires NoChar(roles, '[') && NoChar(roles, ']')
    ensures RoleGroup(title + " [" + roles + "]") == Some(roles)
    ensures Split(title + " [" + roles + "]", " [")[0] == title
  {
    var s := title + " [" + roles + "]";
    var j := |s| - 1;
    var i := |title| + 1;
    assert LastIndex(s, ']', |s|) == Some(j);
    forall p | i < p < j ensures s[p] != '[' {
      assert s[p] == roles[p - i - 1];
    }
    var li := LastIndex(s, '[', j);
    assert s[i] == '[';
    assert li.Some? && li.value == i;
    assert s[i + 1..j] == roles;
    assert s == title + " [" + (roles + "]");
    FirstSeparator(title, " [", roles + "]");
    SplitSecond(s, " [");
    assert s[..|title|] == title;
  }

  /** The first "(" or ")" of a text. */
  function NextParen(s: string): (r: Option<char>)
    ensures r.None? ==> NoChar(s, '(') && NoChar(s, ')')
    ensures r.Some? ==> r.value == '(' || r.value == ')'
  {
    if |s| == 0 then None
    else if s[0] == '(' || s[0] == ')' then Some(s[0])
    else NextParen(s[1..])
  }

  /**
   * `re.split(r',(?![^(]*\))', text)` splits at a comma unless a ")" comes
   * after it before any "(", that is, unless the comma is inside parentheses.
   */
  predicate SplitsAt(s: string, c: nat) {
    c < |s| && s[c] == ',' && NextParen(s[c + 1..]) != Some(')')
  }

  /** The first comma at or after `from` that splits. */
  function FirstSplit(s: string, from: nat): (r: Option<nat>)
    requires from <= |s|
    ensures r.Some? ==> from <= r.value < |s| && SplitsAt(s, r.value)
    ensures r.Some? ==> forall c :: from <= c < r.value ==> !SplitsAt(s, c)
    ensures r.None? ==> forall c :: from <= c < |s| ==> !SplitsAt(s, c)
    decreases |s| - from
  {
    if from == |s| then None
    else if SplitsAt(s, from) then Some(from)
    else FirstSplit(s, from + 1)
  }

  /** The entries of a role list, unstripped. */
  function RoleEntries(s: string): (r: seq<string>)
    ensures |r| >= 1
    decreases |s|
  {
    match FirstSplit(s, 0)
    case None => [s]
    case Some(c) => [s[..c]] + RoleEntries(s[c + 1..])
  }

  /** A comma's split test looks only at the text after it. */
  lemma SplitsAtSuffix(s: string, k: nat, c: nat)
    requires k <= |s|
    ensures SplitsAt(s[k..], c) <==> SplitsAt(s, k + c)
  {
    if c < |s[k..]| {
      assert s[k..][c + 1..] == s[k + c + 1..];
    }
  }

  /** Joining the entries with commas gives the role list back. */
  lemma {:induction false} RoleEntriesJoin(s: string)
    ensures Join(",", RoleEntries(s)) == s
    decreases |s|
  {
    match FirstSplit(s, 0)
    case None =>
    case Some(c) =>
      RoleEntriesJoin(s[c + 1..]);
      JoinCons(",", s[..c], RoleEntries(s[c + 1..]));
      assert s == s[..c] + "," + s[c + 1..];
  }

  /** Without parentheses every comma splits: the entries are `text.split(',')`. */
  lemma {:induction false} RoleEntriesPlain(s: string)
    requires NoChar(s, '(') && NoChar(s, ')')
    ensures RoleEntries(s) == Split(s, ",")
    decreases |s|
  {
    PlainFirstSplit(s);
    match FirstSplit(s, 0)
    case None =>
    case Some(c) =>
      var rest := s[c + 1..];
      assert forall i :: 0 <= i < |rest| ==> rest[i] == s[c + 1 + i];
      RoleEntriesPlain(rest);
  }

  /** Without parentheses the first comma that splits is the first comma. */
  lemma PlainFirstSplit(s: string)
    requires NoChar(s, '(') && NoChar(s, ')')
    ensures FirstSplit(s, 0) == Find(s, ",")
  {
    forall c | 0 <= c < |s| ensures SplitsAt(s, c) <==> s[c] == ',' {
      NoParenSuffix(s, c + 1);
    }
    forall c: nat ensures OccursAt(s, ",", c) <==> c < |s| && s[c] == ',' {
      if c < |s| {
        assert s[c..c + 1] == [s[c]];
      }
    }
    match FirstSplit(s, 0)
    case None =>
      assert Find(s, ",").None?;
    case Some(c) =>
      assert Find(s, ",") == Some(c);
  }

  lemma NoParenSuffix(s: string, k: nat)
    requires k <= |s| && NoChar(s, '(') && NoChar(s, ')')
    ensures NextParen(s[k..]) == None
    decreases |s| - k
  {
    if k < |s| {
      NoParenSuffix(s, k + 1);
      assert s[k..][1..] == s[k + 1..];
    }
  }

  /** An entry without commas, then a comma that splits. */
  lemma RoleEntriesCons(a: string, rest: string)
    requires NoChar(a, ',')
    requires NextParen(rest) != Some(')')
    ensures RoleEntries(a + "," + rest) == [a] + RoleEntries(rest)
  {
    var s := a + "," + rest;
    assert s[|a| + 1..] == rest;
    assert SplitsAt(s, |a|);
    forall c | 0 <= c < |a| ensures !SplitsAt(s, c) {
      assert s[c] == a[c];
    }
    assert FirstSplit(s, 0) == Some(|a|);
    assert s[..|a|] == a;
  }

  /** A role list whose commas all sit inside parentheses is one entry. */
  lemma RoleEntriesSingle(s: string)
    requires forall c :: 0 <= c < |s| ==> !SplitsAt(s, c)
    ensures RoleEntries(s) == [s]
  {
    assert FirstSplit(s, 0).None?;
  }

  /** A parenthesised part keeps its comma: "b (x, y)" is one entry. */
  lemma GroupCommaKept(b: string, x: string, y: string)
    requires NoChar(b, ',') && NoChar(x, ',') && NoChar(y, ',')
    requires NoChar(y, '(') && NoChar(y, ')')
    ensures RoleEntries(b + "(" + x + "," + y + ")") == [b + "(" + x + "," + y + ")"]
  {
    var s := b + "(" + x + "," + y + ")";
    var k := |b| + 1 + |x|;
    GroupLayout(s, b, x, y);
    NextParenAfter(y, ')', "");
    assert y + ")" == y + [')'] + "";
    forall c | 0 <= c < |s| ensures !SplitsAt(s, c) {
      if c < |b| {
        assert s[c] == b[c];
      } else if |b| < c < k {
        assert s[c] == x[c - |b| - 1];
      } else if k < c < |s| - 1 {
        assert s[c] == y[c - k - 1];
      }
    }
    RoleEntriesSingle(s);
  }

  /** Where the parts of "b(x,y)" sit. */
  lemma GroupLayout(s: string, b: string, x: string, y: string)
    requires s == b + "(" + x + "," + y + ")"
    ensures |s| == |b| + |x| + |y| + 3
    ensures s[|b|] == '(' && s[|b| + 1 + |x|] == ',' && s[|s| - 1] == ')'
    ensures s[|b| + 2 + |x|..] == y + ")"
    ensures forall c :: 0 <= c < |b| ==> s[c] == b[c]
    ensures forall c :: |b| < c < |b| + 1 + |x| ==> s[c] == x[c - |b| - 1]
    ensures forall c :: |b| + 1 + |x| < c < |s| - 1 ==> s[c] == y[c - |b| - 2 - |x|]
  {
  }

  /** "IT-Betrieb, OT-Betrieb (Operational Technology, OT)" names two roles. */
  lemma RoleEntriesKeepGroup(a: string, b: string, x: string, y: string)
    requires NoChar(a, ',') && NoChar(b, ',') && NoChar(x, ',') && NoChar(y, ',')
    requires NoChar(b, '(') && NoChar(b, ')') && NoChar(y, '(') && NoChar(y, ')')
    ensures var group := b + "(" + x + "," + y + ")"; RoleEntries(a + "," + group) == [a, group]
  {
    GroupOpens(b, x, y);
    RoleEntriesCons(a, b + "(" + x + "," + y + ")");
    GroupCommaKept(b, x, y);
  }

  lemma GroupOpens(b: string, x: string, y: string)
    requires NoChar(b, '(') && NoChar(b, ')')
    ensures NextParen(b + "(" + x + "," + y + ")") == Some('(')
  {
    NextParenAfter(b, '(', x + "," + y + ")");
    assert b + ['('] + (x + "," + y + ")") == b + "(" + x + "," + y + ")";
  }

  /** The first parenthesis of `a + [p] + b` is `p` when `a` has none. */
  lemma NextParenAfter(a: string, p: char, b: string)
    requires p == '(' || p == ')'
    requires NoChar(a, '(') && NoChar(a, ')')
    ensures NextParen(a + [p] + b) == Some(p)
    decreases |a|
  {
    if |a| > 0 {
      NextParenAfter(a[1..], p, b);
      assert (a + [p] + b)[1..] == a[1..] + [p] + b;
    }
  }

  // ---------------------------------------------------------------------
  // Loops that stop at the first exception
  // ---------------------------------------------------------------------

  /** Where a loop stands: the exception that ended it, if any, and its state. */
  datatype Run<S> = Run(error: Option<Error>, state: S)

  /** The loop over `xs` whose body is `step`: the first exception ends it. */
  function Fold<S, X>(step: (S, X) -> Run<S>, s: S, xs: seq<X>): (r: Run<S>)
    decreases |xs|
  {
    if |xs| == 0 then Run(None, s)
    else
      var r := Fold(step, s, xs[..|xs| - 1]);
      if r.error.Some? then r else step(r.state, xs[|xs| - 1])
  }

  lemma FoldSnoc<S, X>(step: (S, X) -> Run<S>, s: S, xs: seq<X>, x: X)
    ensures Fold(step, s, xs + [x]) ==
      (var r := Fold(step, s, xs); if r.error.Some? then r else step(r.state, x))
  {
    assert (xs + [x])[..|xs|] == xs;
  }

  /** Once a prefix of the loop has raised, the loop raises the same and stops there. */
  lemma {:induction false} FoldStops<S, X>(step: (S, X) -> Run<S>, s: S, xs: seq<X>, k: nat)
    requires k <= |xs| && Fold(step, s, xs[..k]).error.Some?
    ensures Fold(step, s, xs) == Fold(step, s, xs[..k])
    decreases |xs|
  {
    if k < |xs| {
      assert xs[..|xs| - 1][..k] == xs[..k];
      FoldStops(step, s, xs[..|xs| - 1], k);
    } else {
      assert xs[..k] == xs;
    }
  }

  /** One more pass of the loop: its result extends the prefix, and a pass that raises ends the whole loop. */
  lemma FoldNext<S, X>(step: (S, X) -> Run<S>, s: S, xs: seq<X>, k: nat, r: Run<S>)
    requires k < |xs| && Fold(step, s, xs[..k]).error.None?
    requires r == step(Fold(step, s, xs[..k]).state, xs[k])
    ensures Fold(step, s, xs[..k + 1]) == r
    ensures r.error.Some? ==> Fold(step, s, xs) == r
  {
    FoldSnoc(step, s, xs[..k], xs[k]);
    assert xs[..k + 1] == xs[..k] + [xs[k]];
    if r.error.Some? {
      FoldStops(step, s, xs, k + 1);
    }
  }

  /** A property that every step over an element of `xs` keeps holds after the loop. */
  lemma {:induction false} FoldKeeps<S, X>(step: (S, X) -> Run<S>, inv: S -> bool, s: S, xs: seq<X>)
    requires inv(s)
    requires forall t: S, x: X :: x in xs && inv(t) ==> inv(step(t, x).state)
    ensures inv(Fold(step, s, xs).state)
    decreases |xs|
  {
    if |xs| > 0 {
      var init := xs[..|xs| - 1];
      forall t: S, x: X | x in init && inv(t) ensures inv(step(t, x).state) {
        assert x in xs;
      }
      FoldKeeps(step, inv, s, init);
    }
  }

  // ---------------------------------------------------------------------
  // get_or_create
  // ---------------------------------------------------------------------

  /** Ids are positions: the i-th record has id i. */
  predicate Dense(records: seq<Record>) {
    forall i :: 0 <= i < |records| ==> "id" in records[i] && records[i]["id"] == Int(i)
  }

  /** No two records share a value of `attr`. */
  predicate Unique(records: seq<Record>, attr: string) {
    forall i, j :: 0 <= i < j < |records| && attr in records[i] && attr in records[j] ==> records[i][attr] != records[j][attr]
  }

  /**
   * `get_or_create(file, list, attr, elems)` on a list the file always
   * mirrors: the id of the first record whose `attr` equals the candidate's;
   * otherwise the candidate is appended with the next position as id
   * (an `id` of the candidate's own wins, as `dict.update` does).
   */
  function GetOrCreateResult(records: seq<Record>, attr: string, elems: Record): (r: (Result<Value>, seq<Record>))
    ensures attr !in elems ==> r == (Err(KeyError(attr)), records)
    ensures records <= r.1 && |r.1| <= |records| + 1
    ensures |r.1| == |records| + 1 <==> attr in elems && FirstMatch(records, attr, elems[attr]).None?
    ensures |r.1| == |records| + 1 ==>
      r == (Ok(Int(|records|)), records + [map["id" := Int(|records|)] + elems])
    ensures |r.1| == |records| ==> r.0 == (if attr in elems then Lookup(JArray(records), attr, elems[attr]) else Err(KeyError(attr)))
  {
    if attr !in elems then (Err(KeyError(attr)), records)
    else match Lookup(JArray(records), attr, elems[attr])
      case Ok(id) => (Ok(id), records)
      case Err(e) =>
        if e.ValueError? then
          var n := |records|;
          (Ok(Int(n)), records + [map["id" := Int(n)] + elems])
        else (Err(e), records)
  }

  /** A candidate whose own id, if any, is the next position. */
  predicate Fresh(records: seq<Record>, elems: Record) {
    "id" in elems ==> elems["id"] == Int(|records|)
  }

  /**
   * On a table numbered attr position, `get_or_create` cannot fail: it returns
   * the position of the one record carrying the candidate's value, and
   * the table stays numbered attr position.
   */
  lemma GetOrCreateDense(records: seq<Record>, attr: string, elems: Record)
    requires Dense(records) && attr in elems && Fresh(records, elems)
    ensures var (id, rs) := GetOrCreateResult(records, attr, elems);
      && Dense(rs) && id.Ok? && id.value.Int? && 0 <= id.value.n < |rs|
      && Matches(rs[id.value.n], attr, elems[attr])
  {
    var (id, rs) := GetOrCreateResult(records, attr, elems);
    var n := |records|;
    if |rs| == n + 1 {
      assert rs[n] == map["id" := Int(n)] + elems;
      assert forall i :: 0 <= i < n ==> rs[i] == records[i];
    } else {
      var i := FirstMatch(records, attr, elems[attr]).value;
      assert id == Ok(records[i]["id"]);
    }
  }

  /** `get_or_create` never adds a second record with the same value of `attr`. */
  lemma GetOrCreateUnique(records: seq<Record>, attr: string, elems: Record)
    requires Unique(records, attr)
    ensures Unique(GetOrCreateResult(records, attr, elems).1, attr)
  {
    var rs := GetOrCreateResult(records, attr, elems).1;
    if |rs| == |records| + 1 {
      var n := |records|;
      assert rs[n][attr] == elems[attr];
      forall i | 0 <= i < n && attr in rs[i] ensures rs[i][attr] != rs[n][attr] {
        assert rs[i] == records[i];
        assert !Matches(records[i], attr, elems[attr]);
      }
    }
  }

  /** Asking again for the same candidate returns the same id and changes nothing. */
  lemma GetOrCreateIdempotent(records: seq<Record>, attr: string, elems: Record)
    requires Fresh(records, elems)
    ensures var (id, rs) := GetOrCreateResult(records, attr, elems);
      id.Ok? ==> GetOrCreateResult(rs, attr, elems) == (id, rs)
  {
    var (id, rs) := GetOrCreateResult(records, attr, elems);
    var n := |records|;
    if id.Ok? && |rs| == n + 1 {
      var v := elems[attr];
      forall j | 0 <= j < n ensures !Matches(rs[j], attr, v) {
        assert rs[j] == records[j];
      }
      assert Matches(rs[n], attr, v);
      assert FirstMatch(rs, attr, v) == Some(n);
      assert rs[n]["id"] == Int(n);
    }
  }

  // ---------------------------------------------------------------------
  // The first loop of main: categories, modules, requirements
  // ---------------------------------------------------------------------

  /** The keys of a dict, in order. */
  function Keys<V>(d: Dict<V>): (r: seq<string>)
    ensures |r| == |d|
    ensures forall i :: 0 <= i < |d| ==> r[i] == d[i].0
  {
    seq(|d|, i requires 0 <= i < |d| => d[i].0)
  }

  /** The four tables the first loop fills. */
  datatype Catalogue = Catalogue(kategorie: seq<Record>, baustein: seq<Record>, rolle: seq<Record>, anforderung: seq<Record>)

  /** One entry of a role override: its id joins the list; a new role is created. */
  function RoleStep(st: (seq<Value>, seq<Record>), entry: string): Run<(seq<Value>, seq<Record>)> {
    var (id, roles) := GetOrCreateResult(st.1, "name", map["name" := Str(Strip(entry))]);
    match id
    case Err(e) => Run(Some(e), (st.0, roles))
    case Ok(v) => Run(None, (st.0 + [v], roles))
  }

  /** The roles of a requirement: the override's entries if its title names any, else the module's owner. */
  function RoleIds(title: string, ownerId: Value, roles: seq<Record>): Run<(seq<Value>, seq<Record>)> {
    match RoleGroup(title)
    case None => Run(None, ([ownerId], roles))
    case Some(group) => Fold(RoleStep, ([], roles), RoleEntries(group))
  }

  /** The title without its role override. */
  function RealTitle(title: string): string {
    if RoleGroup(title).Some? then Split(title, " [")[0] else title
  }

  /** The record `main` appends for a requirement. */
  function RequirementData(number: nat, name: string, title: string, typeId: Value, moduleId: Value, roleIds: seq<Value>): Record {
    map["id" := Int(number), "name" := Str(name), "label" := Str(title),
        "anforderungstyp" := typeId, "baustein" := moduleId, "rollen" := List(roleIds)]
  }

  /**
   * One requirement: its record, or the exception that stops the run,
   * and the role table after it.
   */
  function RequirementRecord(req: Anforderung, number: nat, moduleId: Value, ownerId: Value,
                             roles: seq<Record>, types: Json): (Result<Record>, seq<Record>)
  {
    match ParseLabel(req.title)
    case Err(e) => (Err(e), roles)
    case Ok(parts) =>
      var run := RoleIds(parts.0, ownerId, roles);
      if run.error.Some? then (Err(run.error.value), run.state.1)
      else match Lookup(types, "name", Str(ClassifyTypeAsWritten(parts.1)))
        case Err(e) => (Err(e), run.state.1)
        case Ok(typeId) =>
          (Ok(RequirementData(number, req.name, RealTitle(parts.0), typeId, moduleId, run.state.0)), run.state.1)
  }

  /**
   * A requirement record carries the requirement's position, name, title
   * without the role override, the id of its type, its module and its roles;
   * a label without a type part stops the run.
   */
  lemma RequirementRecordFields(req: Anforderung, number: nat, moduleId: Value, ownerId: Value,
                                roles: seq<Record>, types: Json)
    ensures var (rec, rs) := RequirementRecord(req, number, moduleId, ownerId, roles, types);
      && (ParseLabel(req.title).Err? ==> (rec, rs) == (Err(ParseLabel(req.title).error), roles))
      && (rec.Ok? ==>
          && ParseLabel(req.title).Ok?
          && var (title, kind) := ParseLabel(req.title).value;
          && var v := rec.value;
          && "id" in v && v["id"] == Int(number)
          && "name" in v && v["name"] == Str(req.name)
          && "label" in v && v["label"] == Str(RealTitle(title))
          && "anforderungstyp" in v && Lookup(types, "name", Str(ClassifyTypeAsWritten(kind))) == Ok(v["anforderungstyp"])
          && "baustein" in v && v["baustein"] == moduleId
          && "rollen" in v && v["rollen"] == List(RoleIds(title, ownerId, roles).state.0))
  {
    var parsed := ParseLabel(req.title);
    if parsed.Ok? {
      var (title, kind) := parsed.value;
      var run := RoleIds(title, ownerId, roles);
      var typeId := Lookup(types, "name", Str(ClassifyTypeAsWritten(kind)));
      if run.error.None? && typeId.Ok? {
        var v := RequirementData(number, req.name, RealTitle(title), typeId.value, moduleId, run.state.0);
        assert RequirementRecord(req, number, moduleId, ownerId, roles, types) == (Ok(v), run.state.1);
        RequirementDataFields(number, req.name, RealTitle(title), typeId.value, moduleId, run.state.0);
      }
    }
  }

  /**
   * As written, no requirement is stored with the type 'Basis': a type
   * containing B gets the id of 'Standard'.
   */
  lemma RequirementTypeNeverBasis(req: Anforderung, number: nat, moduleId: Value, ownerId: Value,
                                  roles: seq<Record>, types: Json)
    ensures var rec := RequirementRecord(req, number, moduleId, ownerId, roles, types).0;
      rec.Ok? ==>
        && ParseLabel(req.title).Ok? && "anforderungstyp" in rec.value
        && var kind := ParseLabel(req.title).value.1;
        && ClassifyTypeAsWritten(kind) != "Basis"
        && Lookup(types, "name", Str(ClassifyTypeAsWritten(kind))) == Ok(rec.value["anforderungstyp"])
        && (HasLetter(kind, 'B') ==> Lookup(types, "name", Str("Standard")) == Ok(rec.value["anforderungstyp"]))
  {
    RequirementRecordFields(req, number, moduleId, ownerId, roles, types);
    var parsed := ParseLabel(req.title);
    if parsed.Ok? {
      ClassifyTypeAsWrittenNeverBasis(parsed.value.1);
    }
  }

  lemma RequirementDataFields(number: nat, name: string, title: string, typeId: Value, moduleId: Value, roleIds: seq<Value>)
    ensures var v := RequirementData(number, name, title, typeId, moduleId, roleIds);
      && "id" in v && v["id"] == Int(number)
      && "name" in v && v["name"] == Str(name)
      && "label" in v && v["label"] == Str(title)
      && "anforderungstyp" in v && v["anforderungstyp"] == typeId
      && "baustein" in v && v["baustein"] == moduleId
      && "rollen" in v && v["rollen"] == List(roleIds)
  {
  }

  /** The body of the requirement loop. */
  function RequirementStep(b: Baustein, moduleId: Value, ownerId: Value, types: Json): (Catalogue, string) -> Run<Catalogue> {
    (c: Catalogue, key: string) => RequirementRun(b, moduleId, ownerId, types, c, key)
  }

  /** One pass of the requirement loop, for the requirement `key` of module `b`. */
  function RequirementRun(b: Baustein, moduleId: Value, ownerId: Value, types: Json, c: Catalogue, key: string): Run<Catalogue> {
    match Get(b.requirements, key)
    case Err(e) => Run(Some(e), c)
    case Ok(req) =>
      var (rec, roles) := RequirementRecord(req, |c.anforderung|, moduleId, ownerId, c.rolle, types);
      if rec.Err? then Run(Some(rec.error), c.(rolle := roles))
      else Run(None, c.(rolle := roles, anforderung := c.anforderung + [rec.value]))
  }

  /** The record `main` offers for a module. */
  function ModuleData(number: nat, b: Baustein, catId: Value, roleId: Value): Record {
    map["id" := Int(number), "name" := Str(b.name), "label" := Str(b.title),
        "bausteinkategorie" := catId, "rolle" := roleId]
  }

  /** One module: its owner role, its record, then its requirements in version order. */
  function ModuleRun(catId: Value, b: Baustein, c: Catalogue, types: Json): Run<Catalogue> {
    var (roleId, roles) := GetOrCreateResult(c.rolle, "name", map["name" := Str(b.role)]);
    var c1 := c.(rolle := roles);
    if roleId.Err? then Run(Some(roleId.error), c1) else
    var (moduleId, modules) := GetOrCreateResult(c1.baustein, "name", ModuleData(|c1.baustein|, b, catId, roleId.value));
    var c2 := c1.(baustein := modules);
    if moduleId.Err? then Run(Some(moduleId.error), c2) else
    match SortedVersions(Keys(b.requirements))
    case Err(e) => Run(Some(e), c2)
    case Ok(keys) => Fold(RequirementStep(b, moduleId.value, roleId.value, types), c2, keys)
  }

  /** The body of the module loop. */
  function ModuleStep(catId: Value, modules: Dict<Baustein>, types: Json): (Catalogue, string) -> Run<Catalogue> {
    (c: Catalogue, number: string) =>
      match Get(modules, number)
      case Err(e) => Run(Some(e), c)
      case Ok(b) => ModuleRun(catId, b, c, types)
  }

  /** The body of the category loop. */
  function CategoryStep(elements: Dict<Dict<Baustein>>, types: Json): (Catalogue, string) -> Run<Catalogue> {
    (c: Catalogue, cat: string) => CategoryRun(elements, types, c, cat)
  }

  /** One pass of the category loop, for category `cat`. */
  function CategoryRun(elements: Dict<Dict<Baustein>>, types: Json, c: Catalogue, cat: string): Run<Catalogue> {
    var (catId, cats) := GetOrCreateResult(c.kategorie, "name", map["name" := Str(cat), "label" := Str(cat)]);
    var c1 := c.(kategorie := cats);
    if catId.Err? then Run(Some(catId.error), c1) else
    match Get(elements, cat)
    case Err(e) => Run(Some(e), c1)
    case Ok(modules) =>
      match SortedVersions(Keys(modules))
      case Err(e) => Run(Some(e), c1)
      case Ok(numbers) => Fold(ModuleStep(catId.value, modules, types), c1, numbers)
  }

  /** The first loop of `main`, from empty tables. */
  function BuildCatalogue(elements: Dict<Dict<Baustein>>, types: Json): Run<Catalogue> {
    Fold(CategoryStep(elements, types), Catalogue([], [], [], []), SortedNames(Keys(elements)))
  }

  // ---------------------------------------------------------------------
  // The second loop of main: hazards of every requirement
  // ---------------------------------------------------------------------

  /** The two tables the second loop fills. */
  datatype HazardTables = HazardTables(gefaehrdung: seq<Record>, anfGef: seq<Record>)

  /** One protection goal letter of a hazard: its id from the goal table. */
  function GoalStep(goals: Json): (seq<Value>, char) -> Run<seq<Value>> {
    (ids: seq<Value>, goal: char) => GoalRun(goals, ids, goal)
  }

  function GoalRun(goals: Json, ids: seq<Value>, goal: char): Run<seq<Value>> {
    match Lookup(goals, "name", Str([goal]))
    case Err(e) => Run(Some(e), ids)
    case Ok(id) => Run(None, ids + [id])
  }

  /** One hazard of a requirement: the hazard's id, its goals' ids, one association record. */
  function HazardStep(anf: Record, goals: Json): (HazardTables, (string, string)) -> Run<HazardTables> {
    (h: HazardTables, hazard: (string, string)) => HazardRun(anf, goals, h, hazard)
  }

  /** One pass of the hazard loop, for one hazard of requirement `anf`. */
  function HazardRun(anf: Record, goals: Json, h: HazardTables, hazard: (string, string)): Run<HazardTables> {
    var (hazardId, hazards) := GetOrCreateResult(h.gefaehrdung, "name", map["name" := Str(hazard.0)]);
    var h1 := h.(gefaehrdung := hazards);
    if hazardId.Err? then Run(Some(hazardId.error), h1) else
    var ids := Fold(GoalStep(goals), [], hazard.1);
    if ids.error.Some? then Run(ids.error, h1)
    else if "id" !in anf then Run(Some(KeyError("id")), h1)
    else Run(None, h1.(anfGef := h1.anfGef + [AssociationData(anf["id"], hazardId.value, ids.state)]))
  }

  function AssociationData(requirementId: Value, hazardId: Value, goalIds: seq<Value>): Record {
    map["anforderung" := requirementId, "gefaehrdung" := hazardId, "schutzziele" := List(goalIds)]
  }

  /** The body of the requirement loop: the requirement's hazards from the KRT. */
  function LinkStep(edition: Edition, krt: Option<map<string, Sheet>>, goals: Json): (HazardTables, Record) -> Run<HazardTables> {
    (h: HazardTables, anf: Record) => LinkRun(edition, krt, goals, h, anf)
  }

  /** One pass of the second loop, for requirement record `anf`. */
  function LinkRun(edition: Edition, krt: Option<map<string, Sheet>>, goals: Json, h: HazardTables, anf: Record): Run<HazardTables> {
    if "name" !in anf then Run(Some(KeyError("name")), h)
    else if !anf["name"].Str? then Run(Some(TypeError("requirement name")), h)
    else match KrtLookup(edition, krt, anf["name"].s)
      case Err(e) => Run(Some(e), h)
      case Ok(hazards) => Fold(HazardStep(anf, goals), h, hazards)
  }

  /** The second loop of `main`, over the requirement records. */
  function LinkHazards(edition: Edition, krt: Option<map<string, Sheet>>, goals: Json, anforderung: seq<Record>): Run<HazardTables> {
    Fold(LinkStep(edition, krt, goals), HazardTables([], []), anforderung)
  }

  /** The six output tables. */
  datatype Tables = Tables(anforderung: seq<Record>, anfGef: seq<Record>, baustein: seq<Record>,
                           kategorie: seq<Record>, gefaehrdung: seq<Record>, rolle: seq<Record>)

  /** All of `main` after the extraction: the tables, or the exception that aborted it. */
  function ConvertCompendium(elements: Dict<Dict<Baustein>>, edition: Edition, krt: Option<map<string, Sheet>>,
                             types: Json, goals: Json): Result<Tables>
  {
    var c := BuildCatalogue(elements, types);
    if c.error.Some? then Err(c.error.value) else
    var h := LinkHazards(edition, krt, goals, c.state.anforderung);
    if h.error.Some? then Err(h.error.value) else
    Ok(Tables(c.state.anforderung, h.state.anfGef, c.state.baustein, c.state.kategorie, h.state.gefaehrdung, c.state.rolle))
  }

  // ---------------------------------------------------------------------
  // The converter as it runs: lists updated in place
  // ---------------------------------------------------------------------

  /** One output list together with its JSON file, which always holds the list. */
  class JsonTable {
    var records: seq<Record>

    constructor ()
      ensures records == []
    {
      records := [];
    }

    /** `get_or_create` on this list. */
    method GetOrCreate(attr: string, elems: Record) returns (id: Result<Value>)
      modifies this
      ensures (id, records) == GetOrCreateResult(old(records), attr, elems)
    {
      if attr !in elems {
        return Err(KeyError(attr));
      }
      id := GetFromJson(JArray(records), attr, elems[attr]);
      if id.Err? && id.error.ValueError? {
        var n := |records|;
        records := records + [map["id" := Int(n)] + elems];
        id := Ok(Int(n));
      }
    }

    /** `list.append(record)`. */
    method Append(record: Record)
      modifies this
      ensures records == old(records) + [record]
    {
      records := records + [record];
    }
  }

  /** The four lists of the first loop, as a value. */
  function Snapshot(kat: JsonTable, bau: JsonTable, rolle: JsonTable, anf: JsonTable): Catalogue
    reads kat, bau, rolle, anf
  {
    Catalogue(kat.records, bau.records, rolle.records, anf.records)
  }

  /** The role override loop. */
  method CollectRoleIds(rolle: JsonTable, entries: seq<string>) returns (r: Run<seq<Value>>)
    modifies rolle
    ensures var f := Fold(RoleStep, ([], old(rolle.records)), entries);
      r == Run(f.error, f.state.0) && rolle.records == f.state.1
  {
    ghost var s0: (seq<Value>, seq<Record>) := ([], rolle.records);
    var ids: seq<Value> := [];
    for k := 0 to |entries|
      invariant Fold(RoleStep, s0, entries[..k]) == Run(None, (ids, rolle.records))
    {
      var id := rolle.GetOrCreate("name", map["name" := Str(Strip(entries[k]))]);
      if id.Err? {
        FoldNext(RoleStep, s0, entries, k, Run(Some(id.error), (ids, rolle.records)));
        return Run(Some(id.error), ids);
      }
      FoldNext(RoleStep, s0, entries, k, Run(None, (ids + [id.value], rolle.records)));
      ids := ids + [id.value];
    }
    assert entries[..|entries|] == entries;
    return Run(None, ids);
  }

  /** The body of the requirement loop up to the record it appends. */
  method ConvertRequirement(req: Anforderung, number: nat, moduleId: Value, ownerId: Value,
                            rolle: JsonTable, types: Json) returns (r: Result<Record>)
    modifies rolle
    ensures (r, rolle.records) == RequirementRecord(req, number, moduleId, ownerId, old(rolle.records), types)
  {
    var parts := ParseLabel(req.title);
    if parts.Err? {
      return Err(parts.error);
    }
    var (title, kind) := parts.value;
    var typ := ClassifyTypeAsWritten(kind);
    var roleIds := [ownerId];
    var realTitle := title;
    var group := RoleGroup(title);
    if group.Some? {
      realTitle := Split(title, " [")[0];
      var run := CollectRoleIds(rolle, RoleEntries(group.value));
      if run.error.Some? {
        return Err(run.error.value);
      }
      roleIds := run.state;
    }
    var typeId := GetFromJson(types, "name", Str(typ));
    if typeId.Err? {
      return Err(typeId.error);
    }
    return Ok(RequirementData(number, req.name, realTitle, typeId.value, moduleId, roleIds));
  }

  /** Four different lists. */
  predicate Separate(kat: JsonTable, bau: JsonTable, rolle: JsonTable, anf: JsonTable) {
    kat != bau && kat != rolle && kat != anf && bau != rolle && bau != anf && rolle != anf
  }

  /** The body of the requirement loop, from the requirement's key. */
  method ConvertRequirementAt(b: Baustein, key: string, moduleId: Value, ownerId: Value, types: Json,
                              kat: JsonTable, bau: JsonTable, rolle: JsonTable, anf: JsonTable) returns (e: Option<Error>)
    requires Separate(kat, bau, rolle, anf)
    modifies rolle, anf
    ensures Run(e, Snapshot(kat, bau, rolle, anf))
         == RequirementRun(b, moduleId, ownerId, types, old(Snapshot(kat, bau, rolle, anf)), key)
  {
    var req := Get(b.requirements, key);
    if req.Err? {
      return Some(req.error);
    }
    var rec := ConvertRequirement(req.value, |anf.records|, moduleId, ownerId, rolle, types);
    if rec.Err? {
      return Some(rec.error);
    }
    anf.Append(rec.value);
    return None;
  }

  /** The requirement loop of one module. */
  method ConvertRequirements(b: Baustein, keys: seq<string>, moduleId: Value, ownerId: Value, types: Json,
                             kat: JsonTable, bau: JsonTable, rolle: JsonTable, anf: JsonTable) returns (e: Option<Error>)
    requires Separate(kat, bau, rolle, anf)
    modifies rolle, anf
    ensures Run(e, Snapshot(kat, bau, rolle, anf))
         == Fold(RequirementStep(b, moduleId, ownerId, types), old(Snapshot(kat, bau, rolle, anf)), keys)
  {
    ghost var step := RequirementStep(b, moduleId, ownerId, types);
    ghost var c0 := Snapshot(kat, bau, rolle, anf);
    for k := 0 to |keys|
      invariant Fold(step, c0, keys[..k]) == Run(None, Snapshot(kat, bau, rolle, anf))
    {
      e := ConvertRequirementAt(b, keys[k], moduleId, ownerId, types, kat, bau, rolle, anf);
      FoldNext(step, c0, keys, k, Run(e, Snapshot(kat, bau, rolle, anf)));
      if e.Some? {
        return e;
      }
    }
    assert keys[..|keys|] == keys;
    return None;
  }

  /** The body of the module loop. */
  method ConvertModule(catId: Value, b: Baustein, types: Json,
                       kat: JsonTable, bau: JsonTable, rolle: JsonTable, anf: JsonTable) returns (e: Option<Error>)
    requires Separate(kat, bau, rolle, anf)
    modifies bau, rolle, anf
    ensures Run(e, Snapshot(kat, bau, rolle, anf)) == ModuleRun(catId, b, old(Snapshot(kat, bau, rolle, anf)), types)
  {
    var roleId := rolle.GetOrCreate("name", map["name" := Str(b.role)]);
    if roleId.Err? {
      return Some(roleId.error);
    }
    var moduleId := bau.GetOrCreate("name", ModuleData(|bau.records|, b, catId, roleId.value));
    if moduleId.Err? {
      return Some(moduleId.error);
    }
    var keys := SortedVersions(Keys(b.requirements));
    if keys.Err? {
      return Some(keys.error);
    }
    e := ConvertRequirements(b, keys.value, moduleId.value, roleId.value, types, kat, bau, rolle, anf);
  }

  /** The body of the module loop, from the module's number. */
  method ConvertModuleAt(catId: Value, modules: Dict<Baustein>, number: string, types: Json,
                         kat: JsonTable, bau: JsonTable, rolle: JsonTable, anf: JsonTable) returns (e: Option<Error>)
    requires Separate(kat, bau, rolle, anf)
    modifies bau, rolle, anf
    ensures Run(e, Snapshot(kat, bau, rolle, anf))
         == ModuleStep(catId, modules, types)(old(Snapshot(kat, bau, rolle, anf)), number)
  {
    var b := Get(modules, number);
    if b.Err? {
      return Some(b.error);
    }
    e := ConvertModule(catId, b.value, types, kat, bau, rolle, anf);
  }

  /** The module loop of one category. */
  method ConvertModules(catId: Value, modules: Dict<Baustein>, numbers: seq<string>, types: Json,
                        kat: JsonTable, bau: JsonTable, rolle: JsonTable, anf: JsonTable) returns (e: Option<Error>)
    requires Separate(kat, bau, rolle, anf)
    modifies bau, rolle, anf
    ensures Run(e, Snapshot(kat, bau, rolle, anf))
         == Fold(ModuleStep(catId, modules, types), old(Snapshot(kat, bau, rolle, anf)), numbers)
  {
    ghost var step := ModuleStep(catId, modules, types);
    ghost var c0 := Snapshot(kat, bau, rolle, anf);
    for k := 0 to |numbers|
      invariant Fold(step, c0, numbers[..k]) == Run(None, Snapshot(kat, bau, rolle, anf))
    {
      e := ConvertModuleAt(catId, modules, numbers[k], types, kat, bau, rolle, anf);
      FoldNext(step, c0, numbers, k, Run(e, Snapshot(kat, bau, rolle, anf)));
      if e.Some? {
        return e;
      }
    }
    assert numbers[..|numbers|] == numbers;
    return None;
  }

  /** The body of the category loop. */
  method ConvertCategory(elements: Dict<Dict<Baustein>>, cat: string, types: Json,
                         kat: JsonTable, bau: JsonTable, rolle: JsonTable, anf: JsonTable) returns (e: Option<Error>)
    requires Separate(kat, bau, rolle, anf)
    modifies kat, bau, rolle, anf
    ensures Run(e, Snapshot(kat, bau, rolle, anf))
         == CategoryRun(elements, types, old(Snapshot(kat, bau, rolle, anf)), cat)
  {
    var catId := kat.GetOrCreate("name", map["name" := Str(cat), "label" := Str(cat)]);
    if catId.Err? {
      return Some(catId.error);
    }
    var modules := Get(elements, cat);
    if modules.Err? {
      return Some(modules.error);
    }
    var numbers := SortedVersions(Keys(modules.value));
    if numbers.Err? {
      return Some(numbers.error);
    }
    e := ConvertModules(catId.value, modules.value, numbers.value, types, kat, bau, rolle, anf);
  }

  /** The first loop of `main`, over the categories in name order. */
  method ConvertCatalogue(elements: Dict<Dict<Baustein>>, types: Json,
                          kat: JsonTable, bau: JsonTable, rolle: JsonTable, anf: JsonTable) returns (e: Option<Error>)
    requires Separate(kat, bau, rolle, anf)
    modifies kat, bau, rolle, anf
    ensures Run(e, Snapshot(kat, bau, rolle, anf))
         == Fold(CategoryStep(elements, types), old(Snapshot(kat, bau, rolle, anf)), SortedNames(Keys(elements)))
  {
    var cats := SortedNames(Keys(elements));
    ghost var step := CategoryStep(elements, types);
    ghost var c0 := Snapshot(kat, bau, rolle, anf);
    for k := 0 to |cats|
      invariant Fold(step, c0, cats[..k]) == Run(None, Snapshot(kat, bau, rolle, anf))
    {
      e := ConvertCategory(elements, cats[k], types, kat, bau, rolle, anf);
      FoldNext(step, c0, cats, k, Run(e, Snapshot(kat, bau, rolle, anf)));
      if e.Some? {
        return e;
      }
    }
    assert cats[..|cats|] == cats;
    return None;
  }

  /** The goal loop of one hazard. */
  method GoalIds(goals: Json, tag: string) returns (r: Run<seq<Value>>)
    ensures r == Fold(GoalStep(goals), [], tag)
  {
    ghost var step := GoalStep(goals);
    var ids: seq<Value> := [];
    for k := 0 to |tag|
      invariant Fold(step, [], tag[..k]) == Run(None, ids)
    {
      var id := GetFromJson(goals, "name", Str([tag[k]]));
      if id.Err? {
        FoldNext(step, [], tag, k, Run(Some(id.error), ids));
        return Run(Some(id.error), ids);
      }
      FoldNext(step, [], tag, k, Run(None, ids + [id.value]));
      ids := ids + [id.value];
    }
    assert tag[..|tag|] == tag;
    return Run(None, ids);
  }

  /** The two lists of the second loop, as a value. */
  function Links(gef: JsonTable, anfGef: JsonTable): HazardTables
    reads gef, anfGef
  {
    HazardTables(gef.records, anfGef.records)
  }

  /** The body of the hazard loop. */
  method LinkHazard(anf: Record, hazard: (string, string), goals: Json, gef: JsonTable, anfGef: JsonTable)
    returns (e: Option<Error>)
    requires gef != anfGef
    modifies gef, anfGef
    ensures Run(e, Links(gef, anfGef)) == HazardRun(anf, goals, old(Links(gef, anfGef)), hazard)
  {
    var hazardId := gef.GetOrCreate("name", map["name" := Str(hazard.0)]);
    if hazardId.Err? {
      return Some(hazardId.error);
    }
    var ids := GoalIds(goals, hazard.1);
    if ids.error.Some? {
      return ids.error;
    }
    if "id" !in anf {
      return Some(KeyError("id"));
    }
    anfGef.Append(AssociationData(anf["id"], hazardId.value, ids.state));
    return None;
  }

  /** The hazard loop of one requirement, in the order the KRT lookup gives. */
  method LinkHazardsOf(anf: Record, hazards: Dict<string>, goals: Json, gef: JsonTable, anfGef: JsonTable)
    returns (e: Option<Error>)
    requires gef != anfGef
    modifies gef, anfGef
    ensures Run(e, Links(gef, anfGef)) == Fold(HazardStep(anf, goals), old(Links(gef, anfGef)), hazards)
  {
    ghost var step := HazardStep(anf, goals);
    ghost var h0 := Links(gef, anfGef);
    for k := 0 to |hazards|
      invariant Fold(step, h0, hazards[..k]) == Run(None, Links(gef, anfGef))
    {
      e := LinkHazard(anf, hazards[k], goals, gef, anfGef);
      FoldNext(step, h0, hazards, k, Run(e, Links(gef, anfGef)));
      if e.Some? {
        return e;
      }
    }
    assert hazards[..|hazards|] == hazards;
    return None;
  }

  /** The body of the second loop: the KRT lookup of one requirement, then its hazards. */
  method LinkRequirement(bsi: Extractor, anf: Record, goals: Json, gef: JsonTable, anfGef: JsonTable)
    returns (e: Option<Error>)
    requires gef != anfGef
    modifies gef, anfGef
    ensures Run(e, Links(gef, anfGef)) == LinkRun(bsi.edition, bsi.krt, goals, old(Links(gef, anfGef)), anf)
  {
    if "name" !in anf {
      return Some(KeyError("name"));
    }
    if !anf["name"].Str? {
      return Some(TypeError("requirement name"));
    }
    var hazards := bsi.GetGefaehrdungenByAnforderung(anf["name"].s);
    if hazards.Err? {
      return Some(hazards.error);
    }
    e := LinkHazardsOf(anf, hazards.value, goals, gef, anfGef);
  }

  /** The second loop of `main`, over the requirement records in order. */
  method LinkAll(bsi: Extractor, anforderung: seq<Record>, goals: Json, gef: JsonTable, anfGef: JsonTable)
    returns (e: Option<Error>)
    requires gef != anfGef
    modifies gef, anfGef
    ensures Run(e, Links(gef, anfGef)) == Fold(LinkStep(bsi.edition, bsi.krt, goals), old(Links(gef, anfGef)), anforderung)
  {
    ghost var step := LinkStep(bsi.edition, bsi.krt, goals);
    ghost var h0 := Links(gef, anfGef);
    for k := 0 to |anforderung|
      invariant Fold(step, h0, anforderung[..k]) == Run(None, Links(gef, anfGef))
    {
      e := LinkRequirement(bsi, anforderung[k], goals, gef, anfGef);
      FoldNext(step, h0, anforderung, k, Run(e, Links(gef, anfGef)));
      if e.Some? {
        return e;
      }
    }
    assert anforderung[..|anforderung|] == anforderung;
    return None;
  }

  /** What a fresh extractor makes of the module documents. */
  function ExtractedModules(docs: seq<ModuleDoc>): Result<Dict<Dict<Baustein>>> {
    var scan := ScanSteps(AllModuleSteps(docs));
    if scan.error.None? then Ok(PutModules([], scan.entries)) else Err(scan.error.value)
  }

  /** Both loops of `main`, on empty lists, with the extractor's KRT workbook. */
  method BuildTables(bsi: Extractor, elements: Dict<Dict<Baustein>>, types: Json, goals: Json) returns (r: Result<Tables>)
    ensures r == ConvertCompendium(elements, bsi.edition, bsi.krt, types, goals)
  {
    var kat := new JsonTable();
    var bau := new JsonTable();
    var rolle := new JsonTable();
    var anf := new JsonTable();
    var e := ConvertCatalogue(elements, types, kat, bau, rolle, anf);
    ghost var c := Snapshot(kat, bau, rolle, anf);
    assert Run(e, c) == BuildCatalogue(elements, types);
    if e.Some? {
      return Err(e.value);
    }
    var gef := new JsonTable();
    var anfGef := new JsonTable();
    e := LinkAll(bsi, anf.records, goals, gef, anfGef);
    assert Run(e, Links(gef, anfGef)) == LinkHazards(bsi.edition, bsi.krt, goals, c.anforderung);
    if e.Some? {
      return Err(e.value);
    }
    return Ok(Tables(anf.records, anfGef.records, bau.records, kat.records, gef.records, rolle.records));
  }

  /**
   * `main` after the downloads: a fresh extractor reads the KRT workbook and
   * the module documents, then both loops run on empty lists.
   */
  method ConvertDocuments(edition: Edition, workbook: map<string, Sheet>, docs: seq<ModuleDoc>,
                          types: Json, goals: Json) returns (r: Result<Tables>)
    ensures r == match ExtractedModules(docs)
      case Err(e) => Err(e)
      case Ok(elements) => ConvertCompendium(elements, edition, Some(workbook), types, goals)
  {
    var bsi := new Extractor(edition);
    bsi.Setup(workbook);
    var elements := bsi.GetBausteineWithAnforderungen(docs);
    assert elements == ExtractedModules(docs);
    if elements.Err? {
      return Err(elements.error);
    }
    r := BuildTables(bsi, elements.value, types, goals);
  }

  // ---------------------------------------------------------------------
  // What the first loop keeps: ids are positions, names are unique,
  // references point into their tables
  // ---------------------------------------------------------------------

  /** `v` is the id of one of the first `n` records. */
  predicate IdBelow(v: Value, n: int) {
    v.Int? && 0 <= v.n < n
  }

  predicate AllBelow(ids: seq<Value>, n: int) {
    forall k :: 0 <= k < |ids| ==> IdBelow(ids[k], n)
  }

  /** `v` is a list of ids of the first `n` records. */
  predicate IdsBelow(v: Value, n: int) {
    v.List? && AllBelow(v.items, n)
  }

  /** A module's category and owner role exist. */
  predicate ModuleRefs(r: Record, categories: int, roles: int) {
    && "bausteinkategorie" in r && IdBelow(r["bausteinkategorie"], categories)
    && "rolle" in r && IdBelow(r["rolle"], roles)
  }

  /** A requirement's module and roles exist. */
  predicate RequirementRefs(r: Record, modules: int, roles: int) {
    && "baustein" in r && IdBelow(r["baustein"], modules)
    && "rollen" in r && IdsBelow(r["rollen"], roles)
  }

  /** The four tables are consistent with one another. */
  predicate WellFormed(c: Catalogue) {
    && Dense(c.kategorie) && Dense(c.baustein) && Dense(c.rolle) && Dense(c.anforderung)
    && Unique(c.kategorie, "name") && Unique(c.baustein, "name") && Unique(c.rolle, "name")
    && (forall i :: 0 <= i < |c.baustein| ==> ModuleRefs(c.baustein[i], |c.kategorie|, |c.rolle|))
    && (forall i :: 0 <= i < |c.anforderung| ==> RequirementRefs(c.anforderung[i], |c.baustein|, |c.rolle|))
  }

  /** No table shrinks. */
  predicate Grows(c: Catalogue, d: Catalogue) {
    && |c.kategorie| <= |d.kategorie| && |c.baustein| <= |d.baustein|
    && |c.rolle| <= |d.rolle| && |c.anforderung| <= |d.anforderung|
  }

  /** What the role loop keeps: the role table and the ids collected so far. */
  predicate RolesOk(st: (seq<Value>, seq<Record>)) {
    Dense(st.1) && Unique(st.1, "name") && AllBelow(st.0, |st.1|)
  }

  lemma RoleStepKeeps(st: (seq<Value>, seq<Record>), entry: string)
    requires RolesOk(st)
    ensures RolesOk(RoleStep(st, entry).state) && |st.1| <= |RoleStep(st, entry).state.1|
  {
    var elems := map["name" := Str(Strip(entry))];
    GetOrCreateDense(st.1, "name", elems);
    GetOrCreateUnique(st.1, "name", elems);
  }

  /** The roles of a requirement exist in the role table, which stays consistent. */
  lemma RoleIdsKeep(title: string, ownerId: Value, roles: seq<Record>)
    requires Dense(roles) && Unique(roles, "name") && IdBelow(ownerId, |roles|)
    ensures var r := RoleIds(title, ownerId, roles);
      RolesOk(r.state) && |roles| <= |r.state.1|
  {
    var group := RoleGroup(title);
    if group.Some? {
      var inv := (st: (seq<Value>, seq<Record>)) => RolesOk(st) && |roles| <= |st.1|;
      forall t: (seq<Value>, seq<Record>), x: string | inv(t) ensures inv(RoleStep(t, x).state) {
        RoleStepKeeps(t, x);
      }
      FoldKeeps(RoleStep, inv, ([], roles), RoleEntries(group.value));
    }
  }

  /** A requirement record carries its position as id and refers to existing roles. */
  lemma RequirementRecordKeeps(req: Anforderung, number: nat, moduleId: Value, ownerId: Value,
                               roles: seq<Record>, types: Json)
    requires Dense(roles) && Unique(roles, "name") && IdBelow(ownerId, |roles|)
    ensures var (rec, rs) := RequirementRecord(req, number, moduleId, ownerId, roles, types);
      && Dense(rs) && Unique(rs, "name") && |roles| <= |rs|
      && (rec.Ok? ==> "id" in rec.value && rec.value["id"] == Int(number) && "baustein" in rec.value
                      && rec.value["baustein"] == moduleId && "rollen" in rec.value && IdsBelow(rec.value["rollen"], |rs|))
  {
    var parsed := ParseLabel(req.title);
    RequirementRecordFields(req, number, moduleId, ownerId, roles, types);
    if parsed.Ok? {
      var title := parsed.value.0;
      var run := RoleIds(title, ownerId, roles);
      RoleIdsKeep(title, ownerId, roles);
      assert RequirementRecord(req, number, moduleId, ownerId, roles, types).1 == run.state.1;
    }
  }

  /** A role table that only grew keeps every reference into it valid. */
  lemma MoreRoles(c: Catalogue, roles: seq<Record>)
    requires WellFormed(c) && Dense(roles) && Unique(roles, "name") && |c.rolle| <= |roles|
    ensures WellFormed(c.(rolle := roles))
  {
    forall i | 0 <= i < |c.baustein| ensures ModuleRefs(c.baustein[i], |c.kategorie|, |roles|) {
      assert ModuleRefs(c.baustein[i], |c.kategorie|, |c.rolle|);
    }
    forall i | 0 <= i < |c.anforderung| ensures RequirementRefs(c.anforderung[i], |c.baustein|, |roles|) {
      assert RequirementRefs(c.anforderung[i], |c.baustein|, |c.rolle|);
      var ids := c.anforderung[i]["rollen"].items;
      assert forall k :: 0 <= k < |ids| ==> IdBelow(ids[k], |c.rolle|);
    }
  }

  /** Appending a requirement numbered by its position whose references exist keeps the tables consistent. */
  lemma AppendRequirement(c: Catalogue, rec: Record)
    requires WellFormed(c)
    requires "id" in rec && rec["id"] == Int(|c.anforderung|) && RequirementRefs(rec, |c.baustein|, |c.rolle|)
    ensures WellFormed(c.(anforderung := c.anforderung + [rec]))
  {
    var a := c.anforderung + [rec];
    forall i | 0 <= i < |a| ensures "id" in a[i] && a[i]["id"] == Int(i) && RequirementRefs(a[i], |c.baustein|, |c.rolle|) {
      if i < |c.anforderung| {
        assert a[i] == c.anforderung[i];
      }
    }
    assert Dense(a);
  }

  lemma RequirementRunKeeps(b: Baustein, moduleId: Value, ownerId: Value, types: Json, c: Catalogue, key: string)
    requires WellFormed(c) && IdBelow(moduleId, |c.baustein|) && IdBelow(ownerId, |c.rolle|)
    ensures var r := RequirementRun(b, moduleId, ownerId, types, c, key);
      WellFormed(r.state) && Grows(c, r.state)
  {
    var req := Get(b.requirements, key);
    if req.Ok? {
      var n := |c.anforderung|;
      RequirementRecordKeeps(req.value, n, moduleId, ownerId, c.rolle, types);
      var (rec, rs) := RequirementRecord(req.value, n, moduleId, ownerId, c.rolle, types);
      MoreRoles(c, rs);
      if rec.Ok? {
        AppendRequirement(c.(rolle := rs), rec.value);
      }
    }
  }

  /** Adding a module through `get_or_create` with its category and owner existing keeps the tables consistent. */
  lemma AddModule(c: Catalogue, catId: Value, b: Baustein, roleId: Value)
    requires WellFormed(c) && IdBelow(catId, |c.kategorie|) && IdBelow(roleId, |c.rolle|)
    ensures var (moduleId, modules) := GetOrCreateResult(c.baustein, "name", ModuleData(|c.baustein|, b, catId, roleId));
      && WellFormed(c.(baustein := modules)) && |c.baustein| <= |modules|
      && moduleId.Ok? && IdBelow(moduleId.value, |modules|)
  {
    var n := |c.baustein|;
    var data := ModuleData(n, b, catId, roleId);
    GetOrCreateDense(c.baustein, "name", data);
    GetOrCreateUnique(c.baustein, "name", data);
    var modules := GetOrCreateResult(c.baustein, "name", data).1;
    ModuleRecordRefs(n, b, catId, roleId, |c.kategorie|, |c.rolle|);
    ModuleRefsAppend(c.baustein, modules, |c.kategorie|, |c.rolle|);
    forall i | 0 <= i < |c.anforderung| ensures RequirementRefs(c.anforderung[i], |modules|, |c.rolle|) {
      assert RequirementRefs(c.anforderung[i], |c.baustein|, |c.rolle|);
    }
  }

  /** Appending at most one record that refers to existing rows keeps every module's references valid. */
  lemma ModuleRefsAppend(rs: seq<Record>, ts: seq<Record>, categories: int, roles: int)
    requires rs <= ts && |ts| <= |rs| + 1
    requires forall i :: 0 <= i < |rs| ==> ModuleRefs(rs[i], categories, roles)
    requires |ts| == |rs| + 1 ==> ModuleRefs(ts[|rs|], categories, roles)
    ensures forall i :: 0 <= i < |ts| ==> ModuleRefs(ts[i], categories, roles)
  {
    forall i | 0 <= i < |ts| ensures ModuleRefs(ts[i], categories, roles) {
      if i < |rs| {
        assert ts[i] == rs[i];
      }
    }
  }

  lemma ModuleRecordRefs(n: nat, b: Baustein, catId: Value, roleId: Value, categories: int, roles: int)
    requires IdBelow(catId, categories) && IdBelow(roleId, roles)
    ensures ModuleRefs(map["id" := Int(n)] + ModuleData(n, b, catId, roleId), categories, roles)
  {
  }

  /** The module's role and record exist, then every requirement loop pass keeps the tables consistent. */
  lemma ModuleRunKeeps(catId: Value, b: Baustein, c: Catalogue, types: Json)
    requires WellFormed(c) && IdBelow(catId, |c.kategorie|)
    ensures var r := ModuleRun(catId, b, c, types);
      WellFormed(r.state) && Grows(c, r.state)
  {
    ModuleSetUp(catId, b, c);
    var (roleId, roles) := GetOrCreateResult(c.rolle, "name", map["name" := Str(b.role)]);
    var c1 := c.(rolle := roles);
    var (moduleId, modules) := GetOrCreateResult(c1.baustein, "name", ModuleData(|c1.baustein|, b, catId, roleId.value));
    var c2 := c1.(baustein := modules);
    var keys := SortedVersions(Keys(b.requirements));
    if keys.Ok? {
      RequirementFoldKeeps(b, moduleId.value, roleId.value, types, c2, keys.value);
    }
  }

  /** Looking up or creating the module's role and then its record keeps the tables consistent and yields their ids. */
  lemma ModuleSetUp(catId: Value, b: Baustein, c: Catalogue)
    requires WellFormed(c) && IdBelow(catId, |c.kategorie|)
    ensures var (roleId, roles) := GetOrCreateResult(c.rolle, "name", map["name" := Str(b.role)]);
      var c1 := c.(rolle := roles);
      && roleId.Ok? && IdBelow(roleId.value, |roles|) && WellFormed(c1) && Grows(c, c1)
      && var (moduleId, modules) := GetOrCreateResult(c1.baustein, "name", ModuleData(|c1.baustein|, b, catId, roleId.value));
      && moduleId.Ok? && IdBelow(moduleId.value, |modules|)
      && WellFormed(c1.(baustein := modules)) && Grows(c, c1.(baustein := modules))
  {
    var roleElems := map["name" := Str(b.role)];
    GetOrCreateDense(c.rolle, "name", roleElems);
    GetOrCreateUnique(c.rolle, "name", roleElems);
    var (roleId, roles) := GetOrCreateResult(c.rolle, "name", roleElems);
    MoreRoles(c, roles);
    AddModule(c.(rolle := roles), catId, b, roleId.value);
  }

  /** The requirement loop of one module keeps the tables consistent. */
  lemma RequirementFoldKeeps(b: Baustein, moduleId: Value, roleId: Value, types: Json, c: Catalogue, keys: seq<string>)
    requires WellFormed(c) && IdBelow(moduleId, |c.baustein|) && IdBelow(roleId, |c.rolle|)
    ensures var r := Fold(RequirementStep(b, moduleId, roleId, types), c, keys);
      WellFormed(r.state) && Grows(c, r.state)
  {
    var step := RequirementStep(b, moduleId, roleId, types);
    var inv := (d: Catalogue) => WellFormed(d) && Grows(c, d);
    forall t: Catalogue, x: string | inv(t) ensures inv(step(t, x).state) {
      RequirementRunKeeps(b, moduleId, roleId, types, t, x);
    }
    FoldKeeps(step, inv, c, keys);
  }

  lemma CategoryRunKeeps(elements: Dict<Dict<Baustein>>, types: Json, c: Catalogue, cat: string)
    requires WellFormed(c)
    ensures var r := CategoryRun(elements, types, c, cat);
      WellFormed(r.state) && Grows(c, r.state)
  {
    var elems := map["name" := Str(cat), "label" := Str(cat)];
    GetOrCreateDense(c.kategorie, "name", elems);
    GetOrCreateUnique(c.kategorie, "name", elems);
    var (catId, cats) := GetOrCreateResult(c.kategorie, "name", elems);
    var c1 := c.(kategorie := cats);
    forall i | 0 <= i < |c.baustein| ensures ModuleRefs(c.baustein[i], |cats|, |c.rolle|) {
      assert ModuleRefs(c.baustein[i], |c.kategorie|, |c.rolle|);
    }
    assert WellFormed(c1);
    var modules := Get(elements, cat);
    if modules.Ok? {
      var numbers := SortedVersions(Keys(modules.value));
      if numbers.Ok? {
        var step := ModuleStep(catId.value, modules.value, types);
        var inv := (d: Catalogue) => WellFormed(d) && Grows(c1, d);
        forall t: Catalogue, x: string | inv(t) ensures inv(step(t, x).state) {
          var b := Get(modules.value, x);
          if b.Ok? {
            ModuleRunKeeps(catId.value, b.value, t, types);
          }
        }
        FoldKeeps(step, inv, c1, numbers.value);
      }
    }
  }

  /**
   * After the first loop, finished or stopped by an exception, ids are
   * positions, category, module and role names are unique, and every
   * module and requirement refers to existing rows.
   */
  lemma BuildCatalogueWellFormed(elements: Dict<Dict<Baustein>>, types: Json)
    ensures WellFormed(BuildCatalogue(elements, types).state)
  {
    var step := CategoryStep(elements, types);
    forall t: Catalogue, x: string | WellFormed(t) ensures WellFormed(step(t, x).state) {
      CategoryRunKeeps(elements, types, t, x);
    }
    FoldKeeps(step, WellFormed, Catalogue([], [], [], []), SortedNames(Keys(elements)));
  }

  // ---------------------------------------------------------------------
  // What the second loop keeps and appends
  // ---------------------------------------------------------------------

  /** An association's requirement and hazard exist and its goals are a list. */
  predicate AssociationRefs(r: Record, requirements: int, hazards: int) {
    && "anforderung" in r && IdBelow(r["anforderung"], requirements)
    && "gefaehrdung" in r && IdBelow(r["gefaehrdung"], hazards)
    && "schutzziele" in r && r["schutzziele"].List?
  }

  /** The hazard table is numbered by position with unique names, and every association refers to existing rows. */
  predicate LinksWellFormed(h: HazardTables, requirements: int) {
    && Dense(h.gefaehrdung) && Unique(h.gefaehrdung, "name")
    && forall i :: 0 <= i < |h.anfGef| ==> AssociationRefs(h.anfGef[i], requirements, |h.gefaehrdung|)
  }

  lemma HazardRunKeeps(anf: Record, goals: Json, h: HazardTables, hazard: (string, string), requirements: int)
    requires LinksWellFormed(h, requirements) && ("id" in anf ==> IdBelow(anf["id"], requirements))
    ensures var r := HazardRun(anf, goals, h, hazard);
      LinksWellFormed(r.state, requirements)
  {
    var elems := map["name" := Str(hazard.0)];
    GetOrCreateDense(h.gefaehrdung, "name", elems);
    GetOrCreateUnique(h.gefaehrdung, "name", elems);
    var hazards := GetOrCreateResult(h.gefaehrdung, "name", elems).1;
    forall i | 0 <= i < |h.anfGef| ensures AssociationRefs(h.anfGef[i], requirements, |hazards|) {
      assert AssociationRefs(h.anfGef[i], requirements, |h.gefaehrdung|);
    }
    var r := HazardRun(anf, goals, h, hazard);
    forall i | 0 <= i < |r.state.anfGef| ensures AssociationRefs(r.state.anfGef[i], requirements, |hazards|) {
      if i < |h.anfGef| {
        assert r.state.anfGef[i] == h.anfGef[i];
      }
    }
  }

  lemma LinkRunKeeps(edition: Edition, krt: Option<map<string, Sheet>>, goals: Json, h: HazardTables, anf: Record, requirements: int)
    requires LinksWellFormed(h, requirements) && ("id" in anf ==> IdBelow(anf["id"], requirements))
    ensures LinksWellFormed(LinkRun(edition, krt, goals, h, anf).state, requirements)
  {
    if "name" in anf && anf["name"].Str? {
      var hazards := KrtLookup(edition, krt, anf["name"].s);
      if hazards.Ok? {
        var inv := (t: HazardTables) => LinksWellFormed(t, requirements);
        forall t: HazardTables, x: (string, string) | inv(t) ensures inv(HazardStep(anf, goals)(t, x).state) {
          HazardRunKeeps(anf, goals, t, x, requirements);
        }
        FoldKeeps(HazardStep(anf, goals), inv, h, hazards.value);
      }
    }
  }

  /**
   * After the second loop, finished or stopped by an exception, hazards are
   * numbered by position with unique names and every association refers to
   * an existing requirement and hazard.
   */
  lemma LinkHazardsWellFormed(edition: Edition, krt: Option<map<string, Sheet>>, goals: Json, anforderung: seq<Record>)
    requires Dense(anforderung)
    ensures LinksWellFormed(LinkHazards(edition, krt, goals, anforderung).state, |anforderung|)
  {
    var n := |anforderung|;
    var inv := (t: HazardTables) => LinksWellFormed(t, n);
    forall t: HazardTables, x: Record | x in anforderung && inv(t) ensures inv(LinkStep(edition, krt, goals)(t, x).state) {
      var i :| 0 <= i < n && anforderung[i] == x;
      LinkRunKeeps(edition, krt, goals, t, x, n);
    }
    FoldKeeps(LinkStep(edition, krt, goals), inv, HazardTables([], []), anforderung);
  }

  /** The six tables `main` writes are consistent with one another. */
  lemma ConvertCompendiumWellFormed(elements: Dict<Dict<Baustein>>, edition: Edition, krt: Option<map<string, Sheet>>,
                                    types: Json, goals: Json)
    ensures var r := ConvertCompendium(elements, edition, krt, types, goals);
      r.Ok? ==>
        && WellFormed(Catalogue(r.value.kategorie, r.value.baustein, r.value.rolle, r.value.anforderung))
        && LinksWellFormed(HazardTables(r.value.gefaehrdung, r.value.anfGef), |r.value.anforderung|)
  {
    BuildCatalogueWellFormed(elements, types);
    var c := BuildCatalogue(elements, types);
    LinkHazardsWellFormed(edition, krt, goals, c.state.anforderung);
  }

  /** What the goal loop yields from `ids` over the letters of `tag`. */
  predicate GoalIdsOf(goals: Json, ids: seq<Value>, tag: string, r: Run<seq<Value>>) {
    && (r.error.Some? <==> exists k :: 0 <= k < |tag| && Lookup(goals, "name", Str([tag[k]])).Err?)
    && (r.error.None? ==>
          && |r.state| == |ids| + |tag| && r.state[..|ids|] == ids
          && forall k :: 0 <= k < |tag| ==> Lookup(goals, "name", Str([tag[k]])) == Ok(r.state[|ids| + k]))
  }

  lemma GoalIdsSnoc(goals: Json, ids: seq<Value>, init: string, last: char, p: Run<seq<Value>>, r: Run<seq<Value>>)
    requires GoalIdsOf(goals, ids, init, p)
    requires r == if p.error.Some? then p else GoalRun(goals, p.state, last)
    ensures GoalIdsOf(goals, ids, init + [last], r)
  {
    var tag := init + [last];
    assert forall k :: 0 <= k < |init| ==> tag[k] == init[k];
    assert tag[|init|] == last;
    if p.error.Some? {
      var k :| 0 <= k < |init| && Lookup(goals, "name", Str([init[k]])).Err?;
      assert tag[k] == init[k];
    } else if r.error.None? {
      assert r.state == p.state + [Lookup(goals, "name", Str([last])).value];
      assert r.state[..|ids|] == p.state[..|ids|];
      forall k | 0 <= k < |tag| ensures Lookup(goals, "name", Str([tag[k]])) == Ok(r.state[|ids| + k]) {
        if k < |init| {
          assert r.state[|ids| + k] == p.state[|ids| + k];
        }
      }
    }
  }

  /**
   * The goal loop succeeds exactly when every letter names a goal, and then
   * yields the goals' ids letter by letter.
   */
  lemma {:induction false} GoalFoldIds(goals: Json, ids: seq<Value>, tag: string)
    ensures var r := Fold(GoalStep(goals), ids, tag);
      && (r.error.Some? <==> exists k :: 0 <= k < |tag| && Lookup(goals, "name", Str([tag[k]])).Err?)
      && (r.error.None? ==>
            && |r.state| == |ids| + |tag| && r.state[..|ids|] == ids
            && forall k :: 0 <= k < |tag| ==> Lookup(goals, "name", Str([tag[k]])) == Ok(r.state[|ids| + k]))
    decreases |tag|
  {
    if |tag| > 0 {
      var init := tag[..|tag| - 1];
      var last := tag[|tag| - 1];
      GoalFoldIds(goals, ids, init);
      var p := Fold(GoalStep(goals), ids, init);
      assert GoalIdsOf(goals, ids, init, p);
      FoldSnoc(GoalStep(goals), ids, init, last);
      GoalIdsSnoc(goals, ids, init, last, p, Fold(GoalStep(goals), ids, init + [last]));
      assert init + [last] == tag;
    } else {
      assert Fold(GoalStep(goals), ids, tag) == Run(None, ids);
      assert ids[..|ids|] == ids;
    }
  }

  /** Association `i` links the requirement with id `anfId` to the hazard named `hazard.0`, with one goal per letter. */
  predicate Associates(h: HazardTables, i: int, anfId: Value, hazard: (string, string)) {
    && 0 <= i < |h.anfGef|
    && "anforderung" in h.anfGef[i] && h.anfGef[i]["anforderung"] == anfId
    && "gefaehrdung" in h.anfGef[i] && IdBelow(h.anfGef[i]["gefaehrdung"], |h.gefaehrdung|)
    && Matches(h.gefaehrdung[h.anfGef[i]["gefaehrdung"].n], "name", Str(hazard.0))
    && "schutzziele" in h.anfGef[i] && h.anfGef[i]["schutzziele"].List?
    && |h.anfGef[i]["schutzziele"].items| == |hazard.1|
  }

  lemma AssociatesGrow(h: HazardTables, d: HazardTables, i: int, anfId: Value, hazard: (string, string))
    requires Associates(h, i, anfId, hazard) && h.gefaehrdung <= d.gefaehrdung && h.anfGef <= d.anfGef
    ensures Associates(d, i, anfId, hazard)
  {
    assert d.anfGef[i] == h.anfGef[i];
    assert d.gefaehrdung[h.anfGef[i]["gefaehrdung"].n] == h.gefaehrdung[h.anfGef[i]["gefaehrdung"].n];
  }

  /** One pass of the hazard loop that finishes appends one association for its hazard. */
  lemma HazardRunAppends(anf: Record, goals: Json, h: HazardTables, hazard: (string, string))
    requires Dense(h.gefaehrdung) && "id" in anf
    ensures var r := HazardRun(anf, goals, h, hazard);
      r.error.None? ==>
        && Dense(r.state.gefaehrdung) && h.gefaehrdung <= r.state.gefaehrdung
        && h.anfGef <= r.state.anfGef && |r.state.anfGef| == |h.anfGef| + 1
        && Associates(r.state, |h.anfGef|, anf["id"], hazard)
  {
    GetOrCreateDense(h.gefaehrdung, "name", map["name" := Str(hazard.0)]);
    GoalFoldIds(goals, [], hazard.1);
  }

  /** Rows `|h.anfGef|` onwards of `d` associate the requirement with `hazards`, one each, in order. */
  predicate AssociatesAll(h: HazardTables, d: HazardTables, anfId: Value, hazards: Dict<string>) {
    && Dense(d.gefaehrdung) && h.gefaehrdung <= d.gefaehrdung
    && h.anfGef <= d.anfGef && |d.anfGef| == |h.anfGef| + |hazards|
    && forall k :: 0 <= k < |hazards| ==> Associates(d, |h.anfGef| + k, anfId, hazards[k])
  }

  lemma AssociatesAllSnoc(h: HazardTables, p: HazardTables, d: HazardTables, anfId: Value,
                          init: Dict<string>, last: (string, string))
    requires AssociatesAll(h, p, anfId, init)
    requires Dense(d.gefaehrdung) && p.gefaehrdung <= d.gefaehrdung
    requires p.anfGef <= d.anfGef && |d.anfGef| == |p.anfGef| + 1
    requires Associates(d, |p.anfGef|, anfId, last)
    ensures AssociatesAll(h, d, anfId, init + [last])
  {
    var hazards := init + [last];
    forall k | 0 <= k < |hazards| ensures Associates(d, |h.anfGef| + k, anfId, hazards[k]) {
      if k < |init| {
        assert hazards[k] == init[k];
        AssociatesGrow(p, d, |h.anfGef| + k, anfId, init[k]);
      }
    }
  }

  /**
   * A requirement's hazard loop, when it finishes, appends exactly one
   * association per hazard, in the order of the lookup, each naming its
   * hazard and carrying one goal per letter.
   */
  lemma {:induction false} HazardFoldAppends(anf: Record, goals: Json, h: HazardTables, hazards: Dict<string>)
    requires Dense(h.gefaehrdung) && "id" in anf
    ensures var r := Fold(HazardStep(anf, goals), h, hazards);
      r.error.None? ==> AssociatesAll(h, r.state, anf["id"], hazards)
    decreases |hazards|
  {
    if |hazards| > 0 {
      var init := hazards[..|hazards| - 1];
      var last := hazards[|hazards| - 1];
      HazardFoldAppends(anf, goals, h, init);
      FoldSnoc(HazardStep(anf, goals), h, init, last);
      assert init + [last] == hazards;
      var p := Fold(HazardStep(anf, goals), h, init);
      if p.error.None? {
        HazardRunAppends(anf, goals, p.state, last);
        var r := HazardRun(anf, goals, p.state, last);
        if r.error.None? {
          AssociatesAllSnoc(h, p.state, r.state, anf["id"], init, last);
        }
      }
    } else {
      assert Fold(HazardStep(anf, goals), h, hazards).state == h;
    }
  }

  /**
   * A pass of the second loop that finishes appends one association for each
   * hazard the KRT lookup gives the requirement's name, in that order.
   */
  lemma LinkRunAppends(edition: Edition, krt: Option<map<string, Sheet>>, goals: Json, h: HazardTables, anf: Record)
    requires Dense(h.gefaehrdung) && "id" in anf
    ensures var r := LinkRun(edition, krt, goals, h, anf);
      r.error.None? ==>
        && "name" in anf && anf["name"].Str?
        && var hazards := KrtLookup(edition, krt, anf["name"].s);
        && hazards.Ok? && AssociatesAll(h, r.state, anf["id"], hazards.value)
  {
    if "name" in anf && anf["name"].Str? {
      var hazards := KrtLookup(edition, krt, anf["name"].s);
      if hazards.Ok? {
        HazardFoldAppends(anf, goals, h, hazards.value);
      }
    }
  }

  /** Record `rec` is requirement `req` of the module with id `moduleId`. */
  predicate Describes(rec: Record, req: Anforderung, moduleId: Value) {
    "name" in rec && rec["name"] == Str(req.name) && "baustein" in rec && rec["baustein"] == moduleId
  }

  /** One pass of the requirement loop leaves categories and modules alone and, unless it raises, appends the record of `key`. */
  lemma RequirementRunAppends(b: Baustein, moduleId: Value, ownerId: Value, types: Json, c: Catalogue, key: string)
    ensures var r := RequirementRun(b, moduleId, ownerId, types, c, key);
      && r.state.kategorie == c.kategorie && r.state.baustein == c.baustein
      && (r.error.None? ==>
            && Get(b.requirements, key).Ok?
            && c.anforderung <= r.state.anforderung && |r.state.anforderung| == |c.anforderung| + 1
            && Describes(r.state.anforderung[|c.anforderung|], Get(b.requirements, key).value, moduleId))
  {
    var req := Get(b.requirements, key);
    if req.Ok? {
      RecordDescribes(req.value, |c.anforderung|, moduleId, ownerId, c.rolle, types);
    }
  }

  lemma RecordDescribes(req: Anforderung, number: nat, moduleId: Value, ownerId: Value, roles: seq<Record>, types: Json)
    ensures var rec := RequirementRecord(req, number, moduleId, ownerId, roles, types).0;
      rec.Ok? ==> Describes(rec.value, req, moduleId)
  {
    RequirementRecordFields(req, number, moduleId, ownerId, roles, types);
  }

  /** Rows `|c.anforderung|` on of `d` describe the requirements of `keys`, one each, in order. */
  predicate DescribesAll(c: Catalogue, d: Catalogue, b: Baustein, moduleId: Value, keys: seq<string>) {
    && c.anforderung <= d.anforderung && |d.anforderung| == |c.anforderung| + |keys|
    && forall k :: 0 <= k < |keys| ==>
         Get(b.requirements, keys[k]).Ok?
         && Describes(d.anforderung[|c.anforderung| + k], Get(b.requirements, keys[k]).value, moduleId)
  }

  lemma DescribesAllSnoc(c: Catalogue, p: Catalogue, d: Catalogue, b: Baustein, moduleId: Value, init: seq<string>, last: string)
    requires DescribesAll(c, p, b, moduleId, init)
    requires p.anforderung <= d.anforderung && |d.anforderung| == |p.anforderung| + 1
    requires Get(b.requirements, last).Ok? && Describes(d.anforderung[|p.anforderung|], Get(b.requirements, last).value, moduleId)
    ensures DescribesAll(c, d, b, moduleId, init + [last])
  {
    var keys := init + [last];
    forall k | 0 <= k < |keys|
      ensures Get(b.requirements, keys[k]).Ok?
      ensures Describes(d.anforderung[|c.anforderung| + k], Get(b.requirements, keys[k]).value, moduleId)
    {
      if k < |init| {
        assert keys[k] == init[k];
        assert d.anforderung[|c.anforderung| + k] == p.anforderung[|c.anforderung| + k];
      }
    }
  }

  /**
   * A module's requirement loop, when it finishes, appends one record per
   * key, in the order of the keys, each describing that key's requirement.
   */
  lemma {:induction false} RequirementFoldAppends(b: Baustein, moduleId: Value, ownerId: Value, types: Json,
                                                  c: Catalogue, keys: seq<string>)
    ensures var r := Fold(RequirementStep(b, moduleId, ownerId, types), c, keys);
      && r.state.kategorie == c.kategorie && r.state.baustein == c.baustein
      && (r.error.None? ==> DescribesAll(c, r.state, b, moduleId, keys))
    decreases |keys|
  {
    if |keys| > 0 {
      var step := RequirementStep(b, moduleId, ownerId, types);
      var init := keys[..|keys| - 1];
      var last := keys[|keys| - 1];
      assert init + [last] == keys;
      RequirementFoldAppends(b, moduleId, ownerId, types, c, init);
      FoldSnoc(step, c, init, last);
      var p := Fold(step, c, init);
      if p.error.None? {
        var r := RequirementRun(b, moduleId, ownerId, types, p.state, last);
        RequirementRunAppends(b, moduleId, ownerId, types, p.state, last);
        if r.error.None? {
          DescribesAllSnoc(c, p.state, r.state, b, moduleId, init, last);
        }
      }
    }
  }

  /**
   * Row `i` of the requirement table is the requirement with key `key` of
   * module `b`, and points at a row carrying the module's name.
   */
  predicate RequirementOf(c: Catalogue, i: int, b: Baustein, key: string) {
    && 0 <= i < |c.anforderung| && Get(b.requirements, key).Ok?
    && var rec := c.anforderung[i];
    && "name" in rec && rec["name"] == Str(Get(b.requirements, key).value.name)
    && "baustein" in rec && IdBelow(rec["baustein"], |c.baustein|)
    && Matches(c.baustein[rec["baustein"].n], "name", Str(b.name))
  }

  /** From row `from` on, the requirement table holds the requirements of `keys`, one each, in order. */
  predicate AppendsRequirements(c: Catalogue, from: int, b: Baustein, keys: seq<string>) {
    && |c.anforderung| == from + |keys|
    && forall k :: 0 <= k < |keys| ==> RequirementOf(c, from + k, b, keys[k])
  }

  /** The requirement loop of a module whose row exists, seen from the module table. */
  lemma ModuleFoldAppends(b: Baustein, moduleId: Value, roleId: Value, types: Json, c: Catalogue, ks: seq<string>)
    requires IdBelow(moduleId, |c.baustein|) && Matches(c.baustein[moduleId.n], "name", Str(b.name))
    ensures var r := Fold(RequirementStep(b, moduleId, roleId, types), c, ks);
      r.error.None? ==> AppendsRequirements(r.state, |c.anforderung|, b, ks)
  {
    RequirementFoldAppends(b, moduleId, roleId, types, c, ks);
    var r := Fold(RequirementStep(b, moduleId, roleId, types), c, ks);
    if r.error.None? {
      forall k | 0 <= k < |ks| ensures RequirementOf(r.state, |c.anforderung| + k, b, ks[k]) {
        assert Describes(r.state.anforderung[|c.anforderung| + k], Get(b.requirements, ks[k]).value, moduleId);
      }
    }
  }

  /**
   * A module's pass of the module loop, when it finishes, appends one record
   * per requirement in version order, each pointing at the module's row,
   * which carries the module's name.
   */
  lemma ModuleRunAppends(catId: Value, b: Baustein, c: Catalogue, types: Json)
    requires Dense(c.rolle) && Dense(c.baustein)
    ensures var r := ModuleRun(catId, b, c, types);
      r.error.None? ==>
        && SortedVersions(Keys(b.requirements)).Ok?
        && AppendsRequirements(r.state, |c.anforderung|, b, SortedVersions(Keys(b.requirements)).value)
  {
    var roleElems := map["name" := Str(b.role)];
    GetOrCreateDense(c.rolle, "name", roleElems);
    var (roleId, roles) := GetOrCreateResult(c.rolle, "name", roleElems);
    var c1 := c.(rolle := roles);
    var data := ModuleData(|c1.baustein|, b, catId, roleId.value);
    GetOrCreateDense(c1.baustein, "name", data);
    var (moduleId, modules) := GetOrCreateResult(c1.baustein, "name", data);
    var c2 := c1.(baustein := modules);
    assert data["name"] == Str(b.name);
    var keys := SortedVersions(Keys(b.requirements));
    if keys.Ok? {
      assert ModuleRun(catId, b, c, types) == Fold(RequirementStep(b, moduleId.value, roleId.value, types), c2, keys.value);
      ModuleFoldAppends(b, moduleId.value, roleId.value, types, c2, keys.value);
    }
  }

  // ---------------------------------------------------------------------
  // What the role loop yields
  // ---------------------------------------------------------------------

  /** Id `i` of `ids` is the row of `roles` named by the stripped `entry`. */
  predicate NamesRole(ids: seq<Value>, roles: seq<Record>, i: int, entry: string) {
    0 <= i < |ids| && IdBelow(ids[i], |roles|) && Matches(roles[ids[i].n], "name", Str(Strip(entry)))
  }

  lemma NamesRoleGrow(ids: seq<Value>, roles: seq<Record>, ids2: seq<Value>, roles2: seq<Record>, i: int, entry: string)
    requires NamesRole(ids, roles, i, entry) && ids <= ids2 && roles <= roles2
    ensures NamesRole(ids2, roles2, i, entry)
  {
    assert ids2[i] == ids[i];
    assert roles2[ids[i].n] == roles[ids[i].n];
  }

  lemma NamesRoleAll(ids: seq<Value>, roles: seq<Record>, ids2: seq<Value>, roles2: seq<Record>, from: int, entries: seq<string>)
    requires forall k :: 0 <= k < |entries| ==> NamesRole(ids, roles, from + k, entries[k])
    requires ids <= ids2 && roles <= roles2
    ensures forall k :: 0 <= k < |entries| ==> NamesRole(ids2, roles2, from + k, entries[k])
  {
    forall k | 0 <= k < |entries| ensures NamesRole(ids2, roles2, from + k, entries[k]) {
      NamesRoleGrow(ids, roles, ids2, roles2, from + k, entries[k]);
    }
  }

  lemma RoleStepNames(st: (seq<Value>, seq<Record>), entry: string)
    requires Dense(st.1)
    ensures var r := RoleStep(st, entry);
      && r.error.None? && Dense(r.state.1) && st.1 <= r.state.1
      && st.0 <= r.state.0 && |r.state.0| == |st.0| + 1
      && NamesRole(r.state.0, r.state.1, |st.0|, entry)
  {
    GetOrCreateDense(st.1, "name", map["name" := Str(Strip(entry))]);
  }

  /** What the role loop yields, from state `st` over `entries`. */
  predicate RolesNamed(st: (seq<Value>, seq<Record>), entries: seq<string>, r: Run<(seq<Value>, seq<Record>)>) {
    && r.error.None? && Dense(r.state.1) && st.1 <= r.state.1
    && st.0 <= r.state.0 && |r.state.0| == |st.0| + |entries|
    && forall k :: 0 <= k < |entries| ==> NamesRole(r.state.0, r.state.1, |st.0| + k, entries[k])
  }

  lemma RolesNamedSnoc(st: (seq<Value>, seq<Record>), init: seq<string>, last: string,
                       p: Run<(seq<Value>, seq<Record>)>, r: Run<(seq<Value>, seq<Record>)>)
    requires RolesNamed(st, init, p)
    requires r.error.None? && Dense(r.state.1) && p.state.1 <= r.state.1
    requires p.state.0 <= r.state.0 && |r.state.0| == |p.state.0| + 1
    requires NamesRole(r.state.0, r.state.1, |p.state.0|, last)
    ensures RolesNamed(st, init + [last], r)
  {
    var entries := init + [last];
    NamesRoleAll(p.state.0, p.state.1, r.state.0, r.state.1, |st.0|, init);
    forall k | 0 <= k < |entries| ensures NamesRole(r.state.0, r.state.1, |st.0| + k, entries[k]) {
      if k < |init| {
        assert entries[k] == init[k];
      }
    }
  }

  lemma RoleFoldNamesStep(st: (seq<Value>, seq<Record>), init: seq<string>, last: string)
    requires RolesNamed(st, init, Fold(RoleStep, st, init))
    ensures RolesNamed(st, init + [last], Fold(RoleStep, st, init + [last]))
  {
    var p := Fold(RoleStep, st, init);
    FoldSnoc(RoleStep, st, init, last);
    RoleStepNames(p.state, last);
    RolesNamedSnoc(st, init, last, p, RoleStep(p.state, last));
  }

  /** The role loop never fails on a numbered table, and yields one role per entry, in order. */
  lemma {:induction false} RoleFoldNames(st: (seq<Value>, seq<Record>), entries: seq<string>)
    requires Dense(st.1)
    ensures RolesNamed(st, entries, Fold(RoleStep, st, entries))
    decreases |entries|
  {
    if |entries| > 0 {
      var init := entries[..|entries| - 1];
      RoleFoldNames(st, init);
      RoleFoldNamesStep(st, init, entries[|entries| - 1]);
      assert init + [entries[|entries| - 1]] == entries;
    }
  }

  /**
   * A requirement's roles: without an override, the module's owner; with
   * one, one role per entry of the override, in order, each the row named by
   * the stripped entry.
   */
  lemma RoleIdsNames(title: string, ownerId: Value, roles: seq<Record>)
    requires Dense(roles)
    ensures var r := RoleIds(title, ownerId, roles);
      && r.error.None?
      && (RoleGroup(title).None? ==> r.state == ([ownerId], roles))
      && (RoleGroup(title).Some? ==>
            var entries := RoleEntries(RoleGroup(title).value);
            && |r.state.0| == |entries|
            && forall k :: 0 <= k < |entries| ==> NamesRole(r.state.0, r.state.1, k, entries[k]))
  {
    var group := RoleGroup(title);
    if group.Some? {
      RoleFoldNames(([], roles), RoleEntries(group.value));
    }
  }
}
