/**
 * The extraction logic of tools/lib/BSI.py for the IT-Grundschutz
 * compendium: category headings of the overview page, elementary hazards
 * ("Gefährdungen") from the hazard catalogue's table of contents, modules
 * ("Bausteine") with their requirements ("Anforderungen") and responsible
 * role from each module's converted PDF, and the hazards of one
 * requirement from the cross-reference table (KRT).
 *
 * HTML is given as plain data: a table of contents is the sequence of its
 * link texts, a content document the sequence of its paragraphs that hold
 * text (each given by its first text node), the overview page the texts of
 * its second-level headings. A KRT sheet is a header plus rows of string
 * cells, as pandas reads it (empty cells are "").
 */
module Bsi {
  import opened Py
  import opened Common

  // ---------------------------------------------------------------------
  // Scanning a document: every extractor loop stops at the first exception
  // ---------------------------------------------------------------------

  /** What one link or heading contributes: nothing, an entry, or an exception. */
  datatype Step<T> = Skip | Emit(item: T) | Fail(error: Error)

  /** The entries collected before the first exception, and that exception if there was one. */
  datatype Scan<T> = Scan(entries: seq<T>, error: Option<Error>)

  /** Runs the steps in order, stopping at the first failure. */
  function ScanSteps<T>(steps: seq<Step<T>>): (s: Scan<T>)
    ensures |s.entries| <= |steps|
    decreases |steps|
  {
    if |steps| == 0 then Scan([], None)
    else
      var s := ScanSteps(steps[..|steps| - 1]);
      if s.error.Some? then s
      else
        match steps[|steps| - 1]
        case Skip => s
        case Emit(x) => Scan(s.entries + [x], None)
        case Fail(e) => Scan(s.entries, Some(e))
  }

  /** The scan fails exactly when some step fails, and then with the first failure. */
  lemma {:induction false} ScanFails<T>(steps: seq<Step<T>>)
    ensures ScanSteps(steps).error.None? <==> forall i :: 0 <= i < |steps| ==> !steps[i].Fail?
    ensures ScanSteps(steps).error.Some? ==>
      exists i :: 0 <= i < |steps| && steps[i].Fail? && ScanSteps(steps).error == Some(steps[i].error)
        && forall j :: 0 <= j < i ==> !steps[j].Fail?
    decreases |steps|
  {
    if |steps| > 0 {
      var init := steps[..|steps| - 1];
      ScanFails(init);
      assert forall j :: 0 <= j < |init| ==> init[j] == steps[j];
    }
  }

  /** Index of the last step emitting an entry with key k. */
  function LastEmit<V>(steps: seq<Step<(string, V)>>, k: string): (r: Option<nat>)
    ensures r.Some? ==> r.value < |steps| && steps[r.value].Emit? && steps[r.value].item.0 == k
    ensures r.Some? ==> forall j :: r.value < j < |steps| ==> !(steps[j].Emit? && steps[j].item.0 == k)
    ensures r.None? ==> forall j :: 0 <= j < |steps| ==> !(steps[j].Emit? && steps[j].item.0 == k)
    decreases |steps|
  {
    if |steps| == 0 then None
    else if steps[|steps| - 1].Emit? && steps[|steps| - 1].item.0 == k then Some(|steps| - 1)
    else LastEmit(steps[..|steps| - 1], k)
  }

  /** The dict a successful scan fills: each key holds the value of the last entry that set it. */
  function ScanDict<V>(steps: seq<Step<(string, V)>>): Result<Dict<V>> {
    var s := ScanSteps(steps);
    match s.error
    case Some(e) => Err(e)
    case None => Ok(PutAll([], s.entries))
  }

  /**
   * A later entry for the same key overwrites an earlier one: after a scan
   * without exception, key k maps to the value of the last step emitting
   * k, and keys no step emits are absent.
   */
  lemma {:induction false} ScanLastWins<V>(steps: seq<Step<(string, V)>>, k: string)
    requires ScanSteps(steps).error.None?
    ensures LastEmit(steps, k).Some? ==>
      Get(PutAll([], ScanSteps(steps).entries), k) == Ok(steps[LastEmit(steps, k).value].item.1)
    ensures LastEmit(steps, k).None? ==> !HasKey(PutAll([], ScanSteps(steps).entries), k)
    decreases |steps|
  {
    if |steps| == 0 {
      GetAbsent<V>([], k);
    } else {
      var init, last := steps[..|steps| - 1], steps[|steps| - 1];
      assert steps == init + [last];
      assert ScanSteps(init).error.None?;
      ScanLastWins(init, k);
      LastWinsStep(init, last, k);
    }
  }

  /** One more step keeps the statement of ScanLastWins. */
  lemma LastWinsStep<V>(init: seq<Step<(string, V)>>, last: Step<(string, V)>, k: string)
    requires ScanSteps(init + [last]).error.None?
    requires LastEmit(init, k).Some? ==>
      Get(PutAll([], ScanSteps(init).entries), k) == Ok(init[LastEmit(init, k).value].item.1)
    requires LastEmit(init, k).None? ==> !HasKey(PutAll([], ScanSteps(init).entries), k)
    ensures var steps := init + [last];
      && (LastEmit(steps, k).Some? ==>
            Get(PutAll([], ScanSteps(steps).entries), k) == Ok(steps[LastEmit(steps, k).value].item.1))
      && (LastEmit(steps, k).None? ==> !HasKey(PutAll([], ScanSteps(steps).entries), k))
  {
    var steps := init + [last];
    assert steps[..|steps| - 1] == init;
    var s := ScanSteps(init);
    var d := PutAll([], s.entries);
    GetAbsent(d, k);
    match last
    case Skip =>
      assert ScanSteps(steps) == s;
      assert LastEmit(steps, k) == LastEmit(init, k);
    case Emit(p) =>
      assert ScanSteps(steps).entries == s.entries + [p];
      PutAllSnoc([], s.entries, p);
      GetAbsent(Put(d, p.0, p.1), k);
      if p.0 != k {
        assert LastEmit(steps, k) == LastEmit(init, k);
        if LastEmit(init, k).Some? {
          assert steps[LastEmit(init, k).value] == init[LastEmit(init, k).value];
        }
      }
  }

  lemma GetAbsent<V>(d: Dict<V>, k: string)
    ensures !HasKey(d, k) <==> Get(d, k).Err?
  {
  }

  /** The second piece of a split is what follows the first separator, up to the next one. */
  lemma SplitSecond(s: string, sep: string)
    requires |sep| > 0
    ensures |Split(s, sep)| >= 2 <==> Find(s, sep).Some?
    ensures |Split(s, sep)| >= 1 && Split(s, sep)[0] == UpTo(s, sep)
    ensures Find(s, sep).Some? ==> Split(s, sep)[1] == UpTo(AfterFirst(s, sep), sep)
  {
    SplitHead(s, sep);
    if Find(s, sep).Some? {
      SplitHead(s[Find(s, sep).value + |sep|..], sep);
    }
  }

  // ---------------------------------------------------------------------
  // Categories (get_bausteinkategorien)
  // ---------------------------------------------------------------------

  /** The boilerplate heading of the 2022 overview page that is not a category. */
  const SimilarTopics: string := "Ähnliche Themen"

  /** The text up to the first occurrence of sep, or all of it. */
  function UpTo(s: string, sep: string): string {
    match Find(s, sep)
    case Some(i) => s[..i]
    case None => s
  }

  /** The text after the first occurrence of sep. */
  function AfterFirst(s: string, sep: string): string
    requires Find(s, sep).Some?
  {
    s[Find(s, sep).value + |sep|..]
  }

  /**
   * One second-level heading of the overview page: the stripped title
   * "Ähnliche Themen" is skipped; otherwise the title must contain ": "
   * (else an IndexError) and gives (name, label), both cleaned of no-break
   * spaces.
   */
  function ParseCategoryHeading(text: string): (st: Step<(string, string)>)
    ensures st.Skip? <==> Strip(text) == SimilarTopics
    ensures st.Fail? <==> Strip(text) != SimilarTopics && !Contains(Strip(text), ": ")
    ensures st.Fail? ==> st.error.IndexError?
    ensures st.Emit? ==>
      var title := Strip(text);
      var i := Find(title, ": ").value;
      && st.item.0 == CleanGap(title[..i])
      && st.item.1 == CleanGap(UpTo(title[i + 2..], ": "))
  {
    var title := Strip(text);
    if title == SimilarTopics then Skip
    else
      var parts := Split(title, ": ");
      SplitSecond(title, ": ");
      if |parts| < 2 then Fail(IndexError("list index out of range"))
      else Emit((CleanGap(parts[0]), CleanGap(parts[1])))
  }

  function CategorySteps(headings: seq<string>): (steps: seq<Step<(string, string)>>)
    ensures |steps| == |headings|
    ensures forall i :: 0 <= i < |headings| ==> steps[i] == ParseCategoryHeading(headings[i])
  {
    seq(|headings|, i requires 0 <= i < |headings| => ParseCategoryHeading(headings[i]))
  }

  /**
   * A heading "NAME: Label" gives the category NAME with label Label (both
   * cleaned of no-break spaces), when neither part contains ": " and the
   * heading has no surrounding whitespace.
   */
  lemma CategoryHeadingParts(name: string, caption: string)
    requires |name| > 0 && |caption| > 0
    requires !IsSpace(name[0]) && !IsSpace(caption[|caption| - 1])
    requires !Contains(name, ": ") && !Contains(caption, ": ")
    ensures ParseCategoryHeading(name + ": " + caption) == Emit((CleanGap(name), CleanGap(caption)))
  {
    var t := name + ": " + caption;
    StripNoop(t);
    NotSimilarTopics(t, |name|);
    FirstSeparator(name, ": ", caption);
    assert t[..|name|] == name;
    assert t[|name| + 2..] == caption;
  }

  lemma NotSimilarTopics(t: string, i: nat)
    requires i < |t| && t[i] == ':'
    ensures t != SimilarTopics
  {
    assert forall j :: 0 <= j < |SimilarTopics| ==> SimilarTopics[j] != ':';
  }

  /** A two-character separator placed after a text that does not contain it is found there. */
  lemma FirstSeparator(a: string, sep: string, b: string)
    requires |sep| == 2 && sep[0] != sep[1]
    requires !Contains(a, sep)
    ensures Find(a + sep + b, sep) == Some(|a|)
  {
    var t := a + sep + b;
    assert OccursAt(t, sep, |a|) by {
      assert t[|a|..|a| + 2] == sep;
    }
    forall j: nat | j < |a| ensures !OccursAt(t, sep, j) {
      if j + 2 <= |a| {
        assert t[j..j + 2] == a[j..j + 2];
        assert !OccursAt(a, sep, j);
      } else {
        assert t[j + 1] == sep[0];
      }
    }
  }

  // ---------------------------------------------------------------------
  // Elementary hazards (get_gefaehrdungen)
  // ---------------------------------------------------------------------

  /** A hazard: its name ("G 0.1") and label, as stored in the gefaehrdungen dict. */
  datatype Hazard = Hazard(name: string, title: string)

  /**
   * One link of the hazard catalogue's table of contents. Links not
   * starting with "G 0" are skipped. Otherwise the stripped text is split
   * on whitespace; the name is the first two tokens joined by a space, the
   * label the remaining tokens joined by spaces, and the key the segment of
   * the name between its first and second '.' (an IndexError if the name
   * has no '.').
   */
  function ParseHazardLink(text: string): Step<(string, Hazard)> {
    if !StartsWith(text, "G 0") then Skip else HazardOfTokens(Tokens(Strip(text)))
  }

  /** The entry the whitespace tokens of a hazard link give. */
  function HazardOfTokens(tokens: seq<string>): Step<(string, Hazard)> {
    var name := Join(" ", tokens[..if |tokens| < 2 then |tokens| else 2]);
    var caption := Join(" ", tokens[if |tokens| < 2 then |tokens| else 2..]);
    var parts := Split(name, ".");
    if |parts| < 2 then Fail(IndexError("list index out of range"))
    else Emit((parts[1], Hazard(CleanGap(name), CleanGap(caption))))
  }

  function HazardSteps(links: seq<string>): (steps: seq<Step<(string, Hazard)>>)
    ensures |steps| == |links|
    ensures forall i :: 0 <= i < |links| ==> steps[i] == ParseHazardLink(links[i])
  {
    seq(|links|, i requires 0 <= i < |links| => ParseHazardLink(links[i]))
  }

  /**
   * What a hazard link gives: only links starting with "G 0" count; the
   * first whitespace token is then "G" and the second starts with '0'; the
   * name is "G " followed by the second token, the label the remaining
   * tokens joined by single spaces, the key the part of the second token
   * between its first and second '.' (an IndexError when it has no '.'),
   * and neither name nor label holds a no-break space (split() already
   * treats it as whitespace, so the cleaning never changes them).
   */
  lemma HazardLinkShape(text: string)
    ensures !StartsWith(text, "G 0") <==> ParseHazardLink(text).Skip?
    ensures StartsWith(text, "G 0") ==>
      var tokens := Tokens(Strip(text));
      && |tokens| >= 2 && tokens[0] == "G" && tokens[1][0] == '0'
      && (ParseHazardLink(text).Fail? <==> !Contains(tokens[1], "."))
      && (ParseHazardLink(text).Emit? ==>
            var st := ParseHazardLink(text);
            && st.item.1.name == "G " + tokens[1]
            && st.item.1.title == Join(" ", tokens[2..])
            && st.item.0 == UpTo(AfterFirst(tokens[1], "."), ".")
            && NoChar(st.item.1.name, NBSP) && NoChar(st.item.1.title, NBSP))
  {
    if StartsWith(text, "G 0") {
      var title := Strip(text);
      StripKeepsPrefix(text, "G 0");
      TokensOfTitle(title);
      var tokens := Tokens(title);
      HazardOfTokensShape(tokens);
      assert ParseHazardLink(text) == HazardOfTokens(tokens);
    }
  }

  lemma HazardOfTokensShape(tokens: seq<string>)
    requires |tokens| >= 2 && tokens[0] == "G"
    requires forall k :: 0 <= k < |tokens| ==> NoSpace(tokens[k])
    ensures HazardOfTokens(tokens).Fail? <==> !Contains(tokens[1], ".")
    ensures HazardOfTokens(tokens).Emit? ==>
      var st := HazardOfTokens(tokens);
      && st.item.1.name == "G " + tokens[1]
      && st.item.1.title == Join(" ", tokens[2..])
      && st.item.0 == UpTo(AfterFirst(tokens[1], "."), ".")
      && NoChar(st.item.1.name, NBSP) && NoChar(st.item.1.title, NBSP)
  {
    var name := Join(" ", tokens[..2]);
    var caption := Join(" ", tokens[2..]);
    HazardName(tokens);
    HazardCaption(tokens);
    HazardKey(tokens[1]);
    assert HazardOfTokens(tokens) ==
      if |Split(name, ".")| < 2 then Fail(IndexError("list index out of range"))
      else Emit((Split(name, ".")[1], Hazard(name, caption)));
  }

  lemma HazardName(tokens: seq<string>)
    requires |tokens| >= 2 && tokens[0] == "G" && NoSpace(tokens[1])
    ensures var name := Join(" ", tokens[..2]);
      name == "G " + tokens[1] && CleanGap(name) == name && NoChar(name, NBSP)
  {
    assert tokens[..2] == [tokens[0], tokens[1]];
    JoinPair(tokens[0], tokens[1]);
    NameNoNbsp(tokens[1]);
    CleanGapNormalises("G " + tokens[1]);
  }

  lemma HazardCaption(tokens: seq<string>)
    requires |tokens| >= 2
    requires forall k :: 0 <= k < |tokens| ==> NoSpace(tokens[k])
    ensures var caption := Join(" ", tokens[2..]);
      CleanGap(caption) == caption && NoChar(caption, NBSP)
  {
    JoinWords(tokens[2..]);
    CleanGapNormalises(Join(" ", tokens[2..]));
  }

  /** The key of a hazard is the second piece of its name split on '.'. */
  lemma HazardKey(t: string)
    ensures var parts := Split("G " + t, ".");
      && (|parts| >= 2 <==> Contains(t, "."))
      && (Contains(t, ".") ==> parts[1] == UpTo(AfterFirst(t, "."), "."))
  {
    assert !OccursAt("G ", ".", 0) by { assert "G "[0..1][0] == 'G'; }
    assert !OccursAt("G ", ".", 1) by { assert "G "[1..2][0] == ' '; }
    DotAfterPrefix("G ", t);
    SplitSecond("G " + t, ".");
  }

  lemma JoinPair(a: string, b: string)
    ensures Join(" ", [a, b]) == a + " " + b
  {
    JoinCons(" ", a, [b]);
    assert [a, b] == [a] + [b];
  }

  /** A '.' after a dot-free prefix: found iff the rest has one, and what follows it is the same. */
  lemma DotAfterPrefix(p: string, t: string)
    requires !Contains(p, ".")
    ensures Contains(p + t, ".") <==> Contains(t, ".")
    ensures Contains(t, ".") ==> Find(p + t, ".").value == |p| + Find(t, ".").value
    ensures Contains(t, ".") ==> AfterFirst(p + t, ".") == AfterFirst(t, ".")
  {
    var s := p + t;
    DotFreePrefix(p, t);
    OccursShifted(p, t, ".");
    if Contains(t, ".") {
      var k := Find(t, ".").value;
      forall j: nat | j < |p| + k ensures !OccursAt(s, ".", j) {
        if j >= |p| {
          assert !OccursAt(t, ".", j - |p|);
        }
      }
      FindFirst(s, ".", |p| + k);
      assert s[|p| + k + 1..] == t[k + 1..];
    } else {
      assert forall j: nat :: !OccursAt(s, ".", j) by {
        forall j: nat ensures !OccursAt(s, ".", j) {
          if j >= |p| {
            assert !OccursAt(t, ".", j - |p|);
          }
        }
      }
    }
  }

  lemma DotFreePrefix(p: string, t: string)
    requires !Contains(p, ".")
    ensures forall j: nat :: j < |p| ==> !OccursAt(p + t, ".", j)
  {
    var s := p + t;
    forall j: nat | j < |p| ensures !OccursAt(s, ".", j) {
      assert !OccursAt(p, ".", j);
      assert s[j..j + 1] == p[j..j + 1];
    }
  }

  lemma OccursShifted(p: string, t: string, sub: string)
    ensures forall j: nat :: OccursAt(p + t, sub, |p| + j) <==> OccursAt(t, sub, j)
  {
    var s := p + t;
    forall j: nat ensures OccursAt(s, sub, |p| + j) <==> OccursAt(t, sub, j) {
      if |p| + j + |sub| <= |s| {
        assert s[|p| + j..|p| + j + |sub|] == t[j..j + |sub|];
      }
    }
  }


  lemma NameNoNbsp(t: string)
    requires NoSpace(t)
    ensures NoChar("G " + t, NBSP)
  {
    var n := "G " + t;
    forall i | 0 <= i < |n| ensures n[i] != NBSP {
      if i >= 2 {
        assert n[i] == t[i - 2];
      }
    }
  }

  /** Words without whitespace joined by single spaces hold no no-break space. */
  lemma {:induction false} JoinWords(ws: seq<string>)
    requires forall k :: 0 <= k < |ws| ==> NoSpace(ws[k])
    ensures NoChar(Join(" ", ws), NBSP)
    decreases |ws|
  {
    if |ws| >= 2 {
      JoinWords(ws[1..]);
      var t := Join(" ", ws[1..]);
      var j := ws[0] + " " + t;
      forall i | 0 <= i < |j| ensures j[i] != NBSP {
        if i < |ws[0]| {
          assert j[i] == ws[0][i];
        } else if i > |ws[0]| {
          assert j[i] == t[i - |ws[0]| - 1];
        }
      }
    }
  }

  /** The tokens of a title starting with "G 0" are "G", then a token starting with '0', then the rest. */
  lemma TokensOfTitle(title: string)
    requires StartsWith(title, "G 0")
    ensures |Tokens(title)| >= 2 && Tokens(title)[0] == "G" && Tokens(title)[1][0] == '0'
  {
    var rest := title[1..];
    assert title == "G" + rest;
    assert IsSpace(rest[0]);
    TokensOfWord("G", rest);
    assert rest == " " + title[2..];
    TokensSkipSpace(" ", title[2..]);
    var r2 := title[2..];
    assert r2[0] == '0';
    assert SpanSpace(r2) == 0;
    assert r2[0..] == r2;
    var j := SpanWord(r2);
    assert j >= 1;
  }

  // ---------------------------------------------------------------------
  // Modules and their requirements (get_bausteine_with_anforderungen)
  // ---------------------------------------------------------------------

  const ModuleLinkPrefix: string := "IT-Grundschutz | "

  /** A module's own link: name ("APP.1.1"), number ("1.1"), label and category ("APP"). */
  datatype ModuleHead = ModuleHead(name: string, number: string, title: string, category: string)

  /**
   * A table-of-contents link of a module document. Links not starting with
   * "IT-Grundschutz | " are skipped; the title after that prefix must hold
   * a token (else an IndexError): the first token is the module name, the
   * rest its label; the name's part before the first '.' is the category,
   * the parts after it, joined by '.', the number.
   */
  function ParseModuleLink(text: string): Step<ModuleHead> {
    if !StartsWith(text, ModuleLinkPrefix) then Skip
    else
      var parts := Split(text, ModuleLinkPrefix);
      if |parts| < 2 then Fail(IndexError("list index out of range"))
      else
        var tokens := Tokens(parts[1]);
        if |tokens| == 0 then Fail(IndexError("list index out of range"))
        else
          var name := tokens[0];
          var dotted := Split(name, ".");
          Emit(ModuleHead(name, Join(".", dotted[1..]), Join(" ", tokens[1..]), dotted[0]))
  }

  /**
   * The parts of a module link fit together: the name is a non-empty word;
   * category "." number is the name whenever the name contains a '.', and
   * otherwise the category is the whole name and the number is empty.
   */
  lemma ModuleLinkParts(text: string)
    requires ParseModuleLink(text).Emit?
    ensures var h := ParseModuleLink(text).item;
      && |h.name| > 0 && NoSpace(h.name)
      && (Contains(h.name, ".") ==> h.category + "." + h.number == h.name && !Contains(h.category, "."))
      && (!Contains(h.name, ".") ==> h.category == h.name && h.number == "")
  {
    var h := ParseModuleLink(text).item;
    var dotted := Split(h.name, ".");
    JoinSplit(h.name, ".");
    SplitHead(h.name, ".");
    SplitPiecesFree(h.name, ".");
    if |dotted| >= 2 {
      JoinCons(".", dotted[0], dotted[1..]);
      assert dotted == [dotted[0]] + dotted[1..];
    }
  }

  /** A requirement: its name ("APP.1.1.A1") and its raw label. */
  datatype Anforderung = Anforderung(name: string, title: string)

  /**
   * A table-of-contents link, looked at as a requirement of module
   * `moduleName`: links not starting with the module name are skipped; the
   * first token is the requirement name, the others its label, and the key
   * is the text after the first "<module>.A" in the name, up to a second
   * one (an IndexError if the name has no "<module>.A").
   */
  function ParseRequirementLink(moduleName: string, text: string): Step<(string, Anforderung)> {
    if !StartsWith(text, moduleName) then Skip else RequirementOfTokens(moduleName, Tokens(text))
  }

  /** What separates the module name from a requirement's number, as in "ISMS.1.A1". */
  function RequirementTag(moduleName: string): (sep: string)
    ensures |sep| == |moduleName| + 2
  {
    moduleName + ".A"
  }

  /** The entry the whitespace tokens of a requirement link give. */
  function RequirementOfTokens(moduleName: string, tokens: seq<string>): (r: Step<(string, Anforderung)>)
    ensures r.Emit? ==>
      && |tokens| > 0 && Find(tokens[0], RequirementTag(moduleName)).Some?
      && r.item.0 == UpTo(AfterFirst(tokens[0], RequirementTag(moduleName)), RequirementTag(moduleName))
      && r.item.1.name == CleanGap(tokens[0])
  {
    if |tokens| == 0 then Fail(IndexError("list index out of range"))
    else
      var name := tokens[0];
      var parts := Split(name, RequirementTag(moduleName));
      if |parts| < 2 then Fail(IndexError("list index out of range"))
      else
        SecondPartKey(name, RequirementTag(moduleName), parts[1]);
        Emit((parts[1], Anforderung(CleanGap(name), CleanGap(Join(" ", tokens[1..])))))
  }

  function RequirementSteps(moduleName: string, toc: seq<string>): (steps: seq<Step<(string, Anforderung)>>)
    ensures |steps| == |toc|
    ensures forall i :: 0 <= i < |toc| ==> steps[i] == ParseRequirementLink(moduleName, toc[i])
  {
    seq(|toc|, i requires 0 <= i < |toc| => ParseRequirementLink(moduleName, toc[i]))
  }

  /**
   * A requirement entry comes only from a link starting with the module
   * name; its key is what follows the first "<module>.A" in the link's
   * first token (up to any second one), and its name is that token.
   */
  lemma RequirementLinkKey(moduleName: string, text: string)
    requires ParseRequirementLink(moduleName, text).Emit?
    ensures StartsWith(text, moduleName) && |Tokens(text)| > 0
    ensures Find(Tokens(text)[0], RequirementTag(moduleName)).Some?
    ensures ParseRequirementLink(moduleName, text).item.0
         == UpTo(AfterFirst(Tokens(text)[0], RequirementTag(moduleName)), RequirementTag(moduleName))
    ensures ParseRequirementLink(moduleName, text).item.1.name == CleanGap(Tokens(text)[0])
  {
    assert ParseRequirementLink(moduleName, text) == RequirementOfTokens(moduleName, Tokens(text));
  }

  lemma SecondPartKey(s: string, sep: string, key: string)
    requires |sep| > 0 && |Split(s, sep)| >= 2 && key == Split(s, sep)[1]
    ensures Find(s, sep).Some? && key == UpTo(AfterFirst(s, sep), sep)
  {
    SplitSecond(s, sep);
  }

  // ---------------------------------------------------------------------
  // The responsible role of a module
  // ---------------------------------------------------------------------

  /** The usual header of the role paragraph; the words are joined by a no-break space. */
  const Responsible: string := "Grundsätzlich\U{A0}zuständig"

  /** The header some modules use instead. */
  const ModuleOwner: string := "Bausteinverantwortlicher"

  /** The label of the OT operations role, which the 2022 modules give in short form. */
  const OtRole: string := "OT-Betrieb"
  const OtRoleFull: string := "OT-Betrieb (Operational Technology, OT)"

  /** Index of the first paragraph starting with the header. */
  function FirstStarting(paras: seq<string>, header: string): (r: Option<nat>)
    ensures r.Some? ==> r.value < |paras| && StartsWith(paras[r.value], header)
    ensures r.Some? ==> forall j :: 0 <= j < r.value ==> !StartsWith(paras[j], header)
    ensures r.None? ==> forall j :: 0 <= j < |paras| ==> !StartsWith(paras[j], header)
  {
    if |paras| == 0 then None
    else if StartsWith(paras[0], header) then Some(0)
    else match FirstStarting(paras[1..], header) {
      case Some(j) => Some(j + 1)
      case None => None
    }
  }

  /**
   * The role given by header paragraph i: the text after the header (the
   * pieces between repeated headers joined by spaces), stripped, or when
   * that is blank the next paragraph, stripped; an IndexError when there is
   * no next paragraph.
   */
  function RoleAt(paras: seq<string>, i: nat, header: string): (r: Result<string>)
    requires i < |paras| && |header| > 0
    ensures r.Ok? ==> Strip(r.value) == r.value
    ensures r.Err? <==> Strip(Join(" ", Split(paras[i], header)[1..])) == [] && i + 1 == |paras|
  {
    var same := Strip(Join(" ", Split(paras[i], header)[1..]));
    StripNoop(same);
    if |same| > 0 then Ok(same)
    else if i + 1 < |paras| then
      StripNoop(Strip(paras[i + 1]));
      Ok(Strip(paras[i + 1]))
    else Err(IndexError("list index out of range"))
  }

  /**
   * The responsible role of a module document: from the first paragraph
   * starting with "Grundsätzlich zuständig", or when there is none, from
   * the first starting with "Bausteinverantwortlicher"; an IndexError when
   * neither exists. The role is always stripped.
   */
  function ResponsibleRole(paras: seq<string>): (r: Result<string>)
    ensures r.Ok? ==> Strip(r.value) == r.value
    ensures r.Err? ==> r.error.IndexError?
    ensures (forall j :: 0 <= j < |paras| ==> !StartsWith(paras[j], Responsible) && !StartsWith(paras[j], ModuleOwner))
      ==> r.Err?
  {
    match FirstStarting(paras, Responsible)
    case Some(i) => RoleAt(paras, i, Responsible)
    case None =>
      match FirstStarting(paras, ModuleOwner)
      case Some(i) => RoleAt(paras, i, ModuleOwner)
      case None => Err(IndexError("list index out of range"))
  }

  /** The short OT role is replaced by its full label; every other role is kept. */
  function FixRole(role: string): string {
    if role == OtRole then OtRoleFull else role
  }

  /**
   * The role comes from the first paragraph that starts with the header
   * (the usual one, or the alternative one when no paragraph has the usual
   * one): the rest of that paragraph when it is not blank, else the next
   * paragraph; with no next paragraph the extraction fails.
   */
  lemma RoleFromHeaderParagraph(pre: seq<string>, header: string, rest: string, post: seq<string>)
    requires header == Responsible || (header == ModuleOwner && forall p :: p in pre + post ==> !StartsWith(p, Responsible))
    requires forall p :: p in pre ==> !StartsWith(p, header)
    requires !Contains(rest, header)
    ensures var paras := pre + [header + rest] + post;
      && (Strip(rest) != [] ==> ResponsibleRole(paras) == Ok(Strip(rest)))
      && (Strip(rest) == [] && |post| > 0 ==> ResponsibleRole(paras) == Ok(Strip(post[0])))
      && (Strip(rest) == [] && |post| == 0 ==> ResponsibleRole(paras).Err?)
  {
    var paras := pre + [header + rest] + post;
    var hp := header + rest;
    assert paras[|pre|] == hp;
    assert StartsWith(hp, header);
    assert forall j :: 0 <= j < |pre| ==> paras[j] == pre[j];
    assert FirstStarting(paras, header) == Some(|pre|);
    if header == ModuleOwner {
      forall j | 0 <= j < |paras| ensures !StartsWith(paras[j], Responsible) {
        if j < |pre| {
          assert paras[j] in pre;
        } else if j > |pre| {
          assert paras[j] == post[j - |pre| - 1];
          assert paras[j] in post;
        } else {
          assert paras[j][0] == 'B';
        }
      }
    }
    HeaderSplit(header, rest);
    if |post| > 0 {
      assert paras[|pre| + 1] == post[0];
    }
  }

  /** A paragraph made of the header and a text without it splits into "" and that text. */
  lemma HeaderSplit(header: string, rest: string)
    requires |header| > 0 && !Contains(rest, header)
    ensures Join(" ", Split(header + rest, header)[1..]) == rest
  {
    var hp := header + rest;
    assert OccursAt(hp, header, 0);
    assert Find(hp, header) == Some(0);
    SplitHead(hp, header);
    assert hp[|header|..] == rest;
    SplitHead(rest, header);
  }

  /** No module ends up with the bare short OT role. */
  lemma RoleNeverBareOt(role: string)
    ensures CleanGap(FixRole(role)) != OtRole
  {
    var r := CleanGap(FixRole(role));
    if FixRole(role) == OtRoleFull {
      assert |r| != |OtRole|;
    }
  }

  // ---------------------------------------------------------------------
  // Module documents
  // ---------------------------------------------------------------------

  /** A module with its requirements, as stored in the baustein dict. */
  datatype Baustein = Baustein(name: string, title: string, role: string, requirements: Dict<Anforderung>)

  /** A module found in a document, with the keys it is stored under. */
  datatype ModuleEntry = ModuleEntry(category: string, number: string, baustein: Baustein)

  /** One converted module PDF: the link texts of its table of contents and its text paragraphs. */
  datatype ModuleDoc = ModuleDoc(toc: seq<string>, content: seq<string>)

  /** The requirements of a module: every table-of-contents link scanned as one of its requirements. */
  function Requirements(moduleName: string, toc: seq<string>): Result<Dict<Anforderung>> {
    ScanDict(RequirementSteps(moduleName, toc))
  }

  /**
   * One table-of-contents link of a module document: for a module link, the
   * module's requirements (from the same table of contents) and role (from
   * the document's paragraphs); the first failure among these is the
   * step's.
   */
  function ModuleStep(doc: ModuleDoc, link: string): Step<ModuleEntry> {
    match ParseModuleLink(link)
    case Skip => Skip
    case Fail(e) => Fail(e)
    case Emit(h) =>
      match Requirements(h.name, doc.toc)
      case Err(e) => Fail(e)
      case Ok(reqs) =>
        match ResponsibleRole(doc.content)
        case Err(e) => Fail(e)
        case Ok(role) =>
          Emit(ModuleEntry(h.category, h.number,
            Baustein(CleanGap(h.name), CleanGap(h.title), CleanGap(FixRole(role)), reqs)))
  }

  function DocSteps(doc: ModuleDoc): (steps: seq<Step<ModuleEntry>>)
    ensures |steps| == |doc.toc|
  {
    seq(|doc.toc|, i requires 0 <= i < |doc.toc| => ModuleStep(doc, doc.toc[i]))
  }

  /** The steps of all documents, document after document. */
  function AllModuleSteps(docs: seq<ModuleDoc>): seq<Step<ModuleEntry>>
    decreases |docs|
  {
    if |docs| == 0 then [] else AllModuleSteps(docs[..|docs| - 1]) + DocSteps(docs[|docs| - 1])
  }

  /** `d[cat][number] = module`, creating the category's dict first when it is new. */
  function PutModule(d: Dict<Dict<Baustein>>, e: ModuleEntry): (r: Dict<Dict<Baustein>>)
    ensures Get(r, e.category).Ok? && Get(Get(r, e.category).value, e.number) == Ok(e.baustein)
  {
    var inner := match Get(d, e.category) case Ok(m) => m case Err(_) => [];
    Put(d, e.category, Put(inner, e.number, e.baustein))
  }

  function PutModules(d: Dict<Dict<Baustein>>, es: seq<ModuleEntry>): Dict<Dict<Baustein>>
    decreases |es|
  {
    if |es| == 0 then d else PutModule(PutModules(d, es[..|es| - 1]), es[|es| - 1])
  }

  /** `d[cat][number]`: a KeyError when the category or the number is missing. */
  function Lookup2(d: Dict<Dict<Baustein>>, cat: string, number: string): Result<Baustein> {
    match Get(d, cat)
    case Ok(m) => Get(m, number)
    case Err(e) => Err(e)
  }

  /** Index of the last step emitting a module under (cat, number). */
  function LastModule(steps: seq<Step<ModuleEntry>>, cat: string, number: string): (r: Option<nat>)
    ensures r.Some? ==> (r.value < |steps| && steps[r.value].Emit?
      && steps[r.value].item.category == cat && steps[r.value].item.number == number)
    ensures r.Some? ==> forall j :: r.value < j < |steps| ==>
      !(steps[j].Emit? && steps[j].item.category == cat && steps[j].item.number == number)
    ensures r.None? ==> forall j :: 0 <= j < |steps| ==>
      !(steps[j].Emit? && steps[j].item.category == cat && steps[j].item.number == number)
    decreases |steps|
  {
    if |steps| == 0 then None
    else
      var s := steps[|steps| - 1];
      if s.Emit? && s.item.category == cat && s.item.number == number then Some(|steps| - 1)
      else LastModule(steps[..|steps| - 1], cat, number)
  }

  /**
   * Across all documents, a later module with the same category and number
   * replaces an earlier one, and no other entry is touched: after a scan
   * without exception, baustein[cat][number] is the last such module, and
   * missing when there is none.
   */
  lemma {:induction false} ModulesLastWins(steps: seq<Step<ModuleEntry>>, cat: string, number: string)
    requires ScanSteps(steps).error.None?
    ensures LastModule(steps, cat, number).Some? ==>
      Lookup2(PutModules([], ScanSteps(steps).entries), cat, number) == Ok(steps[LastModule(steps, cat, number).value].item.baustein)
    ensures LastModule(steps, cat, number).None? ==>
      Lookup2(PutModules([], ScanSteps(steps).entries), cat, number).Err?
    decreases |steps|
  {
    if |steps| > 0 {
      var init := steps[..|steps| - 1];
      var s := ScanSteps(init);
      assert s.error.None?;
      ModulesLastWins(init, cat, number);
      var d := PutModules([], s.entries);
      var last := steps[|steps| - 1];
      if last.Emit? {
        ModulesLastWinsEmit(steps, cat, number);
      } else {
        assert ScanSteps(steps) == s;
        assert LastModule(steps, cat, number) == LastModule(init, cat, number);
      }
    }
  }

  lemma ModulesLastWinsEmit(steps: seq<Step<ModuleEntry>>, cat: string, number: string)
    requires |steps| > 0 && steps[|steps| - 1].Emit?
    requires ScanSteps(steps).error.None?
    requires var init := steps[..|steps| - 1];
      && (LastModule(init, cat, number).Some? ==>
            Lookup2(PutModules([], ScanSteps(init).entries), cat, number) == Ok(init[LastModule(init, cat, number).value].item.baustein))
      && (LastModule(init, cat, number).None? ==>
            Lookup2(PutModules([], ScanSteps(init).entries), cat, number).Err?)
    ensures LastModule(steps, cat, number).Some? ==>
      Lookup2(PutModules([], ScanSteps(steps).entries), cat, number) == Ok(steps[LastModule(steps, cat, number).value].item.baustein)
    ensures LastModule(steps, cat, number).None? ==>
      Lookup2(PutModules([], ScanSteps(steps).entries), cat, number).Err?
  {
    var init := steps[..|steps| - 1];
    var s := ScanSteps(init);
    var e := steps[|steps| - 1].item;
    var d := PutModules([], s.entries);
    var es := s.entries + [e];
    assert ScanSteps(steps).entries == es;
    assert es[..|es| - 1] == s.entries;
    assert PutModules([], es) == PutModule(d, e);
    if e.category == cat && e.number == number {
      assert LastModule(steps, cat, number) == Some(|steps| - 1);
    } else {
      PutModuleOthers(d, e, cat, number);
      assert LastModule(steps, cat, number) == LastModule(init, cat, number);
      if LastModule(init, cat, number).Some? {
        assert steps[LastModule(init, cat, number).value] == init[LastModule(init, cat, number).value];
      }
    }
  }

  /** Storing one module leaves every other (category, number) as it was. */
  lemma PutModuleOthers(d: Dict<Dict<Baustein>>, e: ModuleEntry, cat: string, number: string)
    requires !(e.category == cat && e.number == number)
    ensures Lookup2(PutModule(d, e), cat, number) == Lookup2(d, cat, number)
  {
    var inner := match Get(d, e.category) case Ok(m) => m case Err(_) => [];
    if e.category == cat {
      if Get(d, cat).Err? {
        assert Get(inner, number).Err?;
      }
    }
  }

  // ---------------------------------------------------------------------
  // The cross-reference table (get_gefaehrdungen_by_anforderung)
  // ---------------------------------------------------------------------

  /** The two editions of the compendium the tools read. */
  datatype Edition = Edition2021 | Edition2022

  function Version(e: Edition): string {
    match e
    case Edition2021 => "2021"
    case Edition2022 => "2022"
  }

  /** A worksheet: its column names and its rows of cells, all read as strings. */
  datatype Table = Table(columns: seq<string>, rows: seq<seq<string>>)

  /** A worksheet as pandas reads it: every row has one cell per column. */
  type Sheet = t: Table | forall i :: 0 <= i < |t.rows| ==> |t.rows[i]| == |t.columns| witness Table([], [])

  /** The worksheet of a module in the KRT workbook. */
  function ExcelSheetName(name: string): string {
    "KRT_" + name + ".xlsx"
  }

  /** The hazards the 2022 KRT lacks for APP.4.3.A24, each affecting all three protection goals. */
  const App43A24Hazards: Dict<string> := [
    ("G 0.14", "CIA"), ("G 0.15", "CIA"), ("G 0.22", "CIA"), ("G 0.19", "CIA"),
    ("G 0.23", "CIA"), ("G 0.39", "CIA"), ("G 0.46", "CIA")]

  /** How a requirement is looked up: a fixed answer, or a row of a worksheet. */
  datatype KrtQuery = Literal(hazards: Dict<string>) | RowQuery(sheet: string, column: string, row: string)

  /**
   * Where the hazards of a requirement are found: the module is the part of
   * the requirement name before ".A"; its worksheet is named after it
   * (INF.2's is "INF.2_"); ORP.1.A9 and APP.4.4.A9 are spelled with "A09"
   * in the table; the 2022 table lacks APP.4.3.A24, whose hazards are
   * given literally.
   */
  function KrtQueryOf(edition: Edition, requirement: string): KrtQuery {
    var moduleName := Split(requirement, ".A")[0];
    var sheetName := if moduleName == "INF.2" then "INF.2_" else moduleName;
    var name := if requirement == "ORP.1.A9" then "ORP.1.A09" else requirement;
    if Version(edition) == "2022" && name == "APP.4.3.A24" then Literal(App43A24Hazards)
    else
      var name' := if name == "APP.4.4.A9" then "APP.4.4.A09" else name;
      RowQuery(ExcelSheetName(sheetName), moduleName, name')
  }

  /** A cell marks a hazard when it reads "x" in any case, ignoring surrounding whitespace. */
  predicate IsMarked(cell: string) {
    Strip(Lower(cell)) == "x"
  }

  /** The hazard columns: those from the fourth on whose name starts with 'G'. */
  function HazardColumns(columns: seq<string>): (r: seq<string>)
    ensures |r| <= |SliceFrom(columns, 3)|
    ensures |r| == 0 || 3 + |r| <= |columns|
    ensures forall x :: x in r <==> x in SliceFrom(columns, 3) && StartsWith(x, "G")
  {
    FilterG(SliceFrom(columns, 3))
  }

  /** The entries starting with 'G', in their order. */
  function FilterG(xs: seq<string>): (r: seq<string>)
    ensures |r| <= |xs|
    ensures forall x :: x in r <==> x in xs && StartsWith(x, "G")
    ensures (forall i :: 0 <= i < |xs| ==> StartsWith(xs[i], "G")) ==> r == xs
    decreases |xs|
  {
    if |xs| == 0 then []
    else
      var init := FilterG(xs[..|xs| - 1]);
      assert forall i :: 0 <= i < |xs| - 1 ==> xs[..|xs| - 1][i] == xs[i];
      assert xs == xs[..|xs| - 1] + [xs[|xs| - 1]];
      if StartsWith(xs[|xs| - 1], "G") then init + [xs[|xs| - 1]] else init
  }

  /** The positions of the entries starting with 'G', in increasing order. */
  function GIndices(xs: seq<string>): (r: seq<nat>)
    ensures forall i :: 0 <= i < |r| ==> r[i] < |xs|
    ensures forall i, j :: 0 <= i < j < |r| ==> r[i] < r[j]
    ensures forall j :: 0 <= j < |xs| ==> (j in r <==> StartsWith(xs[j], "G"))
    decreases |xs|
  {
    if |xs| == 0 then []
    else
      var init := xs[..|xs| - 1];
      assert forall i :: 0 <= i < |init| ==> init[i] == xs[i];
      GIndices(init) + (if StartsWith(xs[|xs| - 1], "G") then [|xs| - 1] else [])
  }

  /** `ys` holds the entries of `xs` at the positions `ps`, one each, in the order of `ps`. */
  predicate Picks(ys: seq<string>, ps: seq<nat>, xs: seq<string>) {
    |ys| == |ps| && forall i :: 0 <= i < |ys| ==> ps[i] < |xs| && ys[i] == xs[ps[i]]
  }

  lemma PicksExtend(ys: seq<string>, ps: seq<nat>, xs: seq<string>, zs: seq<string>)
    requires Picks(ys, ps, xs) && xs <= zs
    ensures Picks(ys, ps, zs)
  {
    assert forall i :: 0 <= i < |xs| ==> xs[i] == zs[i];
  }

  lemma PicksSnoc(ys: seq<string>, ps: seq<nat>, xs: seq<string>, k: nat)
    requires Picks(ys, ps, xs) && k < |xs|
    ensures Picks(ys + [xs[k]], ps + [k], xs)
  {
  }

  /**
   * The i-th entry kept is the entry at the i-th 'G' position: with
   * GIndices, the kept entries are exactly the 'G' entries, each once, in
   * their order.
   */
  lemma {:induction false} FilterGIndices(xs: seq<string>)
    ensures Picks(FilterG(xs), GIndices(xs), xs)
    decreases |xs|
  {
    if |xs| > 0 {
      var n := |xs|;
      var init := xs[..n - 1];
      FilterGIndices(init);
      var f, g := FilterG(init), GIndices(init);
      PicksExtend(f, g, init, xs);
      if StartsWith(xs[n - 1], "G") {
        PicksSnoc(f, g, xs, n - 1);
        assert FilterG(xs) == f + [xs[n - 1]] && GIndices(xs) == g + [n - 1];
      } else {
        assert FilterG(xs) == f && GIndices(xs) == g;
      }
    }
  }

  /** The i-th hazard column is the column at the i-th 'G' position from the fourth column on. */
  lemma HazardColumnsIndices(columns: seq<string>)
    requires |columns| >= 3
    ensures var gs := GIndices(columns[3..]);
      && |HazardColumns(columns)| == |gs|
      && (forall i :: 0 <= i < |gs| ==> HazardColumns(columns)[i] == columns[3 + gs[i]])
      && (forall i, j :: 0 <= i < j < |gs| ==> gs[i] < gs[j])
      && (forall j :: 3 <= j < |columns| ==> (j - 3 in gs <==> StartsWith(columns[j], "G")))
  {
    var tail := columns[3..];
    assert SliceFrom(columns, 3) == tail;
    FilterGIndices(tail);
    assert forall j :: 0 <= j < |tail| ==> tail[j] == columns[3 + j];
  }

  /** The three spelling fixes of hazard names in the KRT, applied in order. */
  function NormaliseHazard(name: string): string {
    Replace(Replace(Replace(name, "G0", "G 0"), "G.0", "G 0."), "G 0.0", "G 0.")
  }

  /**
   * The hazards a row marks: the i-th hazard column (normalised) is paired
   * with the i-th cell after the first three, and kept with the tag when
   * that cell is marked.
   */
  function MarkedPairs(hazards: seq<string>, checked: seq<string>, tag: string): (ps: seq<(string, string)>)
    requires |hazards| <= |checked|
    ensures forall j :: 0 <= j < |ps| ==> ps[j].1 == tag
    decreases |hazards|
  {
    if |hazards| == 0 then []
    else
      var i := |hazards| - 1;
      MarkedPairs(hazards[..i], checked, tag)
        + (if IsMarked(checked[i]) then [(NormaliseHazard(hazards[i]), tag)] else [])
  }

  /** Position of the first column with the name (pandas' `sheet[name]`). */
  function ColumnIndex(columns: seq<string>, name: string): (r: Option<nat>)
    ensures r.Some? ==> r.value < |columns| && columns[r.value] == name
    ensures r.None? ==> forall j :: 0 <= j < |columns| ==> columns[j] != name
    decreases |columns|
  {
    if |columns| == 0 then None
    else if columns[|columns| - 1] == name then
      match ColumnIndex(columns[..|columns| - 1], name)
      case Some(j) => Some(j)
      case None => Some(|columns| - 1)
    else ColumnIndex(columns[..|columns| - 1], name)
  }

  /** Position of the first row whose cell in column c, stripped, is the name. */
  function FirstRow(sheet: Sheet, c: nat, name: string): (r: Option<nat>)
    requires c < |sheet.columns|
    ensures r.Some? ==> r.value < |sheet.rows| && Strip(sheet.rows[r.value][c]) == name
    ensures r.Some? ==> forall j :: 0 <= j < r.value ==> Strip(sheet.rows[j][c]) != name
    ensures r.None? ==> forall j :: 0 <= j < |sheet.rows| ==> Strip(sheet.rows[j][c]) != name
  {
    RowFrom(sheet, c, name, 0)
  }

  function RowFrom(sheet: Sheet, c: nat, name: string, k: nat): (r: Option<nat>)
    requires c < |sheet.columns| && k <= |sheet.rows|
    requires forall j :: 0 <= j < k ==> Strip(sheet.rows[j][c]) != name
    ensures r.Some? ==> r.value < |sheet.rows| && Strip(sheet.rows[r.value][c]) == name
    ensures r.Some? ==> forall j :: 0 <= j < r.value ==> Strip(sheet.rows[j][c]) != name
    ensures r.None? ==> forall j :: 0 <= j < |sheet.rows| ==> Strip(sheet.rows[j][c]) != name
    decreases |sheet.rows| - k
  {
    if k == |sheet.rows| then None
    else if Strip(sheet.rows[k][c]) == name then Some(k)
    else RowFrom(sheet, c, name, k + 1)
  }

  /**
   * The row a query selects, with its cells: a TypeError before the
   * workbook is read, a KeyError for a missing worksheet or column, an
   * IndexError when no row has the name.
   */
  function KrtRow(krt: Option<map<string, Sheet>>, sheetName: string, column: string, row: string): (r: Result<(Sheet, seq<string>)>)
    ensures r.Ok? ==> |r.value.1| == |r.value.0.columns|
    ensures r.Ok? ==> exists c :: 0 <= c < |r.value.0.columns| && r.value.0.columns[c] == column && Strip(r.value.1[c]) == row
    ensures krt.None? ==> r.Err? && r.error.TypeError?
    ensures krt.Some? && sheetName !in krt.value ==> r == Err(KeyError(sheetName))
    ensures krt.Some? && sheetName in krt.value ==>
      var sheet := krt.value[sheetName];
      && (ColumnIndex(sheet.columns, column).None? ==> r == Err(KeyError(column)))
      && (ColumnIndex(sheet.columns, column).Some? ==>
            var c := ColumnIndex(sheet.columns, column).value;
            && (FirstRow(sheet, c, row).None? ==> r.Err? && r.error.IndexError?)
            && (FirstRow(sheet, c, row).Some? ==> r.Ok? && r.value.0 == sheet && r.value.1 == sheet.rows[FirstRow(sheet, c, row).value]))
  {
    match krt
    case None => Err(TypeError("'NoneType' object is not subscriptable"))
    case Some(book) =>
      if sheetName !in book then Err(KeyError(sheetName))
      else
        var sheet: Sheet := book[sheetName];
        match ColumnIndex(sheet.columns, column)
        case None => Err(KeyError(column))
        case Some(c) =>
          match FirstRow(sheet, c, row)
          case None => Err(IndexError("list index out of range"))
          case Some(i) =>
            var found: (Sheet, seq<string>) := (sheet, sheet.rows[i]);
            Ok(found)
  }

  /** The hazards of a row of a sheet, each with the row's protection goals upper-cased and stripped. */
  function RowHazards(sheet: Sheet, values: seq<string>): Dict<string>
    requires |values| == |sheet.columns|
  {
    var hazards := HazardColumns(sheet.columns);
    if |hazards| == 0 then []
    else PutAll([], MarkedPairs(hazards, SliceFrom(values, 3), Strip(Upper(values[2]))))
  }

  /** The hazards of a requirement, keyed by hazard name, each mapped to the protection goals it affects. */
  function KrtLookup(edition: Edition, krt: Option<map<string, Sheet>>, requirement: string): Result<Dict<string>> {
    match KrtQueryOf(edition, requirement)
    case Literal(d) => Ok(d)
    case RowQuery(sheetName, column, row) =>
      match KrtRow(krt, sheetName, column, row)
      case Err(e) => Err(e)
      case Ok(found) =>
        Ok(RowHazards(found.0, found.1))
  }

  /** A cell is marked exactly when, stripped, it is "x" or "X". */
  lemma IsMarkedCases(cell: string)
    ensures IsMarked(cell) <==> Strip(cell) == "x" || Strip(cell) == "X"
  {
    StripLower(cell);
    var t := Strip(cell);
    if Lower(t) == "x" {
      assert LowerChar(t[0]) == 'x';
      assert t == [t[0]];
    }
  }

  /** The keys of a run of assignments are the keys assigned; each holds the value last assigned to it. */
  lemma PutAllKeys<V>(ps: seq<(string, V)>, k: string)
    ensures HasKey(PutAll([], ps), k) <==> exists j :: 0 <= j < |ps| && ps[j].0 == k
    ensures HasKey(PutAll([], ps), k) ==> Get(PutAll([], ps), k) == Ok(ps[LastWith(ps, k).value].1)
  {
    PutAllGet([], ps, k);
    GetAbsent(PutAll([], ps), k);
    GetAbsent<V>([], k);
  }

  /** Some pair has key k. */
  predicate PairKeyed(ps: seq<(string, string)>, k: string) {
    exists j :: 0 <= j < |ps| && ps[j].0 == k
  }

  /** Some column that `marked` accepts has a name that `norm` takes to k. */
  predicate MarkedAs(hazards: seq<string>, checked: seq<string>, k: string, norm: string -> string, marked: string -> bool)
    requires |hazards| <= |checked|
  {
    exists i :: 0 <= i < |hazards| && marked(checked[i]) && norm(hazards[i]) == k
  }

  lemma PairKeyedAppend(qs: seq<(string, string)>, rs: seq<(string, string)>, k: string)
    ensures PairKeyed(qs + rs, k) <==> PairKeyed(qs, k) || PairKeyed(rs, k)
  {
    var ps := qs + rs;
    if PairKeyed(ps, k) {
      var j :| 0 <= j < |ps| && ps[j].0 == k;
      if j >= |qs| {
        assert rs[j - |qs|] == ps[j];
      }
    }
    if PairKeyed(qs, k) {
      var j :| 0 <= j < |qs| && qs[j].0 == k;
      assert ps[j] == qs[j];
    }
    if PairKeyed(rs, k) {
      var j :| 0 <= j < |rs| && rs[j].0 == k;
      assert ps[|qs| + j] == rs[j];
    }
  }

  lemma MarkedAsSnoc(hazards: seq<string>, checked: seq<string>, k: string, norm: string -> string, marked: string -> bool)
    requires 0 < |hazards| <= |checked|
    ensures var i := |hazards| - 1;
      MarkedAs(hazards, checked, k, norm, marked) <==>
        MarkedAs(hazards[..i], checked, k, norm, marked) || (marked(checked[i]) && norm(hazards[i]) == k)
  {
    var i := |hazards| - 1;
    var init := hazards[..i];
    if MarkedAs(hazards, checked, k, norm, marked) {
      var i' :| 0 <= i' < |hazards| && marked(checked[i']) && norm(hazards[i']) == k;
      if i' < i {
        assert init[i'] == hazards[i'];
      }
    }
    if MarkedAs(init, checked, k, norm, marked) {
      var i' :| 0 <= i' < |init| && marked(checked[i']) && norm(init[i']) == k;
      assert init[i'] == hazards[i'];
    }
  }

  /** The pairs of marked hazards come exactly from the marked cells. */
  lemma {:induction false} MarkedPairsFrom(hazards: seq<string>, checked: seq<string>, tag: string, k: string)
    requires |hazards| <= |checked|
    ensures PairKeyed(MarkedPairs(hazards, checked, tag), k) <==> MarkedAs(hazards, checked, k, NormaliseHazard, IsMarked)
    decreases |hazards|
  {
    if |hazards| > 0 {
      var i := |hazards| - 1;
      var init := hazards[..i];
      MarkedPairsFrom(init, checked, tag, k);
      var last := if IsMarked(checked[i]) then [(NormaliseHazard(hazards[i]), tag)] else [];
      assert MarkedPairs(hazards, checked, tag) == MarkedPairs(init, checked, tag) + last;
      PairKeyedAppend(MarkedPairs(init, checked, tag), last, k);
      assert PairKeyed(last, k) <==> IsMarked(checked[i]) && NormaliseHazard(hazards[i]) == k;
      MarkedAsSnoc(hazards, checked, k, NormaliseHazard, IsMarked);
    }
  }

  /**
   * The hazards of a row are exactly the normalised hazard columns whose
   * paired cell is marked, each mapped to the tag.
   */
  lemma MarkedHazards(hazards: seq<string>, checked: seq<string>, tag: string, k: string)
    requires |hazards| <= |checked|
    ensures var d := PutAll([], MarkedPairs(hazards, checked, tag));
      && (HasKey(d, k) <==> exists i :: 0 <= i < |hazards| && IsMarked(checked[i]) && NormaliseHazard(hazards[i]) == k)
      && (HasKey(d, k) ==> Get(d, k) == Ok(tag))
  {
    PutAllKeys(MarkedPairs(hazards, checked, tag), k);
    MarkedPairsFrom(hazards, checked, tag, k);
  }

  /**
   * When every column from the fourth on is a hazard column, the i-th
   * hazard column is column 3 + i, so each hazard is read from its own
   * cell.
   */
  lemma KrtPairingAligned(columns: seq<string>)
    requires forall i :: 3 <= i < |columns| ==> StartsWith(columns[i], "G")
    ensures HazardColumns(columns) == SliceFrom(columns, 3)
    ensures forall i :: 0 <= i < |HazardColumns(columns)| ==> HazardColumns(columns)[i] == columns[3 + i]
  {
    var xs := SliceFrom(columns, 3);
    if |columns| >= 3 {
      assert xs == columns[3..];
      assert forall i :: 0 <= i < |xs| ==> xs[i] == columns[3 + i];
    } else {
      assert xs == [];
    }
  }

  // Hazard-name normalisation

  /** A text whose only 'G' may be its first character contains a pattern starting with 'G' at most at the start. */
  lemma AbsentAfterStart(s: string, sub: string)
    requires |sub| > 0 && sub[0] == 'G'
    requires forall i :: 0 < i < |s| ==> s[i] != 'G'
    requires !OccursAt(s, sub, 0)
    ensures Find(s, sub).None?
  {
    forall j: nat ensures !OccursAt(s, sub, j) {
      if 0 < j && j + |sub| <= |s| {
        assert s[j..j + |sub|][0] == s[j];
      }
    }
  }

  predicate NoG(s: string) {
    forall i :: 0 <= i < |s| ==> s[i] != 'G'
  }

  /** A hazard name already spelled "G 0.<n>" is left alone, when n has no 'G' and does not start with '0'. */
  lemma NormaliseKeepsCanonical(n: string)
    requires NoG(n) && (n == [] || n[0] != '0')
    ensures NormaliseHazard("G 0." + n) == "G 0." + n
  {
    CanonicalUntouched(n);
  }

  lemma CanonicalUntouched(n: string)
    requires NoG(n) && (n == [] || n[0] != '0')
    ensures var s := "G 0." + n;
      && Replace(s, "G0", "G 0") == s && Replace(s, "G.0", "G 0.") == s && Replace(s, "G 0.0", "G 0.") == s
  {
    var s := "G 0." + n;
    assert forall i :: 0 < i < |s| ==> s[i] != 'G' by {
      forall i | 0 < i < |s| ensures s[i] != 'G' {
        if i >= 4 {
          assert s[i] == n[i - 4];
        }
      }
    }
    assert s[0..2] == "G " && s[0..3] == "G 0";
    AbsentAfterStart(s, "G0");
    ReplaceAbsent(s, "G0", "G 0");
    AbsentAfterStart(s, "G.0");
    ReplaceAbsent(s, "G.0", "G 0.");
    if |n| > 0 {
      assert s[0..5][4] == n[0];
    }
    AbsentAfterStart(s, "G 0.0");
    ReplaceAbsent(s, "G 0.0", "G 0.");
  }

  /** The misspelling "G0.<n>" becomes "G 0.<n>". */
  lemma NormaliseFixesMissingSpace(n: string)
    requires NoG(n) && (n == [] || n[0] != '0')
    ensures NormaliseHazard("G0." + n) == "G 0." + n
  {
    var a := "G0." + n;
    var s := "G 0." + n;
    assert Replace(a, "G0", "G 0") == s by {
      assert a == "G0" + ("." + n);
      NoGFind("." + n, "G0");
      ReplaceLeading(a, "G0", "G 0", "." + n);
      assert "G 0" + ("." + n) == s;
    }
    CanonicalUntouched(n);
    assert NormaliseHazard(a) == Replace(Replace(s, "G.0", "G 0."), "G 0.0", "G 0.");
  }

  /** The misspelling "G.0<n>" becomes "G 0.<n>". */
  lemma NormaliseFixesSwappedDot(n: string)
    requires NoG(n) && (n == [] || n[0] != '0')
    ensures NormaliseHazard("G.0" + n) == "G 0." + n
  {
    CanonicalUntouched(n);
    var b := "G.0" + n;
    assert forall i :: 0 < i < |b| ==> b[i] != 'G' by {
      forall i | 0 < i < |b| ensures b[i] != 'G' {
        if i >= 3 {
          assert b[i] == n[i - 3];
        }
      }
    }
    assert b[0..2] == "G.";
    AbsentAfterStart(b, "G0");
    ReplaceAbsent(b, "G0", "G 0");
    NoGFind(n, "G.0");
    ReplaceLeading(b, "G.0", "G 0.", n);
  }

  /** "G 0.0<n>" loses one zero: it becomes "G 0.<n>", whatever n starts with. */
  lemma NormaliseDropsZero(n: string)
    requires NoG(n)
    ensures NormaliseHazard("G 0.0" + n) == "G 0." + n
  {
    var c := "G 0.0" + n;
    assert forall i :: 0 < i < |c| ==> c[i] != 'G' by {
      forall i | 0 < i < |c| ensures c[i] != 'G' {
        if i >= 5 {
          assert c[i] == n[i - 5];
        }
      }
    }
    assert c[0..2] == "G " && c[0..3] == "G 0";
    AbsentAfterStart(c, "G0");
    ReplaceAbsent(c, "G0", "G 0");
    AbsentAfterStart(c, "G.0");
    ReplaceAbsent(c, "G.0", "G 0.");
    NoGFind(n, "G 0.0");
    ReplaceLeading(c, "G 0.0", "G 0.", n);
  }

  lemma NoGFind(s: string, sub: string)
    requires |sub| > 0 && sub[0] == 'G' && NoG(s)
    ensures Find(s, sub).None?
  {
    forall j: nat ensures !OccursAt(s, sub, j) {
      if j + |sub| <= |s| {
        assert s[j..j + |sub|][0] == s[j];
      }
    }
  }

  /** Normalising is not idempotent: "G 0.00" becomes "G 0.0", which becomes "G 0.". */
  lemma NormaliseNotIdempotent()
    ensures NormaliseHazard("G 0.00") == "G 0.0"
    ensures NormaliseHazard("G 0.0") == "G 0."
  {
    NormaliseDropsZero("0");
    assert "G 0.0" + "0" == "G 0.00";
    assert "G 0." + "0" == "G 0.0";
    NormaliseDropsZero("");
    assert "G 0.0" + "" == "G 0.0";
    assert "G 0." + "" == "G 0.";
  }

  /**
   * The hazards of a row are the normalised hazard columns whose paired
   * cell (the i-th after the first three) reads "x" or "X", each mapped to
   * the row's third cell, upper-cased and stripped.
   */
  lemma RowHazardsMarked(sheet: Sheet, values: seq<string>, k: string)
    requires |values| == |sheet.columns|
    ensures var hazards := HazardColumns(sheet.columns);
      && (HasKey(RowHazards(sheet, values), k) <==>
            exists i :: 0 <= i < |hazards| && IsMarked(values[3 + i]) && NormaliseHazard(hazards[i]) == k)
      && (HasKey(RowHazards(sheet, values), k) ==> Get(RowHazards(sheet, values), k) == Ok(Strip(Upper(values[2]))))
  {
    var hazards := HazardColumns(sheet.columns);
    if |hazards| > 0 {
      var checked := SliceFrom(values, 3);
      assert checked == values[3..];
      MarkedHazards(hazards, checked, Strip(Upper(values[2])), k);
      MarkedAsShifted(hazards, values, k, NormaliseHazard, IsMarked);
    }
  }

  /**
   * The lookup end to end: a literal answer is returned as it is; otherwise
   * the lookup fails exactly as the row lookup does, and a row found yields
   * exactly the normalised threats whose cell in that row is marked.
   */
  lemma KrtLookupHazards(edition: Edition, krt: Option<map<string, Sheet>>, requirement: string, k: string)
    ensures var q := KrtQueryOf(edition, requirement);
      var r := KrtLookup(edition, krt, requirement);
      && (q.Literal? ==> r == Ok(q.hazards))
      && (q.RowQuery? ==>
            var found := KrtRow(krt, q.sheet, q.column, q.row);
            && (found.Err? ==> r == Err(found.error))
            && (found.Ok? ==>
                  var hazards := HazardColumns(found.value.0.columns);
                  && r.Ok?
                  && (HasKey(r.value, k) <==>
                        exists i :: 0 <= i < |hazards| && IsMarked(found.value.1[3 + i]) && NormaliseHazard(hazards[i]) == k)))
  {
    var q := KrtQueryOf(edition, requirement);
    if q.RowQuery? {
      var found := KrtRow(krt, q.sheet, q.column, q.row);
      if found.Ok? {
        RowHazardsMarked(found.value.0, found.value.1, k);
      }
    }
  }

  /** Being marked in the cells from the fourth on is being marked at offset 3 in the whole row. */
  lemma MarkedAsShifted(hazards: seq<string>, values: seq<string>, k: string, norm: string -> string, marked: string -> bool)
    requires |hazards| + 3 <= |values|
    ensures (exists i :: 0 <= i < |hazards| && marked(values[3..][i]) && norm(hazards[i]) == k) <==>
      (exists i :: 0 <= i < |hazards| && marked(values[3 + i]) && norm(hazards[i]) == k)
  {
    assert forall i :: 0 <= i < |hazards| ==> values[3..][i] == values[3 + i];
  }

  /** A requirement name without ".A" in its module part. */
  predicate NoDotA(m: string) {
    forall i :: 0 < i < |m| ==> !(m[i - 1] == '.' && m[i] == 'A')
  }

  lemma NoDotAFind(m: string)
    requires NoDotA(m)
    ensures !Contains(m, ".A")
  {
    forall j: nat ensures !OccursAt(m, ".A", j) {
      if j + 2 <= |m| {
        assert m[j..j + 2][0] == m[j] && m[j..j + 2][1] == m[j + 1];
      }
    }
  }

  /**
   * For a requirement "<module>.A<n>", the worksheet is the module's (INF.2's
   * is "INF.2_"), the column is the module name, and the row is the
   * requirement name with ORP.1.A9 and APP.4.4.A9 spelled "A09"; only the
   * 2022 edition's APP.4.3.A24 is answered without the table.
   */
  lemma KrtQueryOfName(edition: Edition, m: string, n: string)
    requires NoDotA(m)
    ensures var a := m + ".A" + n;
      KrtQueryOf(edition, a) ==
        if edition == Edition2022 && a == "APP.4.3.A24" then Literal(App43A24Hazards)
        else RowQuery(ExcelSheetName(if m == "INF.2" then "INF.2_" else m), m,
                      if a == "ORP.1.A9" then "ORP.1.A09" else if a == "APP.4.4.A9" then "APP.4.4.A09" else a)
  {
    NoDotAFind(m);
    FirstSeparator(m, ".A", n);
    SplitSecond(m + ".A" + n, ".A");
    assert (m + ".A" + n)[..|m|] == m;
  }

  /** ORP.1.A9 is looked up as ORP.1.A09 in the ORP.1 worksheet. */
  lemma KrtQueryOrp1A9(edition: Edition)
    ensures KrtQueryOf(edition, "ORP.1.A9") == RowQuery("KRT_ORP.1.xlsx", "ORP.1", "ORP.1.A09")
  {
    var a := "ORP.1" + ".A" + "9";
    assert a == "ORP.1.A9";
    assert |a| == 8 && a[0] == 'O';
    assert ExcelSheetName("ORP.1") == "KRT_ORP.1.xlsx";
    KrtQueryOfName(edition, "ORP.1", "9");
  }

  /** APP.4.4.A9 is looked up as APP.4.4.A09 in the APP.4.4 worksheet. */
  lemma KrtQueryApp44A9(edition: Edition)
    ensures KrtQueryOf(edition, "APP.4.4.A9") == RowQuery("KRT_APP.4.4.xlsx", "APP.4.4", "APP.4.4.A09")
  {
    var a := "APP.4.4" + ".A" + "9";
    assert a == "APP.4.4.A9";
    assert |a| == 10;
    assert ExcelSheetName("APP.4.4") == "KRT_APP.4.4.xlsx";
    KrtQueryOfName(edition, "APP.4.4", "9");
  }

  /** INF.2's requirements are looked up in the worksheet "INF.2_", under the column "INF.2". */
  lemma KrtQueryInf2(edition: Edition, n: string)
    ensures KrtQueryOf(edition, "INF.2.A" + n) == RowQuery("KRT_INF.2_.xlsx", "INF.2", "INF.2.A" + n)
  {
    var a := "INF.2" + ".A" + n;
    assert a == "INF.2.A" + n;
    assert a[0] == 'I';
    assert ExcelSheetName("INF.2_") == "KRT_INF.2_.xlsx";
    KrtQueryOfName(edition, "INF.2", n);
  }

  /**
   * APP.4.3.A24 gets the seven literal hazards in the 2022 edition,
   * whatever the workbook holds, and is looked up in the table in 2021.
   */
  lemma KrtQueryApp43A24(krt: Option<map<string, Sheet>>)
    ensures KrtLookup(Edition2022, krt, "APP.4.3.A24") == Ok(App43A24Hazards)
    ensures KrtQueryOf(Edition2021, "APP.4.3.A24") == RowQuery("KRT_APP.4.3.xlsx", "APP.4.3", "APP.4.3.A24")
  {
    var a := "APP.4.3" + ".A" + "24";
    assert a == "APP.4.3.A24";
    assert |a| == 11;
    assert ExcelSheetName("APP.4.3") == "KRT_APP.4.3.xlsx";
    KrtQueryOfName(Edition2022, "APP.4.3", "24");
    KrtQueryOfName(Edition2021, "APP.4.3", "24");
  }

  // ---------------------------------------------------------------------
  // The extractor object
  // ---------------------------------------------------------------------

  /** A scan that has failed keeps its result however many steps follow. */
  lemma {:induction false} ScanPrefixError<T>(steps: seq<Step<T>>, k: nat)
    requires k <= |steps| && ScanSteps(steps[..k]).error.Some?
    ensures ScanSteps(steps) == ScanSteps(steps[..k])
    decreases |steps| - k
  {
    if k < |steps| {
      var s := steps[..k + 1];
      assert s[..k] == steps[..k];
      ScanPrefixError(steps, k + 1);
    } else {
      assert steps[..k] == steps;
    }
  }

  /** One more link of a dictionary scan, seen from the dictionary built so far. */
  lemma ScanDictNext<V>(steps: seq<Step<(string, V)>>, i: nat, d: Dict<V>)
    requires i < |steps| && ScanSteps(steps[..i]).error.None?
    requires d == PutAll([], ScanSteps(steps[..i]).entries)
    ensures steps[i].Skip? ==> ScanSteps(steps[..i + 1]) == ScanSteps(steps[..i])
    ensures steps[i].Emit? ==>
      && ScanSteps(steps[..i + 1]).error.None?
      && PutAll([], ScanSteps(steps[..i + 1]).entries) == Put(d, steps[i].item.0, steps[i].item.1)
    ensures steps[i].Fail? ==> ScanSteps(steps) == Scan(ScanSteps(steps[..i]).entries, Some(steps[i].error))
  {
    var s := ScanSteps(steps[..i]);
    ScanNext(steps, i);
    match steps[i]
    case Skip =>
    case Emit(x) =>
      assert ScanSteps(steps[..i + 1]) == Scan(s.entries + [x], None);
      PutAllSnoc([], s.entries, x);
    case Fail(e) =>
      assert ScanSteps(steps[..i + 1]).error.Some?;
      ScanPrefixError(steps, i + 1);
  }

  /** The scan of one more step, read off a prefix that has not failed. */
  lemma ScanNext<T>(steps: seq<Step<T>>, i: nat)
    requires i < |steps| && ScanSteps(steps[..i]).error.None?
    ensures ScanSteps(steps[..i + 1]) ==
      match steps[i]
      case Skip => ScanSteps(steps[..i])
      case Emit(x) => Scan(ScanSteps(steps[..i]).entries + [x], None)
      case Fail(e) => Scan(ScanSteps(steps[..i]).entries, Some(e))
  {
    var pre := steps[..i];
    assert steps[..i + 1] == pre + [steps[i]];
    ScanSnoc(pre, steps[i]);
  }

  /** The requirements of one module, collected link by link. */
  method CollectRequirements(moduleName: string, toc: seq<string>) returns (r: Result<Dict<Anforderung>>)
    ensures r == Requirements(moduleName, toc)
  {
    ghost var steps := RequirementSteps(moduleName, toc);
    var reqs: Dict<Anforderung> := [];
    for i := 0 to |toc|
      invariant ScanSteps(steps[..i]).error.None?
      invariant reqs == PutAll([], ScanSteps(steps[..i]).entries)
    {
      var st := ParseRequirementLink(moduleName, toc[i]);
      assert st == steps[i];
      ScanDictNext(steps, i, reqs);
      match st {
        case Skip =>
        case Fail(e) =>
          return Err(e);
        case Emit(p) =>
          reqs := Put(reqs, p.0, p.1);
      }
    }
    assert steps[..|toc|] == steps;
    return Ok(reqs);
  }

  /** One table-of-contents link of a module document: the module it introduces, with its requirements and role. */
  method ModuleStepOf(doc: ModuleDoc, link: string) returns (st: Step<ModuleEntry>)
    ensures st == ModuleStep(doc, link)
  {
    match ParseModuleLink(link) {
      case Skip =>
        return Skip;
      case Fail(e) =>
        return Fail(e);
      case Emit(h) =>
        var reqs := CollectRequirements(h.name, doc.toc);
        if reqs.Err? {
          return Fail(reqs.error);
        }
        var role := ResponsibleRole(doc.content);
        if role.Err? {
          return Fail(role.error);
        }
        return Emit(ModuleEntry(h.category, h.number,
          Baustein(CleanGap(h.name), CleanGap(h.title), CleanGap(FixRole(role.value)), reqs.value)));
    }
  }

  /**
   * The extractor of one compendium edition. Each table is filled on first
   * request and returned as it is afterwards; the KRT workbook is set by
   * `Setup`. The documents each extractor reads are passed in.
   */
  class Extractor {
    const edition: Edition
    var bausteinkategorien: Dict<string>
    var gefaehrdungen: Dict<Hazard>
    var baustein: Dict<Dict<Baustein>>
    var krt: Option<map<string, Sheet>>

    constructor (edition: Edition)
      ensures this.edition == edition
      ensures bausteinkategorien == [] && gefaehrdungen == [] && baustein == [] && krt == None
    {
      this.edition := edition;
      bausteinkategorien := [];
      gefaehrdungen := [];
      baustein := [];
      krt := None;
    }

    /** Reads the KRT workbook (every sheet, every cell a string). */
    method Setup(workbook: map<string, Sheet>)
      modifies this`krt
      ensures krt == Some(workbook)
    {
      krt := Some(workbook);
    }

    /**
     * The categories of the overview page's headings, name to label; the
     * table is filled once and left as it is by later calls.
     */
    method GetBausteinkategorien(headings: seq<string>) returns (r: Result<Dict<string>>)
      modifies this`bausteinkategorien
      ensures |old(bausteinkategorien)| > 0 ==>
        bausteinkategorien == old(bausteinkategorien) && r == Ok(bausteinkategorien)
      ensures |old(bausteinkategorien)| == 0 ==>
        && bausteinkategorien == PutAll([], ScanSteps(CategorySteps(headings)).entries)
        && r == ScanDict(CategorySteps(headings))
    {
      if |bausteinkategorien| > 0 {
        return Ok(bausteinkategorien);
      }
      ghost var steps := CategorySteps(headings);
      for i := 0 to |headings|
        invariant ScanSteps(steps[..i]).error.None?
        invariant bausteinkategorien == PutAll([], ScanSteps(steps[..i]).entries)
      {
        var st := ParseCategoryHeading(headings[i]);
        assert st == steps[i];
        ScanDictNext(steps, i, bausteinkategorien);
        match st {
          case Skip =>
          case Fail(e) =>
            return Err(e);
          case Emit(p) =>
            bausteinkategorien := Put(bausteinkategorien, p.0, p.1);
        }
      }
      assert steps[..|headings|] == steps;
      return Ok(bausteinkategorien);
    }

    /** The elementary hazards of the hazard catalogue's links, keyed by number. */
    method GetGefaehrdungen(links: seq<string>) returns (r: Result<Dict<Hazard>>)
      modifies this`gefaehrdungen
      ensures |old(gefaehrdungen)| > 0 ==> gefaehrdungen == old(gefaehrdungen) && r == Ok(gefaehrdungen)
      ensures |old(gefaehrdungen)| == 0 ==>
        && gefaehrdungen == PutAll([], ScanSteps(HazardSteps(links)).entries)
        && r == ScanDict(HazardSteps(links))
    {
      if |gefaehrdungen| > 0 {
        return Ok(gefaehrdungen);
      }
      ghost var steps := HazardSteps(links);
      for i := 0 to |links|
        invariant ScanSteps(steps[..i]).error.None?
        invariant gefaehrdungen == PutAll([], ScanSteps(steps[..i]).entries)
      {
        var st := ParseHazardLink(links[i]);
        assert st == steps[i];
        ScanDictNext(steps, i, gefaehrdungen);
        match st {
          case Skip =>
          case Fail(e) =>
            return Err(e);
          case Emit(p) =>
            gefaehrdungen := Put(gefaehrdungen, p.0, p.1);
        }
      }
      assert steps[..|links|] == steps;
      return Ok(gefaehrdungen);
    }

    /**
     * The modules of all module documents with their requirements, by
     * category and number; documents are read in the given order.
     */
    method GetBausteineWithAnforderungen(docs: seq<ModuleDoc>) returns (r: Result<Dict<Dict<Baustein>>>)
      modifies this`baustein
      ensures |old(baustein)| > 0 ==> baustein == old(baustein) && r == Ok(baustein)
      ensures |old(baustein)| == 0 ==>
        var scan := ScanSteps(AllModuleSteps(docs));
        && baustein == PutModules([], scan.entries)
        && r == (if scan.error.None? then Ok(baustein) else Err(scan.error.value))
    {
      if |baustein| > 0 {
        return Ok(baustein);
      }
      ghost var all := AllModuleSteps(docs);
      for k := 0 to |docs|
        invariant AllModuleSteps(docs[..k]) <= all
        invariant ScanSteps(AllModuleSteps(docs[..k])).error.None?
        invariant baustein == PutModules([], ScanSteps(AllModuleSteps(docs[..k])).entries)
      {
        var doc := docs[k];
        ghost var before := AllModuleSteps(docs[..k]);
        ghost var steps := DocSteps(doc);
        AllModuleStepsSnoc(docs, k);
        AllModuleStepsPrefix(docs, k + 1);
        assert before + steps[..0] == before;
        for j := 0 to |doc.toc|
          invariant before + steps[..j] <= all
          invariant ScanSteps(before + steps[..j]).error.None?
          invariant baustein == PutModules([], ScanSteps(before + steps[..j]).entries)
        {
          ModuleScanStep(before, steps, j, all);
          var st := ModuleStepOf(doc, doc.toc[j]);
          assert st == steps[j];
          match st {
            case Skip =>
            case Fail(e) =>
              return Err(e);
            case Emit(entry) =>
              baustein := PutModule(baustein, entry);
          }
        }
        assert steps[..|doc.toc|] == steps;
      }
      assert docs[..|docs|] == docs;
      return Ok(baustein);
    }

    /**
     * The hazards of a requirement, from its row of the KRT (or, for the
     * one requirement the 2022 table lacks, from a fixed list).
     */
    method GetGefaehrdungenByAnforderung(requirement: string) returns (r: Result<Dict<string>>)
      ensures r == KrtLookup(edition, krt, requirement)
    {
      var query := KrtQueryOf(edition, requirement);
      if query.Literal? {
        return Ok(query.hazards);
      }
      var found := KrtRow(krt, query.sheet, query.column, query.row);
      if found.Err? {
        return Err(found.error);
      }
      var sheet := found.value.0;
      var values := found.value.1;
      var hazards := HazardColumns(sheet.columns);
      var checked := SliceFrom(values, 3);
      ghost var tag := if |values| > 2 then Strip(Upper(values[2])) else "";
      assert |hazards| <= |checked|;
      var result: Dict<string> := [];
      for i := 0 to |hazards|
        invariant result == PutAll([], MarkedPairs(hazards[..i], checked, tag))
      {
        var name := hazards[i];
        name := Replace(name, "G0", "G 0");
        name := Replace(name, "G.0", "G 0.");
        name := Replace(name, "G 0.0", "G 0.");
        assert |values| > 2 && tag == Strip(Upper(values[2]));
        MarkedPairsSnoc(hazards, checked, tag, i);
        if IsMarked(checked[i]) {
          PutAllSnoc([], MarkedPairs(hazards[..i], checked, tag), (name, tag));
          result := Put(result, name, Strip(Upper(values[2])));
        } else {
          assert MarkedPairs(hazards[..i + 1], checked, tag) == MarkedPairs(hazards[..i], checked, tag);
        }
      }
      assert hazards[..|hazards|] == hazards;
      assert KrtLookup(edition, krt, requirement) == Ok(RowHazards(sheet, values));
      return Ok(result);
    }
  }

  /** The steps of the first k documents begin the steps of all of them. */
  lemma {:induction false} AllModuleStepsPrefix(docs: seq<ModuleDoc>, k: nat)
    requires k <= |docs|
    ensures AllModuleSteps(docs[..k]) <= AllModuleSteps(docs)
    decreases |docs| - k
  {
    if k < |docs| {
      AllModuleStepsPrefix(docs, k + 1);
      assert docs[..k + 1][..k] == docs[..k];
    } else {
      assert docs[..k] == docs;
    }
  }

  /** Once a prefix of the module steps has failed, the whole scan has that result. */
  lemma ModuleScanStops(all: seq<Step<ModuleEntry>>, prefix: seq<Step<ModuleEntry>>)
    requires prefix <= all && ScanSteps(prefix).error.Some?
    ensures ScanSteps(all) == ScanSteps(prefix)
  {
    assert all[..|prefix|] == prefix;
    ScanPrefixError(all, |prefix|);
  }

  /** One more step extends the scan by what that step does. */
  lemma ScanSnoc<T>(pre: seq<Step<T>>, st: Step<T>)
    requires ScanSteps(pre).error.None?
    ensures ScanSteps(pre + [st]) ==
      match st
      case Skip => ScanSteps(pre)
      case Emit(x) => Scan(ScanSteps(pre).entries + [x], None)
      case Fail(e) => Scan(ScanSteps(pre).entries, Some(e))
  {
    assert (pre + [st])[..|pre|] == pre;
  }

  lemma PutModulesSnoc(es: seq<ModuleEntry>, e: ModuleEntry)
    ensures PutModules([], es + [e]) == PutModule(PutModules([], es), e)
  {
    assert (es + [e])[..|es|] == es;
  }

  /** What step j of a document does to the running scan of all module steps. */
  lemma ModuleScanStep(before: seq<Step<ModuleEntry>>, steps: seq<Step<ModuleEntry>>, j: nat, all: seq<Step<ModuleEntry>>)
    requires j < |steps| && before + steps <= all
    requires ScanSteps(before + steps[..j]).error.None?
    ensures before + steps[..j + 1] <= all
    ensures steps[j].Fail? ==>
      ScanSteps(all) == Scan(ScanSteps(before + steps[..j]).entries, Some(steps[j].error))
    ensures !steps[j].Fail? ==> ScanSteps(before + steps[..j + 1]).error.None?
    ensures steps[j].Skip? ==>
      PutModules([], ScanSteps(before + steps[..j + 1]).entries) == PutModules([], ScanSteps(before + steps[..j]).entries)
    ensures steps[j].Emit? ==>
      PutModules([], ScanSteps(before + steps[..j + 1]).entries) ==
      PutModule(PutModules([], ScanSteps(before + steps[..j]).entries), steps[j].item)
  {
    var pre := before + steps[..j];
    StepPrefix(before, steps, j, all);
    ScanSnoc(pre, steps[j]);
    match steps[j] {
      case Skip =>
      case Fail(e) =>
        ModuleScanStops(all, pre + [steps[j]]);
      case Emit(x) =>
        PutModulesSnoc(ScanSteps(pre).entries, x);
    }
  }

  /** The steps of document k follow those of the documents before it. */
  lemma AllModuleStepsSnoc(docs: seq<ModuleDoc>, k: nat)
    requires k < |docs|
    ensures AllModuleSteps(docs[..k + 1]) == AllModuleSteps(docs[..k]) + DocSteps(docs[k])
  {
    AllModuleStepsLast(docs[..k + 1]);
    assert docs[..k + 1][..k] == docs[..k];
  }

  lemma AllModuleStepsLast(docs: seq<ModuleDoc>)
    requires |docs| > 0
    ensures AllModuleSteps(docs) == AllModuleSteps(docs[..|docs| - 1]) + DocSteps(docs[|docs| - 1])
  {
  }

  lemma StepPrefix<T>(before: seq<Step<T>>, steps: seq<Step<T>>, j: nat, all: seq<Step<T>>)
    requires j < |steps| && before + steps <= all
    ensures before + steps[..j + 1] == (before + steps[..j]) + [steps[j]]
    ensures before + steps[..j + 1] <= all
  {
    assert steps[..j + 1] == steps[..j] + [steps[j]];
    assert (before + steps)[..|before| + j + 1] == before + steps[..j + 1];
  }

  lemma MarkedPairsSnoc(hazards: seq<string>, checked: seq<string>, tag: string, i: nat)
    requires i < |hazards| <= |checked|
    ensures MarkedPairs(hazards[..i + 1], checked, tag) == MarkedPairs(hazards[..i], checked, tag)
      + (if IsMarked(checked[i]) then [(NormaliseHazard(hazards[i]), tag)] else [])
  {
    assert hazards[..i + 1][..i] == hazards[..i];
  }
}
