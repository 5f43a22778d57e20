/**
 * The helpers of tools/lib/common.py and tools/common.py that the
 * conversion relies on: `clean_gap` (defined identically in both files),
 * the record search `get_from_json`, the framing `save_json` writes, and
 * the text pre-pass of `get_dataframe_from_csv`. Files, JSON encoding and
 * pandas are not modelled: a JSON file is its decoded value and a record's
 * encoding is an opaque one-line string.
 */
module Common {
  import opened Py

  // ---------------------------------------------------------------------
  // clean_gap
  // ---------------------------------------------------------------------

  /** `text.replace('\xa0', ' ')`: every no-break space becomes a plain space, nothing else changes. */
  function CleanGap(text: string): (r: string)
    ensures |r| == |text|
    ensures forall i :: 0 <= i < |text| ==> r[i] == (if text[i] == NBSP then ' ' else text[i])
  {
    ReplaceCharPointwise(text, NBSP, ' ');
    Replace(text, [NBSP], " ")
  }

  /** The result holds no no-break space, and cleaning is the identity on text without one. */
  lemma CleanGapNormalises(text: string)
    ensures NoChar(CleanGap(text), NBSP)
    ensures NoChar(text, NBSP) ==> CleanGap(text) == text
  {
  }

  /** Cleaning twice is cleaning once. */
  lemma CleanGapIdempotent(text: string)
    ensures CleanGap(CleanGap(text)) == CleanGap(text)
  {
  }

  // ---------------------------------------------------------------------
  // Decoded JSON tables
  // ---------------------------------------------------------------------

  /** A field value of the output tables: names and labels, ids, lists of ids. */
  datatype Value = Str(s: string) | Int(n: int) | List(items: seq<Value>)

  /** A JSON object of a table. */
  type Record = map<string, Value>

  /** A decoded JSON document: a list of objects, or anything else. */
  datatype Json = JArray(items: seq<Record>) | JOther

  predicate Matches(elem: Record, attr: string, value: Value) {
    attr in elem && elem[attr] == value
  }

  /** Position of the first element that has `attr` equal to `value`. */
  function FirstMatch(items: seq<Record>, attr: string, value: Value): (r: Option<nat>)
    ensures r.Some? ==> r.value < |items| && Matches(items[r.value], attr, value)
    ensures r.Some? ==> forall j :: 0 <= j < r.value ==> !Matches(items[j], attr, value)
    ensures r.None? ==> forall j :: 0 <= j < |items| ==> !Matches(items[j], attr, value)
  {
    if |items| == 0 then None
    else if Matches(items[0], attr, value) then Some(0)
    else
      match FirstMatch(items[1..], attr, value)
      case Some(j) => Some(j + 1)
      case None => None
  }

  /**
   * What `get_from_json` returns: the `id` of the first element with
   * `attr` equal to `value`; a ValueError when the data is not a list or
   * nothing matches; a KeyError when the match has no `id`.
   */
  function Lookup(data: Json, attr: string, value: Value): (r: Result<Value>)
    ensures data.JOther? ==> r == Err(ValueError("No item found with " + attr))
    ensures data.JArray? && FirstMatch(data.items, attr, value).None? ==> r == Err(ValueError("No item found with " + attr))
    ensures r.Ok? <==> data.JArray? && FirstMatch(data.items, attr, value).Some?
                       && "id" in data.items[FirstMatch(data.items, attr, value).value]
    ensures r.Ok? ==> exists i :: 0 <= i < |data.items| && Matches(data.items[i], attr, value)
                       && (forall j :: 0 <= j < i ==> !Matches(data.items[j], attr, value))
                       && r.value == data.items[i]["id"]
  {
    match data
    case JOther => Err(ValueError("No item found with " + attr))
    case JArray(items) =>
      match FirstMatch(items, attr, value)
      case None => Err(ValueError("No item found with " + attr))
      case Some(i) => if "id" in items[i] then Ok(items[i]["id"]) else Err(KeyError("id"))
  }

  /** `get_from_json` on already decoded data: a scan that returns at the first match. */
  method GetFromJson(data: Json, attr: string, value: Value) returns (r: Result<Value>)
    ensures r == Lookup(data, attr, value)
  {
    if data.JArray? {
      var items := data.items;
      for k := 0 to |items|
        invariant forall j :: 0 <= j < k ==> !Matches(items[j], attr, value)
      {
        var elem := items[k];
        if attr in elem && elem[attr] == value {
          if "id" in elem {
            return Ok(elem["id"]);
          }
          return Err(KeyError("id"));
        }
      }
    }
    r := Err(ValueError("No item found with " + attr));
  }

  // ---------------------------------------------------------------------
  // save_json framing
  // ---------------------------------------------------------------------

  /** The text `save_json` writes for records already encoded one per string. */
  function SaveJsonText(encoded: seq<string>): string {
    "[\n  " + Join(",\n  ", encoded) + "\n]\n"
  }

  /** The line of the i-th record: indented by two, followed by a comma unless it is the last. */
  function RecordLine(encoded: seq<string>, i: nat): string
    requires i < |encoded|
  {
    "  " + encoded[i] + (if i + 1 < |encoded| then "," else "")
  }

  function RecordLines(encoded: seq<string>): (lines: seq<string>)
    ensures |lines| == |encoded|
    ensures forall i :: 0 <= i < |encoded| ==> lines[i] == RecordLine(encoded, i)
  {
    seq(|encoded|, i requires 0 <= i < |encoded| => RecordLine(encoded, i))
  }

  /** An empty table is written as an opening bracket, an indented empty line and a closing bracket. */
  lemma SaveJsonEmpty()
    ensures SaveJsonText([]) == "[\n  \n]\n"
  {
  }

  /** With n >= 1 records the text is "[", one line per record, "]", each line ended by a newline. */
  lemma {:induction false} SaveJsonLayout(encoded: seq<string>)
    requires |encoded| >= 1
    ensures SaveJsonText(encoded) == Join("\n", ["["] + RecordLines(encoded) + ["]"]) + "\n"
  {
    var lines := RecordLines(encoded);
    JoinRecords(encoded);
    var inner := Join("\n", lines + ["]"]);
    assert (["["] + lines + ["]"]) == ["["] + (lines + ["]"]);
    JoinCons("\n", "[", lines + ["]"]);
    JoinSnoc("\n", lines, "]");
  }

  /** Joining with ",\n  " is joining the indented, comma-terminated lines with "\n". */
  lemma {:induction false} JoinRecords(encoded: seq<string>)
    requires |encoded| >= 1
    ensures "  " + Join(",\n  ", encoded) == Join("\n", RecordLines(encoded))
    decreases |encoded|
  {
    if |encoded| == 1 {
    } else {
      var tail := encoded[1..];
      JoinRecords(tail);
      var lines := RecordLines(encoded);
      assert lines == [RecordLine(encoded, 0)] + RecordLines(tail) by {
        forall i | 1 <= i < |encoded| ensures lines[i] == RecordLines(tail)[i - 1] {
          assert RecordLine(encoded, i) == RecordLine(tail, i - 1);
        }
      }
      JoinCons("\n", RecordLine(encoded, 0), RecordLines(tail));
    }
  }

  lemma {:induction false} JoinSnoc(sep: string, parts: seq<string>, last: string)
    ensures |parts| >= 1 ==> Join(sep, parts + [last]) == Join(sep, parts) + sep + last
    ensures |parts| == 0 ==> Join(sep, parts + [last]) == last
    decreases |parts|
  {
    if |parts| >= 2 {
      assert (parts + [last])[1..] == parts[1..] + [last];
      JoinSnoc(sep, parts[1..], last);
    } else if |parts| == 1 {
      assert (parts + [last])[1..] == [last];
    } else {
      assert parts + [last] == [last];
    }
  }

  /** Lines without line boundaries, each followed by "\n", read back as the same lines. */
  lemma {:induction false} SplitLinesJoin(lines: seq<string>)
    requires forall k :: 0 <= k < |lines| ==> FindBreak(lines[k]).None?
    ensures SplitLines(Join("\n", lines) + "\n") == (if |lines| == 0 then [""] else lines)
    decreases |lines|
  {
    if |lines| == 0 {
      var t := "\n";
      assert FindBreak(t) == Some(0);
      assert t[1..] == "";
    } else if |lines| == 1 {
      SplitLinesOne(lines[0], "");
      assert lines[0] + "\n" + "" == Join("\n", lines) + "\n";
      assert SplitLines("") == [];
    } else {
      var tail := Join("\n", lines[1..]);
      SplitLinesJoin(lines[1..]);
      assert Join("\n", lines) + "\n" == lines[0] + "\n" + (tail + "\n");
      SplitLinesOne(lines[0], tail + "\n");
    }
  }

  lemma SplitLinesOne(line: string, rest: string)
    requires FindBreak(line).None?
    ensures SplitLines(line + "\n" + rest) == [line] + SplitLines(rest)
  {
    var s := line + "\n" + rest;
    FindBreakAfter(line, rest);
    assert s[..|line|] == line;
    assert s[|line| + 1..] == rest;
  }

  lemma {:induction false} FindBreakAfter(line: string, rest: string)
    requires FindBreak(line).None?
    ensures FindBreak(line + "\n" + rest) == Some(|line|)
    decreases |line|
  {
    var s := line + "\n" + rest;
    if |line| > 0 {
      assert s[1..] == line[1..] + "\n" + rest;
      assert FindBreak(line[1..]).None? by {
        assert forall j :: 0 <= j < |line[1..]| ==> line[1..][j] == line[j + 1];
      }
      FindBreakAfter(line[1..], rest);
    }
  }

  /** With n >= 1 one-line records the written file reads back as n + 2 lines: "[", the records, "]". */
  lemma SaveJsonLines(encoded: seq<string>)
    requires |encoded| >= 1
    requires forall k :: 0 <= k < |encoded| ==> FindBreak(encoded[k]).None?
    ensures SplitLines(SaveJsonText(encoded)) == ["["] + RecordLines(encoded) + ["]"]
    ensures |SplitLines(SaveJsonText(encoded))| == |encoded| + 2
  {
    SaveJsonLayout(encoded);
    var lines := ["["] + RecordLines(encoded) + ["]"];
    forall k | 0 <= k < |lines| ensures FindBreak(lines[k]).None? {
      if 1 <= k <= |encoded| {
        RecordLineOneLine(encoded, k - 1);
      }
    }
    SplitLinesJoin(lines);
  }

  lemma RecordLineOneLine(encoded: seq<string>, i: nat)
    requires i < |encoded|
    requires FindBreak(encoded[i]).None?
    ensures FindBreak(RecordLine(encoded, i)).None?
  {
    var l := RecordLine(encoded, i);
    forall j | 0 <= j < |l| ensures !IsLineBreak(l[j]) {
      if 2 <= j < 2 + |encoded[i]| {
        assert l[j] == encoded[i][j - 2];
      }
    }
  }

  // ---------------------------------------------------------------------
  // get_dataframe_from_csv: the text pre-pass
  // ---------------------------------------------------------------------

  /** Python's `xs[k:]` for any integer k (a negative k counts from the end). */
  function SliceFrom<T>(xs: seq<T>, k: int): (r: seq<T>)
    ensures 0 <= k <= |xs| ==> r == xs[k..]
    ensures k >= |xs| ==> r == []
    ensures k < 0 ==> r == xs[(if |xs| + k < 0 then 0 else |xs| + k)..]
  {
    if k >= |xs| then []
    else if k >= 0 then xs[k..]
    else if |xs| + k < 0 then xs
    else xs[|xs| + k..]
  }

  /** The text handed to the CSV reader: the header text, then the lines from `skipLines` on. */
  function CsvPrePass(text: string, prependText: string, skipLines: int): string {
    prependText + Join("\n", SliceFrom(SplitLines(text), skipLines))
  }

  /** Skipping at least as many lines as there are leaves only the prepended header. */
  lemma CsvPrePassSkipAll(text: string, prependText: string, skipLines: int)
    requires skipLines >= |SplitLines(text)|
    ensures CsvPrePass(text, prependText, skipLines) == prependText
  {
  }

  /** The only line boundaries in `text` are "\n". */
  predicate OnlyNewlines(text: string) {
    forall k :: 0 <= k < |text| ==> !IsLineBreak(text[k]) || text[k] == '\n'
  }

  /** Skipping nothing keeps every line of a text ending without a line boundary, prefixed by the header. */
  lemma CsvPrePassKeepAll(text: string, prependText: string)
    requires OnlyNewlines(text)
    requires |text| > 0 && text[|text| - 1] != '\n'
    ensures CsvPrePass(text, prependText, 0) == prependText + text
  {
    SplitLinesNewlines(text);
  }

  /** For text whose only boundaries are "\n" and which does not end with one, joining its lines with "\n" restores it. */
  lemma {:induction false} SplitLinesNewlines(text: string)
    requires OnlyNewlines(text)
    requires |text| > 0 && text[|text| - 1] != '\n'
    ensures Join("\n", SplitLines(text)) == text
    decreases |text|
  {
    match FindBreak(text)
    case None =>
    case Some(i) =>
      var line, rest := text[..i], text[i + 1..];
      FirstNewline(text, i);
      SplitLinesNewlines(rest);
      JoinCons("\n", line, SplitLines(rest));
  }

  /** The first boundary of such a text is a "\n" that splits off its first line and leaves a text of the same kind. */
  lemma FirstNewline(text: string, i: nat)
    requires OnlyNewlines(text)
    requires |text| > 0 && text[|text| - 1] != '\n'
    requires FindBreak(text) == Some(i)
    ensures text == text[..i] + "\n" + text[i + 1..]
    ensures SplitLines(text) == [text[..i]] + SplitLines(text[i + 1..])
    ensures |text[i + 1..]| > 0 && text[i + 1..][|text[i + 1..]| - 1] != '\n'
    ensures OnlyNewlines(text[i + 1..])
  {
    var line, rest := text[..i], text[i + 1..];
    assert text[i] == '\n';
    assert text == line + "\n" + rest;
    assert FindBreak(line).None? by {
      assert forall j :: 0 <= j < |line| ==> line[j] == text[j];
    }
    SplitLinesOne(line, rest);
    OnlyNewlinesSuffix(text, i + 1);
  }

  lemma OnlyNewlinesSuffix(text: string, j: nat)
    requires OnlyNewlines(text) && j <= |text|
    ensures OnlyNewlines(text[j..])
  {
    assert forall k :: 0 <= k < |text[j..]| ==> text[j..][k] == text[j + k];
  }
}
