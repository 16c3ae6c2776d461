/** The line-based editor that sets a metadata field of a manifest, and the laws of reading back what was set. */
module ManifestMetadata {
  import opened Text
  import opened Wrappers

  // ---------------------------------------------------------------- lines

  /** Line ends of two characters become one. */
  function Normalize(text: string): string {
    if text == [] then []
    else if |text| >= 2 && text[0] == '\r' && text[1] == '\n' then ['\n'] + Normalize(text[2..])
    else [text[0]] + Normalize(text[1..])
  }

  function Lines(text: string): (lines: seq<string>)
    ensures |lines| >= 1
  {
    Split(Normalize(text), '\n')
  }

  /** The characters a dot in a pattern does not match. */
  predicate LineTerminator(c: char) { c == '\n' || c == '\r' || c == '\U{2028}' || c == '\U{2029}' }

  predicate SingleLine(s: string) {
    forall i :: 0 <= i < |s| ==> !LineTerminator(s[i])
  }

  predicate Blank(line: string) { TrimLeft(JsSpace, line) == "" }

  function Indent(line: string): nat {
    TrimmedLeftIsSuffix(JsSpace, line);
    |line| - |TrimLeft(JsSpace, line)|
  }

  lemma {:induction false} TrimmedLeftIsSuffix(space: char -> bool, s: string)
    ensures |TrimLeft(space, s)| <= |s|
    ensures s[|s| - |TrimLeft(space, s)|..] == TrimLeft(space, s)
    ensures forall i :: 0 <= i < |s| - |TrimLeft(space, s)| ==> space(s[i])
  {
    if s != [] && space(s[0]) {
      var rest, n := s[1..], |s| - |TrimLeft(space, s)|;
      TrimmedLeftIsSuffix(space, rest);
      assert s[n..] == rest[n - 1..];
      assert forall i :: 1 <= i < n ==> s[i] == rest[i - 1];
    }
  }

  const HEADER: string := "metadata:"

  predicate MetadataLine(line: string) { Trim(JsSpace, line) == HEADER }

  /** At or below the indentation of the metadata line: the first such line ends the block. */
  predicate Outside(indent: nat, line: string) { !Blank(line) && Indent(line) <= indent }

  /** A key the field pattern takes literally. */
  predicate PlainKey(key: string) {
    key != "" && forall i :: 0 <= i < |key| ==> KeyChar(key[i])
  }

  predicate KeyChar(c: char) { 'a' <= c <= 'z' || 'A' <= c <= 'Z' || '0' <= c <= '9' || c == '-' || c == '_' }

  /** Exactly the given indentation, the key, a colon, white space and the rest of one line. */
  predicate FieldLine(indent: nat, key: string, line: string) {
    && indent <= |line|
    && (forall i :: 0 <= i < indent ==> JsSpace(line[i]))
    && HasPrefix(line[indent..], key + ":")
    && SingleLine(TrimLeft(JsSpace, line[indent + |key| + 1..]))
  }

  function Spaces(n: nat): string {
    seq(n, _ => ' ')
  }

  function FieldText(indent: nat, key: string, value: string): string {
    Spaces(indent) + key + ": " + value
  }

  // ---------------------------------------------------------------- finding the field

  /** The first line from one position up to another that satisfies a test, or that other position. */
  function First(test: string -> bool, lines: seq<string>, from: nat, end: nat): (i: nat)
    requires from <= end <= |lines|
    ensures from <= i <= end
    ensures i < end ==> test(lines[i])
    ensures forall j :: from <= j < i ==> !test(lines[j])
    decreases end - from
  {
    if from == end || test(lines[from]) then from else First(test, lines, from + 1, end)
  }

  function MetadataIndex(lines: seq<string>): (m: nat)
    ensures m <= |lines|
  {
    First(MetadataLine, lines, 0, |lines|)
  }

  function OutsideOf(indent: nat): string -> bool { line => Outside(indent, line) }

  function FieldOf(indent: nat, key: string): string -> bool { line => FieldLine(indent, key, line) }

  /** The field a block starting at some line holds: the first that fits before the block ends. */
  function Found(outside: string -> bool, field: string -> bool, lines: seq<string>, from: nat): Option<string>
    requires from <= |lines|
  {
    var end := First(outside, lines, from, |lines|);
    var f := First(field, lines, from, end);
    if f < end then Some(lines[f]) else None
  }

  /** The lines with that field replaced, or with the text added at the end of the block. */
  function Edit(
    outside: string -> bool, field: string -> bool, lines: seq<string>, from: nat, text: string): seq<string>
    requires from <= |lines|
  {
    var end := First(outside, lines, from, |lines|);
    var f := First(field, lines, from, end);
    if f < end then lines[f := text] else lines[..f] + [text] + lines[f..]
  }

  /** The lines after setting a key. */
  function SetLines(lines: seq<string>, key: string, value: string): seq<string> {
    var m := MetadataIndex(lines);
    if m == |lines| then [HEADER, FieldText(2, key, value)] + lines
    else
      var indent := Indent(lines[m]);
      Edit(OutsideOf(indent), FieldOf(indent + 2, key), lines, m + 1, FieldText(indent + 2, key, value))
  }

  function Set(text: string, key: string, value: string): string {
    Join(SetLines(Lines(text), key, value), '\n')
  }

  /** The value a key has in the first metadata block: what follows the colon and one blank. */
  function ReadLines(lines: seq<string>, key: string): Option<string> {
    var m := MetadataIndex(lines);
    if m == |lines| then None
    else
      var indent := Indent(lines[m]);
      match Found(OutsideOf(indent), FieldOf(indent + 2, key), lines, m + 1)
      case None => None
      case Some(line) => Some(ValueOf(line[indent + 2 + |key| + 1..]))
  }

  function ValueOf(rest: string): string {
    if rest != [] && rest[0] == ' ' then rest[1..] else rest
  }

  function Get(text: string, key: string): Option<string> { ReadLines(Lines(text), key) }

  // ---------------------------------------------------------------- the code

  method ReplaceOrInsertMetadataValue(manifest: string, key: string, value: string) returns (result: string)
    ensures result == Set(manifest, key, value)
  {
    hide FieldText, MetadataLine, OutsideOf, FieldOf, Indent, Join, Split, Normalize, Set, First;
    var normalized := Normalize(manifest);
    var lines := Split(normalized, '\n');
    var metadataIndex := First(MetadataLine, lines, 0, |lines|);
    if metadataIndex == |lines| {
      HeaderJoins(manifest, key, value);
      return "metadata:\n  " + key + ": " + value + "\n" + normalized;
    }
    var metadataIndent := Indent(lines[metadataIndex]);
    var fieldIndent := metadataIndent + 2;
    var metadataEndIndex := FindBlockEnd(lines, metadataIndex + 1, metadataIndent);
    var f := FindField(lines, metadataIndex + 1, metadataEndIndex, fieldIndent, key);
    SetByIndices(manifest, key, value, metadataIndex, metadataEndIndex, f);
    if f < metadataEndIndex {
      lines := lines[f := FieldText(fieldIndent, key, value)];
      return Join(lines, '\n');
    }
    lines := lines[..metadataEndIndex] + [FieldText(fieldIndent, key, value)] + lines[metadataEndIndex..];
    return Join(lines, '\n');
  }

  /** The loop that looks for the first line that is not blank and not indented deeper. */
  method FindBlockEnd(lines: seq<string>, from: nat, metadataIndent: nat) returns (metadataEndIndex: nat)
    requires from <= |lines|
    ensures metadataEndIndex == First(OutsideOf(metadataIndent), lines, from, |lines|)
  {
    hide Outside, OutsideOf, Indent, Blank;
    metadataEndIndex := |lines|;
    var index := from;
    while index < |lines|
      invariant from <= index <= |lines|
      invariant metadataEndIndex == |lines|
      invariant First(OutsideOf(metadataIndent), lines, from, |lines|) ==
                First(OutsideOf(metadataIndent), lines, index, |lines|)
    {
      var line := lines[index];
      OutsideMeans(metadataIndent, line);
      if Blank(line) {
        index := index + 1;
        continue;
      }
      if Indent(line) <= metadataIndent {
        return index;
      }
      index := index + 1;
    }
  }

  /** The loop that looks for the first line of the block that holds the key. */
  method FindField(lines: seq<string>, from: nat, metadataEndIndex: nat, fieldIndent: nat, key: string)
    returns (index: nat)
    requires from <= metadataEndIndex <= |lines|
    ensures index == First(FieldOf(fieldIndent, key), lines, from, metadataEndIndex)
  {
    hide FieldLine, FieldOf;
    index := from;
    while index < metadataEndIndex
      invariant from <= index <= metadataEndIndex
      invariant First(FieldOf(fieldIndent, key), lines, from, metadataEndIndex) ==
                First(FieldOf(fieldIndent, key), lines, index, metadataEndIndex)
    {
      FieldMeans(fieldIndent, key, lines[index]);
      if FieldLine(fieldIndent, key, lines[index]) {
        return;
      }
      index := index + 1;
    }
  }

  lemma OutsideMeans(indent: nat, line: string)
    ensures OutsideOf(indent)(line) <==> !Blank(line) && Indent(line) <= indent
  {
  }

  lemma FieldMeans(indent: nat, key: string, line: string)
    ensures FieldOf(indent, key)(line) <==> FieldLine(indent, key, line)
  {
  }

  /** What is to be set, given where the block ends and where the field is. */
  lemma SetByIndices(manifest: string, key: string, value: string, m: nat, end: nat, f: nat)
    requires var lines := Lines(manifest);
             && m == MetadataIndex(lines) < |lines|
             && end == First(OutsideOf(Indent(lines[m])), lines, m + 1, |lines|)
             && f == First(FieldOf(Indent(lines[m]) + 2, key), lines, m + 1, end)
    ensures var lines := Lines(manifest);
            var text := FieldText(Indent(lines[m]) + 2, key, value);
            Set(manifest, key, value) ==
              Join(if f < end then lines[f := text] else lines[..end] + [text] + lines[end..], '\n')
  {
    hide FieldText, Indent, First, Join, Lines, OutsideOf;
    hide FieldOf, MetadataIndex, MetadataLine, FieldLine, Outside, Normalize, Split;
  }

  lemma HeaderJoins(manifest: string, key: string, value: string)
    requires !HasBlock(Lines(manifest))
    ensures "metadata:\n  " + key + ": " + value + "\n" + Normalize(manifest) == Set(manifest, key, value)
  {
    hide Split, Join, FieldText, Normalize;
    var normalized := Normalize(manifest);
    var lines := Split(normalized, '\n');
    var text := FieldText(2, key, value);
    TextAtTwo(key, value);
    JoinSplit(normalized, '\n');
    JoinCons(text, lines, '\n');
    JoinCons(HEADER, [text] + lines, '\n');
    assert [HEADER, text] + lines == [HEADER] + ([text] + lines);
    assert HEADER + ['\n'] + ("  " + (key + ": " + value) + ['\n'] + normalized) ==
           "metadata:\n  " + key + ": " + value + "\n" + normalized;
  }

  lemma TextAtTwo(key: string, value: string)
    ensures FieldText(2, key, value) == "  " + (key + ": " + value)
  {
    assert Spaces(2) == "  ";
  }

  // ---------------------------------------------------------------- what a field line looks like

  lemma IndentIs(line: string, n: nat)
    requires n < |line| && !JsSpace(line[n]) && forall i :: 0 <= i < n ==> JsSpace(line[i])
    ensures Indent(line) == n && !Blank(line)
  {
    TrimmedLeftIsSuffix(JsSpace, line);
    assert line[Indent(line)..] == TrimLeft(JsSpace, line);
  }

  lemma FieldLineShape(indent: nat, key: string, line: string)
    requires PlainKey(key) && FieldLine(indent, key, line)
    ensures Indent(line) == indent && !Blank(line)
    ensures forall other :: PlainKey(other) && other != key ==> !FieldLine(indent, other, line)
  {
    var rest := line[indent..];
    assert rest[..|key| + 1] == key + ":";
    assert rest[0] == (key + ":")[0] == key[0] && rest[0] == line[indent];
    assert KeyChar(key[0]);
    IndentIs(line, indent);
    forall other | PlainKey(other) && other != key ensures !FieldLine(indent, other, line) {
      if HasPrefix(rest, other + ":") {
        KeysDecoded(rest, key, other);
        assert false;
      }
    }
  }

  lemma KeysDecoded(rest: string, key: string, other: string)
    requires PlainKey(key) && PlainKey(other) && HasPrefix(rest, key + ":") && HasPrefix(rest, other + ":")
    ensures key == other
  {
    assert forall i :: 0 <= i < |key| ==> rest[..|key| + 1][i] == key[i];
    assert forall i :: 0 <= i < |other| ==> rest[..|other| + 1][i] == other[i];
    assert rest[..|key| + 1][|key|] == ':' && rest[..|other| + 1][|other|] == ':';
    assert rest[|key|] == ':' && rest[|other|] == ':';
  }

  lemma FieldTextSingle(indent: nat, key: string, value: string)
    requires PlainKey(key) && SingleLine(value)
    ensures SingleLine(FieldText(indent, key, value))
  {
    var line := FieldText(indent, key, value);
    forall i | 0 <= i < |line| ensures !LineTerminator(line[i]) {
      if i < indent {
        assert line[i] == ' ';
      } else if i < indent + |key| {
        assert line[i] == key[i - indent] && KeyChar(line[i]);
      } else if i >= indent + |key| + 2 {
        assert line[i] == value[i - indent - |key| - 2];
      }
    }
  }

  lemma SuffixSingle(line: string, n: nat)
    requires SingleLine(line) && n <= |line|
    ensures SingleLine(line[n..])
  {
    forall i | 0 <= i < |line[n..]| ensures !LineTerminator(line[n..][i]) {
      assert line[n..][i] == line[n + i];
    }
  }

  lemma FieldTextParts(indent: nat, key: string, value: string)
    ensures var line := FieldText(indent, key, value);
            && |line| == indent + |key| + 2 + |value|
            && (forall i :: 0 <= i < indent ==> line[i] == ' ')
            && line[indent..] == key + ":" + (" " + value) && line[indent + |key| + 1..] == " " + value
  {
  }

  lemma FieldTextIsField(indent: nat, key: string, value: string)
    requires PlainKey(key) && SingleLine(value)
    ensures FieldLine(indent, key, FieldText(indent, key, value))
    ensures ValueOf(FieldText(indent, key, value)[indent + |key| + 1..]) == value
    ensures SingleLine(FieldText(indent, key, value))
  {
    hide FieldText, SingleLine, PlainKey;
    var line := FieldText(indent, key, value);
    FieldTextParts(indent, key, value);
    FieldTextSingle(indent, key, value);
    var rest := line[indent + |key| + 1..];
    assert HasPrefix(line[indent..], key + ":");
    SuffixSingle(line, indent + |key| + 1);
    TrimmedLeftIsSuffix(JsSpace, rest);
    SuffixSingle(rest, |rest| - |TrimLeft(JsSpace, rest)|);
  }

  lemma HeaderIsMetadata()
    ensures MetadataLine(HEADER) && Indent(HEADER) == 0
  {
    assert HEADER[0] == 'm' && HEADER[|HEADER| - 1] == ':';
    TrimmedStays(JsSpace, HEADER);
    IndentIs(HEADER, 0);
  }

  // ---------------------------------------------------------------- the layout after an edit

  lemma FirstIs(test: string -> bool, lines: seq<string>, from: nat, end: nat, i: nat)
    requires from <= i <= end <= |lines|
    requires i < end ==> test(lines[i])
    requires forall j :: from <= j < i ==> !test(lines[j])
    ensures First(test, lines, from, end) == i
  {
    var k := First(test, lines, from, end);
  }

  /** An edit keeps everything above the block. */
  lemma EditAbove(
    outside: string -> bool, field: string -> bool, meta: string -> bool, lines: seq<string>, m: nat, text: string)
    requires m == First(meta, lines, 0, |lines|) < |lines|
    ensures var after := Edit(outside, field, lines, m + 1, text);
            First(meta, after, 0, |after|) == m < |after| && after[m] == lines[m]
  {
    var after := Edit(outside, field, lines, m + 1, text);
    assert forall j :: 0 <= j <= m ==> after[j] == lines[j];
    FirstIs(meta, after, 0, |after|, m);
  }

  lemma ReplacedLayout(
    outside: string -> bool, field: string -> bool, lines: seq<string>, from: nat, end: nat, f: nat, text: string)
    requires from <= f < end <= |lines| && field(text) && !outside(text)
    requires end == First(outside, lines, from, |lines|) && f == First(field, lines, from, end)
    ensures var after := lines[f := text];
            First(outside, after, from, |after|) == end && First(field, after, from, end) == f
  {
    hide First;
    var after := lines[f := text];
    FirstIs(outside, after, from, |after|, end);
    FirstIs(field, after, from, end, f);
  }

  lemma InsertedLayout(
    outside: string -> bool, field: string -> bool, lines: seq<string>, from: nat, end: nat, text: string)
    requires from <= end <= |lines| && field(text) && !outside(text)
    requires end == First(outside, lines, from, |lines|) == First(field, lines, from, end)
    ensures var after := lines[..end] + [text] + lines[end..];
            First(outside, after, from, |after|) == end + 1 && First(field, after, from, end + 1) == end
  {
    hide First;
    var after := lines[..end] + [text] + lines[end..];
    assert after[end] == text;
    assert end < |lines| ==> after[end + 1] == lines[end];
    FirstIs(outside, after, from, |after|, end + 1);
    FirstIs(field, after, from, end + 1, end);
  }

  /** Where the block ends after an edit, and where the field is. */
  lemma EditLayout(outside: string -> bool, field: string -> bool, lines: seq<string>, from: nat, text: string)
    requires from <= |lines| && field(text) && !outside(text)
    ensures var after := Edit(outside, field, lines, from, text);
            var end := First(outside, lines, from, |lines|);
            var f := First(field, lines, from, end);
            && |after| == |lines| + (if f < end then 0 else 1)
            && First(outside, after, from, |after|) == (if f < end then end else end + 1)
            && First(field, after, from, First(outside, after, from, |after|)) == f
            && after[f] == text
  {
    hide First;
    var end := First(outside, lines, from, |lines|);
    var f := First(field, lines, from, end);
    if f < end {
      ReplacedLayout(outside, field, lines, from, end, f, text);
    } else {
      InsertedLayout(outside, field, lines, from, end, text);
    }
  }

  lemma EditFound(outside: string -> bool, field: string -> bool, lines: seq<string>, from: nat, text: string)
    requires from <= |lines| && field(text) && !outside(text)
    ensures var after := Edit(outside, field, lines, from, text);
            from <= |after| && Found(outside, field, after, from) == Some(text)
  {
    EditLayout(outside, field, lines, from, text);
  }

  lemma EditEdit(
    outside: string -> bool, field: string -> bool, lines: seq<string>, from: nat, first: string, second: string)
    requires from <= |lines| && field(first) && !outside(first)
    ensures var after := Edit(outside, field, lines, from, first);
            from <= |after| && Edit(outside, field, after, from, second) == Edit(outside, field, lines, from, second)
  {
    EditLayout(outside, field, lines, from, first);
  }

  /** An edit of one field changes no field of another kind. */
  lemma EditOther(
    outside: string -> bool, field: string -> bool, other: string -> bool, lines: seq<string>, from: nat, text: string)
    requires from <= |lines| && field(text) && !outside(text)
    requires forall line :: field(line) ==> !other(line)
    ensures var after := Edit(outside, field, lines, from, text);
            from <= |after| && Found(outside, other, after, from) == Found(outside, other, lines, from)
  {
    hide First;
    EditLayout(outside, field, lines, from, text);
    var after := Edit(outside, field, lines, from, text);
    var end := First(outside, lines, from, |lines|);
    var f, g := First(field, lines, from, end), First(other, lines, from, end);
    assert forall j :: 0 <= j < f ==> after[j] == lines[j];
    if f < end {
      assert forall j :: f < j < |lines| ==> after[j] == lines[j];
      FirstIs(other, after, from, end, g);
    } else {
      FirstIs(other, after, from, end + 1, if g < end then g else end + 1);
    }
  }

  /** Two lines on top push the block down by two; the second is part of it. */
  lemma HeaderOther(outside: string -> bool, other: string -> bool, lines: seq<string>, header: string, text: string)
    requires !outside(text) && !other(text)
    ensures Found(outside, other, [header, text] + lines, 1) == Found(outside, other, lines, 0)
  {
    var after := [header, text] + lines;
    var end := First(outside, lines, 0, |lines|);
    var g := First(other, lines, 0, end);
    assert forall j :: 2 <= j < |after| ==> after[j] == lines[j - 2];
    FirstIs(outside, after, 1, |after|, end + 2);
    FirstIs(other, after, 1, end + 2, g + 2);
  }

  lemma HeaderFound(outside: string -> bool, field: string -> bool, lines: seq<string>, header: string, text: string)
    requires !outside(text) && field(text)
    ensures Found(outside, field, [header, text] + lines, 1) == Some(text)
  {
    var after := [header, text] + lines;
    var end := First(outside, after, 1, |after|);
    assert after[1] == text;
    FirstIs(field, after, 1, end, 1);
  }

  lemma HeaderEdit(
    outside: string -> bool, field: string -> bool, lines: seq<string>, header: string, first: string, second: string)
    requires !outside(first) && field(first)
    ensures Edit(outside, field, [header, first] + lines, 1, second) == [header, second] + lines
  {
    var after := [header, first] + lines;
    var end := First(outside, after, 1, |after|);
    assert after[1] == first;
    FirstIs(field, after, 1, end, 1);
  }

  // ---------------------------------------------------------------- laws, line by line

  predicate HasBlock(lines: seq<string>) { MetadataIndex(lines) < |lines| }

  /** Some line of the text, before the first that is not indented, looks like a field of a block at the top. */
  predicate Captures(lines: seq<string>, key: string) {
    Found(OutsideOf(0), FieldOf(2, key), lines, 0) != None
  }

  /** The text set for a key is a field of the block, and no field of another key. */
  lemma TextFits(indent: nat, key: string, value: string)
    requires PlainKey(key) && SingleLine(value)
    ensures var text := FieldText(indent + 2, key, value);
            FieldOf(indent + 2, key)(text) && !OutsideOf(indent)(text)
  {
    FieldTextIsField(indent + 2, key, value);
    FieldLineShape(indent + 2, key, FieldText(indent + 2, key, value));
  }

  lemma KeysApart(indent: nat, key: string, other: string)
    requires PlainKey(key) && PlainKey(other) && other != key
    ensures forall line :: FieldOf(indent, key)(line) ==> !FieldOf(indent, other)(line)
  {
    forall line | FieldOf(indent, key)(line) ensures !FieldOf(indent, other)(line) {
      FieldLineShape(indent, key, line);
    }
  }

  /** A block put on top is found there. */
  lemma HeaderOnTop(lines: seq<string>, text: string)
    ensures MetadataIndex([HEADER, text] + lines) == 0 && Indent(HEADER) == 0
  {
    HeaderIsMetadata();
    FirstIs(MetadataLine, [HEADER, text] + lines, 0, |[HEADER, text] + lines|, 0);
  }

  lemma ReadSetLines(lines: seq<string>, key: string, value: string)
    requires PlainKey(key) && SingleLine(value)
    ensures ReadLines(SetLines(lines, key, value), key) == Some(value)
  {
    hide FieldText, FieldLine, MetadataLine, Outside, Indent, PlainKey, SingleLine, First, Found, Edit;
    var m := MetadataIndex(lines);
    var indent := if m == |lines| then 0 else Indent(lines[m]);
    var text := FieldText(indent + 2, key, value);
    TextFits(indent, key, value);
    FieldTextIsField(indent + 2, key, value);
    if m == |lines| {
      HeaderOnTop(lines, text);
      HeaderFound(OutsideOf(indent), FieldOf(indent + 2, key), lines, HEADER, text);
    } else {
      EditAbove(OutsideOf(indent), FieldOf(indent + 2, key), MetadataLine, lines, m, text);
      EditFound(OutsideOf(indent), FieldOf(indent + 2, key), lines, m + 1, text);
    }
  }

  lemma SetSetLines(lines: seq<string>, key: string, first: string, second: string)
    requires PlainKey(key) && SingleLine(first)
    ensures SetLines(SetLines(lines, key, first), key, second) == SetLines(lines, key, second)
  {
    hide FieldText, FieldLine, MetadataLine, Outside, Indent, PlainKey, SingleLine, First, Found, Edit;
    var m := MetadataIndex(lines);
    var indent := if m == |lines| then 0 else Indent(lines[m]);
    var text, text' := FieldText(indent + 2, key, first), FieldText(indent + 2, key, second);
    TextFits(indent, key, first);
    if m == |lines| {
      HeaderOnTop(lines, text);
      HeaderEdit(OutsideOf(indent), FieldOf(indent + 2, key), lines, HEADER, text, text');
    } else {
      EditAbove(OutsideOf(indent), FieldOf(indent + 2, key), MetadataLine, lines, m, text);
      EditEdit(OutsideOf(indent), FieldOf(indent + 2, key), lines, m + 1, text, text');
    }
  }

  lemma OtherKeyBlock(lines: seq<string>, key: string, value: string, other: string)
    requires PlainKey(key) && SingleLine(value) && PlainKey(other) && other != key && HasBlock(lines)
    ensures ReadLines(SetLines(lines, key, value), other) == ReadLines(lines, other)
  {
    hide FieldText, FieldLine, FieldOf, OutsideOf, MetadataLine, Outside;
    hide Indent, PlainKey, SingleLine, First, Found, Edit;
    var m := MetadataIndex(lines);
    var indent := Indent(lines[m]);
    var text := FieldText(indent + 2, key, value);
    TextFits(indent, key, value);
    KeysApart(indent + 2, key, other);
    EditAbove(OutsideOf(indent), FieldOf(indent + 2, key), MetadataLine, lines, m, text);
    EditOther(OutsideOf(indent), FieldOf(indent + 2, key), FieldOf(indent + 2, other), lines, m + 1, text);
  }

  /** Setting one key leaves the reading of another alone, unless there was no metadata block and the text begins
      with a line that the new block takes in as its field: exactly then. */
  lemma OtherKeyLines(lines: seq<string>, key: string, value: string, other: string)
    requires PlainKey(key) && SingleLine(value) && PlainKey(other) && other != key
    ensures ReadLines(SetLines(lines, key, value), other) == ReadLines(lines, other) <==>
            HasBlock(lines) || !Captures(lines, other)
  {
    hide FieldText, FieldLine, FieldOf, OutsideOf, MetadataLine, Outside;
    hide Indent, PlainKey, SingleLine, First, Found, Edit;
    if HasBlock(lines) {
      OtherKeyBlock(lines, key, value, other);
    } else {
      var text := FieldText(2, key, value);
      TextFits(0, key, value);
      KeysApart(2, key, other);
      HeaderOnTop(lines, text);
      HeaderOther(OutsideOf(0), FieldOf(2, other), lines, HEADER, text);
    }
  }

  // ---------------------------------------------------------------- from lines back to text

  /** No carriage return is left once line ends are normalised. */
  predicate Clean(text: string) { '\r' !in Normalize(text) }

  lemma {:induction false} NormalizePlain(text: string)
    requires '\r' !in text
    ensures Normalize(text) == text
  {
    if text != [] {
      NormalizePlain(text[1..]);
    }
  }

  predicate PlainLine(line: string) { '\r' !in line && '\n' !in line }

  lemma LinesJoined(lines: seq<string>)
    requires |lines| >= 1 && forall i :: 0 <= i < |lines| ==> PlainLine(lines[i])
    ensures Lines(Join(lines, '\n')) == lines && Clean(Join(lines, '\n'))
  {
    JoinLacks(lines, '\n', '\r');
    NormalizePlain(Join(lines, '\n'));
    SplitJoin(lines, '\n');
  }

  lemma SingleIsPlain(line: string)
    requires SingleLine(line)
    ensures PlainLine(line)
  {
    assert forall i :: 0 <= i < |line| ==> !LineTerminator(line[i]);
  }

  /** The text after setting consists of the edited lines. */
  lemma LinesOfSet(text: string, key: string, value: string)
    requires Clean(text) && PlainKey(key) && SingleLine(value)
    ensures Lines(Set(text, key, value)) == SetLines(Lines(text), key, value)
    ensures Clean(Set(text, key, value))
  {
    hide FieldText, FieldLine, MetadataLine, Outside, Indent, PlainKey, SingleLine, First, Split, Join, Normalize;
    var lines := Lines(text);
    SplitLacks(Normalize(text), '\n', '\r');
    assert forall i :: 0 <= i < |lines| ==> PlainLine(lines[i]);
    var m := MetadataIndex(lines);
    var after := SetLines(lines, key, value);
    var indent := if m == |lines| then 2 else Indent(lines[m]) + 2;
    FieldTextIsField(indent, key, value);
    SingleIsPlain(FieldText(indent, key, value));
    assert PlainLine(HEADER);
    forall i | 0 <= i < |after| ensures PlainLine(after[i]) {
      assert after[i] in lines || after[i] == FieldText(indent, key, value) || after[i] == HEADER;
    }
    LinesJoined(after);
  }

  // ---------------------------------------------------------------- the laws

  /** What was set is read back. */
  lemma GetSet(text: string, key: string, value: string)
    requires Clean(text) && PlainKey(key) && SingleLine(value)
    ensures Get(Set(text, key, value), key) == Some(value)
  {
    LinesOfSet(text, key, value);
    ReadSetLines(Lines(text), key, value);
  }

  /** A second set overwrites the first as if it had never happened. */
  lemma SetSet(text: string, key: string, first: string, second: string)
    requires Clean(text) && PlainKey(key) && SingleLine(first)
    ensures Set(Set(text, key, first), key, second) == Set(text, key, second)
  {
    LinesOfSet(text, key, first);
    SetSetLines(Lines(text), key, first, second);
  }

  /** Exactly when setting one key leaves the reading of another unchanged. */
  lemma GetOther(text: string, key: string, value: string, other: string)
    requires Clean(text) && PlainKey(key) && SingleLine(value) && PlainKey(other) && other != key
    ensures Get(Set(text, key, value), other) == Get(text, other) <==>
            HasBlock(Lines(text)) || !Captures(Lines(text), other)
  {
    LinesOfSet(text, key, value);
    OtherKeyLines(Lines(text), key, value, other);
  }

  /** The one line that changes: the first field line of the block, two deeper than the metadata line, or a new line at
      the end of the block; without a block, the second of two new lines on top. */
  ghost predicate ChangedAt(lines: seq<string>, key: string, p: nat, q: nat, indent: nat, top: seq<string>) {
    var m := MetadataIndex(lines);
    if m == |lines| then p == q == 0 && indent == 2 && top == [HEADER]
    else
      var end := First(OutsideOf(Indent(lines[m])), lines, m + 1, |lines|);
      && indent == Indent(lines[m]) + 2 && top == [] && m < p <= end
      && (forall i :: m < i < p ==> !FieldLine(indent, key, lines[i]))
      && (if p < end then q == p + 1 && FieldLine(indent, key, lines[p]) else q == p)
  }

  lemma LinesKept(lines: seq<string>, key: string, value: string)
    returns (p: nat, q: nat, indent: nat, top: seq<string>)
    ensures ChangedAt(lines, key, p, q, indent, top) && p <= q <= |lines|
    ensures SetLines(lines, key, value) == top + lines[..p] + [FieldText(indent, key, value)] + lines[q..]
  {
    hide FieldText, FieldLine, MetadataLine, Outside, Indent, First;
    var m := MetadataIndex(lines);
    if m == |lines| {
      p, q, indent, top := 0, 0, 2, [HEADER];
    } else {
      indent, top := Indent(lines[m]) + 2, [];
      var end := First(OutsideOf(Indent(lines[m])), lines, m + 1, |lines|);
      p := First(FieldOf(indent, key), lines, m + 1, end);
      forall i | m < i < p ensures !FieldLine(indent, key, lines[i]) {
        assert !FieldOf(indent, key)(lines[i]);
      }
      if p < end {
        q := p + 1;
        assert FieldOf(indent, key)(lines[p]);
      } else {
        q := p;
      }
    }
  }

  /** All other lines keep their text and their order, whatever the text. */
  lemma OtherLinesKept(text: string, key: string, value: string)
    returns (p: nat, q: nat, indent: nat, top: seq<string>)
    ensures ChangedAt(Lines(text), key, p, q, indent, top) && p <= q <= |Lines(text)|
    ensures var kept, line := Lines(text), FieldText(indent, key, value);
            && Set(text, key, value) == Join(top + kept[..p] + [line] + kept[q..], '\n')
            && (Clean(text) && PlainKey(key) && SingleLine(value) ==>
                Lines(Set(text, key, value)) == top + kept[..p] + [line] + kept[q..])
  {
    hide FieldText, PlainKey, SingleLine, Lines, Join, Clean, ChangedAt, SetLines;
    p, q, indent, top := LinesKept(Lines(text), key, value);
    if Clean(text) && PlainKey(key) && SingleLine(value) {
      LinesOfSet(text, key, value);
    }
  }

  // ---------------------------------------------------------------- name and namespace together

  /** The first two steps of filling in a manifest: blank fields are skipped. */
  function WithName(manifest: string, name: string, namespace: string): string {
    var trimmedName, trimmedNamespace := Trim(JsSpace, name), Trim(JsSpace, namespace);
    var named := if trimmedName != "" then Set(manifest, "name", trimmedName) else manifest;
    if trimmedNamespace != "" then Set(named, "namespace", trimmedNamespace) else named
  }

  /** Both values read back when both are given: setting the namespace does not disturb the name, whatever the text. */
  lemma BothReadBack(manifest: string, name: string, namespace: string)
    requires Clean(manifest) && SingleLine(Trim(JsSpace, name)) && SingleLine(Trim(JsSpace, namespace))
    requires !Blank(name) && !Blank(namespace)
    ensures Get(WithName(manifest, name, namespace), "name") == Some(Trim(JsSpace, name))
    ensures Get(WithName(manifest, name, namespace), "namespace") == Some(Trim(JsSpace, namespace))
  {
    hide FieldText, FieldLine, MetadataLine, Outside, Indent, SingleLine, Lines, Set, Clean, First, Found, Trim, Blank;
    var named := Set(manifest, "name", Trim(JsSpace, name));
    NotBlankTrims(name);
    NotBlankTrims(namespace);
    NamesArePlain();
    GetSet(manifest, "name", Trim(JsSpace, name));
    LinesOfSet(manifest, "name", Trim(JsSpace, name));
    GetSet(named, "namespace", Trim(JsSpace, namespace));
    GetOther(named, "namespace", Trim(JsSpace, namespace), "name");
    assert ReadLines(Lines(named), "name") != None;
    assert HasBlock(Lines(named));
  }

  lemma NamesArePlain()
    ensures PlainKey("name") && PlainKey("namespace") && "name" != "namespace"
  {
    assert |"name"| != |"namespace"|;
  }

  lemma NotBlankTrims(s: string)
    requires !Blank(s)
    ensures Trim(JsSpace, s) != ""
  {
    FrontStays(TrimLeft(JsSpace, s));
  }

  lemma {:induction false} FrontStays(s: string)
    requires s != "" && !JsSpace(s[0])
    ensures TrimRight(JsSpace, s) != ""
  {
    if JsSpace(s[|s| - 1]) {
      FrontStays(s[..|s| - 1]);
    }
  }
}
