/** The other laws of the metadata editor for any text at all, stray carriage returns included. */
module ManifestLaws {
  import opened Text
  import opened Wrappers
  import opened ManifestMetadata
  import opened ManifestReturns

  /** Reading back the lines of an edited text strips all but the last of them. */
  lemma LinesOfAnySet(text: string, key: string, value: string)
    requires PlainKey(key) && SingleLine(value)
    ensures Lines(Set(text, key, value)) == StripAll(SetLines(Lines(text), key, value))
  {
    hide PlainKey, SingleLine, StripAll, Join, SetLines, Normalize;
    LinesUnbroken(text);
    SetUnbroken(Lines(text), key, value);
    LinesStripped(SetLines(Lines(text), key, value));
  }

  lemma LinesUnbroken(text: string)
    ensures forall i :: 0 <= i < |Lines(text)| ==> '\n' !in Lines(text)[i]
  {
    hide Split, Normalize;
  }

  // ---------------------------------------------------------------- setting twice

  /** No line but the last ends in a carriage return. */
  predicate Settled(lines: seq<string>) {
    forall i :: 0 <= i < |lines| - 1 ==> Stripped(lines[i]) == lines[i]
  }

  lemma SettledStays(lines: seq<string>)
    ensures Settled(lines) <==> StripAll(lines) == lines
  {
    hide Stripped;
    if StripAll(lines) == lines {
      assert forall i :: 0 <= i < |lines| - 1 ==> StripAll(lines)[i] == Stripped(lines[i]);
    }
  }

  /** Two edits of the same place give the same lines but for that place. */
  lemma SecondText(
    outside: string -> bool, field: string -> bool, lines: seq<string>, from: nat, first: string, second: string)
    requires from <= |lines| && field(first) && !outside(first)
    ensures var f := First(field, lines, from, First(outside, lines, from, |lines|));
            var after := Edit(outside, field, lines, from, first);
            f < |after| && after[f] == first && Edit(outside, field, lines, from, second) == after[f := second]
  {
    hide First;
    EditLayout(outside, field, lines, from, first);
  }

  /** A test that does not see a carriage return at the end of a line. */
  ghost predicate Blind(test: string -> bool) {
    forall line :: test(Stripped(line)) == test(line)
  }

  lemma FirstBlind(test: string -> bool, lines: seq<string>, from: nat)
    requires from <= |lines| && Blind(test)
    ensures First(test, StripAll(lines), from, |lines|) == First(test, lines, from, |lines|)
  {
    hide First, Stripped;
    var i := First(test, lines, from, |lines|);
    assert forall j :: 0 <= j < |lines| ==> test(StripAll(lines)[j]) == test(lines[j]);
    FirstIs(test, StripAll(lines), from, |lines|, i);
  }

  /** An edit after stripping meets the line of the edit before, or a line above it that has become a field. */
  lemma EditStripped(
    outside: string -> bool, field: string -> bool, lines: seq<string>, from: nat, first: string, second: string)
    requires from <= |lines| && field(first) && !outside(first) && Stripped(first) == first && Blind(outside)
    ensures var stripped := StripAll(Edit(outside, field, lines, from, first));
            var f := First(field, lines, from, First(outside, lines, from, |lines|));
            var g := First(field, AllStripped(lines), from, f);
            f < |stripped| && Edit(outside, field, stripped, from, second) == stripped[g := second]
  {
    hide First, Stripped, StripAll, Blind;
    var after := Edit(outside, field, lines, from, first);
    EditLayout(outside, field, lines, from, first);
    FieldAfterStrip(outside, field, lines, from, first);
    FirstBlind(outside, after, from);
  }

  lemma TwiceInBlock(
    outside: string -> bool, field: string -> bool, lines: seq<string>, from: nat, first: string, second: string)
    requires from <= |lines| && field(first) && !outside(first) && Blind(outside)
    requires Stripped(first) == first && Stripped(second) == second
    ensures var after := Edit(outside, field, lines, from, first);
            |StripAll(after)| >= from &&
            (Edit(outside, field, StripAll(after), from, second) == Edit(outside, field, lines, from, second) <==>
             Settled(after))
  {
    hide First, Edit, Stripped, StripAll, Settled, Blind;
    var after := Edit(outside, field, lines, from, first);
    SettledStays(after);
    EditStripped(outside, field, lines, from, first, second);
    if Settled(after) {
      EditEdit(outside, field, lines, from, first, second);
    } else {
      SecondText(outside, field, lines, from, first, second);
      var f := First(field, lines, from, First(outside, lines, from, |lines|));
      TwiceUnsettled(after, f, First(field, AllStripped(lines), from, f), first, second);
    }
  }

  lemma TwiceUnsettled(after: seq<string>, f: nat, g: nat, first: string, second: string)
    requires f < |after| && g < |after| && after[f] == first && !Settled(after)
    requires Stripped(first) == first && Stripped(second) == second
    ensures StripAll(after)[g := second] != after[f := second]
  {
    hide Stripped;
    var i :| 0 <= i < |after| - 1 && Stripped(after[i]) != after[i];
    assert StripAll(after)[g := second][i] == if i == g then second else Stripped(after[i]);
    assert after[f := second][i] == after[i];
  }

  /** The same where the first edit puts a block on top. */
  lemma TwiceOnTop(
    outside: string -> bool, field: string -> bool, lines: seq<string>, header: string, first: string, second: string)
    requires field(first) && !outside(first)
    requires Stripped(header) == header && Stripped(first) == first && Stripped(second) == second
    ensures var after := [header, first] + lines;
            Edit(outside, field, StripAll(after), 1, second) == [header, second] + lines <==> Settled(after)
  {
    hide First, Edit, Stripped, Settled;
    var after := [header, first] + lines;
    SettledStays(after);
    var rest := StripAll(after)[2..];
    assert after[0] == header && after[1] == first;
    if lines == [] {
      assert StripAll(after) == [header, first] + rest;
    } else {
      assert StripAll(after)[1] == first;
      assert StripAll(after) == [header, first] + rest;
    }
    HeaderEdit(outside, field, rest, header, first, second);
    if Settled(after) {
      assert rest == lines;
    } else {
      TwiceUnsettled(after, 1, 1, first, second);
      assert StripAll(after)[1 := second] == [header, second] + rest;
      assert after[1 := second] == [header, second] + lines;
    }
  }

  lemma OutsideIsBlind(indent: nat)
    ensures Blind(OutsideOf(indent))
  {
    hide OutsideOf, Stripped;
    forall line ensures OutsideOf(indent)(Stripped(line)) == OutsideOf(indent)(line) {
      SameShape(line, indent);
    }
  }

  lemma HeaderIsStripped()
    ensures Stripped(HEADER) == HEADER
  {
    assert HEADER[|HEADER| - 1] == ':';
  }

  lemma TextIsStripped(indent: nat, key: string, value: string)
    requires PlainKey(key) && SingleLine(value)
    ensures Stripped(FieldText(indent, key, value)) == FieldText(indent, key, value)
  {
    hide FieldText, PlainKey, SingleLine, Stripped;
    FieldTextIsField(indent, key, value);
    SingleNotStripped(FieldText(indent, key, value));
  }

  lemma SetLinesTwiceOnTop(lines: seq<string>, key: string, first: string, second: string)
    requires PlainKey(key) && SingleLine(first) && SingleLine(second) && !HasBlock(lines)
    ensures var after := SetLines(lines, key, first);
            SetLines(StripAll(after), key, second) == SetLines(lines, key, second) <==> Settled(after)
  {
    hide FieldText, FieldLine, MetadataLine, Outside, Indent, PlainKey, SingleLine, First, Edit;
    hide Stripped, Settled, Blind, OutsideOf, FieldOf;
    var text, text' := FieldText(2, key, first), FieldText(2, key, second);
    TextFits(0, key, first);
    TextIsStripped(2, key, first);
    TextIsStripped(2, key, second);
    HeaderIsStripped();
    HeaderOnTop(lines, text);
    var after := [HEADER, text] + lines;
    assert SetLines(lines, key, first) == after && after[0] == HEADER;
    StripKeepsIndices(after, 0);
    var stripped := StripAll(after);
    assert MetadataIndex(stripped) == 0 < |stripped| && Indent(stripped[0]) == 0;
    assert SetLines(stripped, key, second) == Edit(OutsideOf(0), FieldOf(2, key), stripped, 1, text');
    TwiceOnTop(OutsideOf(0), FieldOf(2, key), lines, HEADER, text, text');
  }

  lemma SetLinesTwice(lines: seq<string>, key: string, first: string, second: string)
    requires PlainKey(key) && SingleLine(first) && SingleLine(second)
    ensures var after := SetLines(lines, key, first);
            SetLines(StripAll(after), key, second) == SetLines(lines, key, second) <==> Settled(after)
  {
    hide FieldText, FieldLine, MetadataLine, Outside, Indent, PlainKey, SingleLine, First, Edit;
    hide Stripped, StripAll, Settled, Blind, OutsideOf, FieldOf;
    var m := MetadataIndex(lines);
    if m == |lines| {
      SetLinesTwiceOnTop(lines, key, first, second);
    } else {
      var indent := Indent(lines[m]);
      var text, text' := FieldText(indent + 2, key, first), FieldText(indent + 2, key, second);
      TextFits(indent, key, first);
      TextIsStripped(indent + 2, key, first);
      TextIsStripped(indent + 2, key, second);
      OutsideIsBlind(indent);
      StripKeepsIndices(SetLines(lines, key, first), indent);
      EditAbove(OutsideOf(indent), FieldOf(indent + 2, key), MetadataLine, lines, m, text);
      TwiceInBlock(OutsideOf(indent), FieldOf(indent + 2, key), lines, m + 1, text, text');
    }
  }

  /** The first metadata block has a field of the key. */
  predicate HasField(lines: seq<string>, key: string) {
    var m := MetadataIndex(lines);
    m < |lines| && FieldAt(lines, m, key) < First(OutsideOf(Indent(lines[m])), lines, m + 1, |lines|)
  }

  /** The place of the line that is replaced, or in front of which one is added. */
  function EditPlace(lines: seq<string>, key: string): (f: nat)
    ensures f <= |lines|
  {
    var m := MetadataIndex(lines);
    if m == |lines| then 0 else FieldAt(lines, m, key)
  }

  /** A line that stays, and stays in front of another, ends in a carriage return. */
  predicate StrayElsewhere(lines: seq<string>, key: string) {
    exists i :: 0 <= i < |lines| && Stripped(lines[i]) != lines[i] &&
      (HasField(lines, key) ==> i != EditPlace(lines, key))
                && (i < |lines| - 1 || EditPlace(lines, key) == |lines|)
  }

  lemma EditSettled(lines: seq<string>, after: seq<string>, f: nat, replaced: bool, text: string)
    requires f <= |lines| && (replaced ==> f < |lines|) && Stripped(text) == text
    requires after == if replaced then lines[f := text] else lines[..f] + [text] + lines[f..]
    ensures !Settled(after) <==>
            exists i :: 0 <= i < |lines| && Stripped(lines[i]) != lines[i] && (replaced ==> i != f)
                        && (i < |lines| - 1 || f == |lines|)
  {
    hide Stripped;
    if i :| 0 <= i < |lines| && Stripped(lines[i]) != lines[i] && (replaced ==> i != f) &&
            (i < |lines| - 1 || f == |lines|) {
      assert after[if replaced || i < f then i else i + 1] == lines[i];
    }
    if !Settled(after) {
      var k :| 0 <= k < |after| - 1 && Stripped(after[k]) != after[k];
      var i := if replaced || k < f then k else k - 1;
      assert k != f && after[k] == lines[i];
    }
  }

  lemma TopSettled(lines: seq<string>, text: string)
    requires Stripped(text) == text && |lines| >= 1
    ensures !Settled([HEADER, text] + lines) <==>
            exists i :: 0 <= i < |lines| && Stripped(lines[i]) != lines[i] && i < |lines| - 1
  {
    hide Stripped;
    HeaderIsStripped();
    var after := [HEADER, text] + lines;
    if i :| 0 <= i < |lines| && Stripped(lines[i]) != lines[i] && i < |lines| - 1 {
      assert after[i + 2] == lines[i];
    }
    if !Settled(after) {
      var k :| 0 <= k < |after| - 1 && Stripped(after[k]) != after[k];
      assert k >= 2 && after[k] == lines[k - 2];
    }
  }

  lemma SettledAfterSet(lines: seq<string>, key: string, value: string)
    requires PlainKey(key) && SingleLine(value) && |lines| >= 1
    ensures Settled(SetLines(lines, key, value)) <==> !StrayElsewhere(lines, key)
  {
    hide FieldText, FieldLine, MetadataLine, Outside, Indent, PlainKey, SingleLine, First, Stripped, Settled;
    hide OutsideOf, FieldOf;
    var m, after := MetadataIndex(lines), SetLines(lines, key, value);
    var indent := if m == |lines| then 0 else Indent(lines[m]);
    var text := FieldText(indent + 2, key, value);
    TextIsStripped(indent + 2, key, value);
    if m == |lines| {
      TopSettled(lines, text);
    } else {
      EditSettled(lines, after, EditPlace(lines, key), HasField(lines, key), text);
    }
  }

  lemma JoinedLinesEqual(a: seq<string>, b: seq<string>)
    requires |a| >= 1 && |b| >= 1
    requires forall i :: 0 <= i < |a| ==> '\n' !in a[i]
    requires forall i :: 0 <= i < |b| ==> '\n' !in b[i]
    ensures Join(a, '\n') == Join(b, '\n') <==> a == b
  {
    hide Join, Split;
    SplitJoin(a, '\n');
    SplitJoin(b, '\n');
  }

  /** The second set overwrites the first as if it had never happened precisely when no line that stays, and stays in
      front of another, ends in a carriage return. */
  lemma SetSetExactly(text: string, key: string, first: string, second: string)
    requires PlainKey(key) && SingleLine(first) && SingleLine(second)
    ensures Set(Set(text, key, first), key, second) == Set(text, key, second) <==> !StrayElsewhere(Lines(text), key)
  {
    hide PlainKey, SingleLine, StripAll, Join, SetLines, Normalize, Split, Settled, StrayElsewhere;
    var lines := Lines(text);
    var after := SetLines(lines, key, first);
    LinesOfAnySet(text, key, first);
    LinesUnbroken(text);
    LinesUnbroken(Set(text, key, first));
    SetUnbroken(lines, key, second);
    SetUnbroken(StripAll(after), key, second);
    JoinedLinesEqual(SetLines(StripAll(after), key, second), SetLines(lines, key, second));
    SetLinesTwice(lines, key, first, second);
    SettledAfterSet(lines, key, first);
  }

  /** Where reading back fails, setting twice does too. */
  lemma HiddenIsStray(lines: seq<string>, key: string)
    requires Hidden(lines, key)
    ensures StrayElsewhere(lines, key)
  {
    hide FieldLine, MetadataLine, Outside, Indent, First, Stripped;
    var m := MetadataIndex(lines);
    var g, f := HiddenAt(lines, m, key), FieldAt(lines, m, key);
    assert FieldOf(Indent(lines[m]) + 2, key)(AllStripped(lines)[g]) && !FieldOf(Indent(lines[m]) + 2, key)(lines[g]);
    assert Stripped(lines[g]) != lines[g] && g < f == EditPlace(lines, key);
  }

  /** In such a text the value set first can be told from the one set second. */
  lemma CarriageReturnRemembers(first: string, second: string)
    requires SingleLine(first) && SingleLine(second)
    ensures var text := "metadata:\n  a:x\r\r\n"; Set(Set(text, "a", first), "a", second) != Set(text, "a", second)
  {
    hide SingleLine, Lines, Set, Hidden, StrayElsewhere;
    CarriageReturnHides();
    HiddenIsStray(Lines("metadata:\n  a:x\r\r\n"), "a");
    SetSetExactly("metadata:\n  a:x\r\r\n", "a", first, second);
  }

  // ---------------------------------------------------------------- another key

  /** The lines as an edit of the key and a stripping leave them, but for the line the edit writes. */
  function Beside(lines: seq<string>, key: string): (rest: seq<string>)
    ensures |rest| == |lines|
    ensures forall i :: 0 <= i < |lines| ==> rest[i] == lines[i] || rest[i] == Stripped(lines[i])
  {
    if EditPlace(lines, key) == |lines| then AllStripped(lines) else StripAll(lines)
  }

  /** What reading another key then gives: a new block takes in what follows it. */
  function ReadBeside(lines: seq<string>, key: string, other: string): Option<string> {
    if HasBlock(lines) then ReadLines(Beside(lines, key), other)
    else
      match Found(OutsideOf(0), FieldOf(2, other), Beside(lines, key), 0)
      case None => None
      case Some(line) => Some(ValueOf(line[2 + |other| + 1..]))
  }

  lemma FieldPrefixStays(indent: nat, key: string, line: string)
    requires FieldLine(indent, key, line)
    ensures indent <= |Stripped(line)| && HasPrefix(Stripped(line)[indent..], key + ":")
  {
    var rest, short := line[indent..], Stripped(line);
    assert rest[..|key| + 1] == key + ":";
    assert rest[|key|] == (key + ":")[|key|] == ':' && line[indent + |key|] == ':';
    assert indent + |key| < |short| && short <= line;
    assert short[indent..][..|key| + 1] == rest[..|key| + 1];
  }

  lemma StrippedApart(indent: nat, key: string, other: string, line: string)
    requires PlainKey(key) && PlainKey(other) && other != key && FieldOf(indent, key)(line)
    ensures !FieldOf(indent, other)(Stripped(line))
  {
    hide Stripped, SingleLine, PlainKey;
    FieldPrefixStays(indent, key, line);
    if FieldLine(indent, other, Stripped(line)) {
      KeysDecoded(Stripped(line)[indent..], key, other);
    }
  }

  lemma FoundReplaced(
    outside: string -> bool, other: string -> bool, rest: seq<string>, from: nat, f: nat, text: string)
    requires from <= f < |rest| && !outside(text) && !other(text) && !outside(rest[f]) && !other(rest[f])
    ensures Found(outside, other, rest[f := text], from) == Found(outside, other, rest, from)
  {
    hide First;
    var after := rest[f := text];
    var end := First(outside, rest, from, |rest|);
    var g := First(other, rest, from, end);
    FirstIs(outside, after, from, |after|, end);
    FirstIs(other, after, from, end, g);
  }

  lemma FoundInserted(
    outside: string -> bool, other: string -> bool, rest: seq<string>, from: nat, f: nat, text: string)
    requires from <= f <= |rest| && !outside(text) && !other(text) && f == First(outside, rest, from, |rest|)
    ensures Found(outside, other, rest[..f] + [text] + rest[f..], from) == Found(outside, other, rest, from)
  {
    hide First;
    var after := rest[..f] + [text] + rest[f..];
    var g := First(other, rest, from, f);
    assert after[f] == text && forall j :: 0 <= j < f ==> after[j] == rest[j];
    assert f < |rest| ==> after[f + 1] == rest[f];
    FirstIs(outside, after, from, |after|, f + 1);
    FirstIs(other, after, from, f + 1, if g < f then g else f + 1);
  }

  /** A line that is no field of the other key may be replaced, or added at the end of the block. */
  lemma FoundBeside(
    outside: string -> bool, other: string -> bool, rest: seq<string>, from: nat, f: nat, replaced: bool, text: string)
    requires from <= f <= |rest| && !outside(text) && !other(text)
    requires if replaced then f < |rest| && !outside(rest[f]) && !other(rest[f])
             else f == First(outside, rest, from, |rest|)
    ensures var after := if replaced then rest[f := text] else rest[..f] + [text] + rest[f..];
            Found(outside, other, after, from) == Found(outside, other, rest, from)
  {
    hide First, Found;
    if replaced {
      FoundReplaced(outside, other, rest, from, f, text);
    } else {
      FoundInserted(outside, other, rest, from, f, text);
    }
  }

  lemma StripEdit(lines: seq<string>, f: nat, replaced: bool, text: string)
    requires f <= |lines| && (replaced ==> f < |lines|) && Stripped(text) == text
    ensures var rest := if f == |lines| then AllStripped(lines) else StripAll(lines);
            StripAll(if replaced then lines[f := text] else lines[..f] + [text] + lines[f..]) ==
            if replaced then rest[f := text] else rest[..f] + [text] + rest[f..]
  {
    hide Stripped;
    var rest := if f == |lines| then AllStripped(lines) else StripAll(lines);
    if replaced {
      assert StripAll(lines[f := text]) == rest[f := text];
    } else {
      StripInsert(lines, rest, f, text);
    }
  }

  lemma StripInsert(lines: seq<string>, rest: seq<string>, f: nat, text: string)
    requires f <= |lines| && Stripped(text) == text && rest == if f == |lines| then AllStripped(lines)
             else StripAll(lines)
    ensures StripAll(lines[..f] + [text] + lines[f..]) == rest[..f] + [text] + rest[f..]
  {
    hide Stripped;
    var after := lines[..f] + [text] + lines[f..];
    forall i | 0 <= i < |after| ensures StripAll(after)[i] == (rest[..f] + [text] + rest[f..])[i] {
      if i < f {
        assert after[i] == lines[i];
      } else if i > f {
        assert after[i] == lines[i - 1];
      }
    }
  }

  lemma BesideBlock(lines: seq<string>, key: string, indent: nat)
    ensures MetadataIndex(Beside(lines, key)) == MetadataIndex(lines)
    ensures forall from :: 0 <= from <= |lines| ==>
              First(OutsideOf(indent), Beside(lines, key), from, |lines|) ==
                First(OutsideOf(indent), lines, from, |lines|)
    ensures var m := MetadataIndex(lines); m < |lines| ==> Indent(Beside(lines, key)[m]) == Indent(lines[m])
  {
    hide MetadataLine, OutsideOf, Indent, ManifestMetadata.Blank, Stripped, First, Beside;
    var rest := Beside(lines, key);
    forall i | 0 <= i < |lines|
      ensures MetadataLine(rest[i]) == MetadataLine(lines[i]) &&
              OutsideOf(indent)(rest[i]) == OutsideOf(indent)(lines[i])
    {
      SameShape(lines[i], indent);
    }
    var m := MetadataIndex(lines);
    FirstIs(MetadataLine, rest, 0, |lines|, m);
    forall from | 0 <= from <= |lines|
      ensures First(OutsideOf(indent), rest, from, |lines|) == First(OutsideOf(indent), lines, from, |lines|)
    {
      FirstIs(OutsideOf(indent), rest, from, |lines|, First(OutsideOf(indent), lines, from, |lines|));
    }
    if m < |lines| {
      SameShape(lines[m], indent);
      MetadataNotBlank(lines[m]);
    }
  }

  lemma FoundOther(lines: seq<string>, key: string, value: string, other: string)
    requires PlainKey(key) && SingleLine(value) && PlainKey(other) && other != key && HasBlock(lines)
    ensures var m, stripped := MetadataIndex(lines), StripAll(SetLines(lines, key, value));
            var indent := Indent(lines[m]);
            m < |stripped| && Found(OutsideOf(indent), FieldOf(indent + 2, other), stripped, m + 1) ==
                              Found(OutsideOf(indent), FieldOf(indent + 2, other), Beside(lines, key), m + 1)
  {
    hide FieldText, Indent, PlainKey, SingleLine, First, Stripped, StripAll, OutsideOf, FieldOf;
    hide Beside, AllStripped, Found, Edit, MetadataIndex;
    var m := MetadataIndex(lines);
    var indent := Indent(lines[m]);
    var text := FieldText(indent + 2, key, value);
    TextFits(indent, key, value);
    TextIsStripped(indent + 2, key, value);
    KeysApart(indent + 2, key, other);
    BesideBlock(lines, key, indent);
    StripEditBeside(lines, key, text);
    if HasField(lines, key) {
      FieldStaysBeside(lines, key, other);
    }
    FoundBeside(OutsideOf(indent), FieldOf(indent + 2, other), Beside(lines, key), m + 1,
                EditPlace(lines, key), HasField(lines, key), text);
  }

  lemma SameBlock(lines: seq<string>, key: string, value: string)
    requires PlainKey(key) && SingleLine(value) && HasBlock(lines)
    ensures var m, stripped := MetadataIndex(lines), StripAll(SetLines(lines, key, value));
            MetadataIndex(stripped) == m < |stripped| && Indent(stripped[m]) == Indent(lines[m])
  {
    hide FieldText, MetadataLine, Indent, PlainKey, SingleLine, First, Stripped, OutsideOf, FieldOf, Edit;
    var m := MetadataIndex(lines);
    var indent := Indent(lines[m]);
    EditAbove(OutsideOf(indent), FieldOf(indent + 2, key), MetadataLine, lines, m, FieldText(indent + 2, key, value));
    StripKeepsIndices(SetLines(lines, key, value), indent);
  }

  lemma OtherInBlock(lines: seq<string>, key: string, value: string, other: string)
    requires PlainKey(key) && SingleLine(value) && PlainKey(other) && other != key && HasBlock(lines)
    ensures ReadLines(StripAll(SetLines(lines, key, value)), other) == ReadLines(Beside(lines, key), other)
  {
    hide Indent, PlainKey, SingleLine, StripAll, OutsideOf, FieldOf, Beside, Found, MetadataIndex, SetLines;
    FoundOther(lines, key, value, other);
    SameBlock(lines, key, value);
    BesideBlock(lines, key, Indent(lines[MetadataIndex(lines)]));
  }

  lemma StripEditBeside(lines: seq<string>, key: string, text: string)
    requires Stripped(text) == text && HasBlock(lines)
    ensures var m := MetadataIndex(lines);
            var f, rest := EditPlace(lines, key), Beside(lines, key);
            StripAll(Edit(OutsideOf(Indent(lines[m])), FieldOf(Indent(lines[m]) + 2, key), lines, m + 1, text)) ==
            if HasField(lines, key) then rest[f := text] else rest[..f] + [text] + rest[f..]
  {
    hide Stripped, StripAll, AllStripped, First, OutsideOf, FieldOf, MetadataLine, Indent;
    StripEdit(lines, EditPlace(lines, key), HasField(lines, key), text);
  }

  lemma FieldStaysBeside(lines: seq<string>, key: string, other: string)
    requires PlainKey(key) && PlainKey(other) && other != key && HasField(lines, key)
    ensures var m, f := MetadataIndex(lines), EditPlace(lines, key);
            var line, indent := Beside(lines, key)[f], Indent(lines[m]);
            !OutsideOf(indent)(line) && !FieldOf(indent + 2, other)(line)
  {
    hide Stripped, Indent, OutsideOf, FieldOf, Beside, PlainKey, MetadataLine;
    var m, f := MetadataIndex(lines), EditPlace(lines, key);
    var indent := Indent(lines[m]);
    assert FieldOf(indent + 2, key)(lines[f]) && !OutsideOf(indent)(lines[f]);
    SameShape(lines[f], indent);
    StrippedApart(indent + 2, key, other, lines[f]);
    KeysApart(indent + 2, key, other);
  }

  lemma OtherOnTop(lines: seq<string>, key: string, value: string, other: string)
    requires PlainKey(key) && SingleLine(value) && PlainKey(other) && other != key && !HasBlock(lines) && |lines| >= 1
    ensures ReadLines(StripAll(SetLines(lines, key, value)), other) == ReadBeside(lines, key, other)
  {
    hide FieldText, FieldLine, MetadataLine, Outside, Indent, PlainKey, SingleLine, First, Stripped, OutsideOf, Found;
    var text, after := FieldText(2, key, value), SetLines(lines, key, value);
    TextFits(0, key, value);
    TextIsStripped(2, key, value);
    KeysApart(2, key, other);
    HeaderIsStripped();
    HeaderOnTop(lines, text);
    assert after == [HEADER, text] + lines && after[0] == HEADER;
    StripKeepsIndices(after, 0);
    assert StripAll(after) == [HEADER, text] + StripAll(lines) && Beside(lines, key) == StripAll(lines);
    HeaderOther(OutsideOf(0), FieldOf(2, other), StripAll(lines), HEADER, text);
  }

  /** What another key reads as after setting one, for any text: what it reads as once carriage returns at line ends are
      gone. Whether that is what it was does not depend on the value set. */
  lemma GetOtherAfterSet(text: string, key: string, value: string, other: string)
    requires PlainKey(key) && SingleLine(value) && PlainKey(other) && other != key
    ensures Get(Set(text, key, value), other) == ReadBeside(Lines(text), key, other)
  {
    hide PlainKey, SingleLine, StripAll, SetLines, ReadLines, Beside, MetadataIndex, Set;
    LinesOfAnySet(text, key, value);
    if HasBlock(Lines(text)) {
      OtherInBlock(Lines(text), key, value, other);
    } else {
      OtherOnTop(Lines(text), key, value, other);
    }
  }

  // ---------------------------------------------------------------- name and namespace

  /** What both fields read as when both are filled in, for any text. */
  lemma BothAfterSet(manifest: string, name: string, namespace: string)
    requires SingleLine(Trim(JsSpace, name)) && SingleLine(Trim(JsSpace, namespace))
    requires !ManifestMetadata.Blank(name) && !ManifestMetadata.Blank(namespace)
    ensures var trimmed, filled := Trim(JsSpace, namespace), WithName(manifest, name, namespace);
            var lines := Lines(Set(manifest, "name", Trim(JsSpace, name)));
            && Get(filled, "name") == ReadBeside(lines, "namespace", "name")
            && (Get(filled, "namespace") == Some(trimmed) <==>
                !Hidden(lines, "namespace") || HiddenValue(lines, "namespace") == trimmed)
  {
    hide SingleLine, Lines, Set, Get, ReadBeside, Trim, ManifestMetadata.Blank, Hidden, HiddenValue, PlainKey;
    NotBlankTrims(name);
    NotBlankTrims(namespace);
    NamesArePlain();
    var named := Set(manifest, "name", Trim(JsSpace, name));
    GetAfterSet(named, "namespace", Trim(JsSpace, namespace));
    GetOtherAfterSet(named, "namespace", Trim(JsSpace, namespace), "name");
  }
}
