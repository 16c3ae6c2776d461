/** Carriage returns that belong to no line end: exactly when reading back what was set still works. */
module ManifestReturns {
  import opened Text
  import opened Wrappers
  import opened ManifestMetadata

  // ---------------------------------------------------------------- what a second normalisation does

  /** The line without a carriage return at its end. */
  function Stripped(line: string): string {
    if line != "" && line[|line| - 1] == '\r' then line[..|line| - 1] else line
  }

  /** Normalising joined lines strips each of them but the last. */
  function StripAll(lines: seq<string>): seq<string> {
    seq(|lines|, i requires 0 <= i < |lines| => if i < |lines| - 1 then Stripped(lines[i]) else lines[i])
  }

  lemma {:induction false} NormalizeUnbroken(line: string)
    requires '\n' !in line
    ensures Normalize(line) == line
  {
    if line != "" {
      NormalizeUnbroken(line[1..]);
    }
  }

  lemma {:induction false} NormalizeLine(line: string, rest: string)
    requires '\n' !in line
    ensures Normalize(line + ['\n'] + rest) == Stripped(line) + ['\n'] + Normalize(rest)
  {
    hide Normalize, Stripped;
    var text := line + ['\n'] + rest;
    if line == "" || line == "\r" {
      NormalizeBreak(line, rest);
    } else {
      var after := line[1..] + ['\n'] + rest;
      assert text == [line[0]] + after;
      assert after[0] == if |line| == 1 then '\n' else line[1];
      NormalizeChar(line[0], after);
      NormalizeLine(line[1..], rest);
      StrippedTail(line);
    }
  }

  lemma NormalizeBreak(line: string, rest: string)
    requires line == "" || line == "\r"
    ensures Normalize(line + ['\n'] + rest) == Stripped(line) + ['\n'] + Normalize(rest)
  {
    var text := line + ['\n'] + rest;
    assert text[|line| + 1..] == rest;
  }

  lemma NormalizeChar(c: char, rest: string)
    requires c != '\r' || rest == "" || rest[0] != '\n'
    ensures Normalize([c] + rest) == [c] + Normalize(rest)
  {
    assert ([c] + rest)[1..] == rest;
  }

  lemma StrippedTail(line: string)
    requires line != "" && line != "\r"
    ensures Stripped(line) == [line[0]] + Stripped(line[1..])
  {
    if |line| == 1 {
      assert line == [line[0]];
    }
  }

  lemma {:induction false} NormalizeJoined(lines: seq<string>)
    requires |lines| >= 1 && forall i :: 0 <= i < |lines| ==> '\n' !in lines[i]
    ensures Normalize(Join(lines, '\n')) == Join(StripAll(lines), '\n')
  {
    if |lines| == 1 {
      NormalizeUnbroken(lines[0]);
      assert StripAll(lines) == lines;
    } else {
      NormalizeJoined(lines[1..]);
      NormalizeLine(lines[0], Join(lines[1..], '\n'));
      assert StripAll(lines) == [Stripped(lines[0])] + StripAll(lines[1..]);
      JoinCons(Stripped(lines[0]), StripAll(lines[1..]), '\n');
    }
  }

  lemma LinesStripped(lines: seq<string>)
    requires |lines| >= 1 && forall i :: 0 <= i < |lines| ==> '\n' !in lines[i]
    ensures Lines(Join(lines, '\n')) == StripAll(lines)
  {
    hide Join, Split, Normalize;
    NormalizeJoined(lines);
    SplitJoin(StripAll(lines), '\n');
  }

  // ---------------------------------------------------------------- what stripping changes: only fields appear

  lemma {:induction false} TrimLeftStripped(line: string)
    ensures TrimLeft(JsSpace, line + "\r") == if TrimLeft(JsSpace, line) == "" then ""
            else TrimLeft(JsSpace, line) + "\r"
  {
    if line == "" {
      assert ("" + "\r")[1..] == "";
    } else {
      assert (line + "\r")[1..] == line[1..] + "\r";
      if JsSpace(line[0]) {
        TrimLeftStripped(line[1..]);
      }
    }
  }

  lemma TrimStripped(line: string)
    ensures Trim(JsSpace, line + "\r") == Trim(JsSpace, line)
  {
    TrimLeftStripped(line);
    var front := TrimLeft(JsSpace, line);
    if front != "" {
      assert (front + "\r")[..|front|] == front;
    }
  }

  lemma Unstripped(line: string)
    ensures line == Stripped(line) || line == Stripped(line) + "\r"
  {
  }

  lemma SameShape(line: string, indent: nat)
    ensures MetadataLine(Stripped(line)) == MetadataLine(line)
    ensures Blank(Stripped(line)) == Blank(line)
    ensures !Blank(line) ==> Indent(Stripped(line)) == Indent(line)
    ensures OutsideOf(indent)(Stripped(line)) == OutsideOf(indent)(line)
  {
    Unstripped(line);
    TrimStripped(Stripped(line));
    TrimLeftStripped(Stripped(line));
  }

  lemma MetadataNotBlank(line: string)
    requires MetadataLine(line)
    ensures !Blank(line)
  {
  }

  lemma SingleNotStripped(line: string)
    requires SingleLine(line)
    ensures Stripped(line) == line
  {
  }

  // ---------------------------------------------------------------- reading the stripped lines

  function AllStripped(lines: seq<string>): (stripped: seq<string>)
    ensures |stripped| == |lines|
  {
    seq(|lines|, i requires 0 <= i < |lines| => Stripped(lines[i]))
  }

  /** The field line of the block m, or the end of the block. */
  function FieldAt(lines: seq<string>, m: nat, key: string): (f: nat)
    requires m < |lines|
    ensures m < f <= |lines|
  {
    var indent := Indent(lines[m]);
    First(FieldOf(indent + 2, key), lines, m + 1, First(OutsideOf(indent), lines, m + 1, |lines|))
  }

  /** The first line above it that is a field once a carriage return at its end is gone, if there is one. */
  function HiddenAt(lines: seq<string>, m: nat, key: string): (g: nat)
    requires m < |lines|
    ensures m < g <= FieldAt(lines, m, key)
  {
    First(FieldOf(Indent(lines[m]) + 2, key), AllStripped(lines), m + 1, FieldAt(lines, m, key))
  }

  /** Some line of the first metadata block, above its field, ends in a carriage return and would be the field without
      it. */
  predicate Hidden(lines: seq<string>, key: string) {
    var m := MetadataIndex(lines);
    m < |lines| && HiddenAt(lines, m, key) < FieldAt(lines, m, key)
  }

  /** The value that line holds. */
  function HiddenValue(lines: seq<string>, key: string): string
    requires Hidden(lines, key)
  {
    var m := MetadataIndex(lines);
    var n := Indent(lines[m]) + 2 + |key| + 1;
    var line := Stripped(lines[HiddenAt(lines, m, key)]);
    if n <= |line| then ValueOf(line[n..]) else ""
  }

  lemma StripKeepsIndices(lines: seq<string>, indent: nat)
    ensures MetadataIndex(StripAll(lines)) == MetadataIndex(lines)
    ensures forall from :: 0 <= from <= |lines| ==>
              First(OutsideOf(indent), StripAll(lines), from, |lines|) == First(OutsideOf(indent), lines, from, |lines|)
    ensures MetadataIndex(lines) < |lines| ==>
            Indent(StripAll(lines)[MetadataIndex(lines)]) == Indent(lines[MetadataIndex(lines)])
  {
    hide MetadataLine, OutsideOf, Indent, Blank, Stripped, First;
    var stripped := StripAll(lines);
    forall i | 0 <= i < |lines|
      ensures MetadataLine(stripped[i]) == MetadataLine(lines[i]) &&
              OutsideOf(indent)(stripped[i]) == OutsideOf(indent)(lines[i])
    {
      SameShape(lines[i], indent);
    }
    var m := MetadataIndex(lines);
    FirstIs(MetadataLine, stripped, 0, |lines|, m);
    forall from | 0 <= from <= |lines|
      ensures First(OutsideOf(indent), stripped, from, |lines|) == First(OutsideOf(indent), lines, from, |lines|)
    {
      FirstIs(OutsideOf(indent), stripped, from, |lines|, First(OutsideOf(indent), lines, from, |lines|));
    }
    if m < |lines| {
      SameShape(lines[m], indent);
      MetadataNotBlank(lines[m]);
    }
  }

  lemma FieldAfterStrip(outside: string -> bool, field: string -> bool, lines: seq<string>, from: nat, text: string)
    requires from <= |lines| && field(text) && !outside(text) && Stripped(text) == text
    ensures var after := Edit(outside, field, lines, from, text);
            var stripped, f := StripAll(after), First(field, lines, from, First(outside, lines, from, |lines|));
            var end, g := First(outside, after, from, |after|), First(field, AllStripped(lines), from, f);
            && |stripped| == |after| && f < end <= |stripped|
            && First(field, stripped, from, end) == g
            && stripped[g] == if g < f then Stripped(lines[g]) else text
  {
    hide First;
    EditLayout(outside, field, lines, from, text);
    var after := Edit(outside, field, lines, from, text);
    var stripped, f := StripAll(after), First(field, lines, from, First(outside, lines, from, |lines|));
    var end, g := First(outside, after, from, |after|), First(field, AllStripped(lines), from, f);
    EditIsLonger(outside, field, lines, from, text);
    assert forall i :: from <= i < f ==> stripped[i] == AllStripped(lines)[i];
    assert stripped[f] == text;
    FirstIs(field, stripped, from, end, g);
  }

  lemma EditIsLonger(outside: string -> bool, field: string -> bool, lines: seq<string>, from: nat, text: string)
    requires from <= |lines| && field(text) && !outside(text)
    ensures var after := Edit(outside, field, lines, from, text);
            var f := First(field, lines, from, First(outside, lines, from, |lines|));
            f < |after| && f < First(outside, after, from, |after|) && forall i :: 0 <= i < f ==> after[i] == lines[i]
  {
    hide First;
    EditLayout(outside, field, lines, from, text);
  }

  /** The line a second reading finds for the key. */
  lemma FoundInBlock(lines: seq<string>, key: string, value: string)
    requires PlainKey(key) && SingleLine(value) && HasBlock(lines)
    ensures var m := MetadataIndex(lines);
            var indent, stripped := Indent(lines[m]), StripAll(SetLines(lines, key, value));
            && MetadataIndex(stripped) == m < |stripped| && Indent(stripped[m]) == indent
            && Found(OutsideOf(indent), FieldOf(indent + 2, key), stripped, m + 1) ==
               Some(if Hidden(lines, key) then Stripped(lines[HiddenAt(lines, m, key)])
                 else FieldText(indent + 2, key, value))
  {
    hide FieldText, FieldLine, MetadataLine, Outside, Indent, PlainKey, SingleLine;
    hide First, Edit, StripAll, Stripped, AllStripped, OutsideOf, FieldOf;
    var m := MetadataIndex(lines);
    var indent := Indent(lines[m]);
    var text := FieldText(indent + 2, key, value);
    TextFits(indent, key, value);
    FieldTextIsField(indent + 2, key, value);
    SingleNotStripped(text);
    EditAbove(OutsideOf(indent), FieldOf(indent + 2, key), MetadataLine, lines, m, text);
    FieldAfterStrip(OutsideOf(indent), FieldOf(indent + 2, key), lines, m + 1, text);
    StripKeepsIndices(SetLines(lines, key, value), indent);
  }

  lemma ReadInBlock(lines: seq<string>, key: string, value: string)
    requires PlainKey(key) && SingleLine(value) && HasBlock(lines)
    ensures ReadLines(StripAll(SetLines(lines, key, value)), key) ==
            Some(if Hidden(lines, key) then HiddenValue(lines, key) else value)
  {
    hide FieldText, Indent, PlainKey, SingleLine, Found, StripAll;
    hide Stripped, OutsideOf, FieldOf, SetLines, MetadataIndex, HiddenAt, FieldAt;
    FoundInBlock(lines, key, value);
    FieldTextIsField(Indent(lines[MetadataIndex(lines)]) + 2, key, value);
    if Hidden(lines, key) {
      HiddenIsField(lines, key);
    }
  }

  lemma HiddenIsField(lines: seq<string>, key: string)
    requires Hidden(lines, key) && PlainKey(key)
    ensures var m := MetadataIndex(lines);
            Indent(lines[m]) + 2 + |key| + 1 <= |Stripped(lines[HiddenAt(lines, m, key)])|
  {
    hide MetadataLine, Outside, Indent, Stripped, SingleLine;
    var m := MetadataIndex(lines);
    var indent, g := Indent(lines[m]) + 2, HiddenAt(lines, m, key);
    assert FieldOf(indent, key)(AllStripped(lines)[g]);
    assert FieldLine(indent, key, Stripped(lines[g]));
  }

  lemma ReadOnTop(lines: seq<string>, key: string, value: string)
    requires PlainKey(key) && SingleLine(value) && !HasBlock(lines) && |lines| >= 1
    ensures ReadLines(StripAll(SetLines(lines, key, value)), key) == Some(value)
  {
    hide FieldText, FieldLine, MetadataLine, Outside, Indent, PlainKey, SingleLine, First, Stripped, OutsideOf, FieldOf;
    var text := FieldText(2, key, value);
    TextFits(0, key, value);
    FieldTextIsField(2, key, value);
    SingleNotStripped(text);
    HeaderOnTop(lines, text);
    var after := [HEADER, text] + lines;
    assert SetLines(lines, key, value) == after;
    StripKeepsIndices(after, 0);
    var stripped := StripAll(after);
    assert stripped[1] == text;
    var end := First(OutsideOf(0), stripped, 1, |stripped|);
    FirstIs(FieldOf(2, key), stripped, 1, end, 1);
  }

  // ---------------------------------------------------------------- the exact law

  /** What setting a value and reading it back gives, for any text at all. */
  lemma GetAfterSet(text: string, key: string, value: string)
    requires PlainKey(key) && SingleLine(value)
    ensures Get(Set(text, key, value), key) ==
            Some(if Hidden(Lines(text), key) then HiddenValue(Lines(text), key) else value)
  {
    hide FieldText, PlainKey, SingleLine, Hidden, HiddenValue, ReadLines, StripAll, Join, First;
    var lines := Lines(text);
    var after := SetLines(lines, key, value);
    SetUnbroken(lines, key, value);
    LinesStripped(after);
    if HasBlock(lines) {
      ReadInBlock(lines, key, value);
    } else {
      NotHidden(lines, key);
      ReadOnTop(lines, key, value);
    }
  }

  lemma NotHidden(lines: seq<string>, key: string)
    requires !HasBlock(lines)
    ensures !Hidden(lines, key)
  {
  }

  lemma SetUnbroken(lines: seq<string>, key: string, value: string)
    requires PlainKey(key) && SingleLine(value) && forall i :: 0 <= i < |lines| ==> '\n' !in lines[i]
    ensures var after := SetLines(lines, key, value);
            |after| >= 1 && forall i :: 0 <= i < |after| ==> '\n' !in after[i]
  {
    hide FieldText, FieldLine, MetadataLine, Outside, Indent, PlainKey, SingleLine, First;
    var m := MetadataIndex(lines);
    var after := SetLines(lines, key, value);
    var indent := if m == |lines| then 2 else Indent(lines[m]) + 2;
    FieldTextIsField(indent, key, value);
    SingleIsPlain(FieldText(indent, key, value));
    assert PlainLine(HEADER);
    forall i | 0 <= i < |after| ensures '\n' !in after[i] {
      assert after[i] in lines || after[i] == FieldText(indent, key, value) || after[i] == HEADER;
    }
  }

  /** Whatever is set is read back precisely when no line of the block hides a field behind a carriage return. */
  lemma GetSetExactly(text: string, key: string)
    requires PlainKey(key)
    ensures (forall value :: SingleLine(value) ==> Get(Set(text, key, value), key) == Some(value)) <==>
            !Hidden(Lines(text), key)
  {
    hide Hidden, HiddenValue, Get, Set;
    forall value | SingleLine(value)
      ensures Get(Set(text, key, value), key) ==
              Some(if Hidden(Lines(text), key) then HiddenValue(Lines(text), key) else value)
    {
      GetAfterSet(text, key, value);
    }
    if Hidden(Lines(text), key) {
      var value := if HiddenValue(Lines(text), key) == "x" then "y" else "x";
      assert SingleLine(value);
      assert Get(Set(text, key, value), key) != Some(value);
    }
  }

  // ---------------------------------------------------------------- such a text

  lemma {:induction false} NormalizeWord(w: string, s: string)
    requires '\r' !in w
    ensures Normalize(w + s) == w + Normalize(s)
  {
    if w == [] {
      assert w + s == s;
    } else {
      assert (w + s)[1..] == w[1..] + s;
      NormalizeWord(w[1..], s);
    }
  }

  /** A carriage return that survives normalisation hides a field: what is set in front of it is not read back. */
  lemma CarriageReturnHides()
    ensures Hidden(Lines("metadata:\n  a:x\r\r\n"), "a")
  {
    hide Lines, Hidden;
    StrayLines();
    StrayHidden(["metadata:", "  a:x\r", ""]);
  }

  lemma StrayLines()
    ensures Lines("metadata:\n  a:x\r\r\n") == ["metadata:", "  a:x\r", ""]
  {
    hide Join, Split, Normalize;
    var front, tail: string := "metadata:\n  a:x", "\r\r\n";
    assert front + tail == "metadata:\n  a:x\r\r\n";
    NormalizeWord(front, tail);
    StrayTail(tail);
    StrayJoined(["metadata:", "  a:x\r", ""], front);
    SplitJoin(["metadata:", "  a:x\r", ""], '\n');
  }

  lemma StrayJoined(lines: seq<string>, front: string)
    requires lines == ["metadata:", "  a:x\r", ""] && front == "metadata:\n  a:x"
    ensures Join(lines, '\n') == front + "\r\n"
  {
    hide Join;
    JoinCons("  a:x\r", [""], '\n');
    JoinCons("metadata:", ["  a:x\r", ""], '\n');
    JoinLast("");
    assert ["  a:x\r"] + [""] == ["  a:x\r", ""] && ["metadata:"] + ["  a:x\r", ""] == lines;
    assert "metadata:" + ['\n'] + ("  a:x\r" + ['\n'] + "") == front + "\r\n";
  }

  lemma StrayTail(tail: string)
    requires tail == "\r\r\n"
    ensures Normalize(tail) == "\r\n"
  {
    assert tail[1..] == "\r\n" && tail[1..][2..] == [];
    assert Normalize(tail[1..]) == "\n";
  }

  lemma JoinLast(line: string)
    ensures Join([line], '\n') == line
  {
  }

  lemma StrayHidden(lines: seq<string>)
    requires lines == ["metadata:", "  a:x\r", ""]
    ensures Hidden(lines, "a")
  {
    hide MetadataLine, Outside, Indent, FieldLine, First;
    HeaderIsMetadata();
    FirstIs(MetadataLine, lines, 0, 3, 0);
    StrayOutside(lines);
    StrayField(lines);
    assert AllStripped(lines)[1] == "  a:x";
    FirstIs(FieldOf(2, "a"), AllStripped(lines), 1, 3, 1);
  }

  lemma StrayOutside(lines: seq<string>)
    requires lines == ["metadata:", "  a:x\r", ""]
    ensures First(OutsideOf(0), lines, 1, 3) == 3
  {
    IndentIs(lines[1], 2);
    FirstIs(OutsideOf(0), lines, 1, 3, 3);
  }

  lemma StrayField(lines: seq<string>)
    requires lines == ["metadata:", "  a:x\r", ""]
    ensures First(FieldOf(2, "a"), lines, 1, 3) == 3 && FieldOf(2, "a")("  a:x")
  {
    var line: string := "  a:x";
    assert lines[1][2 + 1 + 1..] == "x\r";
    assert LineTerminator(lines[1][2 + 1 + 1..][1]);
    FirstIs(FieldOf(2, "a"), lines, 1, 3, 3);
    assert line[2..][..2] == "a:" && line[2 + 1 + 1..] == "x";
  }
}
