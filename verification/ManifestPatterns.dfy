/** The tests of the metadata editor as the patterns they are written as. */
module ManifestPatterns {
  import opened Text
  import opened Wrappers
  import opened ManifestMetadata

  predicate AllSpace(s: string) { forall i :: 0 <= i < |s| ==> JsSpace(s[i]) }

  lemma TrimLeftSplits(s: string)
    ensures var rest := TrimLeft(JsSpace, s);
            |rest| <= |s| && s == s[..|s| - |rest|] + rest && AllSpace(s[..|s| - |rest|])
  {
    hide TrimLeft, JsSpace;
    TrimmedLeftIsSuffix(JsSpace, s);
    var n := |s| - |TrimLeft(JsSpace, s)|;
    assert s == s[..n] + s[n..];
  }

  lemma {:induction false} TrimRightSplits(s: string)
    ensures var front := TrimRight(JsSpace, s); |front| <= |s| && s == front + s[|front|..] && AllSpace(s[|front|..])
  {
    hide JsSpace;
    if s != [] && JsSpace(s[|s| - 1]) {
      TrimRightSplits(s[..|s| - 1]);
      var front := TrimRight(JsSpace, s);
      assert s[|front|..] == s[..|s| - 1][|front|..] + [s[|s| - 1]];
    }
  }

  lemma {:induction false} TrimLeftSkips(w: string, s: string)
    requires AllSpace(w) && (s == [] || !JsSpace(s[0]))
    ensures TrimLeft(JsSpace, w + s) == s
  {
    hide JsSpace;
    if w == [] {
      assert w + s == s;
    } else {
      assert (w + s)[1..] == w[1..] + s;
      TrimLeftSkips(w[1..], s);
    }
  }

  lemma {:induction false} TrimRightSkips(s: string, w: string)
    requires AllSpace(w) && (s == [] || !JsSpace(s[|s| - 1]))
    ensures TrimRight(JsSpace, s + w) == s
  {
    hide JsSpace;
    if w == [] {
      assert s + w == s;
    } else {
      assert (s + w)[..|s + w| - 1] == s + w[..|w| - 1];
      TrimRightSkips(s, w[..|w| - 1]);
    }
  }

  /** White space, "metadata:" and white space. */
  lemma MetadataLineIsPattern(line: string)
    ensures MetadataLine(line) <==> exists w, w' :: AllSpace(w) && AllSpace(w') && line == w + "metadata:" + w'
  {
    hide MetadataLine, AllSpace;
    if MetadataLine(line) {
      MetadataParts(line);
    }
    if w, w' :| AllSpace(w) && AllSpace(w') && line == w + "metadata:" + w' {
      MetadataFromParts(w, w');
    }
  }

  lemma MetadataParts(line: string)
    requires MetadataLine(line)
    ensures exists w, w' :: AllSpace(w) && AllSpace(w') && line == w + "metadata:" + w'
  {
    hide TrimLeft, TrimRight, AllSpace;
    var rest := TrimLeft(JsSpace, line);
    TrimLeftSplits(line);
    TrimRightSplits(rest);
    var w, w' := line[..|line| - |rest|], rest[|HEADER|..];
    assert AllSpace(w) && AllSpace(w') && line == w + "metadata:" + w';
  }

  lemma MetadataFromParts(w: string, w': string)
    requires AllSpace(w) && AllSpace(w')
    ensures MetadataLine(w + "metadata:" + w')
  {
    hide TrimLeft, TrimRight, AllSpace;
    var word: string := "metadata:";
    assert !JsSpace(word[0]) && !JsSpace(word[8]) && |word| == 9;
    assert w + word + w' == w + (word + w');
    TrimLeftSkips(w, word + w');
    TrimRightSkips(word, w');
  }

  /** The number of white space characters a line begins with. */
  lemma IndentCounts(line: string, n: nat)
    ensures Indent(line) == n <==> n <= |line| && AllSpace(line[..n]) && (n < |line| ==> !JsSpace(line[n]))
  {
    hide TrimLeft;
    TrimLeftSplits(line);
    var rest := TrimLeft(JsSpace, line);
    assert rest != [] ==> line[|line| - |rest|] == rest[0];
    if n <= |line| && AllSpace(line[..n]) && (n < |line| ==> !JsSpace(line[n])) {
      assert line == line[..n] + line[n..];
      TrimLeftSkips(line[..n], line[n..]);
    }
  }

  /** The block ends at the first line that has something other than white space at or before the indentation. */
  lemma OutsideIsShallow(indent: nat, line: string)
    ensures Outside(indent, line) <==> exists i :: 0 <= i < |line| && i <= indent && !JsSpace(line[i])
  {
    hide TrimLeft;
    TrimLeftSplits(line);
    var rest := TrimLeft(JsSpace, line);
    if rest != [] {
      assert line[|line| - |rest|] == rest[0];
    }
    assert forall i :: 0 <= i < |line| - |rest| ==> line[i] == line[..|line| - |rest|][i];
  }

  /** So much white space, the key, a colon, white space, and anything on one line. */
  lemma FieldLineIsPattern(indent: nat, key: string, line: string)
    ensures FieldLine(indent, key, line) <==>
            exists w, w', rest :: |w| == indent && AllSpace(w) && AllSpace(w') && SingleLine(rest) &&
                                  line == w + key + ":" + w' + rest
  {
    hide FieldLine, AllSpace, SingleLine;
    if FieldLine(indent, key, line) {
      FieldParts(indent, key, line);
    }
    if w, w', rest :| |w| == indent && AllSpace(w) && AllSpace(w') && SingleLine(rest) &&
                      line == w + key + ":" + w' + rest {
      FieldFromParts(indent, key, line, w, w', rest);
    }
  }

  lemma FieldParts(indent: nat, key: string, line: string)
    requires FieldLine(indent, key, line)
    ensures exists w, w', rest :: |w| == indent && AllSpace(w) && AllSpace(w') && SingleLine(rest) &&
                                  line == w + key + ":" + w' + rest
  {
    hide TrimLeft, SingleLine, JsSpace;
    var after := line[indent + |key| + 1..];
    TrimLeftSplits(after);
    var rest := TrimLeft(JsSpace, after);
    var w, w' := line[..indent], after[..|after| - |rest|];
    assert AllSpace(w) && AllSpace(w') && SingleLine(rest);
    InThree(line, indent, key + ":");
    FiveInOrder(w, key, ":", w', rest);
  }

  lemma InThree(s: string, from: nat, word: string)
    requires from <= |s| && HasPrefix(s[from..], word)
    ensures from + |word| <= |s| && s == s[..from] + word + s[from + |word|..]
  {
    var n := from + |word|;
    assert s[from..][..|word|] == s[from..n];
    assert s == s[..from] + s[from..n] + s[n..];
  }

  lemma FiveInOrder(a: string, b: string, c: string, d: string, e: string)
    ensures a + (b + c) + (d + e) == a + b + c + d + e
  {
    assert a + (b + c) == a + b + c;
  }

  lemma FieldFromParts(indent: nat, key: string, line: string, w: string, w': string, rest: string)
    requires |w| == indent && AllSpace(w) && AllSpace(w') && SingleLine(rest) && line == w + key + ":" + w' + rest
    ensures FieldLine(indent, key, line)
  {
    hide TrimLeft, SingleLine, JsSpace;
    assert line == w + (key + ":") + (w' + rest);
    assert line[indent..] == (key + ":") + (w' + rest) && line[indent + |key| + 1..] == w' + rest;
    assert line[indent..][..|key| + 1] == key + ":";
    assert forall i :: 0 <= i < indent ==> line[i] == w[i];
    SuffixOfParts(w', rest);
  }

  lemma SuffixOfParts(w: string, rest: string)
    requires AllSpace(w) && SingleLine(rest)
    ensures SingleLine(TrimLeft(JsSpace, w + rest))
  {
    hide TrimLeft, SingleLine, JsSpace;
    TrimLeftSplits(rest);
    var tail := TrimLeft(JsSpace, rest);
    var front := rest[..|rest| - |tail|];
    assert w + rest == (w + front) + tail;
    assert AllSpace(w + front);
    TrimLeftSkips(w + front, tail);
    SuffixSingle(rest, |rest| - |tail|);
  }

  /** The line that is written: blanks, key, colon, blank, value. */
  lemma FieldTextIs(indent: nat, key: string, value: string)
    ensures exists blanks :: |blanks| == indent && (forall i :: 0 <= i < indent ==> blanks[i] == ' ') &&
                             FieldText(indent, key, value) == blanks + key + ": " + value
  {
    assert |Spaces(indent)| == indent && forall i :: 0 <= i < indent ==> Spaces(indent)[i] == ' ';
  }
}
