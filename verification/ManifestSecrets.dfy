/** Secret entries: printing KEY=VALUE lines into a manifest and extracting them again. */
module ManifestSecrets {
  import opened Text

  // ---------------------------------------------------------------- the code

  function Map<T, U>(f: T -> U, items: seq<T>): (mapped: seq<U>)
    ensures |mapped| == |items|
    ensures forall i :: 0 <= i < |items| ==> mapped[i] == f(items[i])
  {
    seq(|items|, i requires 0 <= i < |items| => f(items[i]))
  }

  /** The trimmed lines that pass a test, in order. */
  function TrimKeep(keep: string -> bool, lines: seq<string>): seq<string> {
    if lines == [] then []
    else
      var line := Trim(JsSpace, lines[0]);
      (if keep(line) then [line] else []) + TrimKeep(keep, lines[1..])
  }

  /** Split, trim, filter, map, join. */
  function EachLine(keep: string -> bool, f: string -> string, text: string): string {
    Join(Map(f, TrimKeep(keep, Split(text, '\n'))), '\n')
  }

  predicate NonEmpty(line: string) { line != "" }

  predicate HasColon(line: string) { ':' in line }

  /** The key before the first equals sign and the value after it. */
  function Entry(line: string): (string, string) {
    var parts := Split(line, '=');
    (Trim(JsSpace, parts[0]), Trim(JsSpace, Join(parts[1..], '=')))
  }

  function PrintLine(line: string): string {
    var (key, value) := Entry(line);
    "  " + key + ": " + value
  }

  function ToSecretYaml(value: string): string { EachLine(NonEmpty, PrintLine, value) }

  /** The first colon becomes an equals sign. */
  function ColonToEquals(line: string): string {
    if line == "" then ""
    else if line[0] == ':' then "=" + line[1..]
    else [line[0]] + ColonToEquals(line[1..])
  }

  const MARKER: string := "stringData:\n"

  /** What follows the first marker. */
  function AfterMarker(manifest: string): string {
    if HasPrefix(manifest, MARKER) then manifest[|MARKER|..]
    else if manifest == "" then ""
    else AfterMarker(manifest[1..])
  }

  const DEFAULT: string := "username=admin\npassword=change-me"

  function ExtractSecretEntries(manifest: string): string {
    var block := AfterMarker(manifest);
    if block == "" then DEFAULT else EachLine(HasColon, ColonToEquals, block)
  }

  /** The head of a secret's manifest, up to the marker. */
  function SecretHead(resourceName: string, namespace: string, secretType: string): string {
    var trimmed := Trim(JsSpace, resourceName);
    "apiVersion: v1\nkind: Secret\nmetadata:\n  name: " + (if trimmed == "" then "sample-resource" else trimmed)
    + "\n  namespace: " + namespace + "\ntype: " + (if secretType == "" then "Opaque" else secretType) + "\n"
  }

  function SecretManifest(resourceName: string, namespace: string, secretType: string, entries: string): string {
    SecretHead(resourceName, namespace, secretType) + MARKER + ToSecretYaml(entries) + "\n"
  }

  /** The keys and values a text of entries stands for. */
  function Pairs(entries: string): seq<(string, string)> {
    Map(Entry, TrimKeep(NonEmpty, Split(entries, '\n')))
  }

  // ---------------------------------------------------------------- finding the block

  /** The marker cannot begin before the end of a text without it and reach over that end. */
  lemma MarkerNotAcross(head: string, rest: string)
    requires head != "" && !HasPrefix(head, MARKER)
    ensures !HasPrefix(head + MARKER + rest, MARKER)
  {
    var text := head + MARKER + rest;
    assert |head| >= |MARKER| ==> head[..|MARKER|] == text[..|MARKER|];
    if HasPrefix(text, MARKER) {
      assert forall j :: 0 <= j < |MARKER| ==> text[j] == text[..|MARKER|][j] == MARKER[j];
      if |head| < |MARKER| {
        assert text[|head|] == MARKER[0] == 's';
        OnlyOneStart(|head|);
      }
    }
  }

  lemma OnlyOneStart(j: nat)
    requires 0 < j < |MARKER|
    ensures MARKER[j] != 's'
  {
    assert MARKER == ['s', 't', 'r', 'i', 'n', 'g', 'D', 'a', 't', 'a', ':', '\n'];
  }

  /** The heading line of the entries, with its line end, stands at some place of the text. */
  predicate MarkerAt(manifest: string, i: nat) {
    i <= |manifest| && HasPrefix(manifest[i..], "stringData:\n")
  }

  lemma {:induction false} AfterMarkerExactly(manifest: string, i: nat)
    requires i <= |manifest| && (forall k: nat :: k < i ==> !MarkerAt(manifest, k))
    requires i < |manifest| ==> MarkerAt(manifest, i)
    ensures AfterMarker(manifest) == if i < |manifest| then manifest[i + 12..] else ""
  {
    assert |MARKER| == 12 && manifest[0..] == manifest;
    if i == 0 {
    } else {
      assert !MarkerAt(manifest, 0);
      forall k: nat | k < i - 1 ensures !MarkerAt(manifest[1..], k) {
        assert manifest[1..][k..] == manifest[k + 1..];
        assert !MarkerAt(manifest, k + 1);
      }
      if i < |manifest| {
        assert manifest[1..][i - 1..] == manifest[i..];
      }
      AfterMarkerExactly(manifest[1..], i - 1);
    }
  }

  lemma NoEarlierMarker(head: string, rest: string, k: nat)
    requires !Contains(head, MARKER) && k < |head|
    ensures !MarkerAt(head + MARKER + rest, k)
  {
    hide HasPrefix;
    assert !HasPrefix(head[k..], MARKER);
    MarkerNotAcross(head[k..], rest);
    assert (head + MARKER + rest)[k..] == head[k..] + MARKER + rest;
  }

  lemma AfterHead(head: string, rest: string)
    requires !Contains(head, MARKER)
    ensures AfterMarker(head + MARKER + rest) == rest
  {
    hide AfterMarker, Contains;
    var text := head + MARKER + rest;
    forall k: nat | k < |head| ensures !MarkerAt(text, k) {
      NoEarlierMarker(head, rest, k);
    }
    assert text[|head|..] == MARKER + rest && text[|head| + 12..] == rest;
    AfterMarkerExactly(text, |head|);
  }

  // ---------------------------------------------------------------- lines and their characters

  lemma {:induction false} TrimLeftPart(s: string) returns (n: nat)
    ensures n <= |s| && TrimLeft(JsSpace, s) == s[n..]
  {
    n := 0;
    if s != [] && JsSpace(s[0]) {
      var k := TrimLeftPart(s[1..]);
      n := k + 1;
    }
  }

  lemma TrimLacks(s: string, c: char)
    requires c !in s
    ensures c !in Trim(JsSpace, s)
  {
    var n := TrimLeftPart(s);
    assert TrimRight(JsSpace, s[n..]) <= s[n..];
  }

  lemma EntryShape(line: string)
    ensures var (key, value) := Entry(line);
            Trimmed(JsSpace, key) && '=' !in key && Trimmed(JsSpace, value) &&
              ('\n' !in line ==> '\n' !in key && '\n' !in value)
  {
    var parts := Split(line, '=');
    TrimIsTrimmed(JsSpace, parts[0]);
    TrimIsTrimmed(JsSpace, Join(parts[1..], '='));
    TrimLacks(parts[0], '=');
    if '\n' !in line {
      SplitLacks(line, '=', '\n');
      JoinLacks(parts[1..], '=', '\n');
      TrimLacks(parts[0], '\n');
      TrimLacks(Join(parts[1..], '='), '\n');
    }
  }

  /** An entry splits at its first equals sign. */
  lemma EntryOf(key: string, value: string)
    requires '=' !in key
    ensures Entry(key + "=" + value) == (Trim(JsSpace, key), Trim(JsSpace, value))
  {
    var tail := "=" + value;
    assert key + "=" + value == key + tail;
    SplitWord(key, tail, '=');
    assert tail[0] == '=' && tail[1..] == value;
    assert Split(tail, '=') == [[]] + Split(value, '=');
    assert key + [] == key;
    JoinSplit(value, '=');
  }

  lemma {:induction false} ColonTo(front: string, back: string)
    requires ':' !in front
    ensures ColonToEquals(front + ":" + back) == front + "=" + back
  {
    var line := front + ":" + back;
    if front == "" {
      assert line[1..] == back;
    } else {
      assert line[1..] == front[1..] + ":" + back;
      ColonTo(front[1..], back);
    }
  }

  lemma {:induction false} FirstColon(line: string) returns (front: string, back: string)
    requires ':' in line
    ensures line == front + ":" + back && ':' !in front
  {
    if line[0] == ':' {
      front, back := "", line[1..];
    } else {
      front, back := FirstColon(line[1..]);
      front := [line[0]] + front;
    }
  }

  // ---------------------------------------------------------------- one entry there and back

  /** A printed line without the white space at its ends. */
  function Shown(key: string, value: string): string {
    key + ":" + (if value == "" then "" else " " + value)
  }

  lemma PrintedTrims(key: string, value: string)
    requires Trimmed(JsSpace, key) && Trimmed(JsSpace, value)
    ensures Trim(JsSpace, "  " + key + ": " + value) == Shown(key, value)
    ensures Trimmed(JsSpace, Shown(key, value))
  {
    var rest := key + ": " + value;
    var line := "  " + key + ": " + value;
    assert line[1..] == " " + rest && line[1..][1..] == rest;
    assert !JsSpace(rest[0]);
    assert TrimLeft(JsSpace, rest) == rest;
    assert TrimLeft(JsSpace, line[1..]) == rest;
    assert TrimLeft(JsSpace, line) == rest;
    if value == "" {
      assert rest[..|rest| - 1] == key + ":";
      assert TrimRight(JsSpace, key + ":") == key + ":";
    } else {
      assert rest == key + ":" + (" " + value);
      assert rest[|rest| - 1] == value[|value| - 1];
    }
  }

  /** What an entry becomes when its printed line is extracted. */
  function Back(line: string): string { ColonToEquals(Trim(JsSpace, PrintLine(line))) }

  lemma BackOf(line: string) returns (front: string, rest: string)
    ensures var (key, value) := Entry(line);
            && Trim(JsSpace, PrintLine(line)) == Shown(key, value) == front + ":" + rest
            && ':' !in front && Back(line) == front + "=" + rest && Trimmed(JsSpace, Back(line))
            && '=' !in front
            && (':' !in key ==> front == key && rest == if value == "" then "" else " " + value)
            && (':' in key ==> Trim(JsSpace, front) != key)
  {
    var (key, value) := Entry(line);
    EntryShape(line);
    PrintedTrims(key, value);
    var tail := if value == "" then "" else " " + value;
    if ':' !in key {
      front, rest := key, tail;
    } else {
      var after;
      front, after := FirstColon(key);
      rest := after + ":" + tail;
      assert key + ":" + tail == front + ":" + rest;
      TrimLacks(front, ':');
    }
    ColonTo(front, rest);
    BackTrimmed(Shown(key, value), front, rest);
  }

  lemma BackTrimmed(shown: string, front: string, rest: string)
    requires shown == front + ":" + rest && Trimmed(JsSpace, shown)
    ensures Trimmed(JsSpace, front + "=" + rest)
  {
    var back := front + "=" + rest;
    assert front != "" ==> back[0] == shown[0];
    assert rest != "" ==> back[|back| - 1] == shown[|shown| - 1];
  }

  lemma SpacedTrims(value: string)
    requires Trimmed(JsSpace, value) && value != ""
    ensures Trim(JsSpace, " " + value) == value
  {
    assert (" " + value)[1..] == value;
    TrimmedStays(JsSpace, value);
  }

  /** The key and the value of an entry survive exactly when the key has no colon. */
  lemma EntryThereAndBack(line: string)
    ensures Entry(Back(line)) == Entry(line) <==> ':' !in Entry(line).0
  {
    var (key, value) := Entry(line);
    var front, rest := BackOf(line);
    EntryShape(line);
    EntryOf(front, rest);
    if ':' !in key {
      TrimmedStays(JsSpace, key);
      if value != "" {
        SpacedTrims(value);
      }
    }
  }

  lemma LinePlain(line: string)
    requires '\n' !in line
    ensures '\n' !in PrintLine(line) && '\n' !in Back(line) && Back(line) != ""
    ensures ':' in Trim(JsSpace, PrintLine(line)) && Trim(JsSpace, Back(line)) == Back(line)
  {
    EntryShape(line);
    var front, rest := BackOf(line);
    TrimLacks(PrintLine(line), '\n');
    TrimmedStays(JsSpace, Back(line));
  }

  // ---------------------------------------------------------------- all entries there and back

  lemma {:induction false} AllKept(keep: string -> bool, lines: seq<string>, images: seq<string>)
    requires |images| == |lines|
    requires forall i :: 0 <= i < |lines| ==> Trim(JsSpace, lines[i]) == images[i] && keep(images[i])
    ensures TrimKeep(keep, lines) == images
  {
    if lines != [] {
      AllKept(keep, lines[1..], images[1..]);
    }
  }

  lemma {:induction false} KeptLines(keep: string -> bool, lines: seq<string>)
    requires forall i :: 0 <= i < |lines| ==> '\n' !in lines[i]
    ensures forall i :: 0 <= i < |TrimKeep(keep, lines)| ==>
            '\n' !in TrimKeep(keep, lines)[i] && keep(TrimKeep(keep, lines)[i])
  {
    if lines != [] {
      KeptLines(keep, lines[1..]);
      TrimLacks(lines[0], '\n');
    }
  }

  lemma {:induction false} EmptyEndDropped(keep: string -> bool, lines: seq<string>)
    requires !keep("")
    ensures TrimKeep(keep, lines + [""]) == TrimKeep(keep, lines)
  {
    if lines == [] {
      assert lines + [""] == [""];
      assert Trim(JsSpace, "") == "";
    } else {
      assert (lines + [""])[1..] == lines[1..] + [""];
      EmptyEndDropped(keep, lines[1..]);
    }
  }

  lemma {:induction false} SplitEnd(s: string, sep: char)
    ensures Split(s + [sep], sep) == Split(s, sep) + [[]]
  {
    if s == [] {
      assert s + [sep] == [sep];
    } else {
      assert (s + [sep])[1..] == s[1..] + [sep];
      SplitEnd(s[1..], sep);
    }
  }

  /** Joining lines and splitting them again changes nothing for a filter that drops empty lines. */
  lemma KeptOfJoin(keep: string -> bool, lines: seq<string>)
    requires !keep("") && forall i :: 0 <= i < |lines| ==> '\n' !in lines[i]
    ensures TrimKeep(keep, Split(Join(lines, '\n'), '\n')) == TrimKeep(keep, lines)
  {
    if lines == [] {
      assert Split("", '\n') == [] + [""];
      EmptyEndDropped(keep, []);
    } else {
      SplitJoin(lines, '\n');
    }
  }

  lemma BlockExtracted(head: string, yaml: string)
    requires !Contains(head, MARKER)
    ensures ExtractSecretEntries(head + MARKER + yaml + "\n") == EachLine(HasColon, ColonToEquals, yaml + "\n")
  {
    hide EachLine, AfterMarker, Contains;
    assert head + MARKER + yaml + "\n" == head + MARKER + (yaml + "\n");
    AfterHead(head, yaml + "\n");
  }

  /** The lines of a block that was printed, trimmed: each still has its colon. */
  lemma PrintedKept(lines: seq<string>)
    requires forall i :: 0 <= i < |lines| ==> '\n' !in lines[i]
    ensures TrimKeep(HasColon, Split(Join(Map(PrintLine, lines), '\n') + "\n", '\n')) ==
            Map(line => Trim(JsSpace, PrintLine(line)), lines)
  {
    hide PrintLine, Split, Join, Trim;
    var printed := Map(PrintLine, lines);
    var shown := Map(line => Trim(JsSpace, PrintLine(line)), lines);
    forall i | 0 <= i < |lines|
      ensures '\n' !in printed[i] && Trim(JsSpace, printed[i]) == shown[i] && HasColon(shown[i])
    {
      LinePlain(lines[i]);
    }
    SplitEnd(Join(printed, '\n'), '\n');
    EmptyEndDropped(HasColon, Split(Join(printed, '\n'), '\n'));
    KeptOfJoin(HasColon, printed);
    AllKept(HasColon, printed, shown);
  }

  /** Extraction turns every printed entry back. */
  lemma ExtractPrinted(head: string, entries: string)
    requires !Contains(head, MARKER)
    ensures ExtractSecretEntries(head + MARKER + ToSecretYaml(entries) + "\n") ==
            Join(Map(Back, TrimKeep(NonEmpty, Split(entries, '\n'))), '\n')
  {
    hide PrintLine, Back, Split, Join, Trim, ColonToEquals, ExtractSecretEntries, Contains, TrimKeep;
    BlockExtracted(head, ToSecretYaml(entries));
    var lines := TrimKeep(NonEmpty, Split(entries, '\n'));
    KeptLines(NonEmpty, Split(entries, '\n'));
    PrintedKept(lines);
    var shown := Map(line => Trim(JsSpace, PrintLine(line)), lines);
    forall i | 0 <= i < |lines| ensures ColonToEquals(shown[i]) == Back(lines[i]) {
      BackMeans(lines[i]);
    }
    assert Map(ColonToEquals, shown) == Map(Back, lines);
  }

  lemma BackMeans(line: string)
    ensures ColonToEquals(Trim(JsSpace, PrintLine(line))) == Back(line)
  {
  }

  lemma PairsOfBack(entries: string)
    ensures var lines := TrimKeep(NonEmpty, Split(entries, '\n'));
            Pairs(Join(Map(Back, lines), '\n')) == Map(Entry, Map(Back, lines))
  {
    hide Back, Split, Join;
    var lines := TrimKeep(NonEmpty, Split(entries, '\n'));
    KeptLines(NonEmpty, Split(entries, '\n'));
    var backs := Map(Back, lines);
    forall i | 0 <= i < |lines| ensures '\n' !in backs[i] && Trim(JsSpace, backs[i]) == backs[i] && NonEmpty(backs[i]) {
      LinePlain(lines[i]);
    }
    KeptOfJoin(NonEmpty, backs);
    AllKept(NonEmpty, backs, backs);
  }

  predicate PlainKeys(entries: string) {
    forall i :: 0 <= i < |Pairs(entries)| ==> ':' !in Pairs(entries)[i].0
  }

  /** Exactly the entries whose keys have no colon come back from a manifest with the keys and values they had. */
  lemma PairsSurvive(head: string, entries: string)
    requires !Contains(head, MARKER)
    ensures Pairs(ExtractSecretEntries(head + MARKER + ToSecretYaml(entries) + "\n")) == Pairs(entries) <==>
            PlainKeys(entries)
  {
    hide Back, Entry, Split, Join, ToSecretYaml, ExtractSecretEntries, Contains;
    ExtractPrinted(head, entries);
    PairsOfBack(entries);
    var lines := TrimKeep(NonEmpty, Split(entries, '\n'));
    var before, after := Map(Entry, lines), Map(Entry, Map(Back, lines));
    forall i | 0 <= i < |lines| ensures after[i] == before[i] <==> ':' !in before[i].0 {
      EntryThereAndBack(lines[i]);
    }
    if before != after {
      assert exists i :: 0 <= i < |lines| && after[i] != before[i];
    }
  }

  /** The printed text depends on the keys and values only. */
  lemma PrintOfPairs(entries: string, others: string)
    requires Pairs(entries) == Pairs(others)
    ensures ToSecretYaml(entries) == ToSecretYaml(others)
  {
    var a, b := TrimKeep(NonEmpty, Split(entries, '\n')), TrimKeep(NonEmpty, Split(others, '\n'));
    assert |a| == |Pairs(entries)| == |b|;
    forall i | 0 <= i < |a| ensures PrintLine(a[i]) == PrintLine(b[i]) {
      assert Entry(a[i]) == Pairs(entries)[i] == Pairs(others)[i] == Entry(b[i]);
    }
    assert Map(PrintLine, a) == Map(PrintLine, b);
  }

  /** Printing, extracting and printing again gives the same text when no key has a colon; values are free. */
  lemma PrintExtractPrint(head: string, entries: string)
    requires !Contains(head, MARKER) && PlainKeys(entries)
    ensures ToSecretYaml(ExtractSecretEntries(head + MARKER + ToSecretYaml(entries) + "\n")) == ToSecretYaml(entries)
  {
    PairsSurvive(head, entries);
    PrintOfPairs(ExtractSecretEntries(head + MARKER + ToSecretYaml(entries) + "\n"), entries);
  }

  /** The same for the manifest the form builds. */
  lemma FormRoundTrip(resourceName: string, namespace: string, secretType: string, entries: string)
    requires !Contains(SecretHead(resourceName, namespace, secretType), MARKER)
    ensures Pairs(ExtractSecretEntries(SecretManifest(resourceName, namespace, secretType, entries))) ==
            Pairs(entries) <==>
            PlainKeys(entries)
  {
    PairsSurvive(SecretHead(resourceName, namespace, secretType), entries);
  }

  // ---------------------------------------------------------------- whatever is extracted is stable

  /** An entry's key lies before the first equals sign of any text the line starts with. */
  lemma KeyInFront(front: string, back: string) returns (key: string)
    ensures Entry(front + "=" + back).0 == Trim(JsSpace, key) && (forall c :: c !in front ==> c !in key)
  {
    hide Join, Split, Entry;
    var parts := Split(front, '=');
    JoinSplit(front, '=');
    key := parts[0];
    forall c | c !in front ensures c !in key {
      SplitLacks(front, '=', c);
    }
    if |parts| == 1 {
      JoinOne(parts, '=');
      EntryOf(key, back);
    } else {
      JoinCons(parts[0], parts[1..], '=');
      assert [parts[0]] + parts[1..] == parts;
      var rest := Join(parts[1..], '=');
      assert front + "=" + back == key + "=" + (rest + "=" + back);
      EntryOf(key, rest + "=" + back);
    }
  }

  lemma JoinOne(parts: seq<string>, sep: char)
    requires |parts| == 1
    ensures Join(parts, sep) == parts[0]
  {
  }

  /** No entry extracted from any text has a colon in its key. */
  lemma ColonFreeKey(line: string)
    requires ':' in line
    ensures ':' !in Entry(ColonToEquals(line)).0
  {
    hide Entry, ColonToEquals;
    var front, back := FirstColon(line);
    ColonTo(front, back);
    var key := KeyInFront(front, back);
    TrimLacks(key, ':');
  }

  lemma ColonGone(line: string)
    requires ':' in line && '\n' !in line && Trimmed(JsSpace, line)
    ensures '\n' !in ColonToEquals(line) && ColonToEquals(line) != "" &&
            Trim(JsSpace, ColonToEquals(line)) == ColonToEquals(line)
  {
    var front, back := FirstColon(line);
    ColonTo(front, back);
    BackTrimmed(line, front, back);
    TrimmedStays(JsSpace, ColonToEquals(line));
  }

  lemma {:induction false} KeptTrimmed(keep: string -> bool, lines: seq<string>)
    ensures forall i :: 0 <= i < |TrimKeep(keep, lines)| ==> Trimmed(JsSpace, TrimKeep(keep, lines)[i])
  {
    if lines != [] {
      KeptTrimmed(keep, lines[1..]);
      TrimIsTrimmed(JsSpace, lines[0]);
    }
  }

  lemma DefaultSplits()
    ensures Split(DEFAULT, '\n') == ["username=admin", "password=change-me"]
  {
    hide Split, Join;
    var user, password: string := "username=admin", "password=change-me";
    JoinCons(user, [password], '\n');
    JoinOne([password], '\n');
    assert [user] + [password] == [user, password];
    assert DEFAULT == user + ['\n'] + password;
    SplitJoin([user, password], '\n');
  }

  lemma DefaultLines()
    ensures TrimKeep(NonEmpty, Split(DEFAULT, '\n')) == ["username=admin", "password=change-me"]
  {
    hide Split, Join, TrimKeep, Trim;
    var user, password: string := "username=admin", "password=change-me";
    DefaultSplits();
    TrimmedStays(JsSpace, user);
    TrimmedStays(JsSpace, password);
    AllKept(NonEmpty, [user, password], [user, password]);
  }

  lemma DefaultPlain()
    ensures PlainKeys(DEFAULT)
  {
    hide Split, Join, TrimKeep, Trim, Entry;
    DefaultLines();
    var user := KeyInFront("username", "admin");
    var password := KeyInFront("password", "change-me");
    assert "username" + "=" + "admin" == "username=admin" && "password" + "=" + "change-me" == "password=change-me";
    TrimLacks(user, ':');
    TrimLacks(password, ':');
  }

  lemma ExtractedPlain(manifest: string)
    ensures PlainKeys(ExtractSecretEntries(manifest))
  {
    hide Split, Join, Entry, ColonToEquals, AfterMarker;
    var block := AfterMarker(manifest);
    if block == "" {
      DefaultPlain();
    } else {
      var lines := TrimKeep(HasColon, Split(block, '\n'));
      KeptLines(HasColon, Split(block, '\n'));
      KeptTrimmed(HasColon, Split(block, '\n'));
      var images := Map(ColonToEquals, lines);
      forall i | 0 <= i < |lines|
        ensures '\n' !in images[i] && NonEmpty(images[i]) && Trim(JsSpace, images[i]) == images[i] &&
                ':' !in Entry(images[i]).0
      {
        ColonGone(lines[i]);
        ColonFreeKey(lines[i]);
      }
      KeptOfJoin(NonEmpty, images);
      AllKept(NonEmpty, images, images);
    }
  }

  /** Entries extracted from any manifest whatsoever survive being printed and extracted. */
  lemma ExtractedSurvive(manifest: string, head: string)
    requires !Contains(head, MARKER)
    ensures var entries := ExtractSecretEntries(manifest);
            Pairs(ExtractSecretEntries(head + MARKER + ToSecretYaml(entries) + "\n")) == Pairs(entries)
  {
    ExtractedPlain(manifest);
    PairsSurvive(head, ExtractSecretEntries(manifest));
  }

  // ---------------------------------------------------------------- the form's manifest, line by line

  /** The lines, each with its line end. */
  function EachEnded(lines: seq<string>): string {
    if lines == [] then "" else lines[0] + "\n" + EachEnded(lines[1..])
  }

  lemma SevenEnded(a: string, b: string, c: string, d: string, e: string, f: string, g: string)
    ensures EachEnded([a, b, c, d, e, f, g]) ==
            a + "\n" + b + "\n" + c + "\n" + d + "\n" + e + "\n" + f + "\n" + g + "\n"
  {
    EndedCons(g, []);
    EndedCons(f, [g]);
    EndedCons(e, [f, g]);
    EndedCons(d, [e, f, g]);
    EndedCons(c, [d, e, f, g]);
    EndedCons(b, [c, d, e, f, g]);
    EndedCons(a, [b, c, d, e, f, g]);
  }

  lemma EndedCons(line: string, lines: seq<string>)
    ensures EachEnded([line] + lines) == line + "\n" + EachEnded(lines)
  {
    assert ([line] + lines)[1..] == lines;
  }

  lemma HeadPieces()
    ensures "apiVersion: v1\nkind: Secret\nmetadata:\n  name: " ==
            "apiVersion: v1" + "\n" + "kind: Secret" + "\n" + "metadata:" + "\n" + "  name: "
  {
    FirstPieces();
    LastPieces();
    assert "apiVersion: v1\nkind: Secret\nmetadata:\n  name: " ==
           "apiVersion: v1\nkind: Secret" + "\nmetadata:\n  name: ";
  }

  lemma FirstPieces()
    ensures "apiVersion: v1\nkind: Secret" == "apiVersion: v1" + "\n" + "kind: Secret"
  {
  }

  lemma LastPieces()
    ensures "\nmetadata:\n  name: " == "\n" + "metadata:" + "\n" + "  name: "
  {
  }

  lemma TailPieces()
    ensures "\n  namespace: " == "\n" + "  namespace: " && "\ntype: " == "\n" + "type: "
    ensures MARKER == "stringData:" + "\n"
  {
  }

  lemma Regroup(
    a: string, b: string, c: string, d: string, name: string, e: string, namespace: string, f: string, kind: string,
    g: string, n: string)
    ensures (a + n + b + n + c + n + d) + name + (n + e) + namespace + (n + f) + kind + n + (g + n) ==
            a + n + b + n + c + n + (d + name) + n + (e + namespace) + n + (f + kind) + n + g + n
  {
  }

  /** Seven lines of the head, the printed entries and an empty line; a blank name and a missing type have defaults. */
  lemma SecretLines(resourceName: string, namespace: string, secretType: string, entries: string)
    ensures var name := if Trim(JsSpace, resourceName) != "" then Trim(JsSpace, resourceName) else "sample-resource";
            var kind := if secretType != "" then secretType else "Opaque";
            SecretManifest(resourceName, namespace, secretType, entries) ==
            EachEnded(["apiVersion: v1", "kind: Secret", "metadata:", "  name: " + name,
                       "  namespace: " + namespace, "type: " + kind, "stringData:"]) + ToSecretYaml(entries) + "\n"
  {
    hide Trim, ToSecretYaml, EachEnded, SecretHead;
    var name := if Trim(JsSpace, resourceName) != "" then Trim(JsSpace, resourceName) else "sample-resource";
    var kind := if secretType != "" then secretType else "Opaque";
    HeadLines(resourceName, namespace, secretType, name, kind);
    SevenEnded("apiVersion: v1", "kind: Secret", "metadata:", "  name: " + name, "  namespace: " + namespace,
               "type: " + kind, "stringData:");
  }

  lemma HeadLines(resourceName: string, namespace: string, secretType: string, name: string, kind: string)
    requires name == if Trim(JsSpace, resourceName) != "" then Trim(JsSpace, resourceName) else "sample-resource"
    requires kind == if secretType != "" then secretType else "Opaque"
    ensures var a, b, c, d: string := "apiVersion: v1", "kind: Secret", "metadata:", "  name: ";
            var e, f, g, n: string := "  namespace: ", "type: ", "stringData:", "\n";
            SecretHead(resourceName, namespace, secretType) + MARKER ==
            a + n + b + n + c + n + (d + name) + n + (e + namespace) + n + (f + kind) + n + g + n
  {
    hide Trim;
    HeadPieces();
    TailPieces();
    Regroup("apiVersion: v1", "kind: Secret", "metadata:", "  name: ", name, "  namespace: ", namespace, "type: ", kind,
            "stringData:", "\n");
  }

  // ---------------------------------------------------------------- what is extracted

  /** Without the heading, or with nothing behind it, there are two entries by default. */
  lemma DefaultEntries(manifest: string, i: nat)
    requires i <= |manifest| && (forall k: nat :: k < i ==> !MarkerAt(manifest, k))
    requires i == |manifest| || (MarkerAt(manifest, i) && i + 12 == |manifest|)
    ensures ExtractSecretEntries(manifest) == "username=admin\npassword=change-me"
  {
    AfterMarkerExactly(manifest, i);
  }

  /** Otherwise every line behind the first heading that has a colon is an entry, trimmed, with its first colon turned
      into an equals sign. */
  lemma EntriesExactly(manifest: string, i: nat)
    requires MarkerAt(manifest, i) && (forall k: nat :: k < i ==> !MarkerAt(manifest, k)) && i + 12 < |manifest|
    ensures ExtractSecretEntries(manifest) ==
            Join(Map(ColonToEquals, TrimKeep(HasColon, Split(manifest[i + 12..], '\n'))), '\n')
  {
    AfterMarkerExactly(manifest, i);
  }

  lemma {:induction false} ColonReplaced(line: string, k: nat)
    requires k < |line| && line[k] == ':' && forall i :: 0 <= i < k ==> line[i] != ':'
    ensures ColonToEquals(line) == line[k := '=']
  {
    if k > 0 {
      assert line[1..][k - 1] == line[k];
      ColonReplaced(line[1..], k - 1);
      assert line[k := '='] == [line[0]] + line[1..][k - 1 := '='];
    } else {
      assert line[0 := '='] == "=" + line[1..];
    }
  }

  /** The line, trimmed, if it passes the test. */
  function Kept(keep: string -> bool, line: string): seq<string> {
    if keep(Trim(JsSpace, line)) then [Trim(JsSpace, line)] else []
  }

  lemma KeptStep(keep: string -> bool, line: string, lines: seq<string>)
    ensures TrimKeep(keep, [line] + lines) == Kept(keep, line) + TrimKeep(keep, lines)
  {
    assert ([line] + lines)[1..] == lines;
  }

  /** Which lines are kept: those that pass the test once trimmed, in order. */
  lemma {:induction false} KeptExactly(keep: string -> bool, lines: seq<string>, last: string)
    ensures TrimKeep(keep, lines + [last]) == TrimKeep(keep, lines) + Kept(keep, last)
  {
    if lines == [] {
      KeptStep(keep, last, []);
      assert lines + [last] == [last] + [] && TrimKeep(keep, []) == [];
    } else {
      hide TrimKeep, Kept;
      var rest := lines[1..];
      assert lines == [lines[0]] + rest && lines + [last] == [lines[0]] + (rest + [last]);
      KeptStep(keep, lines[0], rest + [last]);
      KeptStep(keep, lines[0], rest);
      KeptExactly(keep, rest, last);
    }
  }

  /** An entry is printed on a line of its own: two blanks, the key, a colon, a blank and the value. */
  lemma EntryPrinted(key: string, value: string)
    requires '=' !in key && Trimmed(JsSpace, key) && Trimmed(JsSpace, value)
    ensures PrintLine(key + "=" + value) == "  " + key + ": " + value
  {
    hide Trim, Split, Join;
    EntryParts(key, value);
    TrimmedStays(JsSpace, key);
    TrimmedStays(JsSpace, value);
  }

  lemma EntryParts(key: string, value: string)
    requires '=' !in key
    ensures Entry(key + "=" + value) == (Trim(JsSpace, key), Trim(JsSpace, value))
  {
    hide Trim;
    var parts := Split(key + "=" + value, '=');
    FirstPart(key, value);
    JoinSplit(value, '=');
    assert parts == [key] + Split(value, '=') && parts[1..] == Split(value, '=');
  }

  lemma EqualsFirst(tail: string)
    requires tail != "" && tail[0] == '='
    ensures Split(tail, '=') == [[]] + Split(tail[1..], '=')
  {
  }

  lemma FirstPart(key: string, value: string)
    requires '=' !in key
    ensures Split(key + "=" + value, '=') == [key] + Split(value, '=')
  {
    hide Split;
    var tail := "=" + value;
    EqualsFirst(tail);
    assert tail[1..] == value;
    var parts := Split(tail, '=');
    assert parts[0] == [] && parts[1..] == Split(value, '=');
    SplitWord(key, tail, '=');
    assert key + "=" + value == key + tail && key + [] == key;
  }
}
