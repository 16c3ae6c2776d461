/** Cleaning of filter lists before they are stored, and the comparisons they are later used in. */
module Sanitize {
  import opened Text

  // ---------------------------------------------------------------- comparisons

  /** Some value equals some expected item, up to surrounding white space and case. */
  predicate HasAnyFold(values: seq<string>, expected: seq<string>) {
    exists i, j :: 0 <= i < |values| && 0 <= j < |expected| && EqualFold(TrimSpace(values[i]), TrimSpace(expected[j]))
  }

  predicate PrefixFold(value: string, prefix: string) {
    var p := Lower(TrimSpace(prefix));
    p != "" && HasPrefix(Lower(TrimSpace(value)), p)
  }

  /** Some value starts with some prefix, up to surrounding white space and case; blank prefixes are ignored. */
  predicate HasPrefixMatchFold(values: seq<string>, prefixes: seq<string>) {
    exists i, j :: 0 <= i < |values| && 0 <= j < |prefixes| && PrefixFold(values[i], prefixes[j])
  }

  // ---------------------------------------------------------------- the code

  predicate Seen(items: seq<string>, value: string) {
    exists i :: 0 <= i < |items| && EqualFold(items[i], value)
  }

  /** One round of the loop, for a value already trimmed. */
  function Add(before: seq<string>, value: string): (after: seq<string>)
    ensures before <= after
  {
    if value == "" || Seen(before, value) then before else before + [value]
  }

  function Sanitized(values: seq<string>): seq<string> {
    if values == [] then []
    else Add(Sanitized(values[..|values| - 1]), TrimSpace(values[|values| - 1]))
  }

  lemma SanitizedStep(values: seq<string>, k: nat)
    requires k < |values|
    ensures Sanitized(values[..k + 1]) == Add(Sanitized(values[..k]), TrimSpace(values[k]))
  {
    assert values[..k + 1][..k] == values[..k];
  }

  ghost predicate KeysOf(seen: set<string>, items: seq<string>) {
    forall value: string :: Lower(value) in seen <==> Seen(items, value)
  }

  lemma KeysGrow(seen: set<string>, items: seq<string>, value: string)
    requires KeysOf(seen, items)
    ensures KeysOf(seen + {Lower(value)}, items + [value])
  {
    hide Lower;
    var grown := items + [value];
    forall v: string ensures Lower(v) in seen + {Lower(value)} <==> Seen(grown, v) {
      if Seen(items, v) {
        var i :| 0 <= i < |items| && EqualFold(items[i], v);
        assert grown[i] == items[i];
      }
      if EqualFold(value, v) {
        assert grown[|items|] == value;
      }
      if Seen(grown, v) {
        var i :| 0 <= i < |grown| && EqualFold(grown[i], v);
        if i < |items| {
          assert items[i] == grown[i];
        }
      }
    }
  }

  method SanitizeStringSlice(values: seq<string>) returns (items: seq<string>)
    ensures items == Sanitized(values)
  {
    var seen: set<string> := {};
    items := [];
    for k := 0 to |values|
      invariant items == Sanitized(values[..k])
      invariant KeysOf(seen, items)
    {
      SanitizedStep(values, k);
      var value := TrimSpace(values[k]);
      if value == "" {
        continue;
      }
      var key := Lower(value);
      if key in seen {
        continue;
      }
      KeysGrow(seen, items, value);
      seen := seen + {key};
      items := items + [value];
    }
    assert values[..|values|] == values;
  }

  // ---------------------------------------------------------------- what it means

  /** Clean entries: trimmed, not blank, and no two equal up to case. */
  predicate Clean(items: seq<string>) {
    && (forall i :: 0 <= i < |items| ==> items[i] != "" && Trimmed(GoSpace, items[i]))
    && (forall i, j :: 0 <= i < j < |items| ==> !EqualFold(items[i], items[j]))
  }

  lemma AddKeepsClean(before: seq<string>, value: string)
    requires Clean(before) && Trimmed(GoSpace, value)
    ensures Clean(Add(before, value))
  {
    hide Lower, EqualFold, Trimmed;
  }

  lemma {:induction false} SanitizedIsClean(values: seq<string>)
    ensures Clean(Sanitized(values))
  {
    if values != [] {
      var n := |values| - 1;
      SanitizedIsClean(values[..n]);
      TrimIsTrimmed(GoSpace, values[n]);
      AddKeepsClean(Sanitized(values[..n]), TrimSpace(values[n]));
    }
  }

  /** A strictly increasing choice of positions: which inputs survive, in order. */
  function Survivors(values: seq<string>): (at: seq<nat>)
    ensures |at| == |Sanitized(values)|
    ensures forall i :: 0 <= i < |at| ==> at[i] < |values| && Sanitized(values)[i] == TrimSpace(values[at[i]])
    ensures forall i, j :: 0 <= i < j < |at| ==> at[i] < at[j]
  {
    if values == [] then []
    else
      var n := |values| - 1;
      var before := Survivors(values[..n]);
      if |Sanitized(values)| == |before| then before else before + [n]
  }

  /** Input k is represented by an entry that stems from input k or an earlier one. */
  ghost predicate Covered(values: seq<string>, k: nat, i: nat)
    requires k < |values| && i < |Sanitized(values)|
  {
    EqualFold(Sanitized(values)[i], TrimSpace(values[k])) && Survivors(values)[i] <= k
  }

  lemma CoveredLater(values: seq<string>, k: nat, i: nat)
    requires k < |values| - 1 && i < |Sanitized(values[..|values| - 1])| && Covered(values[..|values| - 1], k, i)
    ensures i < |Sanitized(values)| && Covered(values, k, i)
  {
  }

  lemma LastCovered(values: seq<string>) returns (i: nat)
    requires |values| > 0 && TrimSpace(values[|values| - 1]) != ""
    ensures i < |Sanitized(values)| && Covered(values, |values| - 1, i)
  {
    var before, value := Sanitized(values[..|values| - 1]), TrimSpace(values[|values| - 1]);
    assert Sanitized(values) == Add(before, value);
    if Seen(before, value) {
      i :| 0 <= i < |before| && EqualFold(before[i], value);
    } else {
      i := |before|;
    }
  }

  /** Every input that is not blank is represented, by the first input equal to it up to case. */
  lemma {:induction false} SanitizedCovers(values: seq<string>, k: nat) returns (i: nat)
    requires k < |values| && TrimSpace(values[k]) != ""
    ensures i < |Sanitized(values)| && Covered(values, k, i)
  {
    if k < |values| - 1 {
      i := SanitizedCovers(values[..|values| - 1], k);
      CoveredLater(values, k, i);
    } else {
      i := LastCovered(values);
    }
  }

  lemma SomethingAsked(values: seq<string>) returns (k: nat)
    requires Sanitized(values) != []
    ensures k < |values| && !Blank(values[k])
  {
    SanitizedIsClean(values);
    k := Survivors(values)[0];
    assert Sanitized(values)[0] == TrimSpace(values[k]);
  }

  lemma CleanInit(items: seq<string>)
    requires Clean(items) && items != []
    ensures var n := |items| - 1; Clean(items[..n]) && Add(items[..n], items[n]) == items
  {
    var n := |items| - 1;
    var init := items[..n];
    assert items == init + [items[n]];
    assert !Seen(init, items[n]);
  }

  lemma {:induction false} CleanStays(items: seq<string>)
    requires Clean(items)
    ensures Sanitized(items) == items
  {
    if items != [] {
      CleanInit(items);
      CleanStays(items[..|items| - 1]);
      TrimmedStays(GoSpace, items[|items| - 1]);
    }
  }

  /** Cleaning twice is cleaning once. */
  lemma {:induction false} SanitizedIdempotent(values: seq<string>)
    ensures Sanitized(Sanitized(values)) == Sanitized(values)
  {
    SanitizedIsClean(values);
    CleanStays(Sanitized(values));
  }

  predicate Blank(s: string) { TrimSpace(s) == "" }

  lemma SurvivorMatches(expected: seq<string>, value: string)
    requires Seen(Sanitized(expected), TrimSpace(value))
    ensures HasAnyFold([value], expected)
  {
    var items := Sanitized(expected);
    var i :| 0 <= i < |items| && EqualFold(items[i], TrimSpace(value));
    var at := Survivors(expected);
    assert items[i] == TrimSpace(expected[at[i]]);
    assert [value][0] == value;
  }

  lemma FoldedBlank(a: string, b: string)
    requires EqualFold(TrimSpace(a), TrimSpace(b))
    ensures Blank(a) <==> Blank(b)
  {
    assert |Lower(TrimSpace(a))| == |TrimSpace(a)| && |Lower(TrimSpace(b))| == |TrimSpace(b)|;
  }

  lemma ItemMatches(expected: seq<string>, value: string, j: nat)
    requires j < |expected| && EqualFold(TrimSpace(value), TrimSpace(expected[j])) && !Blank(value)
    ensures HasAnyFold([value], Sanitized(expected))
  {
    hide Lower, Trim;
    var items := Sanitized(expected);
    FoldedBlank(value, expected[j]);
    SanitizedIsClean(expected);
    var i := SanitizedCovers(expected, j);
    TrimmedStays(GoSpace, items[i]);
    assert [value][0] == value;
    assert EqualFold(TrimSpace(value), TrimSpace(items[i]));
  }

  /** For one value the stored list answers as the raw list does, unless the value and a raw item are both blank. */
  lemma StoredAnswersOne(value: string, expected: seq<string>)
    ensures HasAnyFold([value], Sanitized(expected)) <==> HasAnyFold([value], expected) && !Blank(value)
  {
    hide Lower, Trim, Sanitized;
    var items := Sanitized(expected);
    assert [value][0] == value;
    if HasAnyFold([value], items) {
      var j :| 0 <= j < |items| && EqualFold(TrimSpace(value), TrimSpace(items[j]));
      SanitizedIsClean(expected);
      TrimmedStays(GoSpace, items[j]);
      FoldedBlank(value, items[j]);
      SurvivorMatches(expected, value);
    }
    if HasAnyFold([value], expected) && !Blank(value) {
      var j :| 0 <= j < |expected| && EqualFold(TrimSpace(value), TrimSpace(expected[j]));
      ItemMatches(expected, value, j);
    }
  }

  lemma AnyFoldByValue(values: seq<string>, expected: seq<string>)
    ensures HasAnyFold(values, expected) <==> exists i :: 0 <= i < |values| && HasAnyFold([values[i]], expected)
  {
    if HasAnyFold(values, expected) {
      var i, j :| 0 <= i < |values| && 0 <= j < |expected| && EqualFold(TrimSpace(values[i]), TrimSpace(expected[j]));
      assert [values[i]][0] == values[i];
      assert HasAnyFold([values[i]], expected);
    }
  }

  /** Storing the cleaned list changes no answer for values that are not blank. */
  lemma StoredAnswersSame(values: seq<string>, expected: seq<string>)
    requires forall i :: 0 <= i < |values| ==> !Blank(values[i])
    ensures HasAnyFold(values, Sanitized(expected)) <==> HasAnyFold(values, expected)
  {
    AnyFoldByValue(values, expected);
    AnyFoldByValue(values, Sanitized(expected));
    forall i | 0 <= i < |values|
      ensures HasAnyFold([values[i]], Sanitized(expected)) <==> HasAnyFold([values[i]], expected)
    {
      StoredAnswersOne(values[i], expected);
    }
  }

  lemma NoBlankSame(value: string, expected: seq<string>)
    requires forall j :: 0 <= j < |expected| ==> !Blank(expected[j])
    ensures HasAnyFold([value], Sanitized(expected)) <==> HasAnyFold([value], expected)
  {
    hide Lower, Trim, Sanitized;
    StoredAnswersOne(value, expected);
    assert [value][0] == value;
    if HasAnyFold([value], expected) {
      var j :| 0 <= j < |expected| && EqualFold(TrimSpace(value), TrimSpace(expected[j]));
      FoldedBlank(value, expected[j]);
    }
  }

  /** With blank values allowed, cleaning is invisible exactly for lists without blank items. */
  lemma StoredAnswersAlways(expected: seq<string>)
    ensures (forall values: seq<string> ::
               HasAnyFold(values, Sanitized(expected)) <==> HasAnyFold(values, expected)) <==>
            forall j :: 0 <= j < |expected| ==> !Blank(expected[j])
  {
    if j :| 0 <= j < |expected| && Blank(expected[j]) {
      StoredAnswersOne(expected[j], expected);
      assert [expected[j]][0] == expected[j];
      assert HasAnyFold([expected[j]], expected) && !HasAnyFold([expected[j]], Sanitized(expected));
    } else {
      forall values: seq<string> ensures HasAnyFold(values, Sanitized(expected)) <==> HasAnyFold(values, expected) {
        hide HasAnyFold, Sanitized;
        AnyFoldByValue(values, expected);
        AnyFoldByValue(values, Sanitized(expected));
        forall i | 0 <= i < |values|
          ensures HasAnyFold([values[i]], Sanitized(expected)) <==> HasAnyFold([values[i]], expected)
        {
          NoBlankSame(values[i], expected);
        }
      }
    }
  }

  /** Prefix filters answer alike for the raw and the stored list without any condition. */
  lemma StoredPrefixesSame(values: seq<string>, prefixes: seq<string>)
    ensures HasPrefixMatchFold(values, Sanitized(prefixes)) <==> HasPrefixMatchFold(values, prefixes)
  {
    var items := Sanitized(prefixes);
    SanitizedIsClean(prefixes);
    if HasPrefixMatchFold(values, items) {
      var i, j :| 0 <= i < |values| && 0 <= j < |items| && PrefixFold(values[i], items[j]);
      assert items[j] == TrimSpace(prefixes[Survivors(prefixes)[j]]);
      TrimmedStays(GoSpace, items[j]);
      assert PrefixFold(values[i], prefixes[Survivors(prefixes)[j]]);
    }
    if HasPrefixMatchFold(values, prefixes) {
      var i, j :| 0 <= i < |values| && 0 <= j < |prefixes| && PrefixFold(values[i], prefixes[j]);
      var k := SanitizedCovers(prefixes, j);
      TrimmedStays(GoSpace, items[k]);
      assert PrefixFold(values[i], items[k]);
    }
  }
}
