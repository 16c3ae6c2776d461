/** Routing rules are stored with cleaned filter lists: does the stored rule decide as the rule that was asked for? */
module StoredRules {
  import opened Text
  import opened Wrappers
  import opened Sanitize
  import opened Routing

  /** The filter lists of a rule as they are stored. */
  function Cleaned(rule: Rule): Rule {
    rule.(eventTypes := Sanitized(rule.eventTypes), priorities := Sanitized(rule.priorities),
          channels := Sanitized(rule.channels), statuses := Sanitized(rule.statuses),
          tags := Sanitized(rule.tags), tagPrefixes := Sanitized(rule.tagPrefixes))
  }

  /** The row a create request leads to, None for a blank kind. The column's default replaces a false switch, so that
      every new rule is enabled. */
  function Created(asked: Rule): Option<Rule> {
    var kind := TrimSpace(asked.integrationKind);
    if kind == "" then None else Some(Cleaned(asked).(integrationKind := kind, enabled := true))
  }

  /** The row an update request leads to; a blank kind leaves the kind as it was. */
  function Updated(before: Rule, asked: Rule): Rule {
    var kind := DefaultString(TrimSpace(asked.integrationKind), before.integrationKind);
    Cleaned(asked).(id := before.id, integrationKind := kind)
  }

  /** A notification as the service writes it: defaults replace blank fields. */
  predicate Written(n: Notification) {
    !Blank(n.kind) && !Blank(n.priority) && !Blank(n.channel) && !Blank(n.status)
  }

  predicate NoneBlank(values: seq<string>) {
    forall i :: 0 <= i < |values| ==> !Blank(values[i])
  }

  predicate OnlyBlanks(items: seq<string>) {
    items != [] && forall i :: 0 <= i < |items| ==> Blank(items[i])
  }

  /** Some filter of the rule lists nothing but blanks. */
  predicate BlankFilter(rule: Rule) {
    || OnlyBlanks(rule.eventTypes) || OnlyBlanks(rule.priorities) || OnlyBlanks(rule.channels)
    || OnlyBlanks(rule.statuses) || OnlyBlanks(rule.tags) || OnlyBlanks(rule.tagPrefixes)
  }

  // ---------------------------------------------------------------- one filter

  predicate Rejects(values: seq<string>, items: seq<string>) { |items| > 0 && !HasAnyFold(values, items) }

  predicate RejectsPrefix(values: seq<string>, items: seq<string>) { |items| > 0 && !HasPrefixMatchFold(values, items) }

  /** A filter is stored empty exactly when it was empty or all blank. */
  lemma StoredEmpty(items: seq<string>)
    ensures Sanitized(items) == [] <==> items == [] || OnlyBlanks(items)
  {
    if Sanitized(items) != [] {
      var k := SomethingAsked(items);
    } else if items != [] {
      forall k | 0 <= k < |items| ensures Blank(items[k]) {
        if !Blank(items[k]) {
          var i := SanitizedCovers(items, k);
          assert false;
        }
      }
    }
  }

  lemma BlanksMatchNothing(values: seq<string>, items: seq<string>)
    requires OnlyBlanks(items)
    ensures NoneBlank(values) ==> !HasAnyFold(values, items)
    ensures !HasPrefixMatchFold(values, items)
  {
    assert forall s: string :: |Lower(s)| == |s|;
  }

  lemma FilterStored(values: seq<string>, items: seq<string>)
    requires NoneBlank(values)
    ensures !OnlyBlanks(items) ==> Rejects(values, Sanitized(items)) == Rejects(values, items)
    ensures !OnlyBlanks(items) ==> RejectsPrefix(values, Sanitized(items)) == RejectsPrefix(values, items)
    ensures OnlyBlanks(items) ==> Rejects(values, items) && RejectsPrefix(values, items)
  {
    StoredEmpty(items);
    StoredAnswersSame(values, items);
    StoredPrefixesSame(values, items);
    if OnlyBlanks(items) {
      BlanksMatchNothing(values, items);
    }
  }

  // ---------------------------------------------------------------- the tags of a notification are not blank

  lemma LowerKeepsTrimmed(s: string)
    requires Trimmed(GoSpace, s)
    ensures Trimmed(GoSpace, Lower(s))
  {
    if s != [] {
      LowerAt(s, 0);
      LowerAt(s, |s| - 1);
    }
  }

  lemma TagsNotBlank(tags: seq<string>, metadata: Metadata)
    requires TagsOf(tags, metadata)
    ensures NoneBlank(tags)
  {
    hide Contributes, Trim, Trimmed, Lower;
    forall i | 0 <= i < |tags| ensures !Blank(tags[i]) {
      assert tags[i] in TagSet(metadata);
      var raw :| Contributes(metadata, raw) && TrimSpace(raw) != "" && tags[i] == Lower(TrimSpace(raw));
      TrimIsTrimmed(GoSpace, raw);
      LowerKeepsTrimmed(TrimSpace(raw));
      TrimmedStays(GoSpace, tags[i]);
    }
  }

  // ---------------------------------------------------------------- one rule

  /** The verdict of a rule is the first rejecting filter. */
  lemma VerdictByFilters(rule: Rule, n: Notification, tags: seq<string>)
    ensures EvaluateRoutingRule(rule, n, tags) ==
            if !rule.enabled then [RuleDisabled]
            else if Rejects([n.kind], rule.eventTypes) then [EventTypeMismatch]
            else if Rejects([n.priority], rule.priorities) then [PriorityMismatch]
            else if Rejects([n.channel], rule.channels) then [ChannelMismatch]
            else if Rejects([n.status], rule.statuses) then [StatusMismatch]
            else if Rejects(tags, rule.tags) then [TagMismatch]
            else if RejectsPrefix(tags, rule.tagPrefixes) then [TagPrefixMismatch]
            else []
  {
    hide HasAnyFold, HasPrefixMatchFold;
  }

  lemma FiltersStored(rule: Rule, n: Notification, tags: seq<string>)
    requires Written(n) && NoneBlank(tags)
    ensures !BlankFilter(rule) ==> EvaluateRoutingRule(Cleaned(rule), n, tags) == EvaluateRoutingRule(rule, n, tags)
    ensures BlankFilter(rule) ==> EvaluateRoutingRule(rule, n, tags) != []
  {
    hide Rejects, RejectsPrefix, OnlyBlanks, NoneBlank, Blank, EvaluateRoutingRule, Sanitized, TrimSpace;
    OneBlank(n.kind);
    OneBlank(n.priority);
    OneBlank(n.channel);
    OneBlank(n.status);
    FilterStored([n.kind], rule.eventTypes);
    FilterStored([n.priority], rule.priorities);
    FilterStored([n.channel], rule.channels);
    FilterStored([n.status], rule.statuses);
    FilterStored(tags, rule.tags);
    FilterStored(tags, rule.tagPrefixes);
    VerdictByFilters(rule, n, tags);
    VerdictByFilters(Cleaned(rule), n, tags);
  }

  lemma OneBlank(value: string)
    ensures NoneBlank([value]) <==> !Blank(value)
  {
    assert [value][0] == value;
  }

  // ---------------------------------------------------------------- a notification for every stored rule

  function Sample(items: seq<string>): string {
    if Sanitized(items) == [] then "x" else Sanitized(items)[0]
  }

  lemma SampleFits(items: seq<string>)
    ensures !Blank(Sample(items)) && Trimmed(GoSpace, Sample(items))
  {
    SanitizedIsClean(items);
    assert !GoSpace("x"[0]);
    assert Trimmed(GoSpace, "x");
    TrimmedStays(GoSpace, Sample(items));
  }

  lemma SampleAccepted(items: seq<string>, values: seq<string>, value: string)
    requires value in values && (value == Sample(items) || value == Lower(Sample(items)))
    ensures !Rejects(values, Sanitized(items)) && !RejectsPrefix(values, Sanitized(items))
  {
    hide Lower, Trim;
    if Sanitized(items) != [] {
      var sample := Sanitized(items)[0];
      SampleFits(items);
      LowerKeepsTrimmed(sample);
      TrimmedStays(GoSpace, sample);
      TrimmedStays(GoSpace, Lower(sample));
      LowerIdempotent(sample);
      var i :| 0 <= i < |values| && values[i] == value;
      assert EqualFold(TrimSpace(values[i]), TrimSpace(Sanitized(items)[0]));
      SampleLowerNotEmpty(sample);
      assert PrefixFold(values[i], Sanitized(items)[0]);
    }
  }

  lemma SampleLowerNotEmpty(sample: string)
    requires TrimSpace(sample) != ""
    ensures Lower(TrimSpace(sample)) != ""
  {
    assert |Lower(TrimSpace(sample))| == |TrimSpace(sample)|;
  }

  /** Two tags listed under "tags" are the tags, in lower case. */
  lemma ListedTagsAre(a: string, b: string) returns (metadata: Metadata)
    requires !Blank(a) && Trimmed(GoSpace, a) && !Blank(b) && Trimmed(GoSpace, b)
    ensures TagsOf([Lower(a), Lower(b)], metadata)
  {
    metadata := map["tags" := Texts([a, b])];
    ListsAreNoKeyTags(metadata["tags"]);
    ContributionsAre(a, b, metadata);
    TrimmedStays(GoSpace, a);
    TrimmedStays(GoSpace, b);
    TwoTags(a, b, metadata);
  }

  lemma ContributionsAre(a: string, b: string, metadata: Metadata)
    requires metadata == map["tags" := Texts([a, b])] && KeyTag("tags", metadata["tags"]) == ""
    ensures forall raw :: Contributes(metadata, raw) <==> raw == a || raw == b || raw == ""
  {
    hide KeyTag;
    var listed := ListedTags(metadata, "tags");
    assert listed == [a, b] && listed[0] == a && listed[1] == b;
    assert "tags" in metadata && "einfra.tags" !in metadata by {
      assert |"tags"| != |"einfra.tags"|;
    }
  }

  lemma TwoTags(a: string, b: string, metadata: Metadata)
    requires forall raw :: Contributes(metadata, raw) <==> raw == a || raw == b || raw == ""
    requires TrimSpace(a) == a != "" && TrimSpace(b) == b != ""
    ensures TagsOf([Lower(a), Lower(b)], metadata)
  {
    hide Contributes, Lower;
    var tags := [Lower(a), Lower(b)];
    assert tags[0] == Lower(a) && tags[1] == Lower(b);
    assert TrimSpace("") == "";
    forall tag ensures tag in tags <==> tag in TagSet(metadata) {
      if tag in tags {
        var raw := if tag == Lower(a) then a else b;
        assert Contributes(metadata, raw) && TrimSpace(raw) != "" && tag == Lower(TrimSpace(raw));
      }
    }
  }

  /** Every enabled rule that is stored lets some notification through. */
  lemma StoredRuleMatchesSome(rule: Rule) returns (n: Notification, tags: seq<string>)
    requires rule.enabled
    ensures Written(n) && TagsOf(tags, n.metadata) && RuleMatches(Cleaned(rule), n, tags)
  {
    hide Sample, Lower, Blank, Trimmed, EvaluateRoutingRule, Rejects, RejectsPrefix, TagsOf, Sanitized, TrimSpace;
    SampleFits(rule.eventTypes);
    SampleFits(rule.priorities);
    SampleFits(rule.channels);
    SampleFits(rule.statuses);
    SampleFits(rule.tags);
    SampleFits(rule.tagPrefixes);
    var metadata := ListedTagsAre(Sample(rule.tags), Sample(rule.tagPrefixes));
    n := Notification(Sample(rule.eventTypes), Sample(rule.priorities), Sample(rule.channels),
      Sample(rule.statuses), metadata);
    tags := [Lower(Sample(rule.tags)), Lower(Sample(rule.tagPrefixes))];
    assert tags[0] == Lower(Sample(rule.tags)) && tags[1] == Lower(Sample(rule.tagPrefixes));
    SampleAccepted(rule.eventTypes, [n.kind], n.kind);
    SampleAccepted(rule.priorities, [n.priority], n.priority);
    SampleAccepted(rule.channels, [n.channel], n.channel);
    SampleAccepted(rule.statuses, [n.status], n.status);
    SampleAccepted(rule.tags, tags, tags[0]);
    SampleAccepted(rule.tagPrefixes, tags, tags[1]);
    VerdictByFilters(Cleaned(rule), n, tags);
  }

  /** A row gives every notification the verdict, with the reason, of the rule asked for. */
  ghost predicate KeepsVerdicts(asked: Rule, row: Rule) {
    forall n: Notification, tags: seq<string> :: Written(n) && TagsOf(tags, n.metadata) ==>
      EvaluateRoutingRule(row, n, tags) == EvaluateRoutingRule(asked, n, tags)
  }

  /** Cleaning the lists keeps the verdicts exactly when the rule is disabled or none of its filters lists nothing but
      blanks: such a filter lets nothing pass as asked for, and everything once stored. */
  lemma CleaningKeepsVerdicts(rule: Rule)
    ensures KeepsVerdicts(rule, Cleaned(rule)) <==> !rule.enabled || !BlankFilter(rule)
  {
    hide EvaluateRoutingRule, BlankFilter, Written, TagsOf, Cleaned;
    if !rule.enabled || !BlankFilter(rule) {
      forall n: Notification, tags: seq<string> | Written(n) && TagsOf(tags, n.metadata)
        ensures EvaluateRoutingRule(Cleaned(rule), n, tags) == EvaluateRoutingRule(rule, n, tags)
      {
        TagsNotBlank(tags, n.metadata);
        FiltersStored(rule, n, tags);
        if !rule.enabled {
          DisabledVerdict(rule, n, tags);
        }
      }
    } else {
      var n, tags := StoredRuleMatchesSome(rule);
      TagsNotBlank(tags, n.metadata);
      FiltersStored(rule, n, tags);
      assert EvaluateRoutingRule(Cleaned(rule), n, tags) != EvaluateRoutingRule(rule, n, tags);
    }
  }

  lemma DisabledVerdict(rule: Rule, n: Notification, tags: seq<string>)
    requires !rule.enabled
    ensures EvaluateRoutingRule(rule, n, tags) == EvaluateRoutingRule(Cleaned(rule), n, tags) == [RuleDisabled]
  {
  }

  lemma SameSwitchAndLists(a: Rule, b: Rule)
    requires a == b.(id := a.id, integrationKind := a.integrationKind)
    ensures forall n, tags :: EvaluateRoutingRule(a, n, tags) == EvaluateRoutingRule(b, n, tags)
  {
    hide HasAnyFold, HasPrefixMatchFold;
  }

  /** An update keeps the verdicts exactly when the rule is disabled or none of its filters lists nothing but blanks. */
  lemma UpdatingKeepsVerdicts(before: Rule, asked: Rule)
    ensures KeepsVerdicts(asked, Updated(before, asked)) <==> !asked.enabled || !BlankFilter(asked)
  {
    hide EvaluateRoutingRule, BlankFilter, Written, TagsOf, Cleaned;
    SameSwitchAndLists(Updated(before, asked), Cleaned(asked));
    CleaningKeepsVerdicts(asked);
  }

  /** A create keeps them exactly when the rule is asked to be enabled, besides. */
  lemma CreatingKeepsVerdicts(asked: Rule)
    ensures Created(asked).None? <==> Blank(asked.integrationKind)
    ensures Created(asked).Some? ==>
              (KeepsVerdicts(asked, Created(asked).value) <==> asked.enabled && !BlankFilter(asked))
  {
    hide EvaluateRoutingRule, BlankFilter, Written, TagsOf, Sanitized, TrimSpace;
    if Created(asked).Some? {
      var row := Created(asked).value;
      if asked.enabled {
        SameSwitchAndLists(row, Cleaned(asked));
        CleaningKeepsVerdicts(asked);
      } else {
        var n, tags := StoredRuleMatchesSome(asked.(enabled := true));
        SameSwitchAndLists(row, Cleaned(asked.(enabled := true)));
        DisabledVerdict(asked, n, tags);
        assert EvaluateRoutingRule(row, n, tags) != EvaluateRoutingRule(asked, n, tags);
      }
    }
  }

  /** A rule without filters, created switched off: asked for it matches nothing, stored it matches everything. */
  lemma CreatedDisabledMatches()
    ensures var asked := Unfiltered(false, "telegram");
            && Created(asked) == Some(Unfiltered(true, "telegram"))
            && (forall n, tags :: !RuleMatches(asked, n, tags) && RuleMatches(Created(asked).value, n, tags))
  {
    assert Trimmed(GoSpace, "telegram");
    TrimmedStays(GoSpace, "telegram");
  }

  /** A new row has the id drawn for it, the trimmed kind, and is enabled. An updated one keeps its id, takes the switch
      asked for, and the kind asked for unless that is blank. */
  lemma RowFields(before: Rule, asked: Rule)
    ensures Created(asked).Some? ==>
              && Created(asked).value.id == asked.id && Created(asked).value.enabled
              && Created(asked).value.integrationKind == TrimSpace(asked.integrationKind)
    ensures var row := Updated(before, asked);
            && row.id == before.id && row.enabled == asked.enabled
            && row.integrationKind == if Blank(asked.integrationKind) then before.integrationKind
                                      else TrimSpace(asked.integrationKind)
  {
    hide TrimLeft, TrimRight;
    TrimIsTrimmed(GoSpace, asked.integrationKind);
    TrimmedStays(GoSpace, TrimSpace(asked.integrationKind));
  }

  // ---------------------------------------------------------------- the table of rules

  /** A row as create and update requests leave it. */
  predicate IsStored(rule: Rule) {
    Cleaned(rule) == rule && Trimmed(GoSpace, rule.integrationKind) && rule.integrationKind != ""
  }

  predicate StoredAll(rules: seq<Rule>) {
    forall i :: 0 <= i < |rules| ==> IsStored(rules[i])
  }

  lemma CleanedOnce(rule: Rule)
    ensures Cleaned(Cleaned(rule)) == Cleaned(rule)
  {
    hide Sanitized;
    SanitizedIdempotent(rule.eventTypes);
    SanitizedIdempotent(rule.priorities);
    SanitizedIdempotent(rule.channels);
    SanitizedIdempotent(rule.statuses);
    SanitizedIdempotent(rule.tags);
    SanitizedIdempotent(rule.tagPrefixes);
  }

  /** Rows stay clean and keep a kind whatever is asked for. */
  lemma RowsStayStored(before: Rule, asked: Rule)
    ensures Created(asked).Some? ==> IsStored(Created(asked).value)
    ensures IsStored(before) ==> IsStored(Updated(before, asked))
  {
    hide Sanitized, Trim, Trimmed;
    CleanedOnce(asked);
    TrimIsTrimmed(GoSpace, asked.integrationKind);
    TrimmedStays(GoSpace, TrimSpace(asked.integrationKind));
  }

  // ---------------------------------------------------------------- for which rules is the simulator always right?

  ghost predicate PredictedRight(rules: seq<Rule>, integration: Integration, n: Notification) {
    forall tags, tags' :: TagsOf(tags, n.metadata) && TagsOf(tags', n.metadata) ==>
      (WouldDeliver(rules, integration, n, tags) <==> Sends(rules, integration, n, tags'))
  }

  /** The prediction is right for every integration of the kind and every notification. */
  ghost predicate AlwaysRight(rules: seq<Rule>, kind: string) {
    forall integration: Integration, n: Notification :: integration.kind == kind && Written(n) ==>
      PredictedRight(rules, integration, n)
  }

  /** All rules meant for the kind spell it the same way. */
  predicate SpelledAlike(rules: seq<Rule>, kind: string, spelling: string) {
    forall i :: 0 <= i < |rules| && EqualFold(rules[i].integrationKind, kind) ==> rules[i].integrationKind == spelling
  }

  lemma NoRulesIsTidy(rules: seq<Rule>, kind: string)
    requires !HasRulesForIntegration(rules, kind)
    ensures TidyRules(rules, kind)
  {
  }

  /** Some rule meant for the kind is enabled. */
  predicate AnyEnabled(rules: seq<Rule>, kind: string) {
    exists i :: 0 <= i < |rules| && rules[i].enabled && EqualFold(rules[i].integrationKind, kind)
  }

  /** Every notification matched by a rule meant for the kind is matched by one that spells it alike. */
  ghost predicate VariantsCovered(rules: seq<Rule>, kind: string) {
    forall n: Notification, tags: seq<string> :: Written(n) && TagsOf(tags, n.metadata) ==>
      MatchesAnyRoutingRule(rules, kind, n, tags) ==> SpelledMatch(rules, kind, n, tags)
  }

  lemma EnabledAmong(rules: seq<Rule>, kind: string)
    ensures HasRulesForIntegration(EnabledRules(rules), kind) <==> AnyEnabled(rules, kind)
  {
    hide EqualFold;
    if HasRulesForIntegration(EnabledRules(rules), kind) {
      var j :| 0 <= j < |EnabledRules(rules)| && EqualFold(EnabledRules(rules)[j].integrationKind, kind);
      var i := AllIndex(rules, j);
    }
    if i :| 0 <= i < |rules| && rules[i].enabled && EqualFold(rules[i].integrationKind, kind) {
      var j := EnabledIndex(rules, i);
    }
  }

  lemma MatchIsEnabled(rules: seq<Rule>, kind: string, n: Notification, tags: seq<string>)
    requires MatchesAnyRoutingRule(rules, kind, n, tags)
    ensures AnyEnabled(rules, kind) && HasRulesForIntegration(rules, kind)
  {
    hide EqualFold, HasAnyFold, HasPrefixMatchFold;
  }

  lemma SpelledMatches(rules: seq<Rule>, kind: string, n: Notification, tags: seq<string>)
    requires SpelledMatch(rules, kind, n, tags)
    ensures MatchesAnyRoutingRule(rules, kind, n, tags)
  {
    hide Lower, EvaluateRoutingRule;
  }

  /** What the two decisions come down to. */
  lemma DecisionsByRules(rules: seq<Rule>, integration: Integration, n: Notification, tags: seq<string>)
    ensures var kind := integration.kind;
            && (WouldDeliver(rules, integration, n, tags) <==>
                Eligible(integration, n, tags) &&
                (HasRulesForIntegration(rules, kind) ==> SpelledMatch(rules, kind, n, tags)))
            && (Sends(rules, integration, n, tags) <==>
                Eligible(integration, n, tags) &&
                (AnyEnabled(rules, kind) ==> MatchesAnyRoutingRule(rules, kind, n, tags)))
  {
    hide Eligible, MatchesAnyRoutingRule, HasRulesForIntegration, SpelledMatch, AnyEnabled, EnabledRules;
    EnabledAmong(rules, integration.kind);
    MatchAmongAll(rules, integration.kind, n, tags);
  }

  /** The simulator is right about every integration of a kind and every notification exactly when no rule is meant for
      the kind, or one is enabled and the rules that spell it differently match nothing more than those that do not. */
  lemma AlwaysRightExactly(rules: seq<Rule>, kind: string)
    ensures AlwaysRight(rules, kind) <==>
            !HasRulesForIntegration(rules, kind) || (AnyEnabled(rules, kind) && VariantsCovered(rules, kind))
  {
    hide WouldDeliver, Sends, HasRulesForIntegration, AnyEnabled, VariantsCovered, Written, TagsOf;
    if !HasRulesForIntegration(rules, kind) {
      NoRulesIsTidy(rules, kind);
      TidyIsAlwaysRight(rules, kind);
    } else if !AnyEnabled(rules, kind) {
      PlainestIsWritten();
      NoTags();
      Misled(rules, kind, Plainest, []);
    } else if VariantsCovered(rules, kind) {
      CoveredIsAlwaysRight(rules, kind);
    } else {
      var n, tags := NotCovered(rules, kind);
      Misled(rules, kind, n, tags);
    }
  }

  lemma NotCovered(rules: seq<Rule>, kind: string) returns (n: Notification, tags: seq<string>)
    requires !VariantsCovered(rules, kind)
    ensures Written(n) && TagsOf(tags, n.metadata)
    ensures MatchesAnyRoutingRule(rules, kind, n, tags) && !SpelledMatch(rules, kind, n, tags)
  {
    hide Written, TagsOf, MatchesAnyRoutingRule, SpelledMatch;
    n, tags :| && Written(n) && TagsOf(tags, n.metadata)
               && MatchesAnyRoutingRule(rules, kind, n, tags) && !SpelledMatch(rules, kind, n, tags);
  }

  /** A notification sent without a prediction. */
  lemma Misled(rules: seq<Rule>, kind: string, n: Notification, tags: seq<string>)
    requires Written(n) && TagsOf(tags, n.metadata) && HasRulesForIntegration(rules, kind)
    requires !AnyEnabled(rules, kind) || MatchesAnyRoutingRule(rules, kind, n, tags)
    requires !AnyEnabled(rules, kind) || !SpelledMatch(rules, kind, n, tags)
    ensures !WouldDeliver(rules, Open(kind), n, tags) && Sends(rules, Open(kind), n, tags) && !AlwaysRight(rules, kind)
  {
    hide Eligible, MatchesAnyRoutingRule, HasRulesForIntegration, SpelledMatch, AnyEnabled, WouldDeliver, Sends;
    hide Written, TagsOf;
    OpenIsEligible(kind, n, tags);
    DecisionsByRules(rules, Open(kind), n, tags);
    if SpelledMatch(rules, kind, n, tags) {
      SpelledMatches(rules, kind, n, tags);
      MatchIsEnabled(rules, kind, n, tags);
    }
    assert !PredictedRight(rules, Open(kind), n);
  }

  lemma CoveredIsAlwaysRight(rules: seq<Rule>, kind: string)
    requires HasRulesForIntegration(rules, kind) && AnyEnabled(rules, kind) && VariantsCovered(rules, kind)
    ensures AlwaysRight(rules, kind)
  {
    hide Eligible, MatchesAnyRoutingRule, HasRulesForIntegration, SpelledMatch, AnyEnabled, WouldDeliver, Sends;
    hide Written, TagsOf;
    forall integration: Integration, n: Notification | integration.kind == kind && Written(n)
      ensures PredictedRight(rules, integration, n)
    {
      forall tags, tags' | TagsOf(tags, n.metadata) && TagsOf(tags', n.metadata)
        ensures WouldDeliver(rules, integration, n, tags) <==> Sends(rules, integration, n, tags')
      {
        BothOrders(rules, integration, n, tags, tags');
        DecisionsByRules(rules, integration, n, tags);
        if SpelledMatch(rules, kind, n, tags) {
          SpelledMatches(rules, kind, n, tags);
        }
      }
    }
  }

  lemma BothOrders(rules: seq<Rule>, integration: Integration, n: Notification, tags: seq<string>, tags': seq<string>)
    requires TagsOf(tags, n.metadata) && TagsOf(tags', n.metadata)
    ensures Sends(rules, integration, n, tags) <==> Sends(rules, integration, n, tags')
  {
    hide Sends, TagSet;
    SendsAnyOrder(rules, integration, n, tags, tags');
  }

  /** One enabled rule without filters, spelled like the kind, makes the simulator right whatever the other rules. */
  lemma UnfilteredRuleRight(rules: seq<Rule>, kind: string, i: nat)
    requires i < |rules| && rules[i] == Unfiltered(true, kind).(id := rules[i].id)
    ensures AlwaysRight(rules, kind)
  {
    hide Lower, Written, TagsOf, AlwaysRight;
    assert EqualFold(rules[i].integrationKind, kind);
    forall n: Notification, tags: seq<string> ensures SpelledMatch(rules, kind, n, tags) {
      assert RuleMatches(rules[i], n, tags);
    }
    AlwaysRightExactly(rules, kind);
  }

  lemma PlainestIsWritten()
    ensures Written(Plainest)
  {
    hide Blank, Lettered;
    EndsAreLetters();
    LetteredNotBlank("system");
    LetteredNotBlank("medium");
    LetteredNotBlank("in-app");
    LetteredNotBlank("open");
  }

  /** Both ends are small letters. */
  predicate Lettered(s: string) {
    s != "" && 'a' <= s[0] <= 'z' && 'a' <= s[|s| - 1] <= 'z'
  }

  lemma EndsAreLetters()
    ensures Lettered("system") && Lettered("medium") && Lettered("in-app") && Lettered("open")
  {
  }

  lemma LetteredNotBlank(s: string)
    requires Lettered(s)
    ensures !Blank(s)
  {
    assert !GoSpace(s[0]) && !GoSpace(s[|s| - 1]);
    TrimmedStays(GoSpace, s);
  }

  /** Where the rules meant for a kind are spelled alike, that comes down to there being none, or to the spelling being
      the kind's and one of them being enabled. */
  lemma AlikeRightExactly(rules: seq<Rule>, kind: string, spelling: string)
    requires StoredAll(rules) && SpelledAlike(rules, kind, spelling)
    ensures AlwaysRight(rules, kind) <==>
            !HasRulesForIntegration(rules, kind) || (spelling == kind && AnyEnabled(rules, kind))
  {
    hide AlwaysRight, HasRulesForIntegration, AnyEnabled, VariantsCovered, StoredAll;
    AlwaysRightExactly(rules, kind);
    if AnyEnabled(rules, kind) {
      if spelling == kind {
        AlikeCovered(rules, kind);
      } else {
        OtherSpellingUncovered(rules, kind, spelling);
      }
    }
  }

  lemma AlikeCovered(rules: seq<Rule>, kind: string)
    requires SpelledAlike(rules, kind, kind)
    ensures VariantsCovered(rules, kind)
  {
    hide EqualFold, EvaluateRoutingRule, Written, TagsOf;
  }

  lemma OtherSpellingUncovered(rules: seq<Rule>, kind: string, spelling: string)
    requires StoredAll(rules) && SpelledAlike(rules, kind, spelling) && spelling != kind && AnyEnabled(rules, kind)
    ensures !VariantsCovered(rules, kind)
  {
    hide Lower, EvaluateRoutingRule, Written, TagsOf, Cleaned, Trimmed;
    var i :| 0 <= i < |rules| && rules[i].enabled && EqualFold(rules[i].integrationKind, kind);
    assert IsStored(rules[i]);
    var n, tags := StoredRuleMatchesSome(rules[i]);
    assert MatchesAnyRoutingRule(rules, kind, n, tags);
    assert forall j :: 0 <= j < |rules| && rules[j].integrationKind == kind ==>
           EqualFold(rules[j].integrationKind, kind);
    assert !SpelledMatch(rules, kind, n, tags);
  }

  lemma TidyIsAlwaysRight(rules: seq<Rule>, kind: string)
    requires TidyRules(rules, kind)
    ensures AlwaysRight(rules, kind)
  {
    hide TagsOf, Written, WouldDeliver, Sends, TidyRules;
    forall integration: Integration, n: Notification | integration.kind == kind && Written(n)
      ensures PredictedRight(rules, integration, n)
    {
      forall tags, tags' | TagsOf(tags, n.metadata) && TagsOf(tags', n.metadata)
        ensures WouldDeliver(rules, integration, n, tags) <==> Sends(rules, integration, n, tags')
      {
        TidyRulesPredicted(rules, integration, n, tags, tags');
      }
    }
  }

  /** What the simulator tries is a notification as the service writes it. */
  lemma TriedIsWritten(req: Request, metadata: Metadata)
    ensures Written(TriedNotification(req, metadata))
  {
    hide Blank, Lettered, DefaultString;
    EndsAreLetters();
    DefaultNotBlank(req.kind, "system");
    DefaultNotBlank(req.priority, "medium");
    DefaultNotBlank(req.channel, "in-app");
    DefaultNotBlank(req.status, "open");
  }

  lemma DefaultNotBlank(value: string, fallback: string)
    requires Lettered(fallback)
    ensures !Blank(DefaultString(value, fallback))
  {
    LetteredNotBlank(fallback);
    TrimIsTrimmed(GoSpace, value);
    TrimmedStays(GoSpace, TrimSpace(value));
  }
}
