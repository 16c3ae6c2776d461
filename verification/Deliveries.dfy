/** What decides whether a notification is delivered, told from the texts of rules, filters and metadata. */
module Deliveries {
  import opened Text
  import opened Wrappers
  import opened Sanitize
  import opened Routing

  // ---------------------------------------------------------------- white space and case

  lemma {:induction false} TrimLeftLower(s: string)
    ensures TrimLeft(GoSpace, Lower(s)) == Lower(TrimLeft(GoSpace, s))
  {
    if s != [] {
      TrimLeftLower(s[1..]);
      assert Lower(s)[0] == LowerChar(s[0]) && Lower(s)[1..] == Lower(s[1..]);
    }
  }

  lemma {:induction false} LowerConcat(a: string, b: string)
    ensures Lower(a + b) == Lower(a) + Lower(b)
  {
    if a == [] {
      assert a + b == b;
    } else {
      assert (a + b)[1..] == a[1..] + b;
      LowerConcat(a[1..], b);
    }
  }

  lemma LowerOne(c: char)
    ensures Lower([c]) == [LowerChar(c)]
  {
    assert [c][1..] == [];
  }

  lemma LowerPrefix(s: string, n: nat)
    requires n <= |s|
    ensures Lower(s)[..n] == Lower(s[..n])
  {
    hide Lower;
    assert s == s[..n] + s[n..];
    LowerConcat(s[..n], s[n..]);
  }

  lemma TrimRightLast(s: string, c: char)
    ensures TrimRight(GoSpace, s + [c]) == if GoSpace(c) then TrimRight(GoSpace, s) else s + [c]
  {
    assert (s + [c])[..|s|] == s;
  }

  lemma SpaceStays(c: char)
    ensures GoSpace(LowerChar(c)) <==> GoSpace(c)
  {
  }

  lemma {:induction false} TrimRightLower(s: string)
    ensures TrimRight(GoSpace, Lower(s)) == Lower(TrimRight(GoSpace, s))
  {
    if s == [] {
      NoLetters();
    } else {
      hide Lower, TrimRight, GoSpace, LowerChar;
      var init, c := s[..|s| - 1], s[|s| - 1];
      assert s == init + [c];
      LowerConcat(init, [c]);
      LowerOne(c);
      TrimRightLast(init, c);
      TrimRightLast(Lower(init), LowerChar(c));
      SpaceStays(c);
      TrimRightLower(init);
    }
  }

  lemma NoLetters()
    ensures Lower([]) == []
  {
  }

  lemma TrimLower(s: string)
    ensures TrimSpace(Lower(s)) == Lower(TrimSpace(s))
  {
    hide Lower, TrimLeft, TrimRight;
    TrimLeftLower(s);
    TrimRightLower(TrimLeft(GoSpace, s));
  }

  /** The part occurs somewhere in the text. */
  ghost predicate Within(part: string, text: string) {
    exists front, back :: text == front + part + back
  }

  lemma ContainsWithin(text: string, part: string)
    ensures Contains(text, part) <==> Within(part, text)
  {
    if Contains(text, part) {
      var i :| 0 <= i <= |text| && HasPrefix(text[i..], part);
      assert text == text[..i] + part + text[i + |part|..];
    }
    if Within(part, text) {
      var front, back :| text == front + part + back;
      var i := |front|;
      assert text[i..] == part + back;
    }
  }

  // ---------------------------------------------------------------- the texts of a provider

  /** What the metadata prints under a key; nothing when it is missing or null. */
  function Setting(m: Metadata, key: string): string {
    if key !in m || m[key] == Null then "" else Sprint(m[key])
  }

  /** A filter passes what it names up to case; blank or "all" it passes everything. */
  predicate Passes(setting: string, actual: string) {
    var text := TrimSpace(setting);
    text == "" || EqualFold(text, "all") || EqualFold(text, actual)
  }

  lemma FilterPasses(m: Metadata, key: string, actual: string)
    ensures FilterRejects(m, key, actual) <==> !Passes(Setting(m, key), actual)
  {
    hide TrimSpace, Sprint;
    var text := Setting(m, key);
    TrimLower(text);
    LowerIdempotent(TrimSpace(text));
    assert |Lower(TrimSpace(text))| == |TrimSpace(text)|;
    assert Lower("all") == "all" by { LowerOfAll(); }
  }

  lemma LowerOfAll()
    ensures Lower("all") == "all"
  {
  }

  /** A piece of a comma-separated list, blank pieces aside. */
  predicate Piece(list: string, item: string) {
    item != "" && exists i :: 0 <= i < |Split(list, ',')| && TrimSpace(Split(list, ',')[i]) == item
  }

  lemma {:induction false} NonBlankAre(parts: seq<string>, item: string)
    ensures item in NonBlank(parts) <==>
            item != "" && exists i :: 0 <= i < |parts| && TrimSpace(parts[i]) == item
  {
    hide TrimSpace;
    if parts != [] {
      NonBlankAre(parts[1..], item);
      assert forall i :: 1 <= i < |parts| ==> parts[i] == parts[1..][i - 1];
      if i :| 0 <= i < |parts| && TrimSpace(parts[i]) == item && i > 0 {
        assert TrimSpace(parts[1..][i - 1]) == item;
      }
      if j :| 0 <= j < |parts[1..]| && TrimSpace(parts[1..][j]) == item {
        assert TrimSpace(parts[j + 1]) == item;
      }
    }
  }

  lemma NothingTrims()
    ensures TrimSpace("") == ""
  {
  }

  lemma CsvAre(m: Metadata, key: string, item: string)
    ensures item in CsvMetadata(m, key) <==> Piece(TrimSpace(Setting(m, key)), item)
  {
    hide TrimSpace, Sprint;
    var raw := TrimSpace(Setting(m, key));
    NonBlankAre(Split(raw, ','), item);
    if raw == "" {
      assert Split(raw, ',') == [[]];
      NothingTrims();
    }
  }

  /** None of the listed tags is asked for, or one of them is a tag up to case and white space. */
  ghost predicate TagsPass(setting: string, tags: seq<string>) {
    var list := TrimSpace(setting);
    (exists item :: Piece(list, item)) ==>
      exists item, k :: Piece(list, item) && 0 <= k < |tags| && EqualFold(TrimSpace(tags[k]), TrimSpace(item))
  }

  /** None of the listed prefixes is asked for, or some tag starts with one of them up to case and white space. */
  ghost predicate PrefixesPass(setting: string, tags: seq<string>) {
    var list := TrimSpace(setting);
    (exists item :: Piece(list, item)) ==>
      exists item, k :: Piece(list, item) && 0 <= k < |tags| && StartsWith(tags[k], item)
  }

  predicate StartsWith(tag: string, prefix: string) {
    var t, p := Lower(TrimSpace(tag)), Lower(TrimSpace(prefix));
    0 < |p| <= |t| && t[..|p|] == p
  }

  lemma TagFilterPasses(m: Metadata, tags: seq<string>)
    ensures |CsvMetadata(m, "route_tags")| > 0 && !HasAnyFold(tags, CsvMetadata(m, "route_tags")) <==>
            !TagsPass(Setting(m, "route_tags"), tags)
  {
    hide Lower, TrimSpace, CsvMetadata, Setting, Piece;
    var items, list := CsvMetadata(m, "route_tags"), TrimSpace(Setting(m, "route_tags"));
    forall item ensures item in items <==> Piece(list, item) {
      CsvAre(m, "route_tags", item);
    }
    if |items| > 0 {
      assert items[0] in items;
    }
    if HasAnyFold(tags, items) {
      var i, j :| 0 <= i < |tags| && 0 <= j < |items| && EqualFold(TrimSpace(tags[i]), TrimSpace(items[j]));
      assert items[j] in items;
    }
    if item, k :| Piece(list, item) && 0 <= k < |tags| && EqualFold(TrimSpace(tags[k]), TrimSpace(item)) {
      var j :| 0 <= j < |items| && items[j] == item;
    }
  }

  lemma PrefixFilterPasses(m: Metadata, tags: seq<string>)
    ensures |CsvMetadata(m, "route_tag_prefixes")| > 0 &&
            !HasPrefixMatchFold(tags, CsvMetadata(m, "route_tag_prefixes")) <==>
            !PrefixesPass(Setting(m, "route_tag_prefixes"), tags)
  {
    hide Lower, TrimSpace, CsvMetadata, Setting, Piece;
    var items, list := CsvMetadata(m, "route_tag_prefixes"), TrimSpace(Setting(m, "route_tag_prefixes"));
    forall item ensures item in items <==> Piece(list, item) {
      CsvAre(m, "route_tag_prefixes", item);
    }
    if |items| > 0 {
      assert items[0] in items;
    }
    if HasPrefixMatchFold(tags, items) {
      var i, j :| 0 <= i < |tags| && 0 <= j < |items| && PrefixFold(tags[i], items[j]);
      assert items[j] in items && StartsWith(tags[i], items[j]);
    }
    if item, k :| Piece(list, item) && 0 <= k < |tags| && StartsWith(tags[k], item) {
      var j :| 0 <= j < |items| && items[j] == item;
      assert PrefixFold(tags[k], items[j]);
    }
  }

  /** The reason a provider's own filters give is that of the first that does not pass. */
  lemma FirstFilterReason(integration: Integration, n: Notification, tags: seq<string>)
    ensures var m := integration.metadata;
            EvaluateIntegrationFilters(integration, n, tags) ==
            if !Passes(Setting(m, "priority_filter"), n.priority) then [ProviderPriority]
            else if !Passes(Setting(m, "channel_filter"), n.channel) then [ProviderChannel]
            else if !Passes(Setting(m, "status_filter"), n.status) then [ProviderStatus]
            else if !Passes(Setting(m, "type_filter"), n.kind) then [ProviderType]
            else if !TagsPass(Setting(m, "route_tags"), tags) then [ProviderTag]
            else if !PrefixesPass(Setting(m, "route_tag_prefixes"), tags) then [ProviderTagPrefix]
            else []
  {
    hide FilterRejects, Passes, Setting, CsvMetadata, TagsPass, PrefixesPass, HasAnyFold, HasPrefixMatchFold;
    var m := integration.metadata;
    FilterPasses(m, "priority_filter", n.priority);
    FilterPasses(m, "channel_filter", n.channel);
    FilterPasses(m, "status_filter", n.status);
    FilterPasses(m, "type_filter", n.kind);
    TagFilterPasses(m, tags);
    PrefixFilterPasses(m, tags);
  }

  // ---------------------------------------------------------------- subscription

  /** Nothing is listed, or some listed item is a star or has the type or the status in it, up to case. */
  ghost predicate Subscribed(events: string, kind: string, status: string) {
    TrimSpace(events) == "" ||
    exists item :: Piece(TrimSpace(Lower(events)), item) &&
                   (item == "*" || Within(Lower(kind), item) || Within(Lower(status), item))
  }

  lemma InterestedExactly(events: string, kind: string, status: string)
    ensures IntegrationInterested(events, kind, status) <==> Subscribed(events, kind, status)
  {
    hide Lower, TrimSpace, Within, Contains, Split;
    var list := TrimSpace(Lower(events));
    TrimLower(events);
    assert list == "" <==> TrimSpace(events) == "" by {
      assert |Lower(TrimSpace(events))| == |TrimSpace(events)|;
    }
    forall item
      ensures EventMatches(item, kind, status) <==>
              item != "" && (item == "*" || Within(Lower(kind), item) || Within(Lower(status), item))
    {
      ContainsWithin(item, Lower(kind));
      ContainsWithin(item, Lower(status));
    }
    if i :| 0 <= i < |Split(list, ',')| && EventMatches(TrimSpace(Split(list, ',')[i]), kind, status) {
      assert Piece(list, TrimSpace(Split(list, ',')[i]));
    }
    if item :| Piece(list, item) && (item == "*" || Within(Lower(kind), item) || Within(Lower(status), item)) {
      var i :| 0 <= i < |Split(list, ',')| && TrimSpace(Split(list, ',')[i]) == item;
      assert EventMatches(TrimSpace(Split(list, ',')[i]), kind, status);
    }
  }

  // ---------------------------------------------------------------- rules

  /** The filter is empty, or lists the value up to case and white space. */
  predicate ValuePasses(items: seq<string>, value: string) {
    items == [] || exists j :: 0 <= j < |items| && EqualFold(TrimSpace(value), TrimSpace(items[j]))
  }

  /** The filter is empty, or lists one of the tags. */
  predicate AnyTagPasses(items: seq<string>, tags: seq<string>) {
    items == [] ||
    exists i, j :: 0 <= i < |tags| && 0 <= j < |items| && EqualFold(TrimSpace(tags[i]), TrimSpace(items[j]))
  }

  predicate AnyPrefixPasses(items: seq<string>, tags: seq<string>) {
    items == [] || exists i, j :: 0 <= i < |tags| && 0 <= j < |items| && StartsWith(tags[i], items[j])
  }

  predicate RuleFits(rule: Rule, n: Notification, tags: seq<string>) {
    && rule.enabled
    && ValuePasses(rule.eventTypes, n.kind) && ValuePasses(rule.priorities, n.priority)
    && ValuePasses(rule.channels, n.channel) && ValuePasses(rule.statuses, n.status)
    && AnyTagPasses(rule.tags, tags) && AnyPrefixPasses(rule.tagPrefixes, tags)
  }

  lemma ValueFilter(items: seq<string>, value: string)
    ensures |items| > 0 && !HasAnyFold([value], items) <==> !ValuePasses(items, value)
  {
    hide Lower, TrimSpace;
    assert [value][0] == value;
  }

  lemma PrefixFilter(items: seq<string>, tags: seq<string>)
    ensures |items| > 0 && !HasPrefixMatchFold(tags, items) <==> !AnyPrefixPasses(items, tags)
  {
    hide Lower, TrimSpace;
    assert forall tag, prefix :: PrefixFold(tag, prefix) <==> StartsWith(tag, prefix);
  }

  /** The reason a rule gives is that of the first test that fails: its switch, then its filters in this order. */
  lemma FirstRuleReason(rule: Rule, n: Notification, tags: seq<string>)
    ensures EvaluateRoutingRule(rule, n, tags) ==
            if !rule.enabled then [RuleDisabled]
            else if !ValuePasses(rule.eventTypes, n.kind) then [EventTypeMismatch]
            else if !ValuePasses(rule.priorities, n.priority) then [PriorityMismatch]
            else if !ValuePasses(rule.channels, n.channel) then [ChannelMismatch]
            else if !ValuePasses(rule.statuses, n.status) then [StatusMismatch]
            else if !AnyTagPasses(rule.tags, tags) then [TagMismatch]
            else if !AnyPrefixPasses(rule.tagPrefixes, tags) then [TagPrefixMismatch]
            else []
    ensures RuleMatches(rule, n, tags) <==> RuleFits(rule, n, tags)
  {
    hide ValuePasses, AnyPrefixPasses, HasPrefixMatchFold, EqualFold, TrimSpace;
    ValueFilter(rule.eventTypes, n.kind);
    ValueFilter(rule.priorities, n.priority);
    ValueFilter(rule.channels, n.channel);
    ValueFilter(rule.statuses, n.status);
    PrefixFilter(rule.tagPrefixes, tags);
  }

  // ---------------------------------------------------------------- delivery and prediction

  /** All six of the provider's own filters pass. */
  ghost predicate ProviderPasses(integration: Integration, n: Notification, tags: seq<string>) {
    var m := integration.metadata;
    && Passes(Setting(m, "priority_filter"), n.priority) && Passes(Setting(m, "channel_filter"), n.channel)
    && Passes(Setting(m, "status_filter"), n.status) && Passes(Setting(m, "type_filter"), n.kind)
    && TagsPass(Setting(m, "route_tags"), tags) && PrefixesPass(Setting(m, "route_tag_prefixes"), tags)
  }

  lemma EligibleExactly(integration: Integration, n: Notification, tags: seq<string>)
    ensures Eligible(integration, n, tags) <==>
            integration.enabled && Subscribed(integration.events, n.kind, n.status) &&
            ProviderPasses(integration, n, tags)
  {
    hide IntegrationInterested, Subscribed, EvaluateIntegrationFilters, Passes, Setting, TagsPass, PrefixesPass;
    InterestedExactly(integration.events, n.kind, n.status);
    FirstFilterReason(integration, n, tags);
  }

  /** A notification is sent to a provider exactly when the provider is switched on and subscribed, its own filters
      pass, and no enabled rule is meant for its kind, up to case, or one that is fits. */
  lemma SendsExactly(rules: seq<Rule>, integration: Integration, n: Notification, tags: seq<string>)
    ensures Sends(rules, integration, n, tags) <==>
            && integration.enabled && Subscribed(integration.events, n.kind, n.status)
            && ProviderPasses(integration, n, tags)
            && ((forall i :: 0 <= i < |rules| && rules[i].enabled ==>
                   !EqualFold(rules[i].integrationKind, integration.kind)) ||
                (exists i :: 0 <= i < |rules| && EqualFold(rules[i].integrationKind, integration.kind) &&
                             RuleFits(rules[i], n, tags)))
  {
    hide Eligible, Subscribed, ProviderPasses, EqualFold, RuleFits, EvaluateRoutingRule;
    EligibleExactly(integration, n, tags);
    MatchAmongAll(rules, integration.kind, n, tags);
    forall i | 0 <= i < |rules| ensures RuleMatches(rules[i], n, tags) <==> RuleFits(rules[i], n, tags) {
      FirstRuleReason(rules[i], n, tags);
    }
    if j :| 0 <= j < |EnabledRules(rules)| && EqualFold(EnabledRules(rules)[j].integrationKind, integration.kind) {
      var i := AllIndex(rules, j);
    }
    if i :| 0 <= i < |rules| && rules[i].enabled && EqualFold(rules[i].integrationKind, integration.kind) {
      var j := EnabledIndex(rules, i);
    }
  }

  /** Delivery is predicted under the same tests of the provider, when no rule at all is meant for its kind, up to case,
      or one that spells the kind alike fits. */
  lemma PredictsExactly(rules: seq<Rule>, integration: Integration, n: Notification, tags: seq<string>)
    ensures WouldDeliver(rules, integration, n, tags) <==>
            && integration.enabled && Subscribed(integration.events, n.kind, n.status)
            && ProviderPasses(integration, n, tags)
            && ((forall i :: 0 <= i < |rules| ==> !EqualFold(rules[i].integrationKind, integration.kind)) ||
                (exists i :: 0 <= i < |rules| && rules[i].integrationKind == integration.kind &&
                             RuleFits(rules[i], n, tags)))
  {
    hide Eligible, Subscribed, ProviderPasses, EqualFold, RuleFits, EvaluateRoutingRule;
    EligibleExactly(integration, n, tags);
    forall i | 0 <= i < |rules| ensures RuleMatches(rules[i], n, tags) <==> RuleFits(rules[i], n, tags) {
      FirstRuleReason(rules[i], n, tags);
    }
  }

  /** The rule is spelled so and has no reason against it. */
  predicate Shown(rules: seq<Rule>, verdicts: seq<seq<Reason>>, kind: string, i: nat)
    requires |verdicts| == |rules|
  {
    i < |rules| && rules[i].integrationKind == kind && verdicts[i] == []
  }

  /** The positions of those rules, in increasing order. */
  ghost predicate Positions(at: seq<nat>, rules: seq<Rule>, verdicts: seq<seq<Reason>>, kind: string)
    requires |verdicts| == |rules|
  {
    && (forall k, l :: 0 <= k < l < |at| ==> at[k] < at[l])
    && (forall i: nat :: i in at <==> Shown(rules, verdicts, kind, i))
  }

  lemma PositionsGrow(at: seq<nat>, rules: seq<Rule>, verdicts: seq<seq<Reason>>, kind: string)
    requires |verdicts| == |rules| > 0 && Positions(at, rules[..|rules| - 1], verdicts[..|rules| - 1], kind)
    ensures var n := |rules| - 1;
            Positions(if Shown(rules, verdicts, kind, n) then at + [n] else at, rules, verdicts, kind)
  {
    var n := |rules| - 1;
    forall i: nat ensures Shown(rules, verdicts, kind, i) <==>
                          Shown(rules[..n], verdicts[..n], kind, i) || (i == n && Shown(rules, verdicts, kind, n)) {
      if i < n {
        assert rules[..n][i] == rules[i] && verdicts[..n][i] == verdicts[i];
      }
    }
    hide Shown;
    forall k | 0 <= k < |at| ensures at[k] < n {
      assert at[k] in at;
      ShownInRange(rules[..n], verdicts[..n], kind, at[k]);
    }
    assert forall i: nat :: i in at + [n] <==> i in at || i == n;
  }

  lemma ShownInRange(rules: seq<Rule>, verdicts: seq<seq<Reason>>, kind: string, i: nat)
    requires |verdicts| == |rules| && Shown(rules, verdicts, kind, i)
    ensures i < |rules|
  {
  }

  /** The matched rules a provider is shown: those spelled like its kind that fit, in the order of the rules. */
  lemma {:induction false} MatchedIDsAre(rules: seq<Rule>, verdicts: seq<seq<Reason>>, kind: string)
    returns (at: seq<nat>)
    requires |verdicts| == |rules|
    ensures Positions(at, rules, verdicts, kind) && |at| == |MatchedIDs(rules, verdicts, kind)|
    ensures forall k :: 0 <= k < |at| ==> at[k] < |rules| && MatchedIDs(rules, verdicts, kind)[k] == rules[at[k]].id
  {
    if rules == [] {
      at := [];
    } else {
      hide Positions;
      var n := |rules| - 1;
      var before := MatchedIDsAre(rules[..n], verdicts[..n], kind);
      at := if Shown(rules, verdicts, kind, n) then before + [n] else before;
      PositionsGrow(before, rules, verdicts, kind);
    }
  }

  // ---------------------------------------------------------------- what the simulator tries

  /** The fields of the request without white space around them, or the defaults. */
  lemma TriedFields(req: Request, metadata: Metadata)
    ensures var n := TriedNotification(req, metadata);
            && n.kind == (if TrimSpace(req.kind) != "" then TrimSpace(req.kind) else "system")
            && n.priority == (if TrimSpace(req.priority) != "" then TrimSpace(req.priority) else "medium")
            && n.channel == (if TrimSpace(req.channel) != "" then TrimSpace(req.channel) else "in-app")
            && n.status == (if TrimSpace(req.status) != "" then TrimSpace(req.status) else "open")
            && n.metadata == metadata
  {
  }

  /** Without a tag that is not blank the metadata is tried as it is; with one, the cleaned tags stand under both keys,
      and a request without metadata fails. */
  lemma TaggedExactly(req: Request)
    ensures var tagged := TaggedMetadata(req);
            if exists i :: 0 <= i < |req.tags| && TrimSpace(req.tags[i]) != "" then
              && (tagged.None? <==> req.metadata.None?)
              && (tagged.Some? ==>
                  var m, m' := req.metadata.value, tagged.value;
                  && "tags" in m' && "einfra.tags" in m' &&
                     m'["tags"] == m'["einfra.tags"] == Texts(Sanitized(req.tags))
                  && forall key :: key != "tags" && key != "einfra.tags" ==>
                       (key in m' <==> key in m) && (key in m ==> m'[key] == m[key]))
            else tagged == Some(if req.metadata.Some? then req.metadata.value else map[])
  {
    hide TrimSpace;
    if i :| 0 <= i < |req.tags| && TrimSpace(req.tags[i]) != "" {
      var k := SanitizedCovers(req.tags, i);
    } else if Sanitized(req.tags) != [] {
      var k := SomethingAsked(req.tags);
      assert false;
    }
  }

  // ---------------------------------------------------------------- the tags of a notification

  /** An item of a tag list: a piece of a text, an item of a list of texts, or a printed item of a mixed list. */
  ghost predicate ListItem(v: Value, raw: string) {
    match v
    case Plain(text) => exists i :: 0 <= i < |Split(text, ',')| && Split(text, ',')[i] == raw
    case Texts(texts) => exists i :: 0 <= i < |texts| && texts[i] == raw
    case List(values) => exists i :: 0 <= i < |values| && Sprint(values[i]) == raw
    case Null => false
    case Other(_) => false
  }

  lemma {:induction false} PrintedItems(values: seq<Value>)
    ensures |SprintAll(values)| == |values|
    ensures forall i :: 0 <= i < |values| ==> SprintAll(values)[i] == Sprint(values[i])
  {
    if values != [] {
      PrintedItems(values[1..]);
      assert forall i :: 1 <= i < |values| ==> values[i] == values[1..][i - 1];
    }
  }

  lemma ListedItems(m: Metadata, key: string, raw: string)
    ensures raw in ListedTags(m, key) <==> key in m && ListItem(m[key], raw)
  {
    hide Sprint, Split;
    if key in m && m[key].List? {
      PrintedItems(m[key].values);
    }
  }

  /** A key that starts with "einfra.tag." up to case names a tag: what follows, when it is spelled in small letters. A
      value that is neither blank nor "true" is added after a colon. */
  predicate NamesTag(key: string, v: Value, raw: string) {
    && |key| >= 11 && EqualFold(key[..11], "einfra.tag.")
    && var name, value := TrimSpace(if key[..11] == "einfra.tag." then key[11..] else key), TrimSpace(Sprint(v));
       name != "" && raw == if value == "" || EqualFold(value, "true") then name else name + ":" + value
  }

  lemma KeyTagNames(key: string, v: Value, raw: string)
    requires raw != ""
    ensures raw == KeyTag(key, v) <==> NamesTag(key, v, raw)
  {
    hide TrimSpace, Sprint, Lower;
    assert TAG_KEY == "einfra.tag." && |TAG_KEY| == 11;
    TagKeyIsLower();
    if |key| >= 11 {
      LowerPrefix(key, 11);
    }
  }

  lemma {:induction false} SmallStays(s: string)
    requires forall i :: 0 <= i < |s| ==> !('A' <= s[i] <= 'Z')
    ensures Lower(s) == s
  {
    if s != [] {
      SmallStays(s[1..]);
    }
  }

  lemma TagKeyIsLower()
    ensures Lower("einfra.tag.") == "einfra.tag."
  {
    hide Lower;
    SmallStays("einfra.tag.");
  }

  /** A tag stems from a list under "tags" or "einfra.tags" or from a key of its own; it is trimmed, not blank, and in
      small letters. */
  lemma TagsExactly(m: Metadata, tag: string)
    ensures tag in TagSet(m) <==>
            exists raw :: TrimSpace(raw) != "" && tag == Lower(TrimSpace(raw)) &&
                          (("tags" in m && ListItem(m["tags"], raw)) ||
                           ("einfra.tags" in m && ListItem(m["einfra.tags"], raw)) ||
                           exists key :: key in m && NamesTag(key, m[key], raw))
  {
    hide TrimSpace, Lower, ListItem, NamesTag, KeyTag, ListedTags;
    forall raw | TrimSpace(raw) != ""
      ensures Contributes(m, raw) <==> ("tags" in m && ListItem(m["tags"], raw)) ||
                                       ("einfra.tags" in m && ListItem(m["einfra.tags"], raw)) ||
                                       exists key :: key in m && NamesTag(key, m[key], raw)
    {
      ContributionsExactly(m, raw);
    }
  }

  lemma ContributionsExactly(m: Metadata, raw: string)
    requires TrimSpace(raw) != ""
    ensures Contributes(m, raw) <==> ("tags" in m && ListItem(m["tags"], raw)) ||
                                     ("einfra.tags" in m && ListItem(m["einfra.tags"], raw)) ||
                                     exists key :: key in m && NamesTag(key, m[key], raw)
  {
    hide ListItem, NamesTag, KeyTag, ListedTags, TrimLeft, TrimRight;
    NothingTrims();
    ListedItems(m, "tags", raw);
    ListedItems(m, "einfra.tags", raw);
    forall key | key in m ensures raw == KeyTag(key, m[key]) <==> NamesTag(key, m[key], raw) {
      KeyTagNames(key, m[key], raw);
    }
  }

  lemma JoinedPair(a: string, b: string)
    ensures Join([a, b], ' ') == a + " " + b
  {
    JoinCons(a, [b], ' ');
    assert [a] + [b] == [a, b];
  }

  /** Printed values: lists in brackets with blanks between their items. */
  lemma PrintedValues(a: string, b: string)
    ensures Sprint(Plain(a)) == a && Sprint(Other(a)) == a && Sprint(Null) == "<nil>"
    ensures Sprint(Texts([a, b])) == "[" + a + " " + b + "]"
    ensures Sprint(List([Plain(a), Plain(b)])) == "[" + a + " " + b + "]"
  {
    hide Join;
    JoinedPair(a, b);
    var values := [Plain(a), Plain(b)];
    PrintedItems(values);
    assert SprintAll(values) == [a, b];
  }
}
