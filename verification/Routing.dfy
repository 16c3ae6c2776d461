/** Notification routing: the dispatcher, and the simulator that predicts it. */
module Routing {
  import opened Wrappers
  import opened Text
  import opened Sanitize

  // ---------------------------------------------------------------- records

  /** A metadata value; Other carries what fmt.Sprint prints for it. */
  datatype Value =
    Plain(text: string) | Texts(texts: seq<string>) | List(values: seq<Value>) | Null | Other(rendered: string)

  type Metadata = map<string, Value>

  datatype Notification =
    Notification(kind: string, priority: string, channel: string, status: string, metadata: Metadata)

  datatype Rule = Rule(
    id: string, enabled: bool, integrationKind: string,
    eventTypes: seq<string>, priorities: seq<string>, channels: seq<string>, statuses: seq<string>,
    tags: seq<string>, tagPrefixes: seq<string>)

  datatype Integration = Integration(kind: string, name: string, enabled: bool, events: string, metadata: Metadata)

  // ---------------------------------------------------------------- tags

  function Spaced(parts: seq<string>): string { "[" + Join(parts, ' ') + "]" }

  function SprintAll(values: seq<Value>): seq<string> {
    if values == [] then [] else [Sprint(values[0])] + SprintAll(values[1..])
  }

  function Sprint(v: Value): string {
    match v
    case Plain(text) => text
    case Texts(texts) => Spaced(texts)
    case List(values) => Spaced(SprintAll(values))
    case Null => "<nil>"
    case Other(rendered) => rendered
  }

  const TAG_KEY := "einfra.tag."

  /** The strings a tag list contributes, before trimming. */
  function ListedTags(metadata: Metadata, key: string): seq<string> {
    if key !in metadata then []
    else
      match metadata[key]
      case Plain(text) => Split(text, ',')
      case Texts(texts) => texts
      case List(values) => SprintAll(values)
      case Null => []
      case Other(_) => []
  }

  /** The tag a single metadata entry stands for; empty when it stands for none. */
  function KeyTag(key: string, value: Value): string {
    if !HasPrefix(Lower(key), TAG_KEY) then ""
    else
      var tagKey := TrimSpace(if HasPrefix(key, TAG_KEY) then key[|TAG_KEY|..] else key);
      if tagKey == "" then ""
      else
        var tagValue := TrimSpace(Sprint(value));
        if tagValue == "" || EqualFold(tagValue, "true") then tagKey else tagKey + ":" + tagValue
  }

  predicate Contributes(metadata: Metadata, raw: string) {
    || raw in ListedTags(metadata, "tags") || raw in ListedTags(metadata, "einfra.tags")
    || exists key :: key in metadata && raw == KeyTag(key, metadata[key])
  }

  /** The tags of a notification: what its metadata contributes, trimmed, not blank, in lower case. */
  ghost function TagSet(metadata: Metadata): iset<string> {
    iset raw | Contributes(metadata, raw) && TrimSpace(raw) != "" :: Lower(TrimSpace(raw))
  }

  ghost predicate TagsOf(tags: seq<string>, metadata: Metadata) {
    forall tag :: tag in tags <==> tag in TagSet(metadata)
  }

  function AppendTag(seen: set<string>, value: string): set<string> {
    var v := TrimSpace(value);
    if v == "" then seen else seen + {Lower(v)}
  }

  /** What appending some raw strings has collected. */
  ghost predicate Collected(seen: set<string>, raws: iset<string>) {
    forall tag :: tag in seen <==> exists raw :: raw in raws && TrimSpace(raw) != "" && tag == Lower(TrimSpace(raw))
  }

  lemma CollectOne(seen: set<string>, raws: iset<string>, value: string)
    requires Collected(seen, raws)
    ensures Collected(AppendTag(seen, value), raws + iset{value})
  {
    var grown := AppendTag(seen, value);
    forall tag
      ensures tag in grown <==>
              exists raw :: raw in raws + iset{value} && TrimSpace(raw) != "" && tag == Lower(TrimSpace(raw))
    {
      if tag in seen {
        var raw :| raw in raws && TrimSpace(raw) != "" && tag == Lower(TrimSpace(raw));
        assert raw in raws + iset{value};
      } else if tag in grown {
        assert value in raws + iset{value};
      }
    }
  }

  ghost function Elements(values: seq<string>): iset<string> { iset raw | raw in values }

  ghost function KeyTags(metadata: Metadata, keys: set<string>): iset<string> {
    iset key | key in keys && key in metadata :: KeyTag(key, metadata[key])
  }

  method AppendAll(seen: set<string>, values: seq<string>, ghost raws: iset<string>) returns (grown: set<string>)
    requires Collected(seen, raws)
    ensures Collected(grown, raws + Elements(values))
  {
    grown := seen;
    assert raws + Elements([]) == raws;
    for i := 0 to |values|
      invariant Collected(grown, raws + Elements(values[..i]))
    {
      CollectOne(grown, raws + Elements(values[..i]), values[i]);
      assert values[..i + 1] == values[..i] + [values[i]];
      assert raws + Elements(values[..i]) + iset{values[i]} == raws + Elements(values[..i + 1]);
      grown := AppendTag(grown, values[i]);
    }
    assert values[..|values|] == values;
  }

  /** Metadata entries are visited in an order the language leaves open. */
  method AppendKeyTags(metadata: Metadata, seen: set<string>, ghost raws: iset<string>) returns (grown: set<string>)
    requires Collected(seen, raws)
    ensures Collected(grown, raws + KeyTags(metadata, metadata.Keys))
  {
    grown := seen;
    var keys := metadata.Keys;
    assert raws + KeyTags(metadata, {}) == raws;
    assert metadata.Keys - keys == {};
    while keys != {}
      invariant keys <= metadata.Keys
      invariant Collected(grown, raws + KeyTags(metadata, metadata.Keys - keys))
    {
      var key :| key in keys;
      ghost var done := metadata.Keys - keys;
      keys := keys - {key};
      assert metadata.Keys - keys == done + {key};
      CollectOne(grown, raws + KeyTags(metadata, done), KeyTag(key, metadata[key]));
      assert raws + KeyTags(metadata, done) + iset{KeyTag(key, metadata[key])} ==
             raws + KeyTags(metadata, done + {key});
      grown := AppendTag(grown, KeyTag(key, metadata[key]));
    }
    assert metadata.Keys - keys == metadata.Keys;
  }

  /** The collected tags come out in an order the language leaves open. */
  method ListSet(seen: set<string>) returns (items: seq<string>)
    ensures forall tag :: tag in items <==> tag in seen
    ensures forall i, j :: 0 <= i < j < |items| ==> items[i] != items[j]
  {
    items := [];
    var rest := seen;
    while rest != {}
      invariant rest <= seen
      invariant forall tag :: tag in items <==> tag in seen - rest
      invariant forall i, j :: 0 <= i < j < |items| ==> items[i] != items[j]
    {
      var item :| item in rest;
      ghost var before, done := items, seen - rest;
      rest := rest - {item};
      items := items + [item];
      assert seen - rest == done + {item};
      assert forall tag :: tag in items <==> tag in before || tag == item;
    }
    assert seen - rest == seen;
  }

  lemma AllContributions(metadata: Metadata)
    ensures forall raw :: Contributes(metadata, raw) <==>
              raw in Elements(ListedTags(metadata, "tags")) + Elements(ListedTags(metadata, "einfra.tags")) +
                KeyTags(metadata, metadata.Keys)
  {
  }

  lemma CollectedTags(seen: set<string>, metadata: Metadata, raws: iset<string>)
    requires Collected(seen, raws) && forall raw :: Contributes(metadata, raw) <==> raw in raws
    ensures forall tag :: tag in seen <==> tag in TagSet(metadata)
  {
  }

  method ExtractNotificationTags(metadata: Metadata) returns (items: seq<string>)
    ensures TagsOf(items, metadata)
    ensures forall i, j :: 0 <= i < j < |items| ==> items[i] != items[j]
  {
    var tags, einfraTags := ListedTags(metadata, "tags"), ListedTags(metadata, "einfra.tags");
    ghost var none: iset<string> := iset{};
    var seen := AppendAll({}, tags, none);
    assert none + Elements(tags) == Elements(tags);
    seen := AppendAll(seen, einfraTags, Elements(tags));
    seen := AppendKeyTags(metadata, seen, Elements(tags) + Elements(einfraTags));
    AllContributions(metadata);
    CollectedTags(seen, metadata, Elements(tags) + Elements(einfraTags) + KeyTags(metadata, metadata.Keys));
    items := ListSet(seen);
  }

  // ---------------------------------------------------------------- rules and filters (the code)

  /** The messages that say why a rule or a provider does not apply. */
  datatype Reason =
    | RuleDisabled | EventTypeMismatch | PriorityMismatch | ChannelMismatch | StatusMismatch
    | TagMismatch | TagPrefixMismatch
    | ProviderPriority | ProviderChannel | ProviderStatus | ProviderType | ProviderTag | ProviderTagPrefix
    | NotSubscribed | NoRuleMatched | ProviderDisabled

  function EvaluateRoutingRule(rule: Rule, n: Notification, tags: seq<string>): seq<Reason> {
    if !rule.enabled then [RuleDisabled]
    else if |rule.eventTypes| > 0 && !HasAnyFold([n.kind], rule.eventTypes) then [EventTypeMismatch]
    else if |rule.priorities| > 0 && !HasAnyFold([n.priority], rule.priorities) then [PriorityMismatch]
    else if |rule.channels| > 0 && !HasAnyFold([n.channel], rule.channels) then [ChannelMismatch]
    else if |rule.statuses| > 0 && !HasAnyFold([n.status], rule.statuses) then [StatusMismatch]
    else if |rule.tags| > 0 && !HasAnyFold(tags, rule.tags) then [TagMismatch]
    else if |rule.tagPrefixes| > 0 && !HasPrefixMatchFold(tags, rule.tagPrefixes) then [TagPrefixMismatch]
    else []
  }

  function StringMetadata(metadata: Metadata, key: string): string {
    if key in metadata && !metadata[key].Null? then Sprint(metadata[key]) else ""
  }

  function NonBlank(parts: seq<string>): seq<string> {
    if parts == [] then []
    else
      var item := TrimSpace(parts[0]);
      if item != "" then [item] + NonBlank(parts[1..]) else NonBlank(parts[1..])
  }

  function CsvMetadata(metadata: Metadata, key: string): seq<string> {
    var raw := TrimSpace(StringMetadata(metadata, key));
    if raw == "" then [] else NonBlank(Split(raw, ','))
  }

  /** A single-valued filter rejects when it is set, not "all", and different up to case. */
  predicate FilterRejects(metadata: Metadata, key: string, actual: string) {
    var value := TrimSpace(Lower(StringMetadata(metadata, key)));
    value != "" && value != "all" && !EqualFold(value, actual)
  }

  function EvaluateIntegrationFilters(integration: Integration, n: Notification, tags: seq<string>): seq<Reason> {
    var m := integration.metadata;
    if FilterRejects(m, "priority_filter", n.priority) then [ProviderPriority]
    else if FilterRejects(m, "channel_filter", n.channel) then [ProviderChannel]
    else if FilterRejects(m, "status_filter", n.status) then [ProviderStatus]
    else if FilterRejects(m, "type_filter", n.kind) then [ProviderType]
    else if |CsvMetadata(m, "route_tags")| > 0 && !HasAnyFold(tags, CsvMetadata(m, "route_tags")) then
      [ProviderTag]
    else if |CsvMetadata(m, "route_tag_prefixes")| > 0 &&
      !HasPrefixMatchFold(tags, CsvMetadata(m, "route_tag_prefixes")) then
      [ProviderTagPrefix]
    else []
  }

  predicate EventMatches(item: string, kind: string, status: string) {
    item != "" && (item == "*" || Contains(item, Lower(kind)) || Contains(item, Lower(status)))
  }

  predicate IntegrationInterested(events: string, kind: string, status: string) {
    var e := TrimSpace(Lower(events));
    e == "" || exists i :: 0 <= i < |Split(e, ',')| && EventMatches(TrimSpace(Split(e, ',')[i]), kind, status)
  }

  predicate HasRulesForIntegration(rules: seq<Rule>, kind: string) {
    exists i :: 0 <= i < |rules| && EqualFold(rules[i].integrationKind, kind)
  }

  predicate MatchesAnyRoutingRule(rules: seq<Rule>, kind: string, n: Notification, tags: seq<string>) {
    exists i :: 0 <= i < |rules| && EqualFold(rules[i].integrationKind, kind) &&
      EvaluateRoutingRule(rules[i], n, tags) == []
  }

  // ---------------------------------------------------------------- tag order does not matter

  ghost predicate SameTags(tags: seq<string>, tags': seq<string>) {
    forall tag :: tag in tags <==> tag in tags'
  }

  lemma AnyFoldAnyOrder(tags: seq<string>, tags': seq<string>, expected: seq<string>)
    requires SameTags(tags, tags') && HasAnyFold(tags, expected)
    ensures HasAnyFold(tags', expected)
  {
    var i, j :| 0 <= i < |tags| && 0 <= j < |expected| && EqualFold(TrimSpace(tags[i]), TrimSpace(expected[j]));
    assert tags[i] in tags';
    var k :| 0 <= k < |tags'| && tags'[k] == tags[i];
  }

  lemma PrefixAnyOrder(tags: seq<string>, tags': seq<string>, prefixes: seq<string>)
    requires SameTags(tags, tags') && HasPrefixMatchFold(tags, prefixes)
    ensures HasPrefixMatchFold(tags', prefixes)
  {
    var i, j :| 0 <= i < |tags| && 0 <= j < |prefixes| && PrefixFold(tags[i], prefixes[j]);
    assert tags[i] in tags';
    var k :| 0 <= k < |tags'| && tags'[k] == tags[i];
  }

  lemma TagTestsAnyOrder(tags: seq<string>, tags': seq<string>, expected: seq<string>)
    requires SameTags(tags, tags')
    ensures HasAnyFold(tags, expected) <==> HasAnyFold(tags', expected)
    ensures HasPrefixMatchFold(tags, expected) <==> HasPrefixMatchFold(tags', expected)
  {
    if HasAnyFold(tags, expected) { AnyFoldAnyOrder(tags, tags', expected); }
    if HasAnyFold(tags', expected) { AnyFoldAnyOrder(tags', tags, expected); }
    if HasPrefixMatchFold(tags, expected) { PrefixAnyOrder(tags, tags', expected); }
    if HasPrefixMatchFold(tags', expected) { PrefixAnyOrder(tags', tags, expected); }
  }

  /** Rules and provider filters give the same verdict, with the same reason, for every order of the tags. */
  lemma VerdictsAnyOrder(rule: Rule, integration: Integration, n: Notification, tags: seq<string>, tags': seq<string>)
    requires SameTags(tags, tags')
    ensures EvaluateRoutingRule(rule, n, tags) == EvaluateRoutingRule(rule, n, tags')
    ensures EvaluateIntegrationFilters(integration, n, tags) == EvaluateIntegrationFilters(integration, n, tags')
  {
    hide HasAnyFold, HasPrefixMatchFold, FilterRejects, CsvMetadata, SameTags;
    TagTestsAnyOrder(tags, tags', rule.tags);
    TagTestsAnyOrder(tags, tags', rule.tagPrefixes);
    TagTestsAnyOrder(tags, tags', CsvMetadata(integration.metadata, "route_tags"));
    TagTestsAnyOrder(tags, tags', CsvMetadata(integration.metadata, "route_tag_prefixes"));
  }

  // ---------------------------------------------------------------- simulator and dispatcher: decisions

  predicate RuleMatches(rule: Rule, n: Notification, tags: seq<string>) {
    EvaluateRoutingRule(rule, n, tags) == []
  }

  /** The provider is switched on, subscribed to the event, and its own filters let it through. */
  predicate Eligible(integration: Integration, n: Notification, tags: seq<string>) {
    && integration.enabled && IntegrationInterested(integration.events, n.kind, n.status)
    && EvaluateIntegrationFilters(integration, n, tags) == []
  }

  predicate SpelledMatch(rules: seq<Rule>, kind: string, n: Notification, tags: seq<string>) {
    exists i :: 0 <= i < |rules| && rules[i].integrationKind == kind && RuleMatches(rules[i], n, tags)
  }

  predicate WouldDeliver(rules: seq<Rule>, integration: Integration, n: Notification, tags: seq<string>) {
    Eligible(integration, n, tags) &&
    (HasRulesForIntegration(rules, integration.kind) ==> SpelledMatch(rules, integration.kind, n, tags))
  }

  function EnabledRules(rules: seq<Rule>): (r: seq<Rule>)
    ensures forall rule :: rule in r <==> rule in rules && rule.enabled
  {
    if rules == [] then []
    else (if rules[0].enabled then [rules[0]] else []) + EnabledRules(rules[1..])
  }

  predicate Sends(rules: seq<Rule>, integration: Integration, n: Notification, tags: seq<string>) {
    Eligible(integration, n, tags) &&
    (HasRulesForIntegration(EnabledRules(rules), integration.kind) ==>
     MatchesAnyRoutingRule(EnabledRules(rules), integration.kind, n, tags))
  }

  // ---------------------------------------------------------------- the code of simulator and dispatcher

  datatype RuleResult = RuleResult(id: string, integrationKind: string, matched: bool, reasons: seq<Reason>)

  datatype ProviderResult = ProviderResult(
    kind: string, name: string, enabled: bool, interested: bool, hasRuleSet: bool, matchedRuleIDs: seq<string>,
    wouldDeliver: bool, reasons: seq<Reason>)

  datatype Response = Response(tags: seq<string>, ruleResults: seq<RuleResult>, providers: seq<ProviderResult>)

  /** For every rule the reasons that stand against it. */
  function Verdicts(rules: seq<Rule>, n: Notification, tags: seq<string>): (verdicts: seq<seq<Reason>>)
    ensures |verdicts| == |rules|
  {
    seq(|rules|, i requires 0 <= i < |rules| => EvaluateRoutingRule(rules[i], n, tags))
  }

  /** The ids of the matched rules spelled for the kind, in rule order. */
  function MatchedIDs(rules: seq<Rule>, verdicts: seq<seq<Reason>>, kind: string): seq<string>
    requires |verdicts| == |rules|
  {
    if rules == [] then []
    else
      var k := |rules| - 1;
      var before := MatchedIDs(rules[..k], verdicts[..k], kind);
      if rules[k].integrationKind == kind && verdicts[k] == [] then before + [rules[k].id] else before
  }

  lemma {:induction false} MatchedIDsEmpty(rules: seq<Rule>, verdicts: seq<seq<Reason>>, kind: string)
    requires |verdicts| == |rules|
    ensures MatchedIDs(rules, verdicts, kind) == [] <==>
            forall i :: 0 <= i < |rules| && rules[i].integrationKind == kind ==> verdicts[i] != []
  {
    if rules != [] {
      var k := |rules| - 1;
      MatchedIDsEmpty(rules[..k], verdicts[..k], kind);
      assert forall i :: 0 <= i < k ==> rules[..k][i] == rules[i] && verdicts[..k][i] == verdicts[i];
    }
  }

  lemma MatchedIDsMeaning(rules: seq<Rule>, kind: string, n: Notification, tags: seq<string>)
    ensures MatchedIDs(rules, Verdicts(rules, n, tags), kind) != [] <==> SpelledMatch(rules, kind, n, tags)
  {
    hide EvaluateRoutingRule;
    MatchedIDsEmpty(rules, Verdicts(rules, n, tags), kind);
    assert forall i :: 0 <= i < |rules| ==> (Verdicts(rules, n, tags)[i] == [] <==> RuleMatches(rules[i], n, tags));
  }

  function Found(m: map<string, seq<string>>, kind: string): seq<string> { if kind in m then m[kind] else [] }

  method GroupMatched(rules: seq<Rule>, verdicts: seq<seq<Reason>>)
    returns (ruleResults: seq<RuleResult>, byProvider: map<string, seq<string>>)
    requires |verdicts| == |rules|
    ensures forall kind :: Found(byProvider, kind) == MatchedIDs(rules, verdicts, kind)
    ensures |ruleResults| == |rules|
    ensures forall i :: 0 <= i < |rules| ==>
      ruleResults[i] == RuleResult(rules[i].id, rules[i].integrationKind, verdicts[i] == [], verdicts[i])
  {
    ruleResults, byProvider := [], map[];
    for k := 0 to |rules|
      invariant forall kind :: Found(byProvider, kind) == MatchedIDs(rules[..k], verdicts[..k], kind)
      invariant |ruleResults| == k
      invariant forall i :: 0 <= i < k ==>
        ruleResults[i] == RuleResult(rules[i].id, rules[i].integrationKind, verdicts[i] == [], verdicts[i])
    {
      assert rules[..k + 1][..k] == rules[..k] && verdicts[..k + 1][..k] == verdicts[..k];
      var rule, matched := rules[k], |verdicts[k]| == 0;
      if matched {
        byProvider := byProvider[rule.integrationKind := Found(byProvider, rule.integrationKind) + [rule.id]];
      }
      ruleResults := ruleResults + [RuleResult(rule.id, rule.integrationKind, matched, verdicts[k])];
    }
    assert rules[..|rules|] == rules && verdicts[..|verdicts|] == verdicts;
  }

  /** Collects the reasons that stand against delivery, and the decision. */
  method CombineVerdict(f: Facts, matchedRuleIDs: seq<string>) returns (result: ProviderResult)
    ensures result == Verdict(f, matchedRuleIDs)
    ensures result.reasons == [] <==> result.wouldDeliver
  {
    var reasons: seq<Reason> := [];
    if !f.interested {
      reasons := reasons + [NotSubscribed];
    }
    if f.hasRuleSet && |matchedRuleIDs| == 0 {
      reasons := reasons + [NoRuleMatched];
    }
    if !f.enabled {
      reasons := reasons + [ProviderDisabled];
    }
    reasons := reasons + f.filterReasons;
    result := ProviderResult(f.kind, f.name, f.enabled, f.interested, f.hasRuleSet, matchedRuleIDs,
      f.interested && f.enabled && (!f.hasRuleSet || |matchedRuleIDs| > 0) && |f.filterReasons| == 0, reasons);
  }

  /** What the loop reads off one integration. */
  datatype Facts =
    Facts(kind: string, name: string, enabled: bool, interested: bool, hasRuleSet: bool, filterReasons: seq<Reason>)

  function FactsOf(rules: seq<Rule>, integration: Integration, n: Notification, tags: seq<string>): (f: Facts)
    ensures f.kind == integration.kind
  {
    Facts(integration.kind, integration.name, integration.enabled,
      IntegrationInterested(integration.events, n.kind, n.status),
          HasRulesForIntegration(rules, integration.kind), EvaluateIntegrationFilters(integration, n, tags))
  }

  function Verdict(f: Facts, ids: seq<string>): ProviderResult {
    ProviderResult(f.kind, f.name, f.enabled, f.interested, f.hasRuleSet, ids,
      f.interested && f.enabled && (!f.hasRuleSet || |ids| > 0) && |f.filterReasons| == 0,
      (if !f.interested then [NotSubscribed] else []) + (if f.hasRuleSet && |ids| == 0 then [NoRuleMatched] else []) +
      (if !f.enabled then [ProviderDisabled] else []) + f.filterReasons)
  }

  function ProviderVerdict(
    rules: seq<Rule>, integration: Integration, n: Notification, tags: seq<string>): ProviderResult
  {
    Verdict(FactsOf(rules, integration, n, tags), MatchedIDs(rules, Verdicts(rules, n, tags), integration.kind))
  }

  /** Subscription comes first, then rules, then the switch, then the provider's own filters. */
  function Place(reason: Reason): nat {
    match reason
    case NotSubscribed => 0
    case NoRuleMatched => 1
    case ProviderDisabled => 2
    case _ => 3
  }

  /** The reasons are in that order, each of their places below the bound. */
  predicate InPlace(reasons: seq<Reason>, bound: nat) {
    && (forall i, j :: 0 <= i < j < |reasons| ==> Place(reasons[i]) < Place(reasons[j]))
    && (forall i :: 0 <= i < |reasons| ==> Place(reasons[i]) < bound)
  }

  /** What a provider is told: delivery exactly as predicted, with a reason for everything that stands against it. */
  ghost predicate Explains(
    p: ProviderResult, rules: seq<Rule>, integration: Integration, n: Notification, tags: seq<string>)
  {
    && p.kind == integration.kind && p.name == integration.name && p.enabled == integration.enabled
    && p.interested == IntegrationInterested(integration.events, n.kind, n.status)
    && p.hasRuleSet == HasRulesForIntegration(rules, integration.kind)
    && p.matchedRuleIDs == MatchedIDs(rules, Verdicts(rules, n, tags), integration.kind)
    && (p.wouldDeliver <==> WouldDeliver(rules, integration, n, tags))
    && (p.reasons == [] <==> p.wouldDeliver)
    && (NotSubscribed in p.reasons <==> !p.interested)
    && (NoRuleMatched in p.reasons <==> p.hasRuleSet && !SpelledMatch(rules, integration.kind, n, tags))
    && (ProviderDisabled in p.reasons <==> !p.enabled)
    && (forall reason :: reason in p.reasons && reason !in {NotSubscribed, NoRuleMatched, ProviderDisabled} <==>
                         reason in EvaluateIntegrationFilters(integration, n, tags))
    && InPlace(p.reasons, 4)
  }

  /** The reasons a provider's own filters give are of their own kind. */
  lemma FilterReasonsApart(integration: Integration, n: Notification, tags: seq<string>)
    ensures var reasons := EvaluateIntegrationFilters(integration, n, tags);
            |reasons| <= 1 && NotSubscribed !in reasons && NoRuleMatched !in reasons && ProviderDisabled !in reasons
  {
    hide FilterRejects, CsvMetadata, HasAnyFold, HasPrefixMatchFold;
  }

  lemma VerdictReasons(f: Facts, ids: seq<string>)
    requires |f.filterReasons| <= 1
    requires NotSubscribed !in f.filterReasons && NoRuleMatched !in f.filterReasons &&
             ProviderDisabled !in f.filterReasons
    ensures var p := Verdict(f, ids);
            && (p.reasons == [] <==> p.wouldDeliver)
            && (NotSubscribed in p.reasons <==> !f.interested)
            && (NoRuleMatched in p.reasons <==> f.hasRuleSet && ids == [])
            && (ProviderDisabled in p.reasons <==> !f.enabled)
            && (forall reason :: reason in p.reasons && reason !in {NotSubscribed, NoRuleMatched, ProviderDisabled} <==>
                                 reason in f.filterReasons)
  {
  }

  lemma OneMore(reasons: seq<Reason>, more: seq<Reason>, bound: nat)
    requires InPlace(reasons, bound) && |more| <= 1 && (more != [] ==> Place(more[0]) == bound)
    ensures InPlace(reasons + more, bound + 1)
  {
  }

  lemma FourInPlace(a: seq<Reason>, b: seq<Reason>, c: seq<Reason>, d: seq<Reason>)
    requires |a| <= 1 && |b| <= 1 && |c| <= 1 && |d| <= 1
    requires (a != [] ==> Place(a[0]) == 0) && (b != [] ==> Place(b[0]) == 1)
    requires (c != [] ==> Place(c[0]) == 2) && (d != [] ==> Place(d[0]) == 3)
    ensures InPlace(a + b + c + d, 4)
  {
    hide InPlace, Place;
    NoneInPlace();
    OneMore([], a, 0);
    assert [] + a == a;
    OneMore(a, b, 1);
    OneMore(a + b, c, 2);
    OneMore(a + b + c, d, 3);
  }

  lemma VerdictOrder(f: Facts, ids: seq<string>)
    requires |f.filterReasons| <= 1
    requires NotSubscribed !in f.filterReasons && NoRuleMatched !in f.filterReasons
    requires ProviderDisabled !in f.filterReasons
    ensures InPlace(Verdict(f, ids).reasons, 4)
  {
    hide InPlace;
    if f.filterReasons != [] {
      assert f.filterReasons[0] in f.filterReasons;
    }
    FourInPlace(if !f.interested then [NotSubscribed] else [],
                if f.hasRuleSet && |ids| == 0 then [NoRuleMatched] else [],
                if !f.enabled then [ProviderDisabled] else [], f.filterReasons);
  }

  lemma NoneInPlace()
    ensures InPlace([], 0)
  {
  }

  lemma VerdictMeaning(rules: seq<Rule>, integration: Integration, n: Notification, tags: seq<string>)
    ensures Explains(ProviderVerdict(rules, integration, n, tags), rules, integration, n, tags)
  {
    hide EvaluateIntegrationFilters, EvaluateRoutingRule, IntegrationInterested;
    hide HasRulesForIntegration, SpelledMatch, MatchedIDs;
    MatchedIDsMeaning(rules, integration.kind, n, tags);
    FilterReasonsApart(integration, n, tags);
    var f, ids := FactsOf(rules, integration, n, tags), MatchedIDs(rules, Verdicts(rules, n, tags), integration.kind);
    VerdictReasons(f, ids);
    VerdictOrder(f, ids);
  }

  method SimulateLoop(byProvider: map<string, seq<string>>, facts: seq<Facts>) returns (providers: seq<ProviderResult>)
    ensures |providers| == |facts|
    ensures forall i :: 0 <= i < |facts| ==> providers[i] == Verdict(facts[i], Found(byProvider, facts[i].kind))
  {
    providers := [];
    for i := 0 to |facts|
      invariant |providers| == i
      invariant forall j :: 0 <= j < i ==> providers[j] == Verdict(facts[j], Found(byProvider, facts[j].kind))
    {
      var result := CombineVerdict(facts[i], Found(byProvider, facts[i].kind));
      providers := providers + [result];
    }
  }

  /** A notification to try; the metadata may be missing. */
  datatype Request = Request(
    kind: string, priority: string, channel: string, status: string, tags: seq<string>, metadata: Option<Metadata>)

  /** The metadata with the request's tags written over the lists in it; tags cannot be written to missing metadata. */
  function TaggedMetadata(req: Request): Option<Metadata> {
    var tags := Sanitized(req.tags);
    match req.metadata
    case None => if tags == [] then Some(map[]) else None
    case Some(m) => Some(if tags == [] then m else m["tags" := Texts(tags)]["einfra.tags" := Texts(tags)])
  }

  function TriedNotification(req: Request, metadata: Metadata): Notification {
    Notification(DefaultString(req.kind, "system"), DefaultString(req.priority, "medium"),
                 DefaultString(req.channel, "in-app"), DefaultString(req.status, "open"), metadata)
  }

  ghost predicate RespondsTo(r: Response, rules: seq<Rule>, integrations: seq<Integration>, n: Notification) {
    && TagsOf(r.tags, n.metadata) && |r.ruleResults| == |rules| && |r.providers| == |integrations|
    && (forall i :: 0 <= i < |rules| ==>
          r.ruleResults[i] == RuleResult(rules[i].id, rules[i].integrationKind, RuleMatches(rules[i], n, r.tags),
                                         EvaluateRoutingRule(rules[i], n, r.tags)))
    && (forall i :: 0 <= i < |integrations| ==> Explains(r.providers[i], rules, integrations[i], n, r.tags))
  }

  /** Rules and integrations come in the order of the query. None: the request fails. */
  method SimulateNotificationRouting(rules: seq<Rule>, integrations: seq<Integration>, req: Request)
    returns (response: Option<Response>)
    ensures response.None? <==> TaggedMetadata(req).None?
    ensures response.Some? ==>
            RespondsTo(response.value, rules, integrations, TriedNotification(req, TaggedMetadata(req).value))
  {
    hide RespondsTo, TriedNotification;
    var cleaned := SanitizeStringSlice(req.tags);
    var metadata := req.metadata;
    if |cleaned| > 0 {
      if metadata.None? {
        return None;
      }
      metadata := Some(metadata.value["tags" := Texts(cleaned)]["einfra.tags" := Texts(cleaned)]);
    }
    var n := TriedNotification(req, if metadata.Some? then metadata.value else map[]);
    var answer := Simulate(rules, integrations, n);
    response := Some(answer);
  }

  method Simulate(rules: seq<Rule>, integrations: seq<Integration>, n: Notification) returns (response: Response)
    ensures RespondsTo(response, rules, integrations, n)
  {
    hide Explains, EvaluateRoutingRule, TagsOf, MatchedIDs, FactsOf, Verdict;
    var tags := ExtractNotificationTags(n.metadata);
    var verdicts := Verdicts(rules, n, tags);
    var ruleResults, byProvider := GroupMatched(rules, verdicts);
    var facts := seq(|integrations|, i requires 0 <= i < |integrations| => FactsOf(rules, integrations[i], n, tags));
    var providers := SimulateLoop(byProvider, facts);
    forall i | 0 <= i < |integrations| ensures Explains(providers[i], rules, integrations[i], n, tags) {
      assert facts[i] == FactsOf(rules, integrations[i], n, tags);
      assert providers[i] == ProviderVerdict(rules, integrations[i], n, tags);
      VerdictMeaning(rules, integrations[i], n, tags);
    }
    response := Response(tags, ruleResults, providers);
  }

  /** The tags single metadata entries stand for. */
  ghost predicate KeyTagged(metadata: Metadata, tag: string) {
    exists key :: key in metadata && !Blank(KeyTag(key, metadata[key])) &&
      tag == Lower(TrimSpace(KeyTag(key, metadata[key])))
  }

  ghost predicate Requested(tags: seq<string>, tag: string) {
    exists i :: 0 <= i < |tags| && !Blank(tags[i]) && tag == Lower(TrimSpace(tags[i]))
  }

  lemma ListsAreNoKeyTags(value: Value)
    ensures KeyTag("tags", value) == "" && KeyTag("einfra.tags", value) == ""
  {
    hide KeyTag, Lower;
    LowerAt("einfra.tags", 10);
    NoKeyTag("tags", value);
    NoKeyTag("einfra.tags", value);
  }

  lemma NoKeyTag(key: string, value: Value)
    requires |key| <= 10 || Lower(key)[10] != '.'
    ensures KeyTag(key, value) == ""
  {
    hide Lower, Trim, Sprint, HasPrefix;
    assert |TAG_KEY| == 11 && TAG_KEY[10] == '.';
    if HasPrefix(Lower(key), TAG_KEY) {
      PrefixAt(Lower(key), TAG_KEY, 10);
    }
  }

  lemma PrefixAt(s: string, prefix: string, i: nat)
    requires HasPrefix(s, prefix) && i < |prefix|
    ensures i < |s| && s[i] == prefix[i]
  {
    assert s[..|prefix|][i] == s[i];
  }

  lemma TaggedContributions(m: Metadata, items: seq<string>, raw: string)
    ensures var tagged := m["tags" := Texts(items)]["einfra.tags" := Texts(items)];
            (Contributes(tagged, raw) && raw != "") <==>
            raw != "" && (raw in items || exists key :: key in m && raw == KeyTag(key, m[key]))
  {
    hide KeyTag;
    var tagged := m["tags" := Texts(items)]["einfra.tags" := Texts(items)];
    ListsAreNoKeyTags(Texts(items));
    if "tags" in m {
      ListsAreNoKeyTags(m["tags"]);
    }
    if "einfra.tags" in m {
      ListsAreNoKeyTags(m["einfra.tags"]);
    }
    assert |"tags"| != |"einfra.tags"|;
    if key :| key in m && raw == KeyTag(key, m[key]) && raw != "" {
      assert key in tagged && tagged[key] == m[key];
    }
    if key :| key in tagged && raw == KeyTag(key, tagged[key]) && raw != "" {
      assert key in m && tagged[key] == m[key];
    }
  }

  /** Cleaning keeps what the request asked for, up to white space and case. */
  lemma RequestedCleaned(values: seq<string>, tag: string)
    ensures Requested(values, tag) <==>
            exists item :: item in Sanitized(values) && !Blank(item) && tag == Lower(TrimSpace(item))
  {
    hide Lower, Trim;
    var items, at := Sanitized(values), Survivors(values);
    SanitizedIsClean(values);
    if Requested(values, tag) {
      var k :| 0 <= k < |values| && !Blank(values[k]) && tag == Lower(TrimSpace(values[k]));
      var i := SanitizedCovers(values, k);
      TrimmedStays(GoSpace, items[i]);
      assert items[i] in items;
    }
    if item :| item in items && !Blank(item) && tag == Lower(TrimSpace(item)) {
      var i :| 0 <= i < |items| && items[i] == item;
      TrimmedStays(GoSpace, item);
      assert !Blank(values[at[i]]);
    }
  }

  /** Tags of the request replace the lists in the metadata, while tags of single entries stay. */
  lemma RequestedTags(req: Request, tags: seq<string>)
    requires TaggedMetadata(req).Some? && TagsOf(tags, TaggedMetadata(req).value)
    ensures if exists k :: 0 <= k < |req.tags| && !Blank(req.tags[k])
            then req.metadata.Some? &&
                 forall tag :: tag in tags <==> Requested(req.tags, tag) || KeyTagged(req.metadata.value, tag)
            else TagsOf(tags, if req.metadata.Some? then req.metadata.value else map[])
  {
    hide Contributes, KeyTag, Lower, Trim;
    if k :| 0 <= k < |req.tags| && !Blank(req.tags[k]) {
      var i := SanitizedCovers(req.tags, k);
      var m, items := req.metadata.value, Sanitized(req.tags);
      var tagged := TaggedMetadata(req).value;
      forall tag ensures tag in tags <==> Requested(req.tags, tag) || KeyTagged(m, tag) {
        RequestedCleaned(req.tags, tag);
        TagsFrom(m, items, tagged, tag);
      }
    } else if Sanitized(req.tags) != [] {
      var k := SomethingAsked(req.tags);
    }
  }

  lemma TagsFrom(m: Metadata, items: seq<string>, tagged: Metadata, tag: string)
    requires tagged == m["tags" := Texts(items)]["einfra.tags" := Texts(items)]
    ensures tag in TagSet(tagged) <==>
            (exists item :: item in items && !Blank(item) && tag == Lower(TrimSpace(item))) || KeyTagged(m, tag)
  {
    hide Contributes, KeyTag, Lower, Trim;
    assert TrimSpace("") == "" by { TrimmedStays(GoSpace, ""); }
    if tag in TagSet(tagged) {
      var raw :| Contributes(tagged, raw) && TrimSpace(raw) != "" && tag == Lower(TrimSpace(raw));
      TaggedContributions(m, items, raw);
      if raw !in items {
        var key :| key in m && raw == KeyTag(key, m[key]);
        assert !Blank(KeyTag(key, m[key]));
      }
    }
    if item :| item in items && !Blank(item) && tag == Lower(TrimSpace(item)) {
      TaggedContributions(m, items, item);
    }
    if key :| key in m && !Blank(KeyTag(key, m[key])) && tag == Lower(TrimSpace(KeyTag(key, m[key]))) {
      TaggedContributions(m, items, KeyTag(key, m[key]));
    }
  }

  function EnabledIntegrations(integrations: seq<Integration>): (r: seq<Integration>)
    ensures forall x :: multiset(r)[x] == if x.enabled then multiset(integrations)[x] else 0
  {
    if integrations == [] then []
    else
      assert integrations == [integrations[0]] + integrations[1..];
      (if integrations[0].enabled then [integrations[0]] else []) + EnabledIntegrations(integrations[1..])
  }

  /** Rows selected by a query without an order come in some order. */
  method ScanEnabled(rules: seq<Rule>, integrations: seq<Integration>) returns (rs: seq<Rule>, xs: seq<Integration>)
    ensures multiset(rs) == multiset(EnabledRules(rules)) && multiset(xs) == multiset(EnabledIntegrations(integrations))
  {
    rs, xs := EnabledRules(rules), EnabledIntegrations(integrations);
  }

  lemma RulesAnyOrder(rs: seq<Rule>, rs': seq<Rule>, kind: string, n: Notification, tags: seq<string>)
    requires multiset(rs) == multiset(rs')
    ensures HasRulesForIntegration(rs, kind) ==> HasRulesForIntegration(rs', kind)
    ensures MatchesAnyRoutingRule(rs, kind, n, tags) ==> MatchesAnyRoutingRule(rs', kind, n, tags)
  {
    forall i | 0 <= i < |rs| ensures exists j :: 0 <= j < |rs'| && rs'[j] == rs[i] {
      assert rs[i] in multiset(rs');
    }
  }

  /** The three tests of the dispatch loop, for rules already restricted to the enabled ones. */
  predicate Passes(enabledRules: seq<Rule>, integration: Integration, n: Notification, tags: seq<string>) {
    && IntegrationInterested(integration.events, n.kind, n.status)
    && !(HasRulesForIntegration(enabledRules, integration.kind) &&
       !MatchesAnyRoutingRule(enabledRules, integration.kind, n, tags))
    && EvaluateIntegrationFilters(integration, n, tags) == []
  }

  lemma PassesIsSends(
    enabledRules: seq<Rule>, rules: seq<Rule>, integration: Integration, n: Notification, tags: seq<string>)
    requires multiset(enabledRules) == multiset(EnabledRules(rules))
    ensures integration.enabled && Passes(enabledRules, integration, n, tags) <==> Sends(rules, integration, n, tags)
  {
    RulesAnyOrder(enabledRules, EnabledRules(rules), integration.kind, n, tags);
    RulesAnyOrder(EnabledRules(rules), enabledRules, integration.kind, n, tags);
  }

  method DispatchLoop(enabled: seq<Integration>, passes: Integration -> bool) returns (sent: seq<Integration>)
    ensures forall x :: multiset(sent)[x] == if passes(x) then multiset(enabled)[x] else 0
  {
    sent := [];
    for i := 0 to |enabled|
      invariant forall x :: multiset(sent)[x] == if passes(x) then multiset(enabled[..i])[x] else 0
    {
      var integration := enabled[i];
      assert enabled[..i + 1] == enabled[..i] + [integration];
      if !passes(integration) {
        continue;
      }
      sent := sent + [integration];
    }
    assert enabled[..|enabled|] == enabled;
  }

  /** The integrations a notification is delivered to, whatever the providers then answer. */
  method DispatchNotification(rules: seq<Rule>, integrations: seq<Integration>, n: Notification)
    returns (sent: seq<Integration>, tags: seq<string>)
    ensures TagsOf(tags, n.metadata)
    ensures forall x :: multiset(sent)[x] == if Sends(rules, x, n, tags) then multiset(integrations)[x] else 0
  {
    var enabledRules, enabled := ScanEnabled(rules, integrations);
    tags := ExtractNotificationTags(n.metadata);
    var notification, found := n, tags;
    sent := DispatchLoop(enabled, (x: Integration) => Passes(enabledRules, x, notification, found));
    forall x ensures multiset(sent)[x] == if Sends(rules, x, n, tags) then multiset(integrations)[x] else 0 {
      PassesIsSends(enabledRules, rules, x, n, tags);
    }
  }

  // ---------------------------------------------------------------- does the simulator predict the dispatcher?

  /** A rule set for the kind exists, yet the simulator finds no match that is spelled for it, while the dispatcher,
      which ignores disabled rules and compares kinds without case, sees no rules at all or finds a match. */
  predicate Mispredicted(rules: seq<Rule>, integration: Integration, n: Notification, tags: seq<string>) {
    && Eligible(integration, n, tags)
    && HasRulesForIntegration(rules, integration.kind) && !SpelledMatch(rules, integration.kind, n, tags)
    && (!HasRulesForIntegration(EnabledRules(rules), integration.kind) ||
        exists i :: 0 <= i < |rules| && rules[i].integrationKind != integration.kind &&
                    EqualFold(rules[i].integrationKind, integration.kind) && RuleMatches(rules[i], n, tags))
  }

  lemma EnabledIndex(rules: seq<Rule>, i: nat) returns (j: nat)
    requires i < |rules| && rules[i].enabled
    ensures j < |EnabledRules(rules)| && EnabledRules(rules)[j] == rules[i]
  {
    assert rules[i] in EnabledRules(rules);
    j :| 0 <= j < |EnabledRules(rules)| && EnabledRules(rules)[j] == rules[i];
  }

  lemma AllIndex(rules: seq<Rule>, j: nat) returns (i: nat)
    requires j < |EnabledRules(rules)|
    ensures i < |rules| && rules[i] == EnabledRules(rules)[j] && rules[i].enabled
  {
    assert EnabledRules(rules)[j] in EnabledRules(rules);
    i :| 0 <= i < |rules| && rules[i] == EnabledRules(rules)[j];
  }

  /** Matching among the enabled rules up to case is matching among all rules up to case. */
  lemma MatchAmongAll(rules: seq<Rule>, kind: string, n: Notification, tags: seq<string>)
    ensures MatchesAnyRoutingRule(EnabledRules(rules), kind, n, tags) <==> MatchesAnyRoutingRule(rules, kind, n, tags)
  {
    if MatchesAnyRoutingRule(EnabledRules(rules), kind, n, tags) {
      var j :| 0 <= j < |EnabledRules(rules)| && EqualFold(EnabledRules(rules)[j].integrationKind, kind) &&
               EvaluateRoutingRule(EnabledRules(rules)[j], n, tags) == [];
      var i := AllIndex(rules, j);
    }
    if MatchesAnyRoutingRule(rules, kind, n, tags) {
      var i :| 0 <= i < |rules| && EqualFold(rules[i].integrationKind, kind) &&
        EvaluateRoutingRule(rules[i], n, tags) == [];
      var j := EnabledIndex(rules, i);
    }
  }

  lemma SpelledIsFold(rules: seq<Rule>, kind: string, n: Notification, tags: seq<string>)
    requires SpelledMatch(rules, kind, n, tags)
    ensures MatchesAnyRoutingRule(rules, kind, n, tags) && HasRulesForIntegration(EnabledRules(rules), kind)
  {
    var i :| 0 <= i < |rules| && rules[i].integrationKind == kind && RuleMatches(rules[i], n, tags);
    var j := EnabledIndex(rules, i);
    assert EqualFold(EnabledRules(rules)[j].integrationKind, kind);
  }

  lemma EnabledHasRules(rules: seq<Rule>, kind: string)
    requires HasRulesForIntegration(EnabledRules(rules), kind)
    ensures HasRulesForIntegration(rules, kind)
  {
    var j :| 0 <= j < |EnabledRules(rules)| && EqualFold(EnabledRules(rules)[j].integrationKind, kind);
    var i := AllIndex(rules, j);
  }

  /** Whatever order the tags come out in: a predicted delivery happens, and the prediction is right precisely
      when the integration is not mispredicted. */
  lemma SimulatorPredicts(
    rules: seq<Rule>, integration: Integration, n: Notification, tags: seq<string>, tags': seq<string>)
    requires TagsOf(tags, n.metadata) && TagsOf(tags', n.metadata)
    ensures WouldDeliver(rules, integration, n, tags) ==> Sends(rules, integration, n, tags')
    ensures (WouldDeliver(rules, integration, n, tags) <==> Sends(rules, integration, n, tags')) <==>
            !Mispredicted(rules, integration, n, tags)
  {
    var kind := integration.kind;
    SendsAnyOrder(rules, integration, n, tags, tags');
    MatchAmongAll(rules, kind, n, tags);
    if HasRulesForIntegration(EnabledRules(rules), kind) {
      EnabledHasRules(rules, kind);
    }
    if SpelledMatch(rules, kind, n, tags) {
      SpelledIsFold(rules, kind, n, tags);
    }
    if MatchesAnyRoutingRule(rules, kind, n, tags) && !SpelledMatch(rules, kind, n, tags) {
      var i :| 0 <= i < |rules| && EqualFold(rules[i].integrationKind, kind) &&
        EvaluateRoutingRule(rules[i], n, tags) == [];
      assert rules[i].integrationKind != kind && RuleMatches(rules[i], n, tags);
    }
    if i :| 0 <= i < |rules| && rules[i].integrationKind != kind &&
            EqualFold(rules[i].integrationKind, kind) && RuleMatches(rules[i], n, tags) {
      assert MatchesAnyRoutingRule(rules, kind, n, tags);
    }
  }

  lemma SendsAnyOrder(
    rules: seq<Rule>, integration: Integration, n: Notification, tags: seq<string>, tags': seq<string>)
    requires SameTags(tags, tags')
    ensures Sends(rules, integration, n, tags) <==> Sends(rules, integration, n, tags')
  {
    VerdictsAnyOrder(Rule("", true, "", [], [], [], [], [], []), integration, n, tags, tags');
    var rs := EnabledRules(rules);
    forall i | 0 <= i < |rs| ensures EvaluateRoutingRule(rs[i], n, tags) == EvaluateRoutingRule(rs[i], n, tags') {
      VerdictsAnyOrder(rs[i], integration, n, tags, tags');
    }
  }

  /** Every rule for the kind is spelled like the kind, and if there are rules for it one of them is enabled. */
  predicate TidyRules(rules: seq<Rule>, kind: string) {
    && (forall i :: 0 <= i < |rules| && EqualFold(rules[i].integrationKind, kind) ==> rules[i].integrationKind == kind)
    && (HasRulesForIntegration(rules, kind) ==> HasRulesForIntegration(EnabledRules(rules), kind))
  }

  /** With tidy rules the simulator is right about every notification. */
  lemma TidyRulesPredicted(
    rules: seq<Rule>, integration: Integration, n: Notification, tags: seq<string>, tags': seq<string>)
    requires TagsOf(tags, n.metadata) && TagsOf(tags', n.metadata) && TidyRules(rules, integration.kind)
    ensures WouldDeliver(rules, integration, n, tags) <==> Sends(rules, integration, n, tags')
  {
    SimulatorPredicts(rules, integration, n, tags, tags');
  }

  /** Rules for the kind that are all switched off block the prediction but not the delivery. */
  lemma DisabledRulesMispredict(rules: seq<Rule>, integration: Integration, n: Notification, tags: seq<string>)
    requires TagsOf(tags, n.metadata) && Eligible(integration, n, tags) &&
             HasRulesForIntegration(rules, integration.kind)
    requires forall i :: 0 <= i < |rules| && EqualFold(rules[i].integrationKind, integration.kind) ==> !rules[i].enabled
    ensures !WouldDeliver(rules, integration, n, tags) && Sends(rules, integration, n, tags)
  {
    hide Eligible, EqualFold;
    var kind := integration.kind;
    if HasRulesForIntegration(EnabledRules(rules), kind) {
      var j :| 0 <= j < |EnabledRules(rules)| && EqualFold(EnabledRules(rules)[j].integrationKind, kind);
      var i := AllIndex(rules, j);
      assert false;
    }
    if SpelledMatch(rules, kind, n, tags) {
      SpelledIsFold(rules, kind, n, tags);
    }
  }

  /** An integration without filters, subscribed to everything. */
  function Open(kind: string): Integration { Integration(kind, "", true, "", map[]) }

  /** A rule without filters. */
  function Unfiltered(enabled: bool, kind: string): Rule { Rule("r", enabled, kind, [], [], [], [], [], []) }

  const Plainest: Notification := Notification("system", "medium", "in-app", "open", map[])

  lemma OpenIsEligible(kind: string, n: Notification, tags: seq<string>)
    ensures Eligible(Open(kind), n, tags)
  {
  }

  lemma NoTags()
    ensures TagsOf([], map[])
  {
  }

  /** One rule for Telegram, switched off: refused by the simulator, sent by the dispatcher. */
  lemma DisabledTelegramRule()
    ensures TagsOf([], Plainest.metadata)
    ensures var rules := [Unfiltered(false, "telegram")];
            !WouldDeliver(rules, Open("telegram"), Plainest, []) && Sends(rules, Open("telegram"), Plainest, [])
  {
    NoTags();
    OpenIsEligible("telegram", Plainest, []);
    var rules := [Unfiltered(false, "telegram")];
    assert rules[0].integrationKind == "telegram";
    DisabledRulesMispredict(rules, Open("telegram"), Plainest, []);
  }

  /** One rule for Telegram, matching, spelled with a capital: refused by the simulator, sent by the dispatcher. */
  lemma CapitalTelegramRule()
    ensures TagsOf([], Plainest.metadata)
    ensures var rules := [Unfiltered(true, "Telegram")];
            !WouldDeliver(rules, Open("telegram"), Plainest, []) && Sends(rules, Open("telegram"), Plainest, [])
  {
    NoTags();
    hide WouldDeliver, Sends;
    CapitalFolds();
    CaseOnlyMispredicts("Telegram", "telegram", Plainest, []);
  }

  lemma CapitalFolds()
    ensures EqualFold("Telegram", "telegram")
  {
    assert "Telegram"[1..] == "telegram"[1..];
  }

  /** A rule whose kind differs from the integration's in case only. */
  lemma CaseOnlyMispredicts(kind: string, kind': string, n: Notification, tags: seq<string>)
    requires kind != kind' && EqualFold(kind, kind') && TagsOf(tags, n.metadata)
    ensures !WouldDeliver([Unfiltered(true, kind)], Open(kind'), n, tags) &&
            Sends([Unfiltered(true, kind)], Open(kind'), n, tags)
  {
    hide EqualFold;
    var rules := [Unfiltered(true, kind)];
    OpenIsEligible(kind', n, tags);
    assert rules[0] == Unfiltered(true, kind);
    assert HasRulesForIntegration(rules, kind');
    assert rules[0] in EnabledRules(rules);
    assert RuleMatches(rules[0], n, tags);
    MatchAmongAll(rules, kind', n, tags);
  }
}
