/** What every request about license keys leaves in the tables, field by field. */
module LicenseRows {
  import opened Text
  import opened Wrappers
  import opened License

  // ---------------------------------------------------------------- fields

  /** The field is the text asked for without white space around it, or the other one when that is blank. */
  predicate TextOr(field: string, asked: string, other: string) {
    if TrimSpace(asked) == "" then field == other else field == TrimSpace(asked)
  }

  /** A date replaces the expiry, an empty text clears it, a text of spaces leaves it. */
  predicate ExpiryAfter(field: Option<int>, asked: Expiry, before: Option<int>) {
    && (asked.At? ==> field == Some(asked.time))
    && (asked == Empty ==> field == None)
    && (asked == Spaces ==> field == before)
  }

  /** No row but this one is added, removed or changed, but for the primary flags of the organisation that are lowered
      when the row is made primary. */
  ghost predicate OtherKeysSame(s: State, s': State, id: string, orgID: string, lowered: bool) {
    && (forall other :: other != id ==> (other in s'.keys <==> other in s.keys))
    && (forall other :: other != id && other in s.keys ==>
          && s'.keys[other].(primary := false) == s.keys[other].(primary := false)
          && s'.keys[other].primary ==
             (s.keys[other].primary && !(lowered && s.keys[other].orgID == orgID)))
  }

  ghost predicate OtherLicensesSame(s: State, s': State, orgID: string) {
    forall o :: o != orgID ==>
      (o in s'.licenses <==> o in s.licenses) && (o in s.licenses ==> s'.licenses[o] == s.licenses[o])
  }

  ghost predicate InUse(s: State, value: string) {
    exists row :: row in s.keys.Values && row.value == value
  }

  lemma InUseIsTaken(s: State, value: string)
    ensures InUse(s, value) <==> Taken(s, value)
  {
    if id :| id in s.keys && s.keys[id].value == value {
      assert s.keys[id] in s.keys.Values;
    }
  }

  // ---------------------------------------------------------------- key rows

  lemma PutTouches(s: State, id: string, issued: string, key: Key)
    ensures var s' := PutKey(s, id, issued, key);
            id in s'.keys && s'.keys[id] == key && OtherKeysSame(s, s', id, key.orgID, key.primary)
  {
    hide SavedLicense;
    var cleared := if key.primary then ClearPrimary(s, key.orgID) else s;
    var stored := cleared.(keys := cleared.keys[id := key]);
    SavedKeepsKeys(stored, key.orgID, issued, key.value, key.tier, key.status, Reparsed(key.expiresAt));
  }

  /** An update rewrites tier, status, flag and expiry of the organisation's own key, each as asked for. */
  lemma RowAfterUpdate(s: State, orgID: string, id: string, issued: string, req: Request)
    requires id in s.keys && s.keys[id].orgID == orgID && !req.expiry.Malformed?
    ensures var s', k := Step(s, Update(orgID, id, issued, req)), s.keys[id];
            && id in s'.keys && OtherKeysSame(s, s', id, orgID, req.primary)
            && var k' := s'.keys[id];
               && TextOr(k'.tier, req.tier, k.tier) && TextOr(k'.status, req.status, k.status)
               && k'.primary == req.primary && ExpiryAfter(k'.expiresAt, req.expiry, k.expiresAt)
               && k'.orgID == k.orgID && k'.value == k.value && k'.createdAt == k.createdAt
  {
    hide TrimSpace, PutKey, OtherKeysSame;
    PutTouches(s, id, issued, UpdatedKey(s.keys[id], req));
  }

  /** A key of another organisation, or a malformed date: nothing happens. */
  lemma UpdateRefused(s: State, orgID: string, id: string, issued: string, req: Request)
    requires id !in s.keys || s.keys[id].orgID != orgID || req.expiry.Malformed?
    ensures Step(s, Update(orgID, id, issued, req)) == s
  {
  }

  /** A create adds a row with the text drawn for it, as asked for, with the defaults "free" and "draft". */
  lemma RowAfterCreate(s: State, orgID: string, id: string, issued: string, generated: string, req: Request, now: int)
    requires !req.expiry.Malformed? && !InUse(s, generated)
    ensures var s' := Step(s, Create(orgID, id, issued, generated, req, now));
            && id in s'.keys && OtherKeysSame(s, s', id, orgID, req.primary)
            && var k' := s'.keys[id];
               && TextOr(k'.tier, req.tier, "free") && TextOr(k'.status, req.status, "draft")
               && k'.primary == req.primary && ExpiryAfter(k'.expiresAt, req.expiry, None)
               && k'.orgID == orgID && k'.value == generated && k'.createdAt == now
  {
    hide TrimSpace, PutKey, OtherKeysSame, Taken, InUse;
    InUseIsTaken(s, generated);
    PutTouches(s, id, issued, CreatedKey(orgID, generated, req, now));
  }

  /** A malformed date changes nothing. A text in use costs the organisation its primary flags when the new key was to
      be primary, and adds nothing. */
  lemma CreateRefused(s: State, orgID: string, id: string, issued: string, generated: string, req: Request, now: int)
    ensures var s' := Step(s, Create(orgID, id, issued, generated, req, now));
            && (req.expiry.Malformed? ==> s' == s)
            && (!req.expiry.Malformed? && InUse(s, generated) ==>
                && s'.licenses == s.licenses && s'.keys.Keys == s.keys.Keys
                && forall k :: k in s.keys ==>
                     && s'.keys[k].(primary := false) == s.keys[k].(primary := false)
                     && s'.keys[k].primary == (s.keys[k].primary && !(req.primary && s.keys[k].orgID == orgID)))
  {
    hide PutKey;
    InUseIsTaken(s, generated);
  }

  /** A deletion takes away the organisation's own key and nothing else. */
  lemma KeysAfterDelete(s: State, orgID: string, id: string)
    ensures var s' := Step(s, Delete(orgID, id));
            && s'.licenses == s.licenses
            && (forall k :: k in s'.keys <==> k in s.keys && !(k == id && s.keys[k].orgID == orgID))
            && (forall k :: k in s'.keys ==> s'.keys[k] == s.keys[k])
  {
  }

  /** Listing changes something only when the organisation has no key: the seeded row repeats the license, made when
      there was none, as an active primary key. */
  lemma RowAfterList(s: State, orgID: string, id: string, issued: string, now: int)
    ensures var s' := Step(s, List(orgID, id, issued, now));
            if exists k :: k in s.keys && s.keys[k].orgID == orgID then s' == s
            else
              && orgID in s'.licenses && OtherLicensesSame(s, s', orgID)
              && s'.licenses[orgID] == (if orgID in s.licenses then s.licenses[orgID]
                                        else Record(issued, "free", "active", None))
              && var license := s'.licenses[orgID];
                 if InUse(s, license.value) then s'.keys == s.keys
                 else s'.keys == s.keys[id := Key(orgID, license.value, license.tier, "active", true,
                                                  license.expiresAt, now)]
  {
    if k :| k in s.keys && s.keys[k].orgID == orgID {
      assert k in KeysOf(s, orgID);
    } else {
      InUseIsTaken(s, LicenseOf(s, orgID, issued).1.value);
    }
  }

  /** Of two rows of the list the earlier is primary if the later is; of equal flags, it is not the older one. */
  lemma OrderOfList(rows: seq<Listed>, i: nat, j: nat)
    requires InOrder(rows) && i < j < |rows|
    ensures rows[j].key.primary ==> rows[i].key.primary
    ensures rows[i].key.primary == rows[j].key.primary ==> rows[i].key.createdAt >= rows[j].key.createdAt
  {
    assert !Ahead(rows[j].key, rows[i].key);
  }

  // ---------------------------------------------------------------- license records

  /** The record as it was, or the one made on demand. */
  predicate OnDemand(s: State, s': State, orgID: string, issued: string) {
    orgID in s'.licenses &&
    s'.licenses[orgID] == if orgID in s.licenses then s.licenses[orgID] else Record(issued, "free", "active", None)
  }

  /** Saving writes every field as asked for, with the defaults "free" and "active"; a malformed date none. */
  lemma RecordAfterSave(
    s: State, orgID: string, issued: string, value: string, tier: string, status: string, expiry: Expiry)
    ensures var s' := Step(s, SaveLicense(orgID, issued, value, tier, status, expiry));
            && s'.keys == s.keys && OtherLicensesSame(s, s', orgID) && orgID in s'.licenses
            && (expiry.Malformed? ==> OnDemand(s, s', orgID, issued))
            && (!expiry.Malformed? ==>
                var r := s'.licenses[orgID];
                && r.value == TrimSpace(value) && TextOr(r.tier, tier, "free") && TextOr(r.status, status, "active")
                && r.expiresAt == if expiry.At? then Some(expiry.time) else None)
  {
    hide TrimSpace;
  }

  /** A new text and the tier asked for; status and expiry stay. */
  lemma RecordAfterGenerate(s: State, orgID: string, issued: string, generated: string, tier: string)
    ensures var s' := Step(s, Generate(orgID, issued, generated, tier));
            && s'.keys == s.keys && OtherLicensesSame(s, s', orgID) && orgID in s'.licenses
            && var r := s'.licenses[orgID];
               var before := if orgID in s.licenses then s.licenses[orgID] else Record(issued, "free", "active", None);
               && r.value == generated && TextOr(r.tier, tier, before.tier)
               && r.status == before.status && r.expiresAt == before.expiresAt
  {
    hide TrimSpace;
  }

  /** The years 0 to 9999 have a leap day every fourth year, but not every hundredth, but every four hundredth. */
  lemma TenThousandYears()
    ensures END_OF_9999 == (10_000 * 365 + 2_500 - 100 + 25) * 24 * 60 * 60 * 1_000_000_000
  {
  }

  /** The whole second an expiry falls into; no expiry stays none. */
  predicate WholeSecond(stored: Option<int>, time: Option<int>) {
    match time
    case None => stored == None
    case Some(t) =>
      && stored.Some? && stored.value % 1_000_000_000 == 0
      && stored.value <= t < stored.value + 1_000_000_000
  }

  lemma PromotedRecord(s: State, orgID: string, issued: string, key: Key)
    requires Trimmed(GoSpace, key.value) && Word(key.tier) && Word(key.status)
    ensures var s' := PromoteLicense(s, orgID, issued, key);
            && s'.keys == s.keys && OtherLicensesSame(s, s', orgID) && orgID in s'.licenses
            && (if key.expiresAt.None? || 0 <= key.expiresAt.value < END_OF_9999
                then var r := s'.licenses[orgID];
                     r.value == key.value && r.tier == key.tier && r.status == key.status &&
                     WholeSecond(r.expiresAt, key.expiresAt)
                else OnDemand(s, s', orgID, issued))
  {
    hide Trimmed, TrimSpace;
    WordsStay(key.value, "");
    WordsStay(key.tier, "free");
    WordsStay(key.status, "active");
  }

  /** What a request with the primary flag leaves in the license record, given the row it wrote. */
  ghost predicate RecordFollows(s: State, s': State, orgID: string, issued: string, key: Key) {
    && OtherLicensesSame(s, s', orgID) && orgID in s'.licenses
    && (if key.expiresAt.None? || 0 <= key.expiresAt.value < END_OF_9999
        then var r := s'.licenses[orgID];
             r.value == key.value && r.tier == key.tier && r.status == key.status &&
             WholeSecond(r.expiresAt, key.expiresAt)
        else OnDemand(s, s', orgID, issued))
  }

  lemma RecordAfterPut(s: State, id: string, issued: string, key: Key)
    requires Trimmed(GoSpace, key.value) && Word(key.tier) && Word(key.status)
    ensures var s' := PutKey(s, id, issued, key);
            id in s'.keys && s'.keys[id] == key &&
            if key.primary then RecordFollows(s, s', key.orgID, issued, key) else s'.licenses == s.licenses
  {
    hide Trimmed, TrimSpace, PromoteLicense;
    if key.primary {
      var cleared := ClearPrimary(s, key.orgID);
      PromotedRecord(cleared.(keys := cleared.keys[id := key]), key.orgID, issued, key);
    }
  }

  // ---------------------------------------------------------------- promotions over every run

  /** In every run, an update that makes a key primary leaves it the only primary key, with tier, status and expiry as
      asked for, and the license record follows it, unless the expiry has no four-digit year. */
  lemma UpdatePromotes(events: seq<Event>, orgID: string, id: string, issued: string, req: Request)
    requires var s, e := Run(events), Update(orgID, id, issued, req);
             && EnabledRun(events) && Enabled(s, e) && id in s.keys && s.keys[id].orgID == orgID
             && req.primary && !req.expiry.Malformed?
    ensures var s, e := Run(events), Update(orgID, id, issued, req);
            var s', k := Run(events + [e]), s.keys[id];
            && EnabledRun(events + [e]) && OnlyPrimary(s', id, orgID) &&
               RecordFollows(s, s', orgID, issued, s'.keys[id])
            && var k' := s'.keys[id];
               && TextOr(k'.tier, req.tier, k.tier) && TextOr(k'.status, req.status, k.status)
               && ExpiryAfter(k'.expiresAt, req.expiry, k.expiresAt) && k'.value == k.value
  {
    hide Step, WellFormed, OnePrimary, UniqueValues, OnlyPrimary, Carries, Arrives, RecordFollows, TrimSpace;
    var s, e := Run(events), Update(orgID, id, issued, req);
    RunsKeepPrimary(events);
    RunGrows(events, e);
    assert Promotes(s, e);
    PromotionStep(s, e);
    RowAfterUpdate(s, orgID, id, issued, req);
    RecordAfterUpdate(s, orgID, id, issued, req);
  }

  lemma RecordAfterUpdate(s: State, orgID: string, id: string, issued: string, req: Request)
    requires WellFormed(s) && id in s.keys && s.keys[id].orgID == orgID && !req.expiry.Malformed?
    ensures var s' := Step(s, Update(orgID, id, issued, req));
            id in s'.keys &&
            if req.primary then RecordFollows(s, s', orgID, issued, s'.keys[id]) else s'.licenses == s.licenses
  {
    hide Trimmed, TrimSpace, PutKey, RecordFollows;
    UpdatedWords(s.keys[id], req);
    RecordAfterPut(s, id, issued, UpdatedKey(s.keys[id], req));
  }

  lemma RecordAfterCreate(
    s: State, orgID: string, id: string, issued: string, generated: string, req: Request, now: int)
    requires Trimmed(GoSpace, generated) && !req.expiry.Malformed? && !InUse(s, generated)
    ensures var s' := Step(s, Create(orgID, id, issued, generated, req, now));
            id in s'.keys &&
            if req.primary then RecordFollows(s, s', orgID, issued, s'.keys[id]) else s'.licenses == s.licenses
  {
    hide Trimmed, TrimSpace, PutKey, RecordFollows;
    InUseIsTaken(s, generated);
    CreatedWords(orgID, generated, req, now);
    RecordAfterPut(s, id, issued, CreatedKey(orgID, generated, req, now));
  }

  /** The same for a create, with its defaults. */
  lemma CreatePromotes(
    events: seq<Event>, orgID: string, id: string, issued: string, generated: string, req: Request, now: int)
    requires var s, e := Run(events), Create(orgID, id, issued, generated, req, now);
             && EnabledRun(events) && Enabled(s, e) && req.primary && !req.expiry.Malformed? && !InUse(s, generated)
    ensures var s, e := Run(events), Create(orgID, id, issued, generated, req, now);
            var s' := Run(events + [e]);
            && EnabledRun(events + [e]) && OnlyPrimary(s', id, orgID) &&
               RecordFollows(s, s', orgID, issued, s'.keys[id])
            && var k' := s'.keys[id];
               && TextOr(k'.tier, req.tier, "free") && TextOr(k'.status, req.status, "draft")
               && ExpiryAfter(k'.expiresAt, req.expiry, None) && k'.value == generated
  {
    hide Step, WellFormed, OnePrimary, UniqueValues, OnlyPrimary, Carries, Arrives, RecordFollows, TrimSpace;
    var s, e := Run(events), Create(orgID, id, issued, generated, req, now);
    RunsKeepPrimary(events);
    RunGrows(events, e);
    InUseIsTaken(s, generated);
    assert Promotes(s, e);
    PromotionStep(s, e);
    RowAfterCreate(s, orgID, id, issued, generated, req, now);
    RecordAfterCreate(s, orgID, id, issued, generated, req, now);
  }
}
