/** License keys of an organisation and the license record that follows the primary one. */
module License {
  import opened Text
  import opened Wrappers

  // ---------------------------------------------------------------- tables

  const SECOND: nat := 1_000_000_000

  /** Expiry times are nanoseconds from the start of year 0, UTC; ten thousand years have 3652425 days. */
  const END_OF_9999: nat := 3_652_425 * 86_400 * SECOND

  datatype Key = Key(
    orgID: string, value: string, tier: string, status: string, primary: bool, expiresAt: Option<int>, createdAt: int)

  datatype Record = Record(value: string, tier: string, status: string, expiresAt: Option<int>)

  /** Key rows by id, license records by organisation. */
  datatype State = State(keys: map<string, Key>, licenses: map<string, Record>)

  /** What a text says about the expiry: nothing, white space only, something that is no date, or a date. */
  datatype Expiry = Empty | Spaces | Malformed | At(time: int)

  /** What a request asks for. */
  datatype Request = Request(tier: string, status: string, primary: bool, expiry: Expiry)

  // ---------------------------------------------------------------- the parts of the operations

  predicate FourDigitYear(time: int) { 0 <= time < END_OF_9999 }

  /** What an expiry says after it has been formatted: whole seconds, and no date when its year has not four digits. */
  function Reparsed(time: Option<int>): Expiry {
    match time
    case None => Empty
    case Some(t) => if FourDigitYear(t) then At(t / SECOND * SECOND) else Malformed
  }

  predicate Writable(time: Option<int>) { time.None? || FourDigitYear(time.value) }

  /** The license record, made with a newly issued key when there is none. */
  function LicenseOf(s: State, orgID: string, issued: string): (State, Record) {
    if orgID in s.licenses then (s, s.licenses[orgID])
    else
      var made := Record(issued, "free", "active", None);
      (s.(licenses := s.licenses[orgID := made]), made)
  }

  /** Rewriting the license record; a malformed date leaves it as it is, but it is made when there is none. */
  function SavedLicense(
    s: State, orgID: string, issued: string, value: string, tier: string, status: string, expiry: Expiry): State
  {
    if expiry.Malformed? then LicenseOf(s, orgID, issued).0
    else
      var time := if expiry.At? then Some(expiry.time) else None;
      var saved := Record(TrimSpace(value), DefaultString(tier, "free"), DefaultString(status, "active"), time);
      s.(licenses := s.licenses[orgID := saved])
  }

  function ClearPrimary(s: State, orgID: string): State {
    s.(keys := map id | id in s.keys ::
      if s.keys[id].orgID == orgID then s.keys[id].(primary := false) else s.keys[id])
  }

  function PromoteLicense(s: State, orgID: string, issued: string, key: Key): State {
    SavedLicense(s, orgID, issued, key.value, key.tier, key.status, Reparsed(key.expiresAt))
  }

  /** Key texts are unique over all organisations. */
  predicate Taken(s: State, value: string) {
    exists id :: id in s.keys && s.keys[id].value == value
  }

  function KeysOf(s: State, orgID: string): set<string> {
    set id | id in s.keys && s.keys[id].orgID == orgID
  }

  /** Writing a key row: a primary one replaces the others and is carried over to the license. */
  function PutKey(s: State, id: string, issued: string, key: Key): State {
    var cleared := if key.primary then ClearPrimary(s, key.orgID) else s;
    var stored := cleared.(keys := cleared.keys[id := key]);
    if key.primary then PromoteLicense(stored, key.orgID, issued, key) else stored
  }

  function CreatedKey(orgID: string, generated: string, req: Request, now: int): Key {
    var time := if req.expiry.At? then Some(req.expiry.time) else None;
    Key(orgID, generated, DefaultString(req.tier, "free"), DefaultString(req.status, "draft"), req.primary, time, now)
  }

  function UpdatedKey(key: Key, req: Request): Key {
    var time :=
      if req.expiry.At? then Some(req.expiry.time) else if req.expiry.Empty? then None else key.expiresAt;
    key.(tier := DefaultString(req.tier, key.tier), status := DefaultString(req.status, key.status),
         primary := req.primary, expiresAt := time)
  }

  // ---------------------------------------------------------------- one request

  datatype Event =
    | List(orgID: string, id: string, issued: string, now: int)
    | Create(orgID: string, id: string, issued: string, generated: string, req: Request, now: int)
    | Update(orgID: string, id: string, issued: string, req: Request)
    | Delete(orgID: string, id: string)
    | SaveLicense(orgID: string, issued: string, value: string, tier: string, status: string, expiry: Expiry)
    | Generate(orgID: string, issued: string, generated: string, tier: string)

  function SeedOf(license: Record, orgID: string, now: int): Key {
    Key(orgID, license.value, license.tier, "active", true, license.expiresAt, now)
  }

  function Step(s: State, e: Event): State {
    match e
    case List(orgID, id, issued, now) =>
      if KeysOf(s, orgID) != {} then s
      else
        var (s', license) := LicenseOf(s, orgID, issued);
        if Taken(s, license.value) then s' else s'.(keys := s'.keys[id := SeedOf(license, orgID, now)])
    case Create(orgID, id, issued, generated, req, now) =>
      if req.expiry.Malformed? then s
      else if Taken(s, generated) then if req.primary then ClearPrimary(s, orgID) else s
      else PutKey(s, id, issued, CreatedKey(orgID, generated, req, now))
    case Update(orgID, id, issued, req) =>
      if id !in KeysOf(s, orgID) || req.expiry.Malformed? then s
      else PutKey(s, id, issued, UpdatedKey(s.keys[id], req))
    case Delete(orgID, id) =>
      if id in KeysOf(s, orgID) then s.(keys := s.keys - {id}) else s
    case SaveLicense(orgID, issued, value, tier, status, expiry) =>
      SavedLicense(s, orgID, issued, value, tier, status, expiry)
    case Generate(orgID, issued, generated, tier) =>
      var (s', license) := LicenseOf(s, orgID, issued);
      s'.(licenses := s'.licenses[orgID := license.(tier := DefaultString(tier, license.tier), value := generated)])
  }

  function Run(events: seq<Event>): State {
    if events == [] then State(map[], map[]) else Step(Run(events[..|events| - 1]), events[|events| - 1])
  }

  /** Generated key texts have no white space at their ends; new rows get ids not in use. */
  predicate Enabled(s: State, e: Event) {
    && (e.List? || e.Create? ==> e.id !in s.keys)
    && (!e.Delete? ==> Trimmed(GoSpace, e.issued))
    && (e.Create? || e.Generate? ==> Trimmed(GoSpace, e.generated))
  }

  predicate EnabledRun(events: seq<Event>) {
    events == [] || (EnabledRun(events[..|events| - 1]) && Enabled(Run(events[..|events| - 1]), events[|events| - 1]))
  }

  // ---------------------------------------------------------------- stored texts

  predicate Word(text: string) { text != "" && Trimmed(GoSpace, text) }

  ghost predicate WellFormed(s: State) {
    && (forall id :: id in s.keys ==>
          Trimmed(GoSpace, s.keys[id].value) && Word(s.keys[id].tier) && Word(s.keys[id].status))
    && (forall orgID :: orgID in s.licenses ==>
          Trimmed(GoSpace, s.licenses[orgID].value) && Word(s.licenses[orgID].tier) && Word(s.licenses[orgID].status))
  }

  lemma DefaultIsWord(value: string, fallback: string)
    requires Word(fallback)
    ensures Word(DefaultString(value, fallback))
  {
    TrimIsTrimmed(GoSpace, value);
  }

  lemma WordsStay(text: string, fallback: string)
    requires Trimmed(GoSpace, text)
    ensures TrimSpace(text) == text && (text != "" ==> DefaultString(text, fallback) == text)
  {
    TrimmedStays(GoSpace, text);
  }

  lemma ConstantsAreWords()
    ensures Word("free") && Word("active") && Word("draft")
  {
  }

  lemma SavedWellFormed(
    s: State, orgID: string, issued: string, value: string, tier: string, status: string, expiry: Expiry)
    requires WellFormed(s) && Trimmed(GoSpace, issued)
    ensures WellFormed(SavedLicense(s, orgID, issued, value, tier, status, expiry))
  {
    hide Trim, Trimmed, DefaultString;
    ConstantsAreWords();
    TrimIsTrimmed(GoSpace, value);
    DefaultIsWord(tier, "free");
    DefaultIsWord(status, "active");
  }

  lemma PutKeyWellFormed(s: State, id: string, issued: string, key: Key)
    requires WellFormed(s) && Trimmed(GoSpace, issued)
    requires Trimmed(GoSpace, key.value) && Word(key.tier) && Word(key.status)
    ensures WellFormed(PutKey(s, id, issued, key))
  {
    hide Trim, Trimmed, SavedLicense;
    if key.primary {
      var cleared := ClearPrimary(s, key.orgID);
      var stored := cleared.(keys := cleared.keys[id := key]);
      SavedWellFormed(stored, key.orgID, issued, key.value, key.tier, key.status, Reparsed(key.expiresAt));
    }
  }

  lemma WellFormedKept(s: State, e: Event)
    requires WellFormed(s) && Enabled(s, e)
    ensures WellFormed(Step(s, e))
  {
    hide Trim, Trimmed, PutKey, SavedLicense;
    ConstantsAreWords();
    match e
    case List(_, _, _, _) =>
    case Create(orgID, id, issued, generated, req, now) =>
      CreatedWords(orgID, generated, req, now);
      PutKeyWellFormed(s, id, issued, CreatedKey(orgID, generated, req, now));
    case Update(orgID, id, issued, req) =>
      if id in KeysOf(s, orgID) {
        UpdatedWords(s.keys[id], req);
        PutKeyWellFormed(s, id, issued, UpdatedKey(s.keys[id], req));
      }
    case Delete(_, _) =>
    case SaveLicense(orgID, issued, value, tier, status, expiry) =>
      SavedWellFormed(s, orgID, issued, value, tier, status, expiry);
    case Generate(orgID, issued, _, tier) =>
      DefaultIsWord(tier, LicenseOf(s, orgID, issued).1.tier);
  }

  lemma CreatedWords(orgID: string, generated: string, req: Request, now: int)
    ensures var key := CreatedKey(orgID, generated, req, now); Word(key.tier) && Word(key.status)
  {
    ConstantsAreWords();
    DefaultIsWord(req.tier, "free");
    DefaultIsWord(req.status, "draft");
  }

  lemma UpdatedWords(key: Key, req: Request)
    requires Word(key.tier) && Word(key.status)
    ensures var updated := UpdatedKey(key, req); Word(updated.tier) && Word(updated.status)
  {
    DefaultIsWord(req.tier, key.tier);
    DefaultIsWord(req.status, key.status);
  }

  // ---------------------------------------------------------------- at most one primary key

  ghost predicate OnePrimary(s: State) {
    forall a, b :: a in s.keys && b in s.keys && s.keys[a].primary && s.keys[b].primary ==>
      s.keys[a].orgID == s.keys[b].orgID ==> a == b
  }

  lemma PutOnePrimary(s: State, id: string, issued: string, key: Key)
    requires OnePrimary(s)
    ensures OnePrimary(PutKey(s, id, issued, key))
  {
    hide TrimSpace, DefaultString;
  }

  lemma SeededOnePrimary(s: State, orgID: string, id: string, issued: string, now: int)
    requires OnePrimary(s) && id !in s.keys && KeysOf(s, orgID) == {}
    ensures OnePrimary(Step(s, List(orgID, id, issued, now)))
  {
    hide TrimSpace, DefaultString;
    forall other | other in s.keys ensures s.keys[other].orgID != orgID {
      assert other !in KeysOf(s, orgID);
    }
  }

  lemma OnePrimaryKept(s: State, e: Event)
    requires OnePrimary(s) && Enabled(s, e)
    ensures OnePrimary(Step(s, e))
  {
    hide Trim, DefaultString, PutKey;
    match e
    case List(orgID, id, issued, now) =>
      if KeysOf(s, orgID) == {} {
        SeededOnePrimary(s, orgID, id, issued, now);
      }
    case Create(orgID, id, issued, generated, req, now) =>
      PutOnePrimary(s, id, issued, CreatedKey(orgID, generated, req, now));
    case Update(orgID, id, issued, req) =>
      if id in KeysOf(s, orgID) {
        PutOnePrimary(s, id, issued, UpdatedKey(s.keys[id], req));
      }
    case Delete(_, _) =>
    case SaveLicense(_, _, _, _, _, _) =>
    case Generate(_, _, _, _) =>
  }

  // ---------------------------------------------------------------- unique key texts

  ghost predicate UniqueValues(s: State) {
    forall a, b :: a in s.keys && b in s.keys && s.keys[a].value == s.keys[b].value ==> a == b
  }

  lemma UniqueValuesKept(s: State, e: Event)
    requires UniqueValues(s)
    ensures UniqueValues(Step(s, e))
  {
    hide Trim, DefaultString, PutKey, SavedLicense;
    match e
    case List(_, _, _, _) =>
    case Create(orgID, id, issued, generated, req, now) =>
      if !Taken(s, generated) {
        PutUniqueValue(s, id, issued, CreatedKey(orgID, generated, req, now));
      }
    case Update(orgID, id, issued, req) =>
      if id in KeysOf(s, orgID) {
        PutUniqueValue(s, id, issued, UpdatedKey(s.keys[id], req));
      }
    case Delete(_, _) =>
    case SaveLicense(orgID, issued, value, tier, status, expiry) =>
      SavedKeepsKeys(s, orgID, issued, value, tier, status, expiry);
    case Generate(_, _, _, _) =>
  }

  lemma SavedKeepsKeys(
    s: State, orgID: string, issued: string, value: string, tier: string, status: string, expiry: Expiry)
    ensures SavedLicense(s, orgID, issued, value, tier, status, expiry).keys == s.keys
  {
  }

  lemma PutUniqueValue(s: State, id: string, issued: string, key: Key)
    requires UniqueValues(s) && (!Taken(s, key.value) || (id in s.keys && s.keys[id].value == key.value))
    ensures UniqueValues(PutKey(s, id, issued, key))
  {
    hide SavedLicense;
    var cleared := if key.primary then ClearPrimary(s, key.orgID) else s;
    var stored := cleared.(keys := cleared.keys[id := key]);
    SavedKeepsKeys(stored, key.orgID, issued, key.value, key.tier, key.status, Reparsed(key.expiresAt));
    assert UniqueValues(cleared) && forall other :: other in s.keys ==>
           cleared.keys[other].value == s.keys[other].value;
  }

  // ---------------------------------------------------------------- the license record follows the primary key

  predicate Matches(license: Record, key: Key) {
    license.value == key.value && license.tier == key.tier && license.status == key.status
  }

  /** The organisation has a license record and it carries the key. */
  predicate Carries(s: State, key: Key) {
    key.orgID in s.licenses && Matches(s.licenses[key.orgID], key)
  }

  /** Making a key primary leaves it the only primary key of its organisation. The license record then carries it
      exactly when the expiry could be written, or the record said the same before. */
  lemma PutPrimaryCarries(s: State, id: string, issued: string, key: Key)
    requires key.primary && Trimmed(GoSpace, key.value) && Word(key.tier) && Word(key.status)
    ensures var s' := PutKey(s, id, issued, key);
            && OnlyPrimary(s', id, key.orgID) && s'.keys[id] == key
            && (Carries(s', key) <==> Writable(key.expiresAt) || Matches(LicenseOf(s, key.orgID, issued).1, key))
  {
    WordsStay(key.value, "");
    WordsStay(key.tier, "free");
    WordsStay(key.status, "active");
  }

  /** The key is primary, and no other one of the organisation is. */
  ghost predicate OnlyPrimary(s: State, id: string, orgID: string) {
    && id in s.keys && s.keys[id].orgID == orgID && s.keys[id].primary
    && forall other :: other in s.keys && s.keys[other].orgID == orgID && s.keys[other].primary ==> other == id
  }

  /** Seeding the list fails when the license's value is in use as a key. Otherwise it carries value and tier; the
      status agrees exactly when the license was active or absent. */
  lemma SeedCarries(s: State, orgID: string, id: string, issued: string, now: int)
    requires KeysOf(s, orgID) == {}
    ensures var s' := Step(s, List(orgID, id, issued, now));
            if Taken(s, LicenseOf(s, orgID, issued).1.value) then s'.keys == s.keys
            else
              && id in s'.keys && s'.keys[id].primary && s'.keys[id].orgID == orgID && orgID in s'.licenses
              && s'.licenses[orgID].value == s'.keys[id].value && s'.licenses[orgID].tier == s'.keys[id].tier
              && (Carries(s', s'.keys[id]) <==> orgID !in s.licenses || s.licenses[orgID].status == "active")
  {
  }

  /** The license record of the organisation says what its primary keys say. */
  ghost predicate InStep(s: State, o: string) {
    forall id :: id in s.keys && s.keys[id].orgID == o && s.keys[id].primary ==> Carries(s, s.keys[id])
  }

  /** The request makes a key primary: a create or an update that asks for it, with no malformed date, and for a create
      a text not in use. */
  predicate Promotes(s: State, e: Event) {
    match e
    case Create(_, _, _, generated, req, _) => req.primary && !req.expiry.Malformed? && !Taken(s, generated)
    case Update(orgID, id, _, req) => id in KeysOf(s, orgID) && req.primary && !req.expiry.Malformed?
    case _ => false
  }

  /** The key row a promoting request writes. */
  function Promoted(s: State, e: Event): Key
    requires Promotes(s, e)
  {
    match e
    case Create(orgID, _, _, generated, req, now) => CreatedKey(orgID, generated, req, now)
    case Update(_, id, _, req) => UpdatedKey(s.keys[id], req)
  }

  /** The promotion reaches the license record, or there is nothing to change in it. */
  predicate Arrives(s: State, e: Event)
    requires Promotes(s, e)
  {
    var key := Promoted(s, e);
    Writable(key.expiresAt) || Matches(LicenseOf(s, e.orgID, e.issued).1, key)
  }

  /** The requests after which a primary key of the organisation and the license record say different things. */
  ghost predicate Breaks(s: State, e: Event, o: string) {
    e.orgID == o &&
    match e
    case List(_, _, _, _) =>
      KeysOf(s, o) == {} && o in s.licenses && s.licenses[o].status != "active" && !Taken(s, s.licenses[o].value)
    case SaveLicense(_, _, value, tier, status, expiry) =>
      !expiry.Malformed? &&
      DiffersFromPrimary(s, o, TrimSpace(value), DefaultString(tier, "free"), DefaultString(status, "active"))
    case Generate(_, _, generated, tier) =>
      exists id :: id in KeysOf(s, o) && s.keys[id].primary &&
                   !(s.keys[id].value == generated && s.keys[id].tier == DefaultString(tier, s.keys[id].tier))
    case _ => Promotes(s, e) && !Arrives(s, e)
  }

  ghost predicate DiffersFromPrimary(s: State, o: string, value: string, tier: string, status: string) {
    exists id :: id in KeysOf(s, o) && s.keys[id].primary && !Matches(Record(value, tier, status, None), s.keys[id])
  }

  lemma PutKeyInStep(s: State, id: string, issued: string, key: Key, o: string)
    requires InStep(s, o) && Trimmed(GoSpace, key.value) && Word(key.tier) && Word(key.status)
    requires id in s.keys ==> s.keys[id].orgID == key.orgID
    ensures InStep(PutKey(s, id, issued, key), o) <==>
            (o == key.orgID && key.primary ==>
             Writable(key.expiresAt) || Matches(LicenseOf(s, o, issued).1, key))
  {
    hide Trimmed, TrimSpace, DefaultString, Writable, Reparsed, Matches;
    if key.primary {
      PutPrimaryCarries(s, id, issued, key);
    }
  }

  lemma ClearedInStep(s: State, orgID: string, o: string)
    requires InStep(s, o)
    ensures InStep(ClearPrimary(s, orgID), o)
  {
  }

  /** Exactly these requests break the agreement of an organisation's primary keys and its license record. */
  lemma KeepsInStep(s: State, e: Event, o: string)
    requires WellFormed(s) && InStep(s, o) && Enabled(s, e)
    ensures InStep(Step(s, e), o) <==> !Breaks(s, e, o)
  {
    hide Trim, Trimmed, PutKey, DefaultString, TrimSpace, InStep, Writable, Matches, ClearPrimary;
    match e
    case List(orgID, id, issued, now) =>
      if KeysOf(s, orgID) == {} {
        ListInStep(s, orgID, id, issued, now, o);
      }
    case Create(orgID, id, issued, generated, req, now) =>
      CreatedWords(orgID, generated, req, now);
      PutKeyInStep(s, id, issued, CreatedKey(orgID, generated, req, now), o);
      ClearedInStep(s, orgID, o);
    case Update(orgID, id, issued, req) =>
      if id in KeysOf(s, orgID) {
        UpdatedWords(s.keys[id], req);
        PutKeyInStep(s, id, issued, UpdatedKey(s.keys[id], req), o);
      }
    case Delete(orgID, id) =>
      DeletedInStep(s, orgID, id, o);
    case SaveLicense(_, _, _, _, _, _) =>
      SavedInStep(s, e, o);
    case Generate(_, _, _, _) =>
      GeneratedInStep(s, e, o);
  }

  lemma DeletedInStep(s: State, orgID: string, id: string, o: string)
    requires InStep(s, o)
    ensures InStep(Step(s, Delete(orgID, id)), o)
  {
  }

  lemma SavedInStep(s: State, e: Event, o: string)
    requires InStep(s, o) && e.SaveLicense?
    ensures InStep(Step(s, e), o) <==> !Breaks(s, e, o)
  {
    hide Trim, Trimmed, DefaultString, TrimSpace;
    RecordInStep(s, Step(s, e), e.orgID, o);
  }

  lemma GeneratedInStep(s: State, e: Event, o: string)
    requires InStep(s, o) && e.Generate?
    ensures InStep(Step(s, e), o) <==> !Breaks(s, e, o)
  {
    hide Trim, Trimmed, DefaultString, TrimSpace;
    RecordInStep(s, Step(s, e), e.orgID, o);
  }

  lemma ListInStep(s: State, orgID: string, id: string, issued: string, now: int, o: string)
    requires InStep(s, o) && KeysOf(s, orgID) == {} && id !in s.keys
    ensures var e := List(orgID, id, issued, now); InStep(Step(s, e), o) <==> !Breaks(s, e, o)
  {
    SeedCarries(s, orgID, id, issued, now);
    if !Taken(s, LicenseOf(s, orgID, issued).1.value) {
      SeedInStep(s, orgID, id, issued, now, o);
    } else {
      RecordInStep(s, Step(s, List(orgID, id, issued, now)), orgID, o);
    }
  }

  lemma SeedInStep(s: State, orgID: string, id: string, issued: string, now: int, o: string)
    requires InStep(s, o) && KeysOf(s, orgID) == {} && id !in s.keys
    requires !Taken(s, LicenseOf(s, orgID, issued).1.value)
    ensures var s' := Step(s, List(orgID, id, issued, now));
            InStep(s', o) <==> (o == orgID ==> id in s'.keys && Carries(s', s'.keys[id]))
  {
    var s' := Step(s, List(orgID, id, issued, now));
    forall other | other in s.keys ensures s.keys[other].orgID != orgID {
      assert other !in KeysOf(s, orgID);
    }
  }

  /** Writing the license record of one organisation matters to its own primary keys only. */
  lemma RecordInStep(s: State, s': State, orgID: string, o: string)
    requires InStep(s, o) && s'.keys == s.keys && orgID in s'.licenses
    requires forall other :: other != orgID && other in s.licenses ==>
               other in s'.licenses && s'.licenses[other] == s.licenses[other]
    ensures InStep(s', o) <==>
            (o == orgID ==>
             forall id :: id in KeysOf(s, o) && s.keys[id].primary ==> Matches(s'.licenses[o], s.keys[id]))
  {
    if o == orgID && forall id :: id in KeysOf(s, o) && s.keys[id].primary ==> Matches(s'.licenses[o], s.keys[id]) {
      forall id | id in s'.keys && s'.keys[id].orgID == o && s'.keys[id].primary ensures Carries(s', s'.keys[id]) {
        assert id in KeysOf(s, o);
      }
    }
  }

  // ---------------------------------------------------------------- runs

  /** After any run every organisation has at most one primary key, and no two keys have the same text. */
  lemma {:induction false} RunsKeepPrimary(events: seq<Event>)
    requires EnabledRun(events)
    ensures OnePrimary(Run(events)) && WellFormed(Run(events)) && UniqueValues(Run(events))
  {
    hide Step, WellFormed, OnePrimary, UniqueValues, Enabled;
    if events != [] {
      RunsKeepPrimary(events[..|events| - 1]);
      OnePrimaryKept(Run(events[..|events| - 1]), events[|events| - 1]);
      WellFormedKept(Run(events[..|events| - 1]), events[|events| - 1]);
      UniqueValuesKept(Run(events[..|events| - 1]), events[|events| - 1]);
    } else {
      StartsWell();
    }
  }

  lemma StartsWell()
    ensures OnePrimary(Run([])) && WellFormed(Run([])) && UniqueValues(Run([])) && forall o :: InStep(Run([]), o)
  {
  }

  lemma RunGrows(events: seq<Event>, e: Event)
    requires EnabledRun(events) && Enabled(Run(events), e)
    ensures EnabledRun(events + [e]) && Run(events + [e]) == Step(Run(events), e)
  {
    var grown := events + [e];
    assert grown[..|grown| - 1] == events && grown[|grown| - 1] == e;
  }

  lemma PromotionStep(s: State, e: Event)
    requires WellFormed(s) && Enabled(s, e) && Promotes(s, e)
    ensures var s' := Step(s, e);
            && OnlyPrimary(s', e.id, e.orgID) && s'.keys[e.id] == Promoted(s, e)
            && (Carries(s', s'.keys[e.id]) <==> Arrives(s, e)) && (InStep(s', e.orgID) <==> Arrives(s, e))
  {
    hide Trim, Trimmed, PutKey, DefaultString, TrimSpace, Writable, Matches;
    match e
    case Create(orgID, id, issued, generated, req, now) =>
      CreatedWords(orgID, generated, req, now);
      PutPrimaryCarries(s, id, issued, CreatedKey(orgID, generated, req, now));
      SolePrimaryInStep(Step(s, e), id, orgID);
    case Update(orgID, id, issued, req) =>
      UpdatedWords(s.keys[id], req);
      PutPrimaryCarries(s, id, issued, UpdatedKey(s.keys[id], req));
      SolePrimaryInStep(Step(s, e), id, orgID);
    case _ =>
  }

  lemma SolePrimaryInStep(s: State, id: string, orgID: string)
    requires OnlyPrimary(s, id, orgID)
    ensures InStep(s, orgID) <==> Carries(s, s.keys[id])
  {
  }

  /** In every run, right after a request that makes a key primary, it is the only primary key of its organisation. The
      license record carries it exactly when the year of its expiry has four digits in UTC, or the record, made if there
      was none, said the same already. */
  lemma PromotedCarries(events: seq<Event>, e: Event)
    requires EnabledRun(events) && Enabled(Run(events), e) && Promotes(Run(events), e)
    ensures EnabledRun(events + [e])
    ensures var s' := Run(events + [e]);
            && OnlyPrimary(s', e.id, e.orgID) && s'.keys[e.id] == Promoted(Run(events), e)
            && (Carries(s', s'.keys[e.id]) <==> Arrives(Run(events), e))
            && (InStep(s', e.orgID) <==> Arrives(Run(events), e))
  {
    hide Step, WellFormed, OnePrimary, Enabled, Promotes, Arrives, Promoted, OnlyPrimary, InStep;
    RunsKeepPrimary(events);
    RunGrows(events, e);
    PromotionStep(Run(events), e);
  }

  ghost predicate BreaksAt(events: seq<Event>, i: nat, o: string)
    requires i < |events|
  {
    Breaks(Run(events[..i]), events[i], o)
  }

  ghost predicate InStepAt(events: seq<Event>, i: nat, o: string)
    requires i <= |events|
  {
    InStep(Run(events[..i]), o)
  }

  lemma {:induction false} PrefixEnabled(events: seq<Event>, i: nat)
    requires EnabledRun(events) && i <= |events|
    ensures EnabledRun(events[..i])
  {
    hide Enabled;
    if i == |events| {
      assert events[..i] == events;
    } else {
      PrefixEnabled(events[..|events| - 1], i);
      assert events[..|events| - 1][..i] == events[..i];
    }
  }

  lemma StepInRun(events: seq<Event>, i: nat, o: string)
    requires EnabledRun(events) && i < |events| && InStepAt(events, i, o)
    ensures InStepAt(events, i + 1, o) <==> !BreaksAt(events, i, o)
  {
    hide Step, WellFormed, Enabled, InStep, Breaks, OnePrimary, UniqueValues;
    var upto := events[..i + 1];
    PrefixEnabled(events, i + 1);
    assert upto[..|upto| - 1] == events[..i] && upto[|upto| - 1] == events[i];
    RunsKeepPrimary(events[..i]);
    KeepsInStep(Run(events[..i]), events[i], o);
  }

  /** From any point of a run at which they agree, an organisation's primary keys and its license record agree
      throughout precisely when no request breaks the agreement. */
  lemma {:induction false} AgreementLasts(events: seq<Event>, k: nat, o: string)
    requires EnabledRun(events) && k <= |events| && InStepAt(events, k, o)
    ensures (forall i :: k <= i <= |events| ==> InStepAt(events, i, o)) <==>
            (forall i :: k <= i < |events| ==> !BreaksAt(events, i, o))
    decreases |events| - k
  {
    hide InStepAt, BreaksAt, EnabledRun;
    if k < |events| {
      StepInRun(events, k, o);
      if !BreaksAt(events, k, o) {
        AgreementLasts(events, k + 1, o);
      }
    }
  }

  /** A draft key made primary, deleted, and the list asked for: the seeded key is active, the license a draft. */
  lemma SeedAfterDraftBreaks(
    orgID: string, id: string, seedID: string, generated: string, issued: string, now: int)
    requires Trimmed(GoSpace, generated) && Trimmed(GoSpace, issued)
    ensures var events := [Create(orgID, id, issued, generated, Request("", "", true, Empty), now), Delete(orgID, id),
                           List(orgID, seedID, issued, now)];
            EnabledRun(events) && !InStep(Run(events), orgID)
  {
    hide Step, PutKey, InStep, Trim;
    var s0 := State(map[], map[]);
    var create := Create(orgID, id, issued, generated, Request("", "", true, Empty), now);
    var delete, list := Delete(orgID, id), List(orgID, seedID, issued, now);
    RunGrows([], create);
    assert [] + [create] == [create] && [create] + [delete] == [create, delete];
    assert [create, delete] + [list] == [create, delete, list];
    DraftPromoted(s0, orgID, id, generated, issued, now);
    var s1 := Step(s0, create);
    Deleted(s1, orgID, id);
    RunGrows([create], delete);
    var s2 := Step(s1, delete);
    SeedCarries(s2, orgID, seedID, issued, now);
    SeedNotCarried(Step(s2, list), orgID, seedID);
    RunGrows([create, delete], list);
  }

  lemma SeedNotCarried(s: State, orgID: string, id: string)
    requires id in s.keys && s.keys[id].orgID == orgID && s.keys[id].primary && !Carries(s, s.keys[id])
    ensures !InStep(s, orgID)
  {
  }

  lemma Deleted(s: State, orgID: string, id: string)
    requires s.keys.Keys == {id} && s.keys[id].orgID == orgID
    ensures var s' := Step(s, Delete(orgID, id));
            s'.keys == map[] && KeysOf(s', orgID) == {} && s'.licenses == s.licenses
  {
    assert id in KeysOf(s, orgID);
  }

  lemma DraftPromoted(s: State, orgID: string, id: string, generated: string, issued: string, now: int)
    requires s.keys == map[] && Trimmed(GoSpace, generated)
    ensures var s' := Step(s, Create(orgID, id, issued, generated, Request("", "", true, Empty), now));
            && s'.keys.Keys == {id} && s'.keys[id].orgID == orgID
            && orgID in s'.licenses && s'.licenses[orgID].status == "draft"
  {
    hide Trimmed;
    assert TrimSpace("") == "";
    var key := CreatedKey(orgID, generated, Request("", "", true, Empty), now);
    ConstantsAreWords();
    PutPrimaryCarries(s, id, issued, key);
  }

  /** 9999-12-31T23:59:59-01:00, an hour less a second into the year 10000 UTC. */
  const FarExpiry: Expiry := At(END_OF_9999 + 3599 * SECOND)

  lemma FarExpiryLost(orgID: string, id: string, issued: string, generated: string, now: int)
    ensures var e, s :=
            Create(orgID, id, issued, generated, Request("", "", true, FarExpiry), now), State(map[], map[]);
            Promotes(s, e) && !Arrives(s, e) && Breaks(s, e, orgID)
  {
    hide Trim;
    assert TrimSpace("") == "" by { TrimmedStays(GoSpace, ""); }
    assert !FourDigitYear(FarExpiry.time);
    assert "draft"[0] != "active"[0];
  }

  /** A new key made primary with that expiry: the license record, made on the way, does not carry it. */
  lemma FarExpiryNotCarried(orgID: string, id: string, issued: string, generated: string, now: int)
    requires Trimmed(GoSpace, generated) && Trimmed(GoSpace, issued)
    ensures var e := Create(orgID, id, issued, generated, Request("", "", true, FarExpiry), now);
            && EnabledRun([e]) && Promotes(Run([]), e) && Breaks(Run([]), e, orgID)
            && OnlyPrimary(Run([e]), id, orgID) && !InStep(Run([e]), orgID)
  {
    hide Step, Trim, PutKey, InStep, OnlyPrimary, Promotes, Arrives, Breaks, Promoted, Trimmed, Carries;
    var e := Create(orgID, id, issued, generated, Request("", "", true, FarExpiry), now);
    FarExpiryLost(orgID, id, issued, generated, now);
    assert [] + [e] == [e] && Run([]) == State(map[], map[]);
    PromotedCarries([], e);
  }

  /** Two organisations with one license text: once the first has listed its keys, the second's cannot be seeded. */
  lemma TakenSeedFails(a: string, b: string, id: string, id': string, value: string, issued: string, now: int)
    requires a != b && id != id' && Trimmed(GoSpace, value) && Trimmed(GoSpace, issued)
    ensures var events := [SaveLicense(a, issued, value, "", "", Empty), List(a, id, issued, now),
                           SaveLicense(b, issued, value, "", "", Empty), List(b, id', issued, now)];
            EnabledRun(events) && KeysOf(Run(events), b) == {}
  {
    hide Trim, Trimmed, DefaultString;
    TrimmedStays(GoSpace, value);
    var save, list := SaveLicense(a, issued, value, "", "", Empty), List(a, id, issued, now);
    var save', list' := SaveLicense(b, issued, value, "", "", Empty), List(b, id', issued, now);
    RunGrows([], save);
    assert [] + [save] == [save] && [save] + [list] == [save, list] && [save, list] + [save'] == [save, list, save'];
    assert [save, list, save'] + [list'] == [save, list, save', list'];
    RunGrows([save], list);
    var s := Run([save, list]);
    assert s.keys.Keys == {id} && s.keys[id].orgID == a && s.keys[id].value == value;
    RunGrows([save, list], save');
    RunGrows([save, list, save'], list');
    assert Taken(Run([save, list, save']), value);
  }

  // ---------------------------------------------------------------- the order of the list

  /** A row of the table with its id. */
  datatype Listed = Listed(id: string, key: Key)

  /** Listed ahead: primary before others, then the newer one. */
  predicate Ahead(a: Key, b: Key) {
    (a.primary && !b.primary) || (a.primary == b.primary && a.createdAt > b.createdAt)
  }

  predicate InOrder(rows: seq<Listed>) {
    forall i, j :: 0 <= i < j < |rows| ==> !Ahead(rows[j].key, rows[i].key)
  }

  predicate TrueRows(rows: seq<Listed>, keys: map<string, Key>, ids: set<string>) {
    forall i :: 0 <= i < |rows| ==> rows[i].id in ids && rows[i].id in keys && rows[i].key == keys[rows[i].id]
  }

  predicate DistinctRows(rows: seq<Listed>) {
    forall i, j :: 0 <= i < j < |rows| ==> rows[i].id != rows[j].id
  }

  predicate HasRow(rows: seq<Listed>, id: string) {
    exists i :: 0 <= i < |rows| && rows[i].id == id
  }

  /** The rows with these ids, each once. */
  predicate ListsRows(rows: seq<Listed>, keys: map<string, Key>, ids: set<string>) {
    TrueRows(rows, keys, ids) && DistinctRows(rows) && forall id :: id in ids ==> HasRow(rows, id)
  }

  /** The rows with one more at place k. */
  function Inserted(rows: seq<Listed>, k: nat, row: Listed): (after: seq<Listed>)
    requires k <= |rows|
    ensures |after| == |rows| + 1
    ensures forall i :: 0 <= i < |after| ==> after[i] == if i < k then rows[i] else if i == k then row else rows[i - 1]
  {
    rows[..k] + [row] + rows[k..]
  }

  lemma InsertedDistinct(rows: seq<Listed>, keys: map<string, Key>, ids: set<string>, k: nat, row: Listed)
    requires TrueRows(rows, keys, ids) && DistinctRows(rows) && k <= |rows| && row.id !in ids
    ensures DistinctRows(Inserted(rows, k, row))
  {
    var after := Inserted(rows, k, row);
    forall i, j | 0 <= i < j < |after| ensures after[i].id != after[j].id {
      var i', j' := if i < k then i else i - 1, if j < k then j else j - 1;
      assert i != k ==> after[i] == rows[i'];
      assert j != k ==> after[j] == rows[j'];
    }
  }

  lemma InsertedHas(rows: seq<Listed>, k: nat, row: Listed, id: string)
    requires k <= |rows| && (id == row.id || HasRow(rows, id))
    ensures HasRow(Inserted(rows, k, row), id)
  {
    var after := Inserted(rows, k, row);
    if id == row.id {
      assert after[k].id == id;
    } else {
      var i :| 0 <= i < |rows| && rows[i].id == id;
      assert after[if i < k then i else i + 1].id == id;
    }
  }

  lemma InsertedRows(rows: seq<Listed>, keys: map<string, Key>, ids: set<string>, k: nat, row: Listed)
    requires ListsRows(rows, keys, ids) && k <= |rows| && row.id in keys && row.key == keys[row.id] && row.id !in ids
    ensures ListsRows(Inserted(rows, k, row), keys, ids + {row.id})
  {
    hide DistinctRows, HasRow;
    InsertedDistinct(rows, keys, ids, k, row);
    forall id | id in ids + {row.id} ensures HasRow(Inserted(rows, k, row), id) {
      InsertedHas(rows, k, row, id);
    }
  }

  lemma InsertedOrder(rows: seq<Listed>, k: nat, row: Listed)
    requires InOrder(rows) && k <= |rows|
    requires k > 0 ==> !Ahead(row.key, rows[k - 1].key)
    requires forall j :: k <= j < |rows| ==> Ahead(row.key, rows[j].key)
    ensures InOrder(Inserted(rows, k, row))
  {
    var after := Inserted(rows, k, row);
    forall i, j | 0 <= i < j < |after| ensures !Ahead(after[j].key, after[i].key) {
      if i < k && j == k && k > 0 {
        assert i == k - 1 || !Ahead(rows[k - 1].key, rows[i].key);
      }
    }
  }

  /** The order of rows with equal flags and times is left open. */
  method SortRows(keys: map<string, Key>, ids: set<string>) returns (rows: seq<Listed>)
    requires ids <= keys.Keys
    ensures ListsRows(rows, keys, ids) && InOrder(rows)
  {
    hide ListsRows;
    rows := [];
    var rest := ids;
    assert ListsRows([], keys, {}) by { NoRows(keys); }
    assert ids - rest == {};
    while rest != {}
      invariant rest <= ids && ListsRows(rows, keys, ids - rest) && InOrder(rows)
    {
      var id :| id in rest;
      var row := Listed(id, keys[id]);
      var k := |rows|;
      while k > 0 && Ahead(row.key, rows[k - 1].key)
        invariant 0 <= k <= |rows|
        invariant forall j :: k <= j < |rows| ==> Ahead(row.key, rows[j].key)
      {
        k := k - 1;
      }
      InsertedRows(rows, keys, ids - rest, k, row);
      InsertedOrder(rows, k, row);
      assert ids - (rest - {id}) == ids - rest + {id};
      rows := Inserted(rows, k, row);
      rest := rest - {id};
    }
    assert ids - rest == ids;
  }

  lemma NoRows(keys: map<string, Key>)
    ensures ListsRows([], keys, {})
  {
  }

  lemma SomeRow(rows: seq<Listed>, keys: map<string, Key>, ids: set<string>)
    requires ListsRows(rows, keys, ids) && ids != {}
    ensures rows != []
  {
    var id :| id in ids;
  }

  lemma OnlyRow(rows: seq<Listed>, keys: map<string, Key>, id: string)
    requires id in keys && rows == [Listed(id, keys[id])]
    ensures ListsRows(rows, keys, {id})
  {
    assert rows[0].id == id;
  }

  lemma Cleared(s: State, s': State, orgID: string)
    requires s'.licenses == s.licenses && s'.keys.Keys == s.keys.Keys
    requires forall id :: id in s'.keys && s'.keys[id].orgID == orgID ==> !s'.keys[id].primary
    requires forall id :: id in s'.keys ==> s'.keys[id].(primary := false) == s.keys[id].(primary := false)
    requires forall id :: id in s'.keys && s'.keys[id].orgID != orgID ==> s'.keys[id] == s.keys[id]
    ensures s' == ClearPrimary(s, orgID)
  {
  }

  // ---------------------------------------------------------------- the code

  class LicenseService {
    var keys: map<string, Key>
    var licenses: map<string, Record>

    ghost function Now(): State
      reads this
    {
      State(keys, licenses)
    }

    constructor ()
      ensures Now() == Run([])
    {
      keys, licenses := map[], map[];
    }

    method GetLicense(orgID: string, issued: string) returns (item: Record)
      modifies this`licenses
      ensures (Now(), item) == LicenseOf(old(Now()), orgID, issued)
    {
      if orgID in licenses {
        return licenses[orgID];
      }
      item := Record(issued, "free", "active", None);
      licenses := licenses[orgID := item];
    }

    method UpsertLicense(orgID: string, issued: string, value: string, tier: string, status: string, expiry: Expiry)
      returns (ok: bool)
      modifies this`licenses
      ensures Now() == Step(old(Now()), SaveLicense(orgID, issued, value, tier, status, expiry))
      ensures ok == !expiry.Malformed?
    {
      hide TrimSpace, DefaultString, KeysOf, PutKey, ClearPrimary;
      var item := GetLicense(orgID, issued);
      item := item.(value := TrimSpace(value), tier := DefaultString(tier, "free"));
      item := item.(status := DefaultString(status, "active"));
      if expiry.Malformed? {
        return false;
      } else if expiry.At? {
        item := item.(expiresAt := Some(expiry.time));
      } else {
        item := item.(expiresAt := None);
      }
      licenses := licenses[orgID := item];
      ok := true;
    }

    method GenerateLicenseKey(orgID: string, issued: string, generated: string, tier: string) returns (item: Record)
      modifies this`licenses
      ensures Now() == Step(old(Now()), Generate(orgID, issued, generated, tier))
      ensures item == licenses[orgID]
    {
      hide TrimSpace, DefaultString, KeysOf, PutKey, ClearPrimary;
      item := GetLicense(orgID, issued);
      item := item.(tier := DefaultString(tier, item.tier), value := generated);
      licenses := licenses[orgID := item];
    }

    method ClearPrimaryLicenseKeys(orgID: string)
      modifies this`keys
      ensures keys.Keys == old(keys).Keys
      ensures forall id :: id in keys && keys[id].orgID == orgID ==> !keys[id].primary
      ensures forall id :: id in keys ==> keys[id].(primary := false) == old(keys)[id].(primary := false)
      ensures forall id :: id in keys && keys[id].orgID != orgID ==> keys[id] == old(keys)[id]
    {
      keys := map id | id in keys :: if keys[id].orgID == orgID then keys[id].(primary := false) else keys[id];
    }

    /** The expiry is handed on as a text; whether it could be read back is all the caller could learn. */
    method PromoteLicenseFromKey(orgID: string, issued: string, key: Key) returns (ok: bool)
      modifies this`licenses
      ensures Now() == PromoteLicense(old(Now()), orgID, issued, key)
      ensures ok == Writable(key.expiresAt)
    {
      ok := UpsertLicense(orgID, issued, key.value, key.tier, key.status, Reparsed(key.expiresAt));
    }

    /** Primary first, then newest first. */
    method ListLicenseKeys(orgID: string, id: string, issued: string, time: int) returns (rows: Option<seq<Listed>>)
      modifies this
      ensures Now() == Step(old(Now()), List(orgID, id, issued, time))
      ensures var before, value := old(Now()), LicenseOf(old(Now()), orgID, issued).1.value;
              rows.None? <==> KeysOf(before, orgID) == {} && Taken(before, value)
      ensures rows.Some? ==>
                ListsRows(rows.value, keys, KeysOf(Now(), orgID)) && InOrder(rows.value) && rows.value != []
    {
      hide ListsRows;
      var ids := set i | i in keys && keys[i].orgID == orgID;
      ghost var before := Now();
      assert ids == KeysOf(before, orgID);
      if ids != {} {
        var found := SortRows(keys, ids);
        SomeRow(found, keys, ids);
        return Some(found);
      }
      var license := GetLicense(orgID, issued);
      if exists i :: i in keys && keys[i].value == license.value {
        return None;  // license_key is unique
      }
      keys := keys[id := Key(orgID, license.value, license.tier, "active", true, license.expiresAt, time)];
      forall i | i in before.keys ensures before.keys[i].orgID != orgID {
        assert i !in KeysOf(before, orgID);
      }
      OnlyRow([Listed(id, keys[id])], keys, id);
      assert KeysOf(Now(), orgID) == {id};
      rows := Some([Listed(id, keys[id])]);
    }

    method CreateLicenseKey(orgID: string, id: string, issued: string, generated: string, req: Request, time: int)
      returns (item: Option<Key>)
      modifies this
      ensures Now() == Step(old(Now()), Create(orgID, id, issued, generated, req, time))
      ensures item == if req.expiry.Malformed? || Taken(old(Now()), generated) then None else Some(keys[id])
    {
      var tier, status := DefaultString(req.tier, "free"), DefaultString(req.status, "draft");
      var created := Key(orgID, generated, tier, status, req.primary, None, time);
      if req.expiry.Malformed? {
        return None;
      }
      if req.expiry.At? {
        created := created.(expiresAt := Some(req.expiry.time));
      }
      if created.primary {
        ClearPrimaryLicenseKeys(orgID);
        Cleared(old(Now()), Now(), orgID);
      }
      if exists i :: i in keys && keys[i].value == generated {
        return None;  // license_key is unique
      }
      keys := keys[id := created];
      if created.primary {
        var _ := PromoteLicenseFromKey(orgID, issued, created);
      }
      item := Some(created);
    }

    method UpdateLicenseKey(orgID: string, id: string, issued: string, req: Request) returns (item: Option<Key>)
      modifies this
      ensures Now() == Step(old(Now()), Update(orgID, id, issued, req))
      ensures item == if id !in KeysOf(old(Now()), orgID) || req.expiry.Malformed? then None else Some(keys[id])
    {
      if id !in keys || keys[id].orgID != orgID {
        return None;
      }
      var found := keys[id];
      found := found.(tier := DefaultString(req.tier, found.tier), status := DefaultString(req.status, found.status));
      found := found.(primary := req.primary);
      if req.expiry.Malformed? {
        return None;
      } else if req.expiry.At? {
        found := found.(expiresAt := Some(req.expiry.time));
      } else if req.expiry.Empty? {
        found := found.(expiresAt := None);
      }
      if found.primary {
        ClearPrimaryLicenseKeys(orgID);
        Cleared(old(Now()), Now(), orgID);
      }
      keys := keys[id := found];
      if found.primary {
        var _ := PromoteLicenseFromKey(orgID, issued, found);
      }
      item := Some(found);
    }

    method DeleteLicenseKey(orgID: string, id: string)
      modifies this`keys
      ensures Now() == Step(old(Now()), Delete(orgID, id))
    {
      if id in keys && keys[id].orgID == orgID {
        keys := keys - {id};
      }
    }
  }
}
