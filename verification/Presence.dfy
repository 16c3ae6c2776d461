/** Presence of sessions: the touches of requests, the clean-up, and the summary of who is online. */
module Presence {
  import opened Text

  // ---------------------------------------------------------------- data

  /** Times in nanoseconds, counted from the zero time of the language. */
  const SECOND: nat := 1_000_000_000
  const MINUTE: nat := 60 * SECOND
  const DAY: nat := 24 * 60 * MINUTE

  datatype Session = Session(userID: string, orgID: string, lastSeenAt: nat, expiresAt: nat)

  datatype Window = FiveMinutes | FifteenMinutes

  datatype UserSummary = UserSummary(userID: string, lastSeenAt: nat, activeSessions: nat, windows: seq<Window>)

  datatype Summary = Summary(online5m: nat, online15m: nat, activeSessions: nat, users: seq<UserSummary>)

  // ---------------------------------------------------------------- what a list of sessions says about a user

  function UsersOf(sessions: seq<Session>): set<string> {
    set s | s in sessions :: s.userID
  }

  function CountOf(sessions: seq<Session>, user: string): nat {
    if sessions == [] then 0
    else CountOf(sessions[..|sessions| - 1], user) + (if sessions[|sessions| - 1].userID == user then 1 else 0)
  }

  /** The latest time the user was seen; zero for a user without sessions. */
  function LastOf(sessions: seq<Session>, user: string): nat {
    if sessions == [] then 0
    else
      var last, before := sessions[|sessions| - 1], LastOf(sessions[..|sessions| - 1], user);
      if last.userID == user && last.lastSeenAt > before then last.lastSeenAt else before
  }

  /** Some session of the user is newer than the cutoff. */
  predicate Recent(sessions: seq<Session>, user: string, cutoff: int) {
    exists s :: s in sessions && s.userID == user && s.lastSeenAt > cutoff
  }

  /** LastOf is the maximum over the user's sessions. */
  lemma {:induction false} LastIsMaximum(sessions: seq<Session>, user: string)
    ensures forall s :: s in sessions && s.userID == user ==> s.lastSeenAt <= LastOf(sessions, user)
    ensures user in UsersOf(sessions) ==>
            exists s :: s in sessions && s.userID == user && s.lastSeenAt == LastOf(sessions, user)
  {
    if sessions != [] {
      var init, last := sessions[..|sessions| - 1], sessions[|sessions| - 1];
      LastIsMaximum(init, user);
      assert forall s :: s in sessions <==> s in init || s == last;
      if user in UsersOf(init) {
        var s :| s in init && s.userID == user && s.lastSeenAt == LastOf(init, user);
      } else if last.userID == user {
        NeverSeen(init, user);
      }
    }
  }

  lemma {:induction false} NeverSeen(sessions: seq<Session>, user: string)
    requires user !in UsersOf(sessions)
    ensures CountOf(sessions, user) == 0 && LastOf(sessions, user) == 0 &&
            forall cutoff :: !Recent(sessions, user, cutoff)
  {
    if sessions != [] {
      var init := sessions[..|sessions| - 1];
      assert forall s :: s in sessions ==> s.userID in UsersOf(sessions);
      assert forall s :: s in init ==> s in sessions;
      NeverSeen(init, user);
    }
  }

  lemma SessionAdded(init: seq<Session>, last: Session)
    ensures var sessions := init + [last];
            && UsersOf(sessions) == UsersOf(init) + {last.userID}
            && (forall u :: CountOf(sessions, u) == CountOf(init, u) + if last.userID == u then 1 else 0)
            && (forall u :: LastOf(sessions, u) ==
                            if last.userID == u && last.lastSeenAt > LastOf(init, u) then last.lastSeenAt
                              else LastOf(init, u))
            && (forall u, c :: Recent(sessions, u, c) <==>
               Recent(init, u, c) || (last.userID == u && last.lastSeenAt > c))
  {
    var sessions := init + [last];
    assert sessions[..|sessions| - 1] == init;
    assert forall s :: s in sessions <==> s in init || s == last;
  }

  lemma UsersAdded(init: seq<Session>, last: Session)
    ensures UsersOf(init + [last]) == UsersOf(init) + {last.userID}
  {
    SessionAdded(init, last);
  }

  // ---------------------------------------------------------------- aggregation

  class Aggregate {
    var lastSeen: nat
    var sessions: nat
    var online5m: bool
    var online15m: bool

    /** A new aggregate describes a user without sessions. */
    lemma DescribesNobody(list: seq<Session>, user: string, cutoff5m: int)
      requires lastSeen == 0 && sessions == 0 && !online5m && !online15m && user !in UsersOf(list)
      ensures Describes(list, user, cutoff5m)
    {
      NeverSeen(list, user);
    }

    constructor ()
      ensures lastSeen == 0 && sessions == 0 && !online5m && !online15m
    {
      lastSeen, sessions, online5m, online15m := 0, 0, false, false;
    }

    ghost predicate Describes(list: seq<Session>, user: string, cutoff5m: int)
      reads this
    {
      && lastSeen == LastOf(list, user) && sessions == CountOf(list, user)
      && (online5m <==> Recent(list, user, cutoff5m)) && (online15m <==> user in UsersOf(list))
    }

    /** One more session of the user. */
    method Count(session: Session, cutoff5m: int, ghost before: seq<Session>)
      requires Describes(before, session.userID, cutoff5m)
      modifies this
      ensures Describes(before + [session], session.userID, cutoff5m)
    {
      SessionAdded(before, session);
      sessions := sessions + 1;
      if session.lastSeenAt > lastSeen {
        lastSeen := session.lastSeenAt;
      }
      if session.lastSeenAt > cutoff5m {
        online5m := true;
      }
      online15m := true;
    }

    /** A session of another user changes nothing. */
    lemma StillDescribes(user: string, session: Session, cutoff5m: int, before: seq<Session>)
      requires Describes(before, user, cutoff5m) && session.userID != user
      ensures Describes(before + [session], user, cutoff5m)
    {
      SessionAdded(before, session);
    }
  }

  method AggregateSessions(sessions: seq<Session>, cutoff5m: int) returns (aggregates: map<string, Aggregate>)
    ensures aggregates.Keys == UsersOf(sessions)
    ensures forall u :: u in aggregates ==> fresh(aggregates[u]) && aggregates[u].Describes(sessions, u, cutoff5m)
  {
    aggregates := map[];
    for k := 0 to |sessions|
      invariant aggregates.Keys == UsersOf(sessions[..k])
      invariant forall u :: u in aggregates ==>
                fresh(aggregates[u]) && aggregates[u].Describes(sessions[..k], u, cutoff5m)
      invariant forall u, v :: u in aggregates && v in aggregates && u != v ==> aggregates[u] != aggregates[v]
    {
      hide Aggregate.Describes, UsersOf;
      var session := sessions[k];
      assert sessions[..k + 1] == sessions[..k] + [session];
      UsersAdded(sessions[..k], session);
      if session.userID !in aggregates {
        var created := new Aggregate();
        created.DescribesNobody(sessions[..k], session.userID, cutoff5m);
        aggregates := aggregates[session.userID := created];
      }
      label Before:
      var item := aggregates[session.userID];
      forall u | u in aggregates && u != session.userID
        ensures aggregates[u].Describes(sessions[..k + 1], u, cutoff5m)
      {
        aggregates[u].StillDescribes(u, session, cutoff5m, sessions[..k]);
      }
      item.Count(session, cutoff5m, sessions[..k]);
    }
    assert sessions[..|sessions|] == sessions;
  }

  // ---------------------------------------------------------------- the summary

  function Sum(users: seq<UserSummary>): nat {
    if users == [] then 0 else Sum(users[..|users| - 1]) + users[|users| - 1].activeSessions
  }

  predicate DistinctUsers(users: seq<UserSummary>) {
    forall i, j :: 0 <= i < j < |users| ==> users[i].userID != users[j].userID
  }

  function IDs(users: seq<UserSummary>): set<string> {
    set u | u in users :: u.userID
  }

  /** What the summary says of one user is true of the user's sessions. */
  predicate True(u: UserSummary, sessions: seq<Session>, cutoff5m: int) {
    && u.lastSeenAt == LastOf(sessions, u.userID) / SECOND
    && u.activeSessions == CountOf(sessions, u.userID)
    && u.windows == (if Recent(sessions, u.userID, cutoff5m) then [FiveMinutes] else []) + [FifteenMinutes]
  }

  predicate AllTrue(users: seq<UserSummary>, sessions: seq<Session>, cutoff5m: int) {
    forall i :: 0 <= i < |users| ==> True(users[i], sessions, cutoff5m)
  }

  function RecentAmong(users: set<string>, sessions: seq<Session>, cutoff: int): set<string> {
    set u | u in users && Recent(sessions, u, cutoff)
  }

  lemma RecentAmongGrows(users: set<string>, u: string, sessions: seq<Session>, cutoff: int)
    requires u !in users
    ensures |RecentAmong(users + {u}, sessions, cutoff)| ==
            |RecentAmong(users, sessions, cutoff)| + if Recent(sessions, u, cutoff) then 1 else 0
  {
    var before := RecentAmong(users, sessions, cutoff);
    assert RecentAmong(users + {u}, sessions, cutoff) == if Recent(sessions, u, cutoff) then before + {u} else before;
  }

  lemma AppendUser(users: seq<UserSummary>, u: UserSummary, sessions: seq<Session>, cutoff5m: int)
    requires DistinctUsers(users) && AllTrue(users, sessions, cutoff5m)
    requires u.userID !in IDs(users) && True(u, sessions, cutoff5m)
    ensures DistinctUsers(users + [u]) && AllTrue(users + [u], sessions, cutoff5m)
    ensures IDs(users + [u]) == IDs(users) + {u.userID}
  {
    var grown := users + [u];
    assert forall v :: v in grown <==> v in users || v == u;
    forall i | 0 <= i < |users| ensures users[i].userID in IDs(users) {
      assert users[i] in users;
    }
  }

  /** The list built from the aggregates, in the order the map gives them. */
  method ListUsers(sessions: seq<Session>, cutoff5m: int)
    returns (users: seq<UserSummary>, online5m: nat, online15m: nat)
    ensures DistinctUsers(users) && IDs(users) == UsersOf(sessions) && AllTrue(users, sessions, cutoff5m)
    ensures online5m == |RecentAmong(UsersOf(sessions), sessions, cutoff5m)| && online15m == |users|
  {
    var aggregates := AggregateSessions(sessions, cutoff5m);
    users, online5m, online15m := [], 0, 0;
    var rest := aggregates.Keys;
    assert RecentAmong({}, sessions, cutoff5m) == {};
    while rest != {}
      invariant rest <= aggregates.Keys
      invariant forall u :: u in aggregates ==> aggregates[u].Describes(sessions, u, cutoff5m)
      invariant DistinctUsers(users) && IDs(users) == aggregates.Keys - rest && AllTrue(users, sessions, cutoff5m)
      invariant online5m == |RecentAmong(aggregates.Keys - rest, sessions, cutoff5m)| && online15m == |users|
    {
      var userID :| userID in rest;
      ghost var done := aggregates.Keys - rest;
      rest := rest - {userID};
      assert aggregates.Keys - rest == done + {userID};
      RecentAmongGrows(done, userID, sessions, cutoff5m);
      var item := aggregates[userID];
      if item.online5m {
        online5m := online5m + 1;
      }
      if item.online15m {
        online15m := online15m + 1;
      }
      var windows := [];
      if item.online5m {
        windows := windows + [FiveMinutes];
      }
      if item.online15m {
        windows := windows + [FifteenMinutes];
      }
      var summary := UserSummary(userID, item.lastSeen / SECOND, item.sessions, windows);
      AppendUser(users, summary, sessions, cutoff5m);
      users := users + [summary];
    }
  }

  predicate NewestFirst(users: seq<UserSummary>) {
    forall i, j :: 0 <= i < j < |users| ==> users[i].lastSeenAt >= users[j].lastSeenAt
  }

  /** Where a user belongs in a sorted list. */
  method FindPlace(sorted: seq<UserSummary>, u: UserSummary) returns (i: nat)
    ensures i <= |sorted| && (i > 0 ==> sorted[i - 1].lastSeenAt >= u.lastSeenAt)
    ensures forall j :: i <= j < |sorted| ==> sorted[j].lastSeenAt < u.lastSeenAt
  {
    i := |sorted|;
    while i > 0 && sorted[i - 1].lastSeenAt < u.lastSeenAt
      invariant i <= |sorted|
      invariant forall j :: i <= j < |sorted| ==> sorted[j].lastSeenAt < u.lastSeenAt
    {
      i := i - 1;
    }
  }

  /** Some list with the newest users first; the order of equals is left open. */
  method SortUsers(users: seq<UserSummary>) returns (sorted: seq<UserSummary>)
    ensures multiset(sorted) == multiset(users) && NewestFirst(sorted)
  {
    sorted := [];
    for k := 0 to |users|
      invariant multiset(sorted) == multiset(users[..k]) && NewestFirst(sorted)
    {
      hide NewestFirst;
      var i := FindPlace(sorted, users[k]);
      ghost var before := sorted;
      sorted := sorted[..i] + [users[k]] + sorted[i..];
      InsertedElements(before, i, users[k]);
      InsertedOrder(before, i, users[k]);
      assert users[..k + 1] == users[..k] + [users[k]];
    }
    assert users[..|users|] == users;
  }

  lemma InsertedElements(before: seq<UserSummary>, i: nat, u: UserSummary)
    requires i <= |before|
    ensures multiset(before[..i] + [u] + before[i..]) == multiset(before) + multiset{u}
  {
    assert before == before[..i] + before[i..];
  }

  lemma InsertedOrder(before: seq<UserSummary>, i: nat, u: UserSummary)
    requires i <= |before| && NewestFirst(before)
    requires i > 0 ==> before[i - 1].lastSeenAt >= u.lastSeenAt
    requires forall j :: i <= j < |before| ==> before[j].lastSeenAt < u.lastSeenAt
    ensures NewestFirst(before[..i] + [u] + before[i..])
  {
    var after := before[..i] + [u] + before[i..];
    forall a, b | 0 <= a < b < |after| ensures after[a].lastSeenAt >= after[b].lastSeenAt {
      if a < i && b == i {
        assert before[a].lastSeenAt >= before[i - 1].lastSeenAt;
      }
    }
  }

  /** A permutation keeps what is said of the users. */
  lemma PermutedUsers(users: seq<UserSummary>, sorted: seq<UserSummary>, sessions: seq<Session>, cutoff5m: int)
    requires multiset(sorted) == multiset(users)
    requires DistinctUsers(users) && AllTrue(users, sessions, cutoff5m)
    ensures |sorted| == |users| && DistinctUsers(sorted) && IDs(sorted) == IDs(users) &&
            AllTrue(sorted, sessions, cutoff5m)
  {
    assert |sorted| == |multiset(sorted)| == |multiset(users)|;
    assert forall u :: u in sorted <==> u in multiset(sorted);
    assert forall u :: u in users <==> u in multiset(users);
    forall i | 0 <= i < |sorted| ensures True(sorted[i], sessions, cutoff5m) {
      assert sorted[i] in users;
    }
    forall i, j | 0 <= i < j < |sorted| ensures sorted[i].userID != sorted[j].userID {
      if sorted[i].userID == sorted[j].userID {
        assert sorted[i] in users && sorted[j] in users;
        assert sorted[i] == sorted[j];
        Repeated(sorted, i, j);
        OnceEach(users, sorted[i]);
        assert false;
      }
    }
  }

  lemma Repeated(users: seq<UserSummary>, i: nat, j: nat)
    requires i < j < |users| && users[i] == users[j]
    ensures multiset(users)[users[i]] >= 2
  {
    assert users == users[..j] + [users[j]] + users[j + 1..];
    assert users[..j][i] == users[j];
    assert users[j] in users[..j];
  }

  lemma {:induction false} OnceEach(users: seq<UserSummary>, u: UserSummary)
    requires DistinctUsers(users)
    ensures multiset(users)[u] <= 1
  {
    if users != [] {
      var init, last := users[..|users| - 1], users[|users| - 1];
      assert users == init + [last];
      OnceEach(init, u);
      if u == last {
        assert u !in init;
      }
    }
  }

  /** How often a user id is listed, counted along the list. */
  function Listed(users: seq<UserSummary>, id: string): nat {
    if users == [] then 0 else Listed(users[..|users| - 1], id) + if users[|users| - 1].userID == id then 1 else 0
  }

  lemma {:induction false} ListedOnce(users: seq<UserSummary>, id: string)
    requires DistinctUsers(users)
    ensures Listed(users, id) == if id in IDs(users) then 1 else 0
  {
    if users != [] {
      var init, last := users[..|users| - 1], users[|users| - 1];
      ListedOnce(init, id);
      assert forall u :: u in users <==> u in init || u == last;
      assert forall i :: 0 <= i < |init| ==> users[i].userID != last.userID;
    }
  }

  function SumCounts(users: seq<UserSummary>, sessions: seq<Session>): nat {
    if users == [] then 0
    else SumCounts(users[..|users| - 1], sessions) + CountOf(sessions, users[|users| - 1].userID)
  }

  lemma {:induction false} SumCountsGrows(users: seq<UserSummary>, sessions: seq<Session>)
    requires sessions != []
    ensures SumCounts(users, sessions) ==
            SumCounts(users, sessions[..|sessions| - 1]) + Listed(users, sessions[|sessions| - 1].userID)
  {
    if users != [] {
      SumCountsGrows(users[..|users| - 1], sessions);
    }
  }

  lemma {:induction false} SumCountsAll(users: seq<UserSummary>, sessions: seq<Session>)
    requires DistinctUsers(users) && UsersOf(sessions) <= IDs(users)
    ensures SumCounts(users, sessions) == |sessions|
  {
    if sessions == [] {
      NoSessions(users);
    } else {
      var init, last := sessions[..|sessions| - 1], sessions[|sessions| - 1];
      assert forall s :: s in init ==> s in sessions;
      assert last in sessions;
      SumCountsAll(users, init);
      SumCountsGrows(users, sessions);
      ListedOnce(users, last.userID);
    }
  }

  lemma {:induction false} NoSessions(users: seq<UserSummary>)
    ensures SumCounts(users, []) == 0
  {
    if users != [] {
      NoSessions(users[..|users| - 1]);
    }
  }

  lemma {:induction false} SumIsCounts(users: seq<UserSummary>, sessions: seq<Session>, cutoff5m: int)
    requires AllTrue(users, sessions, cutoff5m)
    ensures Sum(users) == SumCounts(users, sessions)
  {
    if users != [] {
      SumIsCounts(users[..|users| - 1], sessions, cutoff5m);
    }
  }

  /** The sessions of the users listed add up to all sessions. */
  lemma SessionsConserved(users: seq<UserSummary>, sessions: seq<Session>, cutoff5m: int)
    requires DistinctUsers(users) && IDs(users) == UsersOf(sessions) && AllTrue(users, sessions, cutoff5m)
    ensures Sum(users) == |sessions|
  {
    SumIsCounts(users, sessions, cutoff5m);
    SumCountsAll(users, sessions);
  }

  /** What a summary of a list of sessions must satisfy. */
  predicate Summarizes(summary: Summary, sessions: seq<Session>, now: nat) {
    && DistinctUsers(summary.users) && IDs(summary.users) == UsersOf(sessions)
    && AllTrue(summary.users, sessions, now - 5 * MINUTE) && NewestFirst(summary.users)
    && Sum(summary.users) == summary.activeSessions == |sessions|
    && summary.online15m == |summary.users|
    && summary.online5m == |RecentAmong(UsersOf(sessions), sessions, now - 5 * MINUTE)|
  }

  method Summarize(sessions: seq<Session>, now: nat) returns (summary: Summary)
    ensures Summarizes(summary, sessions, now)
  {
    var users, online5m, online15m := ListUsers(sessions, now - 5 * MINUTE);
    var sorted := SortUsers(users);
    PermutedUsers(users, sorted, sessions, now - 5 * MINUTE);
    SessionsConserved(sorted, sessions, now - 5 * MINUTE);
    summary := Summary(online5m, online15m, |sessions|, sorted);
  }

  // ---------------------------------------------------------------- the table, over runs

  /** The clean-up of a summary removes this row. */
  predicate Stale(s: Session, now: nat) { s.expiresAt <= now || s.lastSeenAt <= now - DAY }

  /** The query of a summary finds this row. */
  predicate Active(s: Session, orgID: string, now: nat) {
    s.orgID == orgID && s.expiresAt > now && s.lastSeenAt >= now - 15 * MINUTE
  }

  function ActiveRows(records: map<string, Session>, orgID: string, now: nat): map<string, Session> {
    map key | key in records && Active(records[key], orgID, now) :: records[key]
  }

  function Cleaned(records: map<string, Session>, now: nat): map<string, Session> {
    map key | key in records && !Stale(records[key], now) :: records[key]
  }

  /** A list of the rows of a table, each once, in some order. */
  ghost predicate ListsRows(sessions: seq<Session>, rows: map<string, Session>) {
    exists keys: seq<string> :: |keys| == |sessions| && ListsKeys(keys, sessions, rows)
  }

  ghost predicate ListsKeys(keys: seq<string>, sessions: seq<Session>, rows: map<string, Session>) {
    && |keys| == |sessions|
    && (forall i, j :: 0 <= i < j < |keys| ==> keys[i] != keys[j])
    && (forall key :: key in keys <==> key in rows)
    && (forall i :: 0 <= i < |keys| ==> keys[i] in rows && sessions[i] == rows[keys[i]])
  }

  lemma KeysGrow(keys: seq<string>, sessions: seq<Session>, rows: map<string, Session>, done: set<string>, key: string)
    requires done <= rows.Keys && key in rows && key !in done
    requires ListsKeys(keys, sessions, Part(rows, done))
    ensures ListsKeys(keys + [key], sessions + [rows[key]], Part(rows, done + {key}))
  {
    var grown := keys + [key];
    assert forall k :: k in grown <==> k in keys || k == key;
    assert forall k :: k in Part(rows, done + {key}) <==> k in done || k == key;
    forall i | 0 <= i < |keys| ensures keys[i] != key {
      assert keys[i] in keys;
    }
  }

  function Part(rows: map<string, Session>, keys: set<string>): map<string, Session> {
    map key | key in rows && key in keys :: rows[key]
  }

  method ListRows(rows: map<string, Session>) returns (sessions: seq<Session>)
    ensures ListsRows(sessions, rows) && |sessions| == |rows|
  {
    hide ListsKeys;
    sessions := [];
    ghost var keys: seq<string> := [];
    var rest := rows.Keys;
    NothingListed(rows);
    while rest != {}
      invariant rest <= rows.Keys
      invariant |keys| == |sessions| == |rows.Keys| - |rest|
      invariant ListsKeys(keys, sessions, Part(rows, rows.Keys - rest))
    {
      var key :| key in rest;
      KeysGrow(keys, sessions, rows, rows.Keys - rest, key);
      assert rows.Keys - (rest - {key}) == rows.Keys - rest + {key};
      rest := rest - {key};
      sessions := sessions + [rows[key]];
      keys := keys + [key];
    }
    assert Part(rows, rows.Keys - rest) == rows;
    assert |rows| == |rows.Keys|;
  }

  lemma NothingListed(rows: map<string, Session>)
    ensures ListsKeys([], [], Part(rows, rows.Keys - rows.Keys))
  {
  }

  class PresenceService {
    var records: map<string, Session>

    constructor ()
      ensures records == map[]
    {
      records := map[];
    }

    /** A request of a session: its one row is written, whether new or not. A blank token touches nothing; the token
        itself stands for its hash. */
    method TouchSessionPresence(rawToken: string, userID: string, orgID: string, expiresAt: nat, now: nat)
      modifies this
      ensures records == if TrimSpace(rawToken) == "" then old(records)
                         else Step(old(records), Touch(TrimSpace(rawToken), userID, orgID, expiresAt, now))
    {
      if TrimSpace(rawToken) == "" {
        return;
      }
      var sessionKey := TrimSpace(rawToken);
      records := records[sessionKey := Session(userID, orgID, now, expiresAt)];
    }

    method GetPresenceSummary(orgID: string, now: nat) returns (summary: Summary)
      modifies this
      ensures records == Cleaned(old(records), now)
      ensures exists sessions ::
                ListsRows(sessions, ActiveRows(records, orgID, now)) && Summarizes(summary, sessions, now)
      ensures summary.activeSessions == |ActiveRows(records, orgID, now)|
    {
      records := Cleaned(records, now);
      var sessions := ListRows(ActiveRows(records, orgID, now));
      summary := Summarize(sessions, now);
    }
  }

  datatype Event =
    | Touch(key: string, userID: string, orgID: string, expiresAt: nat, at: nat)
    | Summarized(org: string, at: nat)

  function Step(records: map<string, Session>, e: Event): map<string, Session> {
    match e
    case Touch(key, userID, orgID, expiresAt, at) => records[key := Session(userID, orgID, at, expiresAt)]
    case Summarized(_, at) => Cleaned(records, at)
  }

  function Run(events: seq<Event>): map<string, Session> {
    if events == [] then map[] else Step(Run(events[..|events| - 1]), events[|events| - 1])
  }

  /** The last touch of every session key, nothing ever cleaned up. */
  function LastTouches(events: seq<Event>): map<string, Session> {
    if events == [] then map[]
    else
      var e, before := events[|events| - 1], LastTouches(events[..|events| - 1]);
      if e.Touch? then Step(before, e) else before
  }

  /** The clock does not run backwards. */
  predicate Ordered(events: seq<Event>, now: nat) {
    && (forall i, j :: 0 <= i < j < |events| ==> events[i].at <= events[j].at)
    && (forall i :: 0 <= i < |events| ==> events[i].at <= now)
  }

  lemma StaleStays(s: Session, before: nat, now: nat)
    requires before <= now
    ensures Stale(s, before) ==> Stale(s, now)
  {
  }

  /** The table holds last touches only, and lacks only rows that are stale. */
  lemma {:induction false} TableOfLastTouches(events: seq<Event>, now: nat)
    requires Ordered(events, now)
    ensures Abridges(Run(events), LastTouches(events), now)
  {
    if events != [] {
      var n := |events| - 1;
      var init, last := events[..n], events[n];
      assert last.at <= now && forall i :: 0 <= i < n ==> events[i].at <= last.at;
      TableOfLastTouches(init, last.at);
      StepKeepsTouches(Run(init), LastTouches(init), last, now);
    }
  }

  /** Nothing but last touches, and only stale rows missing. */
  ghost predicate Abridges(table: map<string, Session>, all: map<string, Session>, now: nat) {
    && (forall key :: key in table ==> key in all && table[key] == all[key])
    && (forall key :: key in all && key !in table ==> Stale(all[key], now))
  }

  lemma StepKeepsTouches(table: map<string, Session>, all: map<string, Session>, e: Event, now: nat)
    requires Abridges(table, all, e.at) && e.at <= now
    ensures Abridges(Step(table, e), if e.Touch? then Step(all, e) else all, now)
  {
    var table', all' := Step(table, e), if e.Touch? then Step(all, e) else all;
    forall key | key in all' && key !in table' ensures Stale(all'[key], now) {
      StaleStays(all'[key], e.at, now);
    }
  }

  lemma StaleInactive(s: Session, orgID: string, now: nat)
    ensures Stale(s, now) ==> !Active(s, orgID, now)
  {
  }

  /** Clean-up is never visible: a summary counts exactly the sessions whose last touch was for the organisation,
      at most fifteen minutes ago and with an expiry still ahead, after any run of touches and summaries. */
  lemma SummaryCountsLastTouches(events: seq<Event>, orgID: string, now: nat)
    requires Ordered(events, now)
    ensures ActiveRows(Cleaned(Run(events), now), orgID, now) == ActiveRows(LastTouches(events), orgID, now)
  {
    TableOfLastTouches(events, now);
    CleaningInvisible(Run(events), LastTouches(events), orgID, now);
  }

  lemma CleaningInvisible(table: map<string, Session>, all: map<string, Session>, orgID: string, now: nat)
    requires Abridges(table, all, now)
    ensures ActiveRows(Cleaned(table, now), orgID, now) == ActiveRows(all, orgID, now)
  {
    var rows, wanted := ActiveRows(Cleaned(table, now), orgID, now), ActiveRows(all, orgID, now);
    forall key ensures key in rows <==> key in wanted {
      if key in all {
        StaleInactive(all[key], orgID, now);
      }
    }
    assert rows.Keys == wanted.Keys;
  }
}
