/** The presence summary told by the sessions and touches it is made from, with its times in seconds. */
module PresenceRows {
  import opened Text
  import opened Presence

  // ---------------------------------------------------------------- one summary

  /** The users of the sessions, one for each session. */
  function Owners(sessions: seq<Session>): seq<string> {
    seq(|sessions|, i requires 0 <= i < |sessions| => sessions[i].userID)
  }

  lemma {:induction false} CountIsOwners(sessions: seq<Session>, user: string)
    ensures CountOf(sessions, user) == multiset(Owners(sessions))[user]
  {
    if sessions != [] {
      var n := |sessions| - 1;
      CountIsOwners(sessions[..n], user);
      assert Owners(sessions) == Owners(sessions[..n]) + [sessions[n].userID];
    }
  }

  /** Seen less than five minutes ago. */
  predicate SeenLately(sessions: seq<Session>, user: string, now: nat) {
    exists i :: 0 <= i < |sessions| && sessions[i].userID == user && now < sessions[i].lastSeenAt + 300_000_000_000
  }

  lemma RecentIsLately(sessions: seq<Session>, user: string, now: nat)
    ensures Recent(sessions, user, now - 5 * MINUTE) <==> SeenLately(sessions, user, now)
  {
    if s :| s in sessions && s.userID == user && s.lastSeenAt > now - 5 * MINUTE {
      var i :| 0 <= i < |sessions| && sessions[i] == s;
    }
    if i :| 0 <= i < |sessions| && sessions[i].userID == user && now < sessions[i].lastSeenAt + 300_000_000_000 {
      assert sessions[i] in sessions;
    }
  }

  /** An entry holds the whole second of the user's latest session, their number, and the two windows. */
  lemma EntryExactly(summary: Summary, sessions: seq<Session>, now: nat, k: nat)
    requires Summarizes(summary, sessions, now) && k < |summary.users|
    ensures var u := summary.users[k];
            && (forall i :: 0 <= i < |sessions| && sessions[i].userID == u.userID ==>
                  sessions[i].lastSeenAt < (u.lastSeenAt + 1) * 1_000_000_000)
            && (exists i :: 0 <= i < |sessions| && sessions[i].userID == u.userID &&
                            u.lastSeenAt * 1_000_000_000 <= sessions[i].lastSeenAt)
            && u.activeSessions == multiset(Owners(sessions))[u.userID]
            && u.windows == if SeenLately(sessions, u.userID, now) then [FiveMinutes, FifteenMinutes]
               else [FifteenMinutes]
  {
    hide Recent, DistinctUsers, NewestFirst, LastOf;
    var u := summary.users[k];
    assert u.userID in IDs(summary.users);
    assert True(u, sessions, now - 5 * MINUTE);
    LastIsMaximum(sessions, u.userID);
    CountIsOwners(sessions, u.userID);
    RecentIsLately(sessions, u.userID, now);
    var s :| s in sessions && s.userID == u.userID && s.lastSeenAt == LastOf(sessions, u.userID);
    var j :| 0 <= j < |sessions| && sessions[j] == s;
    forall i | 0 <= i < |sessions| && sessions[i].userID == u.userID
      ensures sessions[i].lastSeenAt < (u.lastSeenAt + 1) * 1_000_000_000
    {
      assert sessions[i] in sessions;
    }
  }

  predicate IsListed(users: seq<UserSummary>, user: string) {
    exists k :: 0 <= k < |users| && users[k].userID == user
  }

  predicate HasSession(sessions: seq<Session>, user: string) {
    exists i :: 0 <= i < |sessions| && sessions[i].userID == user
  }

  /** Users with a session are listed, each once, the latest first; the counters count them, those seen lately, and the
      sessions. */
  lemma SummaryExactly(summary: Summary, sessions: seq<Session>, now: nat)
    requires Summarizes(summary, sessions, now)
    ensures forall user :: IsListed(summary.users, user) <==> HasSession(sessions, user)
    ensures forall k, l :: 0 <= k < l < |summary.users| ==>
              summary.users[k].userID != summary.users[l].userID &&
              summary.users[k].lastSeenAt >= summary.users[l].lastSeenAt
    ensures summary.online15m == |summary.users| && summary.activeSessions == |sessions|
    ensures summary.online5m == CountLately(summary.users, sessions, now)
  {
    hide Recent, AllTrue, Sum, RecentAmong;
    forall user ensures IsListed(summary.users, user) <==> HasSession(sessions, user) {
      ListedOrNot(summary.users, sessions, user);
    }
    LatelyCounted(summary.users, sessions, now);
  }

  lemma ListedOrNot(users: seq<UserSummary>, sessions: seq<Session>, user: string)
    requires IDs(users) == UsersOf(sessions)
    ensures IsListed(users, user) <==> HasSession(sessions, user)
  {
    if k :| 0 <= k < |users| && users[k].userID == user {
      assert users[k] in users && user in IDs(users);
      var s :| s in sessions && s.userID == user;
      var i :| 0 <= i < |sessions| && sessions[i] == s;
    }
    if i :| 0 <= i < |sessions| && sessions[i].userID == user {
      assert sessions[i] in sessions && user in UsersOf(sessions);
      var u :| u in users && u.userID == user;
      var k :| 0 <= k < |users| && users[k] == u;
    }
  }

  /** How many of the users were seen lately. */
  function CountLately(users: seq<UserSummary>, sessions: seq<Session>, now: nat): nat {
    if users == [] then 0
    else
      CountLately(users[..|users| - 1], sessions, now) +
      if SeenLately(sessions, users[|users| - 1].userID, now) then 1 else 0
  }

  lemma {:induction false} LatelyCounted(users: seq<UserSummary>, sessions: seq<Session>, now: nat)
    requires DistinctUsers(users)
    ensures |RecentAmong(IDs(users), sessions, now - 5 * MINUTE)| == CountLately(users, sessions, now)
  {
    hide Recent, SeenLately;
    if users == [] {
      assert RecentAmong(IDs(users), sessions, now - 5 * MINUTE) == {};
    } else {
      var init, last := users[..|users| - 1], users[|users| - 1];
      LatelyCounted(init, sessions, now);
      RecentIsLately(sessions, last.userID, now);
      assert users == init + [last] && IDs(users) == IDs(init) + {last.userID};
      assert forall u :: u in init ==> u.userID != last.userID;
      RecentAmongGrows(IDs(init), last.userID, sessions, now - 5 * MINUTE);
    }
  }

  // ---------------------------------------------------------------- the table

  /** A clean-up removes what has expired and what was not seen for a day. */
  lemma CleanedExactly(records: map<string, Session>, now: nat, key: string)
    ensures var rows := Cleaned(records, now);
            && (key in rows <==> key in records && now < records[key].expiresAt &&
                                 now < records[key].lastSeenAt + 86_400_000_000_000)
            && (key in rows ==> rows[key] == records[key])
  {
  }

  /** The last touch of the key. */
  predicate LastTouch(events: seq<Event>, key: string, i: nat) {
    && i < |events| && events[i].Touch? && events[i].key == key
    && forall j :: i < j < |events| && events[j].Touch? ==> events[j].key != key
  }

  lemma {:induction false} LastTouchesAre(events: seq<Event>, key: string)
    ensures key in LastTouches(events) <==> exists i: nat :: LastTouch(events, key, i)
    ensures forall i: nat :: LastTouch(events, key, i) ==>
              key in LastTouches(events) &&
              LastTouches(events)[key] == Session(events[i].userID, events[i].orgID, events[i].at, events[i].expiresAt)
  {
    if events != [] {
      var n := |events| - 1;
      var init, last := events[..n], events[n];
      LastTouchesAre(init, key);
      if last.Touch? && last.key == key {
        assert LastTouch(events, key, n);
        forall i: nat | LastTouch(events, key, i) ensures i == n {
        }
      } else {
        forall i: nat ensures LastTouch(events, key, i) <==> LastTouch(init, key, i) {
        }
      }
    }
  }

  /** After any run, the sessions summarised are those whose last touch was for the organisation, at most fifteen
      minutes ago, and has not expired. */
  lemma ActiveExactly(events: seq<Event>, orgID: string, now: nat, key: string)
    requires Ordered(events, now)
    ensures var rows := ActiveRows(Cleaned(Run(events), now), orgID, now);
            && (key in rows <==>
                exists i: nat :: LastTouch(events, key, i) && events[i].orgID == orgID && now < events[i].expiresAt &&
                            now <= events[i].at + 900_000_000_000)
            && forall i: nat :: LastTouch(events, key, i) && key in rows ==>
                 rows[key] == Session(events[i].userID, orgID, events[i].at, events[i].expiresAt)
  {
    hide Run, LastTouches, Cleaned, Ordered, LastTouch;
    SummaryCountsLastTouches(events, orgID, now);
    LastTouchesAre(events, key);
  }
}
