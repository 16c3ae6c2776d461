/** The team list stored with every membership against the team tables it is derived from. */
module Teams {
  import opened Text
  import opened Wrappers

  // ---------------------------------------------------------------- tables

  datatype Team = Team(orgID: string, name: string)

  datatype TeamMember = TeamMember(teamID: string, userID: string)

  datatype Membership = Membership(userID: string, orgID: string, teams: seq<string>)

  /** Rows by primary key; the membership table of teams is a list of rows. */
  datatype Directory = Directory(
    users: set<string>,
    teams: map<string, Team>,
    members: seq<TeamMember>,
    memberships: map<string, Membership>)

  /** A row of the join of members and teams. */
  datatype Row = Row(userID: string, name: string)

  // ---------------------------------------------------------------- what the list should be

  predicate TeamIn(teams: map<string, Team>, teamID: string, orgID: string) {
    teamID in teams && teams[teamID].orgID == orgID
  }

  function JoinRows(teams: map<string, Team>, members: seq<TeamMember>, orgID: string): seq<Row> {
    if members == [] then []
    else
      var head := members[0];
      (if TeamIn(teams, head.teamID, orgID) then [Row(head.userID, teams[head.teamID].name)] else []) +
      JoinRows(teams, members[1..], orgID)
  }

  function NamesOf(rows: seq<Row>, userID: string): seq<string> {
    if rows == [] then []
    else (if rows[0].userID == userID then [rows[0].name] else []) + NamesOf(rows[1..], userID)
  }

  /** The names of the organisation's teams the user belongs to, one for each member row. */
  function TeamNames(d: Directory, orgID: string, userID: string): seq<string> {
    NamesOf(JoinRows(d.teams, d.members, orgID), userID)
  }

  /** Every membership of the organisation lists exactly those names, in some order. */
  ghost predicate InSync(d: Directory, orgID: string) {
    forall id :: id in d.memberships && d.memberships[id].orgID == orgID ==>
      multiset(d.memberships[id].teams) == multiset(TeamNames(d, orgID, d.memberships[id].userID))
  }

  // ---------------------------------------------------------------- requests

  /** Ids of new rows are part of the request. */
  datatype Request =
    | CreateUser(orgID: string, userID: string, membershipID: string, teamIDs: seq<string>)
    | UpdateUser(orgID: string, userID: string, teamIDs: seq<string>)
    | DeleteUser(orgID: string, userID: string)
    | CreateTeam(orgID: string, teamID: string, name: string, memberIDs: seq<string>)
    | UpdateTeam(orgID: string, teamID: string, name: string, memberIDs: seq<string>)
    | DeleteTeam(orgID: string, teamID: string)

  /** New ids are new. */
  predicate FreshIds(d: Directory, r: Request) {
    match r
    case CreateUser(_, userID, membershipID, _) =>
      && userID !in d.users && membershipID !in d.memberships
      && (forall m :: m in d.members ==> m.userID != userID)
      && (forall id :: id in d.memberships ==> d.memberships[id].userID != userID)
    case CreateTeam(_, teamID, _, _) => teamID !in d.teams && forall m :: m in d.members ==> m.teamID != teamID
    case _ => true
  }

  function Synced(d: Directory, orgID: string): Directory {
    d.(memberships := map id | id in d.memberships ::
      var m := d.memberships[id];
      if m.orgID == orgID then m.(teams := TeamNames(d, orgID, m.userID)) else m)
  }

  /** The rows left when a user leaves all teams of one organisation. */
  function WithoutUser(
    members: seq<TeamMember>, teams: map<string, Team>, orgID: string, userID: string): seq<TeamMember>
  {
    if members == [] then []
    else (if members[0].userID == userID && TeamIn(teams, members[0].teamID, orgID) then [] else [members[0]]) +
         WithoutUser(members[1..], teams, orgID, userID)
  }

  /** The rows left when a team is emptied. */
  function WithoutTeam(members: seq<TeamMember>, teamID: string): seq<TeamMember> {
    if members == [] then []
    else (if members[0].teamID == teamID then [] else [members[0]]) + WithoutTeam(members[1..], teamID)
  }

  function RowsForUser(teamIDs: seq<string>, userID: string): seq<TeamMember> {
    seq(|teamIDs|, i requires 0 <= i < |teamIDs| => TeamMember(teamIDs[i], userID))
  }

  function RowsForTeam(teamID: string, memberIDs: seq<string>): seq<TeamMember> {
    seq(|memberIDs|, i requires 0 <= i < |memberIDs| => TeamMember(teamID, memberIDs[i]))
  }

  function Apply(d: Directory, r: Request): Directory {
    match r
    case CreateUser(orgID, userID, membershipID, teamIDs) =>
      Synced(Directory(d.users + {userID}, d.teams,
                       WithoutUser(d.members, d.teams, orgID, userID) + RowsForUser(teamIDs, userID),
                       d.memberships[membershipID := Membership(userID, orgID, [])]), orgID)
    case UpdateUser(orgID, userID, teamIDs) =>
      Synced(d.(members := WithoutUser(d.members, d.teams, orgID, userID) + RowsForUser(teamIDs, userID)), orgID)
    case DeleteUser(orgID, userID) =>
      Directory(d.users - {userID}, d.teams, WithoutUser(d.members, d.teams, orgID, userID),
                map id | id in d.memberships &&
                  !(d.memberships[id].userID == userID && d.memberships[id].orgID == orgID)
                  :: d.memberships[id])
    case CreateTeam(orgID, teamID, name, memberIDs) =>
      Synced(d.(teams := d.teams[teamID := Team(orgID, name)],
                members := WithoutTeam(d.members, teamID) + RowsForTeam(teamID, memberIDs)), orgID)
    case UpdateTeam(orgID, teamID, name, memberIDs) =>
      Synced(d.(teams := if TeamIn(d.teams, teamID, orgID) then d.teams[teamID := Team(orgID, name)] else d.teams,
                members := WithoutTeam(d.members, teamID) + RowsForTeam(teamID, memberIDs)), orgID)
    case DeleteTeam(orgID, teamID) =>
      Synced(d.(teams := if TeamIn(d.teams, teamID, orgID) then d.teams - {teamID} else d.teams,
                members := WithoutTeam(d.members, teamID)), orgID)
  }

  // ---------------------------------------------------------------- joins

  lemma JoinConcat(teams: map<string, Team>, a: seq<TeamMember>, b: seq<TeamMember>, orgID: string)
    ensures JoinRows(teams, a + b, orgID) == JoinRows(teams, a, orgID) + JoinRows(teams, b, orgID)
  {
    if a == [] {
      assert a + b == b;
    } else {
      assert (a + b)[1..] == a[1..] + b;
      JoinConcat(teams, a[1..], b, orgID);
    }
  }

  lemma NamesConcat(a: seq<Row>, b: seq<Row>, userID: string)
    ensures NamesOf(a + b, userID) == NamesOf(a, userID) + NamesOf(b, userID)
  {
    if a == [] {
      assert a + b == b;
    } else {
      assert (a + b)[1..] == a[1..] + b;
      NamesConcat(a[1..], b, userID);
    }
  }

  /** How often a name occurs is how often its row occurs: the order of the join does not matter. */
  lemma NamesCount(rows: seq<Row>, userID: string, name: string)
    ensures multiset(NamesOf(rows, userID))[name] == multiset(rows)[Row(userID, name)]
  {
    if rows != [] {
      NamesCount(rows[1..], userID, name);
      assert rows == [rows[0]] + rows[1..];
      var head := if rows[0].userID == userID then [rows[0].name] else [];
      assert NamesOf(rows, userID) == head + NamesOf(rows[1..], userID);
    }
  }

  lemma NamesOfAnyOrder(rows: seq<Row>, rows': seq<Row>, userID: string)
    requires multiset(rows) == multiset(rows')
    ensures multiset(NamesOf(rows, userID)) == multiset(NamesOf(rows', userID))
  {
    forall name ensures multiset(NamesOf(rows, userID))[name] == multiset(NamesOf(rows', userID))[name] {
      NamesCount(rows, userID, name);
      NamesCount(rows', userID, name);
    }
  }

  // ---------------------------------------------------------------- keeping an organisation in sync

  /** The request names no team of the organisation from outside in a way that changes what its members should have
      listed. */
  ghost predicate ConfinedFor(d: Directory, r: Request, o: string) {
    r.orgID == o ||
    match r
    case UpdateUser(_, userID, teamIDs) =>
      forall id, i :: id in d.memberships && 0 <= i < |teamIDs| &&
                      d.memberships[id].userID == userID && d.memberships[id].orgID == o ==>
        !TeamIn(d.teams, teamIDs[i], o)
    case UpdateTeam(_, teamID, _, memberIDs) => TeamIn(d.teams, teamID, o) ==> SameRowCounts(d, teamID, memberIDs, o)
    case DeleteTeam(_, teamID) => TeamIn(d.teams, teamID, o) ==> SameRowCounts(d, teamID, [], o)
    case _ => true
  }

  /** Each of the organisation's members is listed as often as the user has rows of the team. */
  ghost predicate SameRowCounts(d: Directory, teamID: string, ids: seq<string>, o: string) {
    forall id :: id in d.memberships && d.memberships[id].orgID == o ==>
      multiset(ids)[d.memberships[id].userID] == multiset(d.members)[TeamMember(teamID, d.memberships[id].userID)]
  }

  /** After a request that synchronises, its own organisation is in sync whatever was stored before. */
  lemma OwnOrgInSync(d: Directory, r: Request)
    requires !r.DeleteUser?
    ensures InSync(Apply(d, r), r.orgID)
  {
  }

  lemma JoinIgnoresOtherTeams(
    teams: map<string, Team>, teams': map<string, Team>, members: seq<TeamMember>, orgID: string)
    requires forall m :: m in members ==>
      TeamIn(teams, m.teamID, orgID) == TeamIn(teams', m.teamID, orgID) &&
      (TeamIn(teams, m.teamID, orgID) ==> teams[m.teamID] == teams'[m.teamID])
    ensures JoinRows(teams, members, orgID) == JoinRows(teams', members, orgID)
  {
    if members != [] {
      JoinIgnoresOtherTeams(teams, teams', members[1..], orgID);
    }
  }

  /** Deleting a user's rows in one organisation leaves the joins of the others alone. */
  lemma WithoutUserElsewhere(
    members: seq<TeamMember>, teams: map<string, Team>, orgID: string, userID: string, other: string)
    requires other != orgID
    ensures JoinRows(teams, WithoutUser(members, teams, orgID, userID), other) == JoinRows(teams, members, other)
  {
    if members != [] {
      WithoutUserElsewhere(members[1..], teams, orgID, userID, other);
      var rest := WithoutUser(members[1..], teams, orgID, userID);
      JoinConcat(teams, [members[0]], rest, other);
      JoinConcat(teams, [members[0]], members[1..], other);
      assert members == [members[0]] + members[1..];
      if members[0].userID == userID && TeamIn(teams, members[0].teamID, orgID) {
        assert [] + rest == rest;
        assert [members[0]][1..] == [];
        assert JoinRows(teams, [members[0]], other) == [];
      }
    }
  }

  /** Deleting a user's rows does not touch other users of the organisation. */
  lemma WithoutUserOthers(
    members: seq<TeamMember>, teams: map<string, Team>, orgID: string, userID: string, user': string)
    requires user' != userID
    ensures NamesOf(JoinRows(teams, WithoutUser(members, teams, orgID, userID), orgID), user') ==
            NamesOf(JoinRows(teams, members, orgID), user')
  {
    if members != [] {
      WithoutUserOthers(members[1..], teams, orgID, userID, user');
      var rest := WithoutUser(members[1..], teams, orgID, userID);
      var first := JoinRows(teams, [members[0]], orgID);
      assert members == [members[0]] + members[1..];
      JoinConcat(teams, [members[0]], members[1..], orgID);
      NamesConcat(first, JoinRows(teams, members[1..], orgID), user');
      if members[0].userID == userID && TeamIn(teams, members[0].teamID, orgID) {
        assert [] + rest == rest;
        assert [members[0]][1..] == [];
        assert first == [Row(userID, teams[members[0].teamID].name)];
        assert first[1..] == [];
        assert NamesOf(first, user') == [];
      } else {
        JoinConcat(teams, [members[0]], rest, orgID);
        NamesConcat(first, JoinRows(teams, rest, orgID), user');
      }
    }
  }

  lemma RowsForUserJoin(teams: map<string, Team>, teamIDs: seq<string>, userID: string, orgID: string)
    ensures (forall i :: 0 <= i < |teamIDs| ==> !TeamIn(teams, teamIDs[i], orgID)) <==>
            JoinRows(teams, RowsForUser(teamIDs, userID), orgID) == []
    ensures forall row :: row in JoinRows(teams, RowsForUser(teamIDs, userID), orgID) ==> row.userID == userID
  {
    if teamIDs != [] {
      RowsForUserJoin(teams, teamIDs[1..], userID, orgID);
      var rows := RowsForUser(teamIDs, userID);
      assert rows[1..] == RowsForUser(teamIDs[1..], userID);
      assert rows[0] == TeamMember(teamIDs[0], userID);
      assert forall i :: 1 <= i < |teamIDs| ==> teamIDs[i] == teamIDs[1..][i - 1];
    }
  }

  lemma NamesOfAll(rows: seq<Row>, userID: string)
    requires forall row :: row in rows ==> row.userID == userID
    ensures |NamesOf(rows, userID)| == |rows|
  {
    if rows != [] {
      assert rows[0] in rows;
      NamesOfAll(rows[1..], userID);
    }
  }

  lemma NamesOfNobody(rows: seq<Row>, userID: string)
    requires forall row :: row in rows ==> row.userID != userID
    ensures NamesOf(rows, userID) == []
  {
    if rows != [] {
      assert rows[0] in rows;
      NamesOfNobody(rows[1..], userID);
    }
  }

  /** In another organisation an update of a user's teams only adds the names of the foreign teams passed. */
  lemma UserUpdateElsewhere(
    d: Directory, orgID: string, userID: string, teamIDs: seq<string>, other: string, user': string)
    requires other != orgID
    ensures var members := WithoutUser(d.members, d.teams, orgID, userID) + RowsForUser(teamIDs, userID);
            var added := NamesOf(JoinRows(d.teams, RowsForUser(teamIDs, userID), other), user');
            && NamesOf(JoinRows(d.teams, members, other), user') == TeamNames(d, other, user') + added
            && (added == [] <==>
                user' != userID || forall i :: 0 <= i < |teamIDs| ==> !TeamIn(d.teams, teamIDs[i], other))
  {
    var kept, rows := WithoutUser(d.members, d.teams, orgID, userID), RowsForUser(teamIDs, userID);
    var joined := JoinRows(d.teams, rows, other);
    JoinConcat(d.teams, kept, rows, other);
    WithoutUserElsewhere(d.members, d.teams, orgID, userID, other);
    NamesConcat(JoinRows(d.teams, kept, other), joined, user');
    RowsForUserJoin(d.teams, teamIDs, userID, other);
    if user' == userID {
      NamesOfAll(joined, userID);
    } else {
      NamesOfNobody(joined, user');
    }
  }

  lemma LongerDiffers(a: seq<string>, b: seq<string>)
    ensures multiset(a) == multiset(a + b) <==> b == []
  {
    if b == [] {
      assert a + b == a;
    } else {
      assert |multiset(a + b)| == |a| + |b|;
      assert |multiset(a)| == |a|;
    }
  }

  lemma UpdateUserKeeps(d: Directory, r: Request, o: string)
    requires r.UpdateUser? && r.orgID != o && InSync(d, o)
    ensures InSync(Apply(d, r), o) <==> ConfinedFor(d, r, o)
  {
    var d', userID := Apply(d, r), r.userID;
    forall id | id in d.memberships && d.memberships[id].orgID == o
      ensures d'.memberships[id] == d.memberships[id]
      ensures var m := d.memberships[id];
              multiset(m.teams) == multiset(TeamNames(d', o, m.userID)) <==>
              m.userID != userID || forall i :: 0 <= i < |r.teamIDs| ==> !TeamIn(d.teams, r.teamIDs[i], o)
    {
      var m := d.memberships[id];
      UserUpdateElsewhere(d, r.orgID, userID, r.teamIDs, o, m.userID);
      LongerDiffers(TeamNames(d, o, m.userID), NamesOf(JoinRows(d.teams, RowsForUser(r.teamIDs, userID), o), m.userID));
    }
    if InSync(d', o) {
      forall id, i | id in d.memberships && 0 <= i < |r.teamIDs| &&
                     d.memberships[id].userID == userID && d.memberships[id].orgID == o
        ensures !TeamIn(d.teams, r.teamIDs[i], o)
      {
        assert id in d'.memberships && d'.memberships[id].orgID == o;
      }
    }
  }

  lemma CreateUserKeeps(d: Directory, r: Request, o: string)
    requires r.CreateUser? && r.orgID != o && FreshIds(d, r) && InSync(d, o)
    ensures InSync(Apply(d, r), o)
  {
    var d' := Apply(d, r);
    forall id | id in d'.memberships && d'.memberships[id].orgID == o
      ensures multiset(d'.memberships[id].teams) == multiset(TeamNames(d', o, d'.memberships[id].userID))
    {
      assert id != r.membershipID && d'.memberships[id] == d.memberships[id];
      UserUpdateElsewhere(d, r.orgID, r.userID, r.teamIDs, o, d.memberships[id].userID);
      LongerDiffers(TeamNames(d, o, d.memberships[id].userID),
                    NamesOf(JoinRows(d.teams, RowsForUser(r.teamIDs, r.userID), o), d.memberships[id].userID));
    }
  }

  lemma DeleteUserKeeps(d: Directory, r: Request, o: string)
    requires r.DeleteUser? && InSync(d, o)
    ensures InSync(Apply(d, r), o)
  {
    var d' := Apply(d, r);
    forall id | id in d'.memberships && d'.memberships[id].orgID == o
      ensures multiset(d'.memberships[id].teams) == multiset(TeamNames(d', o, d'.memberships[id].userID))
    {
      if o == r.orgID {
        WithoutUserOthers(d.members, d.teams, r.orgID, r.userID, d.memberships[id].userID);
      } else {
        WithoutUserElsewhere(d.members, d.teams, r.orgID, r.userID, o);
      }
    }
  }

  // ---------------------------------------------------------------- requests about teams

  function One(b: bool): nat { if b then 1 else 0 }

  lemma JoinCountCons(teams: map<string, Team>, head: TeamMember, tail: seq<TeamMember>, orgID: string, row: Row)
    ensures multiset(JoinRows(teams, [head] + tail, orgID))[row] ==
            One(TeamIn(teams, head.teamID, orgID) && row == Row(head.userID, teams[head.teamID].name)) +
            multiset(JoinRows(teams, tail, orgID))[row]
  {
    assert ([head] + tail)[1..] == tail;
    var rest := JoinRows(teams, tail, orgID);
    if TeamIn(teams, head.teamID, orgID) {
      var first := Row(head.userID, teams[head.teamID].name);
      assert multiset([first] + rest) == multiset{first} + multiset(rest);
    } else {
      assert [] + rest == rest;
    }
  }

  lemma MemberCountCons(head: TeamMember, tail: seq<TeamMember>, m: TeamMember)
    ensures multiset([head] + tail)[m] == One(head == m) + multiset(tail)[m]
  {
  }

  lemma WithoutTeamCons(head: TeamMember, tail: seq<TeamMember>, teamID: string)
    ensures WithoutTeam([head] + tail, teamID) ==
            if head.teamID == teamID then WithoutTeam(tail, teamID) else [head] + WithoutTeam(tail, teamID)
  {
    assert ([head] + tail)[1..] == tail;
    assert [] + WithoutTeam(tail, teamID) == WithoutTeam(tail, teamID);
  }

  /** A team's rows account for exactly the occurrences of its name that its members have through it. */
  lemma {:induction false} TeamCount(
    teams: map<string, Team>, members: seq<TeamMember>, teamID: string, orgID: string, u: string, n: string)
    requires TeamIn(teams, teamID, orgID)
    ensures multiset(JoinRows(teams, members, orgID))[Row(u, n)] ==
            multiset(JoinRows(teams, WithoutTeam(members, teamID), orgID))[Row(u, n)] +
            (if n == teams[teamID].name then multiset(members)[TeamMember(teamID, u)] else 0)
  {
    if members != [] {
      var head, tail := members[0], members[1..];
      assert members == [head] + tail;
      TeamCount(teams, tail, teamID, orgID, u, n);
      MemberCountCons(head, tail, TeamMember(teamID, u));
      JoinCountCons(teams, head, tail, orgID, Row(u, n));
      WithoutTeamCons(head, tail, teamID);
      JoinCountCons(teams, head, WithoutTeam(tail, teamID), orgID, Row(u, n));
    }
  }

  lemma WithoutTeamElsewhere(teams: map<string, Team>, members: seq<TeamMember>, teamID: string, orgID: string)
    requires !TeamIn(teams, teamID, orgID)
    ensures JoinRows(teams, WithoutTeam(members, teamID), orgID) == JoinRows(teams, members, orgID)
  {
    if members != [] {
      var head, tail := members[0], members[1..];
      WithoutTeamElsewhere(teams, tail, teamID, orgID);
      JoinConcat(teams, [head], WithoutTeam(tail, teamID), orgID);
      JoinConcat(teams, [head], tail, orgID);
      assert members == [head] + tail;
      if head.teamID == teamID {
        assert [head][1..] == [];
        assert [] + WithoutTeam(tail, teamID) == WithoutTeam(tail, teamID);
      }
    }
  }

  lemma RowsForTeamJoin(teams: map<string, Team>, teamID: string, ids: seq<string>, orgID: string, u: string, n: string)
    ensures !TeamIn(teams, teamID, orgID) ==> JoinRows(teams, RowsForTeam(teamID, ids), orgID) == []
    ensures TeamIn(teams, teamID, orgID) ==>
            multiset(JoinRows(teams, RowsForTeam(teamID, ids), orgID))[Row(u, n)] ==
            (if n == teams[teamID].name then multiset(ids)[u] else 0)
  {
    if ids != [] {
      RowsForTeamJoin(teams, teamID, ids[1..], orgID, u, n);
      assert RowsForTeam(teamID, ids)[1..] == RowsForTeam(teamID, ids[1..]);
      assert ids == [ids[0]] + ids[1..];
    }
  }

  /** What an organisation's join looks like after another organisation replaced the rows of a team. */
  lemma ReplacedCount(d: Directory, teamID: string, ids: seq<string>, other: string, u: string, n: string)
    requires TeamIn(d.teams, teamID, other)
    ensures var rows := JoinRows(d.teams, WithoutTeam(d.members, teamID) + RowsForTeam(teamID, ids), other);
            multiset(NamesOf(rows, u))[n] +
            (if n == d.teams[teamID].name then multiset(d.members)[TeamMember(teamID, u)] else 0) ==
            multiset(TeamNames(d, other, u))[n] + (if n == d.teams[teamID].name then multiset(ids)[u] else 0)
  {
    var kept, rows := WithoutTeam(d.members, teamID), RowsForTeam(teamID, ids);
    JoinConcat(d.teams, kept, rows, other);
    NamesCount(JoinRows(d.teams, kept + rows, other), u, n);
    NamesCount(JoinRows(d.teams, d.members, other), u, n);
    TeamCount(d.teams, d.members, teamID, other, u, n);
    RowsForTeamJoin(d.teams, teamID, ids, other, u, n);
  }

  lemma ReplacedNames(d: Directory, teamID: string, ids: seq<string>, other: string, u: string)
    requires TeamIn(d.teams, teamID, other)
    ensures multiset(NamesOf(JoinRows(d.teams, WithoutTeam(d.members, teamID) + RowsForTeam(teamID, ids), other), u)) ==
            multiset(TeamNames(d, other, u)) <==>
            multiset(ids)[u] == multiset(d.members)[TeamMember(teamID, u)]
  {
    ReplacedCount(d, teamID, ids, other, u, d.teams[teamID].name);
    if multiset(ids)[u] == multiset(d.members)[TeamMember(teamID, u)] {
      var after := NamesOf(JoinRows(d.teams, WithoutTeam(d.members, teamID) + RowsForTeam(teamID, ids), other), u);
      forall n ensures multiset(after)[n] == multiset(TeamNames(d, other, u))[n] {
        ReplacedCount(d, teamID, ids, other, u, n);
      }
    }
  }

  lemma ReplacedElsewhere(d: Directory, teamID: string, ids: seq<string>, other: string)
    requires !TeamIn(d.teams, teamID, other)
    ensures JoinRows(d.teams, WithoutTeam(d.members, teamID) + RowsForTeam(teamID, ids), other) ==
            JoinRows(d.teams, d.members, other)
  {
    var kept, rows := WithoutTeam(d.members, teamID), RowsForTeam(teamID, ids);
    JoinConcat(d.teams, kept, rows, other);
    WithoutTeamElsewhere(d.teams, d.members, teamID, other);
    RowsForTeamJoin(d.teams, teamID, ids, other, "", "");
  }

  /** The other organisations see the replacement of a team's rows only if the team is theirs. */
  lemma OtherNames(d: Directory, d': Directory, teamID: string, ids: seq<string>, other: string, u: string)
    requires d'.members == WithoutTeam(d.members, teamID) + RowsForTeam(teamID, ids)
    requires forall m :: m in d'.members ==>
      TeamIn(d.teams, m.teamID, other) == TeamIn(d'.teams, m.teamID, other) &&
      (TeamIn(d.teams, m.teamID, other) ==> d.teams[m.teamID] == d'.teams[m.teamID])
    ensures multiset(TeamNames(d', other, u)) == multiset(TeamNames(d, other, u)) <==>
            (TeamIn(d.teams, teamID, other) ==> multiset(ids)[u] == multiset(d.members)[TeamMember(teamID, u)])
  {
    JoinIgnoresOtherTeams(d.teams, d'.teams, d'.members, other);
    if TeamIn(d.teams, teamID, other) {
      ReplacedNames(d, teamID, ids, other, u);
    } else {
      ReplacedElsewhere(d, teamID, ids, other);
    }
  }

  predicate TeamsElsewhereKept(d: Directory, d': Directory, orgID: string) {
    && (forall t :: t in d.teams && d.teams[t].orgID != orgID ==> t in d'.teams && d'.teams[t] == d.teams[t])
    && (forall t :: t in d'.teams && d'.teams[t].orgID != orgID ==> t in d.teams && d'.teams[t] == d.teams[t])
  }

  /** Replacing the rows of one team keeps another organisation in sync exactly when the team is not its own or, for
      each of its members, the number of rows stays the same. */
  lemma ReplacingKeeps(d: Directory, d': Directory, orgID: string, teamID: string, ids: seq<string>, o: string)
    requires o != orgID && InSync(d, o) && TeamsElsewhereKept(d, d', orgID)
    requires d'.members == WithoutTeam(d.members, teamID) + RowsForTeam(teamID, ids)
    requires d'.memberships.Keys == d.memberships.Keys
    requires forall id :: id in d.memberships ==>
      d'.memberships[id].orgID == d.memberships[id].orgID &&
      (d.memberships[id].orgID != orgID ==> d'.memberships[id] == d.memberships[id])
    ensures InSync(d', o) <==> (TeamIn(d.teams, teamID, o) ==> SameRowCounts(d, teamID, ids, o))
  {
    forall id | id in d.memberships && d.memberships[id].orgID == o
      ensures var m := d.memberships[id];
              multiset(m.teams) == multiset(TeamNames(d', o, m.userID)) <==>
              (TeamIn(d.teams, teamID, o) ==>
                multiset(ids)[m.userID] == multiset(d.members)[TeamMember(teamID, m.userID)])
    {
      OtherNames(d, d', teamID, ids, o, d.memberships[id].userID);
    }
    if InSync(d', o) && TeamIn(d.teams, teamID, o) {
      forall id | id in d.memberships && d.memberships[id].orgID == o
        ensures multiset(ids)[d.memberships[id].userID] ==
                multiset(d.members)[TeamMember(teamID, d.memberships[id].userID)]
      {
        assert id in d'.memberships;
      }
    }
  }

  lemma TeamRequestKeeps(d: Directory, r: Request, o: string)
    requires (r.CreateTeam? || r.UpdateTeam? || r.DeleteTeam?) && r.orgID != o && FreshIds(d, r) && InSync(d, o)
    ensures InSync(Apply(d, r), o) <==> ConfinedFor(d, r, o)
  {
    hide InSync, SameRowCounts, WithoutTeam, TeamNames;
    var d' := Apply(d, r);
    var ids := if r.DeleteTeam? then [] else r.memberIDs;
    assert RowsForTeam(r.teamID, []) == [];
    assert WithoutTeam(d.members, r.teamID) + [] == WithoutTeam(d.members, r.teamID);
    ReplacingKeeps(d, d', r.orgID, r.teamID, ids, o);
  }

  /** The main result: an organisation that is in sync stays so precisely when the request is confined for it. Whether
      other organisations are in sync does not matter. */
  lemma KeepsInSync(d: Directory, r: Request, o: string)
    requires InSync(d, o) && FreshIds(d, r)
    ensures InSync(Apply(d, r), o) <==> ConfinedFor(d, r, o)
  {
    hide InSync, Apply, FreshIds;
    if r.DeleteUser? {
      DeleteUserKeeps(d, r, o);
    } else if r.orgID == o {
      OwnOrgInSync(d, r);
    } else if r.CreateUser? {
      CreateUserKeeps(d, r, o);
    } else if r.UpdateUser? {
      UpdateUserKeeps(d, r, o);
    } else {
      TeamRequestKeeps(d, r, o);
    }
  }

  // ---------------------------------------------------------------- runs

  function ApplyAll(d: Directory, rs: seq<Request>): Directory
    decreases rs
  {
    if rs == [] then d else ApplyAll(Apply(d, rs[0]), rs[1..])
  }

  predicate FreshRun(d: Directory, rs: seq<Request>)
    decreases rs
  {
    rs == [] || (FreshIds(d, rs[0]) && FreshRun(Apply(d, rs[0]), rs[1..]))
  }

  ghost predicate ConfinedRun(d: Directory, rs: seq<Request>, o: string)
    decreases rs
  {
    rs == [] || (ConfinedFor(d, rs[0], o) && ConfinedRun(Apply(d, rs[0]), rs[1..], o))
  }

  /** In sync after every request of the run. */
  ghost predicate InSyncThroughout(d: Directory, rs: seq<Request>, o: string)
    decreases rs
  {
    InSync(d, o) && (rs == [] || InSyncThroughout(Apply(d, rs[0]), rs[1..], o))
  }

  /** An organisation once in sync stays so throughout a run precisely when every request is confined for it. */
  lemma {:induction false} RunsStayInSync(d: Directory, rs: seq<Request>, o: string)
    requires InSync(d, o) && FreshRun(d, rs)
    ensures InSyncThroughout(d, rs, o) <==> ConfinedRun(d, rs, o)
    ensures ConfinedRun(d, rs, o) ==> InSync(ApplyAll(d, rs), o)
    decreases rs
  {
    hide InSync, ConfinedFor, FreshIds, Apply;
    if rs != [] {
      KeepsInSync(d, rs[0], o);
      if ConfinedFor(d, rs[0], o) {
        RunsStayInSync(Apply(d, rs[0]), rs[1..], o);
      } else {
        NotThroughout(Apply(d, rs[0]), rs[1..], o);
      }
    }
  }

  lemma NotThroughout(d: Directory, rs: seq<Request>, o: string)
    requires !InSync(d, o)
    ensures !InSyncThroughout(d, rs, o)
  {
  }

  /** A request that rewrites the stored lists of its organisation. */
  predicate Synchronises(r: Request, o: string) { r.orgID == o && !r.DeleteUser? }

  lemma {:induction false} RunSplits(d: Directory, rs: seq<Request>, k: nat)
    requires k <= |rs|
    ensures ApplyAll(d, rs) == ApplyAll(ApplyAll(d, rs[..k]), rs[k..])
    ensures FreshRun(d, rs) ==> FreshRun(ApplyAll(d, rs[..k]), rs[k..])
    decreases k
  {
    hide Apply, FreshIds;
    if k == 0 {
      assert rs[k..] == rs;
    } else {
      RunSplits(Apply(d, rs[0]), rs[1..], k - 1);
      assert rs[..k][1..] == rs[1..][..k - 1] && rs[k..] == rs[1..][k - 1..];
    }
  }

  /** From any state whatsoever: once a request has synchronised an organisation, it is in sync throughout the rest of
      the run precisely when the requests after it are confined for it. */
  lemma OnceSynced(d: Directory, rs: seq<Request>, k: nat, o: string)
    requires FreshRun(d, rs) && k < |rs| && Synchronises(rs[k], o)
    ensures var synced := ApplyAll(d, rs[..k + 1]);
            && InSync(synced, o)
            && (InSyncThroughout(synced, rs[k + 1..], o) <==> ConfinedRun(synced, rs[k + 1..], o))
            && (ConfinedRun(synced, rs[k + 1..], o) ==> InSync(ApplyAll(d, rs), o))
  {
    hide InSync, Apply, FreshIds, ConfinedRun, InSyncThroughout;
    var before, upto := ApplyAll(d, rs[..k]), rs[..k + 1];
    RunSplits(d, upto, k);
    assert upto[..k] == rs[..k] && upto[k..] == [rs[k]];
    assert ApplyAll(d, upto) == Apply(before, rs[k]) by {
      assert [rs[k]][1..] == [];
      assert ApplyAll(Apply(before, rs[k]), []) == Apply(before, rs[k]);
    }
    OwnOrgInSync(before, rs[k]);
    RunSplits(d, rs, k + 1);
    RunsStayInSync(ApplyAll(d, upto), rs[k + 1..], o);
  }

  /** What seeding leaves: one membership that lists a team no table holds. */
  function Seeded(orgID: string, userID: string, membershipID: string): Directory {
    Directory({userID}, map[], [], map[membershipID := Membership(userID, orgID, ["platform"])])
  }

  /** The seeded membership as it was, and no team of its organisation. */
  predicate StillSeeded(d: Directory, orgID: string, userID: string, membershipID: string) {
    && membershipID in d.memberships && d.memberships[membershipID] == Membership(userID, orgID, ["platform"])
    && forall t :: t in d.teams ==> d.teams[t].orgID != orgID
  }

  lemma NoTeamsNoNames(d: Directory, orgID: string, userID: string)
    requires forall t :: t in d.teams ==> d.teams[t].orgID != orgID
    ensures TeamNames(d, orgID, userID) == []
  {
    NoTeamsNoRows(d.teams, d.members, orgID);
  }

  lemma {:induction false} NoTeamsNoRows(teams: map<string, Team>, members: seq<TeamMember>, orgID: string)
    requires forall t :: t in teams ==> teams[t].orgID != orgID
    ensures JoinRows(teams, members, orgID) == []
  {
    if members != [] {
      NoTeamsNoRows(teams, members[1..], orgID);
    }
  }

  lemma SeedNotInSync(d: Directory, orgID: string, userID: string, membershipID: string)
    requires StillSeeded(d, orgID, userID, membershipID)
    ensures !InSync(d, orgID)
  {
    NoTeamsNoNames(d, orgID, userID);
    assert |multiset(["platform"])| == 1;
  }

  /** The request neither rewrites the organisation's lists nor deletes the seeded user from it. */
  predicate LeavesSeed(r: Request, orgID: string, userID: string) {
    r.orgID != orgID || (r.DeleteUser? && r.userID != userID)
  }

  lemma {:induction false} OthersLeaveSeed(
    d: Directory, rs: seq<Request>, orgID: string, userID: string, membershipID: string)
    requires StillSeeded(d, orgID, userID, membershipID) && FreshRun(d, rs)
    requires forall i :: 0 <= i < |rs| ==> LeavesSeed(rs[i], orgID, userID)
    ensures StillSeeded(ApplyAll(d, rs), orgID, userID, membershipID)
    decreases rs
  {
    if rs != [] {
      OthersLeaveSeed(Apply(d, rs[0]), rs[1..], orgID, userID, membershipID);
    }
  }

  /** After seeding the organisation is out of sync until its first synchronising request (or until the seeded user is
      deleted), and from that request on in sync throughout precisely while requests are confined for it. */
  lemma SeededUntilFirstSync(orgID: string, userID: string, membershipID: string, rs: seq<Request>, k: nat)
    requires FreshRun(Seeded(orgID, userID, membershipID), rs) && k < |rs| && Synchronises(rs[k], orgID)
    requires forall i :: 0 <= i < k ==> LeavesSeed(rs[i], orgID, userID)
    ensures var d, synced :=
            Seeded(orgID, userID, membershipID), ApplyAll(Seeded(orgID, userID, membershipID), rs[..k + 1]);
            && (forall i :: 0 <= i <= k ==> !InSync(ApplyAll(d, rs[..i]), orgID))
            && InSync(synced, orgID)
            && (InSyncThroughout(synced, rs[k + 1..], orgID) <==> ConfinedRun(synced, rs[k + 1..], orgID))
  {
    hide InSync, Apply, FreshIds, ConfinedRun, InSyncThroughout, ApplyAll, FreshRun;
    var d := Seeded(orgID, userID, membershipID);
    OnceSynced(d, rs, k, orgID);
    forall i | 0 <= i <= k ensures !InSync(ApplyAll(d, rs[..i]), orgID) {
      FreshPrefix(d, rs, i);
      OthersLeaveSeed(d, rs[..i], orgID, userID, membershipID);
      SeedNotInSync(ApplyAll(d, rs[..i]), orgID, userID, membershipID);
    }
  }

  lemma {:induction false} FreshPrefix(d: Directory, rs: seq<Request>, k: nat)
    requires k <= |rs| && FreshRun(d, rs)
    ensures FreshRun(d, rs[..k])
    decreases k
  {
    hide Apply, FreshIds;
    if k > 0 {
      FreshPrefix(Apply(d, rs[0]), rs[1..], k - 1);
      assert rs[..k][1..] == rs[1..][..k - 1];
    }
  }

  // ---------------------------------------------------------------- the code

  /** The service object. Each method is one transaction; a failed role lookup rolls it back. */
  class TeamService {
    var users: set<string>
    var teams: map<string, Team>
    var members: seq<TeamMember>
    var memberships: map<string, Membership>
    const roles: set<(Option<string>, string)>

    constructor (d: Directory, roles: set<(Option<string>, string)>)
      ensures Abstract() == d && this.roles == roles
    {
      this.roles := roles;
      users, teams, members, memberships := d.users, d.teams, d.members, d.memberships;
    }

    function Abstract(): Directory
      reads this
    {
      Directory(users, teams, members, memberships)
    }

    /** Role slugs resolve in the organisation or globally; the first that does not makes the transaction fail. */
    predicate RolesResolve(orgID: string, slugs: seq<string>)
      reads this
    {
      forall i :: 0 <= i < |slugs| ==>
        (Some(orgID), Lower(TrimSpace(slugs[i]))) in roles || (None, Lower(TrimSpace(slugs[i]))) in roles
    }

    method CreateUser(orgID: string, newID: string, newMembershipID: string, username: string,
      email: string, password: string,
                      roleSlugs: seq<string>, teamIDs: seq<string>)
      returns (ok: bool)
      requires FreshIds(Abstract(), Request.CreateUser(orgID, newID, newMembershipID, teamIDs))
      modifies this
      ensures ok <==> username != "" && email != "" && password != "" && old(RolesResolve(orgID, roleSlugs))
      ensures !ok ==> Abstract() == old(Abstract())
      ensures ok ==> Served(old(Abstract()), Request.CreateUser(orgID, newID, newMembershipID, teamIDs), Abstract())
    {
      if username == "" || email == "" || password == "" {
        return false;
      }
      ghost var before := Abstract();
      var users0, memberships0 := users, memberships;
      users := users + {newID};
      memberships := memberships[newMembershipID := Membership(newID, orgID, [])];
      if !RolesResolve(orgID, roleSlugs) {
        users, memberships := users0, memberships0;  // rollback
        return false;
      }
      ReplaceTeamMembersForUser(orgID, newID, teamIDs);
      ok := true;
      ServedInSync(before, Request.CreateUser(orgID, newID, newMembershipID, teamIDs), Abstract());
    }

    method UpdateUser(orgID: string, userID: string, roleSlugs: seq<string>, teamIDs: seq<string>) returns (ok: bool)
      modifies this
      ensures ok <==> old(RolesResolve(orgID, roleSlugs))
      ensures !ok ==> Abstract() == old(Abstract())
      ensures ok ==> Served(old(Abstract()), Request.UpdateUser(orgID, userID, teamIDs), Abstract())
    {
      ghost var before := Abstract();
      if !RolesResolve(orgID, roleSlugs) {
        return false;
      }
      ReplaceTeamMembersForUser(orgID, userID, teamIDs);
      ok := true;
      ServedInSync(before, Request.UpdateUser(orgID, userID, teamIDs), Abstract());
    }

    method DeleteUser(orgID: string, userID: string)
      modifies this
      ensures Served(old(Abstract()), Request.DeleteUser(orgID, userID), Abstract())
    {
      ghost var before := Abstract();
      members := WithoutUser(members, teams, orgID, userID);
      memberships := map id | id in memberships && !(memberships[id].userID == userID && memberships[id].orgID == orgID)
        :: memberships[id];
      users := users - {userID};
      ServedInSync(before, Request.DeleteUser(orgID, userID), Abstract());
    }

    method CreateTeam(orgID: string, newID: string, name: string, slug: string, memberIDs: seq<string>)
      returns (ok: bool)
      requires FreshIds(Abstract(), Request.CreateTeam(orgID, newID, TrimSpace(name), memberIDs))
      modifies this
      ensures ok <==> TrimSpace(name) != "" && TrimSpace(slug) != ""
      ensures !ok ==> Abstract() == old(Abstract())
      ensures ok ==> Served(old(Abstract()), Request.CreateTeam(orgID, newID, TrimSpace(name), memberIDs), Abstract())
    {
      ghost var before := Abstract();
      var team := Team(orgID, TrimSpace(name));
      if team.name == "" || TrimSpace(slug) == "" {
        return false;
      }
      teams := teams[newID := team];
      ReplaceTeamMembers(orgID, newID, memberIDs);
      ok := true;
      ServedInSync(before, Request.CreateTeam(orgID, newID, TrimSpace(name), memberIDs), Abstract());
    }

    method UpdateTeam(orgID: string, teamID: string, name: string, memberIDs: seq<string>)
      modifies this
      ensures Served(old(Abstract()), Request.UpdateTeam(orgID, teamID, TrimSpace(name), memberIDs), Abstract())
    {
      ghost var before := Abstract();
      if teamID in teams && teams[teamID].orgID == orgID {
        teams := teams[teamID := Team(orgID, TrimSpace(name))];
      }
      ReplaceTeamMembers(orgID, teamID, memberIDs);
      ServedInSync(before, Request.UpdateTeam(orgID, teamID, TrimSpace(name), memberIDs), Abstract());
    }

    method DeleteTeam(orgID: string, teamID: string)
      modifies this
      ensures Served(old(Abstract()), Request.DeleteTeam(orgID, teamID), Abstract())
    {
      ghost var before := Abstract();
      members := WithoutTeam(members, teamID);
      if teamID in teams && teams[teamID].orgID == orgID {
        teams := teams - {teamID};
      }
      SyncAllMembershipTeams(orgID);
      ServedInSync(before, Request.DeleteTeam(orgID, teamID), Abstract());
    }

    method ReplaceTeamMembers(orgID: string, teamID: string, memberIDs: seq<string>)
      modifies this`members, this`memberships
      ensures Agree(Abstract(),
              Synced(old(Abstract()).(members := WithoutTeam(old(members), teamID) + RowsForTeam(teamID, memberIDs)),
                orgID))
    {
      hide WithoutTeam, Synced, Agree;
      ghost var kept := WithoutTeam(members, teamID);
      members := WithoutTeam(members, teamID);
      for i := 0 to |memberIDs|
        invariant members == kept + RowsForTeam(teamID, memberIDs)[..i] && memberships == old(memberships)
      {
        members := members + [TeamMember(teamID, memberIDs[i])];
      }
      assert members == kept + RowsForTeam(teamID, memberIDs);
      SyncAllMembershipTeams(orgID);
    }

    method ReplaceTeamMembersForUser(orgID: string, userID: string, teamIDs: seq<string>)
      modifies this`members, this`memberships
      ensures Agree(Abstract(),
              Synced(old(Abstract()).(members :=
                WithoutUser(old(members), teams, orgID, userID) + RowsForUser(teamIDs, userID)), orgID))
    {
      hide WithoutUser, Synced, Agree;
      ghost var kept := WithoutUser(members, teams, orgID, userID);
      members := WithoutUser(members, teams, orgID, userID);
      for i := 0 to |teamIDs|
        invariant members == kept + RowsForUser(teamIDs, userID)[..i] && memberships == old(memberships)
      {
        members := members + [TeamMember(teamIDs[i], userID)];
      }
      assert members == kept + RowsForUser(teamIDs, userID);
      SyncAllMembershipTeams(orgID);
    }

    /** The join of the organisation's teams and members; the database promises no order. */
    method ScanTeamRows(orgID: string) returns (rows: seq<Row>)
      ensures multiset(rows) == multiset(JoinRows(teams, members, orgID))
    {
      rows := JoinRows(teams, members, orgID);
    }

    method SyncAllMembershipTeams(orgID: string)
      modifies this`memberships
      ensures Agree(Abstract(), Synced(old(Abstract()), orgID))
    {
      var rows := ScanTeamRows(orgID);
      var byUser := GroupByUser(rows);
      WriteTeams(orgID, byUser);
      forall u ensures multiset(NamesOf(rows, u)) == multiset(TeamNames(old(Abstract()), orgID, u)) {
        NamesOfAnyOrder(rows, JoinRows(teams, members, orgID), u);
      }
    }

    method WriteTeams(orgID: string, byUser: map<string, seq<string>>)
      modifies this`memberships
      ensures memberships.Keys == old(memberships).Keys
      ensures forall id :: id in memberships ==>
        var m := old(memberships)[id];
        memberships[id] == if m.orgID == orgID then m.(teams := Listed(byUser, m.userID)) else m
    {
      var found := set id | id in memberships && memberships[id].orgID == orgID;
      var rest := found;
      ghost var before := memberships;
      while rest != {}
        invariant rest <= found && memberships.Keys == before.Keys
        invariant forall id :: id in before && id !in found - rest ==> memberships[id] == before[id]
        invariant forall id :: id in found - rest ==>
                  memberships[id] == before[id].(teams := Listed(byUser, before[id].userID))
      {
        var id :| id in rest;
        rest := rest - {id};
        var m := memberships[id];
        memberships := memberships[id := m.(teams := Listed(byUser, m.userID))];
      }
    }
  }

  function Listed(byUser: map<string, seq<string>>, userID: string): seq<string> {
    if userID in byUser then byUser[userID] else []
  }

  lemma NamesAppend(rows: seq<Row>, i: nat, u: string)
    requires i < |rows|
    ensures NamesOf(rows[..i + 1], u) ==
            if rows[i].userID == u then NamesOf(rows[..i], u) + [rows[i].name] else NamesOf(rows[..i], u)
  {
    assert rows[..i + 1] == rows[..i] + [rows[i]];
    NamesConcat(rows[..i], [rows[i]], u);
    assert [rows[i]][1..] == [];
  }

  method GroupByUser(rows: seq<Row>) returns (byUser: map<string, seq<string>>)
    ensures forall u :: Listed(byUser, u) == NamesOf(rows, u)
  {
    byUser := map[];
    for i := 0 to |rows|
      invariant forall u :: Listed(byUser, u) == NamesOf(rows[..i], u)
    {
      var row := rows[i];
      ghost var before := byUser;
      byUser := byUser[row.userID := Listed(byUser, row.userID) + [row.name]];
      forall u ensures Listed(byUser, u) == NamesOf(rows[..i + 1], u) {
        assert Listed(before, u) == NamesOf(rows[..i], u);
        NamesAppend(rows, i, u);
      }
    }
    assert rows[..|rows|] == rows;
  }

  /** Equal but for the order of the stored team lists. */
  ghost predicate Agree(d: Directory, d': Directory) {
    && d.users == d'.users && d.teams == d'.teams && d.members == d'.members
    && d.memberships.Keys == d'.memberships.Keys
    && forall id :: id in d.memberships ==>
      d.memberships[id].userID == d'.memberships[id].userID && d.memberships[id].orgID == d'.memberships[id].orgID &&
      multiset(d.memberships[id].teams) == multiset(d'.memberships[id].teams)
  }

  /** The request was carried out, and an organisation that was in sync is so afterwards exactly when the request is
      confined for it. */
  ghost predicate Served(d: Directory, r: Request, d': Directory) {
    && Agree(d', Apply(d, r))
    && (FreshIds(d, r) ==> forall o :: InSync(d, o) ==> (InSync(d', o) <==> ConfinedFor(d, r, o)))
  }

  lemma AgreeInSync(d: Directory, d': Directory, o: string)
    requires Agree(d, d')
    ensures InSync(d, o) <==> InSync(d', o)
  {
  }

  lemma ServedInSync(d: Directory, r: Request, d': Directory)
    requires Agree(d', Apply(d, r))
    ensures Served(d, r, d')
  {
    hide InSync, Agree, Apply, ConfinedFor, FreshIds;
    forall o | FreshIds(d, r) && InSync(d, o) ensures InSync(d', o) <==> ConfinedFor(d, r, o) {
      AgreeInSync(d', Apply(d, r), o);
      KeepsInSync(d, r, o);
    }
  }
}
