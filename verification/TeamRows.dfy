/** What every request about users and teams leaves in the tables, row by row. */
module TeamRows {
  import opened Text
  import opened Wrappers
  import opened Teams

  // ---------------------------------------------------------------- rows of a pair

  lemma CountConcat(a: seq<TeamMember>, b: seq<TeamMember>, m: TeamMember)
    ensures multiset(a + b)[m] == multiset(a)[m] + multiset(b)[m]
  {
  }

  lemma {:induction false} UserRowsLeft(
    members: seq<TeamMember>, teams: map<string, Team>, o: string, u: string, m: TeamMember)
    ensures multiset(WithoutUser(members, teams, o, u))[m] ==
            if m.userID == u && m.teamID in teams && teams[m.teamID].orgID == o then 0 else multiset(members)[m]
  {
    if members != [] {
      var head, tail := members[0], members[1..];
      assert members == [head] + tail;
      UserRowsLeft(tail, teams, o, u, m);
      CountConcat([head], tail, m);
      CountConcat([head], WithoutUser(tail, teams, o, u), m);
      assert [] + WithoutUser(tail, teams, o, u) == WithoutUser(tail, teams, o, u);
    }
  }

  lemma {:induction false} TeamRowsLeft(members: seq<TeamMember>, t: string, m: TeamMember)
    ensures multiset(WithoutTeam(members, t))[m] == if m.teamID == t then 0 else multiset(members)[m]
  {
    if members != [] {
      var head, tail := members[0], members[1..];
      assert members == [head] + tail;
      TeamRowsLeft(tail, t, m);
      CountConcat([head], tail, m);
      CountConcat([head], WithoutTeam(tail, t), m);
      assert [] + WithoutTeam(tail, t) == WithoutTeam(tail, t);
    }
  }

  lemma {:induction false} UserRowsAdded(ids: seq<string>, u: string, m: TeamMember)
    ensures multiset(RowsForUser(ids, u))[m] == if m.userID == u then multiset(ids)[m.teamID] else 0
  {
    if ids != [] {
      UserRowsAdded(ids[1..], u, m);
      assert ids == [ids[0]] + ids[1..];
      assert RowsForUser(ids, u) == [TeamMember(ids[0], u)] + RowsForUser(ids[1..], u);
    }
  }

  lemma {:induction false} TeamRowsAdded(t: string, ids: seq<string>, m: TeamMember)
    ensures multiset(RowsForTeam(t, ids))[m] == if m.teamID == t then multiset(ids)[m.userID] else 0
  {
    if ids != [] {
      TeamRowsAdded(t, ids[1..], m);
      assert ids == [ids[0]] + ids[1..];
      assert RowsForTeam(t, ids) == [TeamMember(t, ids[0])] + RowsForTeam(t, ids[1..]);
    }
  }

  // ---------------------------------------------------------------- member rows after a request

  /** How many rows say that the user is in the team. */
  function Rows(d: Directory, t: string, v: string): nat { multiset(d.members)[TeamMember(t, v)] }

  /** An update leaves the user the teams asked for, and those of other organisations. */
  lemma RowsAfterUpdateUser(d: Directory, o: string, u: string, ids: seq<string>, t: string, v: string)
    ensures Rows(Apply(d, UpdateUser(o, u, ids)), t, v) ==
            if v != u then Rows(d, t, v)
            else (if t in d.teams && d.teams[t].orgID == o then 0 else Rows(d, t, u)) + multiset(ids)[t]
  {
    UserRowsLeft(d.members, d.teams, o, u, TeamMember(t, v));
    UserRowsAdded(ids, u, TeamMember(t, v));
  }

  lemma RowsAfterCreateUser(
    d: Directory, o: string, u: string, membershipID: string, ids: seq<string>, t: string, v: string)
    requires forall m :: m in d.members ==> m.userID != u
    ensures Rows(Apply(d, CreateUser(o, u, membershipID, ids)), t, v) ==
            if v == u then multiset(ids)[t] else Rows(d, t, v)
  {
    UserRowsLeft(d.members, d.teams, o, u, TeamMember(t, v));
    UserRowsAdded(ids, u, TeamMember(t, v));
    assert TeamMember(t, u) !in d.members;
  }

  /** A deletion takes the user out of the organisation's teams and out of no others. */
  lemma RowsAfterDeleteUser(d: Directory, o: string, u: string, t: string, v: string)
    ensures Rows(Apply(d, DeleteUser(o, u)), t, v) ==
            if v == u && t in d.teams && d.teams[t].orgID == o then 0 else Rows(d, t, v)
  {
    UserRowsLeft(d.members, d.teams, o, u, TeamMember(t, v));
  }

  /** Creating or updating a team leaves it the members asked for; deleting it none. */
  lemma RowsAfterTeamRequest(d: Directory, o: string, t: string, name: string, ids: seq<string>, t': string, v: string)
    ensures Rows(Apply(d, CreateTeam(o, t, name, ids)), t', v) == if t' == t then multiset(ids)[v] else Rows(d, t', v)
    ensures Rows(Apply(d, UpdateTeam(o, t, name, ids)), t', v) == if t' == t then multiset(ids)[v] else Rows(d, t', v)
    ensures Rows(Apply(d, DeleteTeam(o, t)), t', v) == if t' == t then 0 else Rows(d, t', v)
  {
    hide WithoutTeam, RowsForTeam;
    var m := TeamMember(t', v);
    TeamRowsLeft(d.members, t, m);
    TeamRowsAdded(t, ids, m);
    CountConcat(WithoutTeam(d.members, t), RowsForTeam(t, ids), m);
  }

  // ---------------------------------------------------------------- users, teams and memberships after a request

  /** The same rows, but for the lists stored with the memberships of one organisation. */
  ghost predicate SameMemberships(d: Directory, d': Directory, o: string) {
    && d'.memberships.Keys == d.memberships.Keys
    && forall id :: id in d.memberships ==>
         && d'.memberships[id].userID == d.memberships[id].userID && d'.memberships[id].orgID == d.memberships[id].orgID
         && (d.memberships[id].orgID != o ==> d'.memberships[id] == d.memberships[id])
  }

  /** A new user has one membership; nobody else's user or membership row changes, and no team does. */
  lemma UserCreated(d: Directory, o: string, u: string, membershipID: string, ids: seq<string>)
    requires membershipID !in d.memberships
    ensures var d' := Apply(d, CreateUser(o, u, membershipID, ids));
            && d'.users == d.users + {u} && d'.teams == d.teams
            && d'.memberships.Keys == d.memberships.Keys + {membershipID}
            && d'.memberships[membershipID].userID == u && d'.memberships[membershipID].orgID == o
            && SameMemberships(d, d'.(memberships := d'.memberships - {membershipID}), o)
  {
  }

  lemma UserUpdated(d: Directory, o: string, u: string, ids: seq<string>)
    ensures var d' := Apply(d, UpdateUser(o, u, ids));
            d'.users == d.users && d'.teams == d.teams && SameMemberships(d, d', o)
  {
  }

  /** The user row goes, and exactly the user's memberships of the organisation. */
  lemma UserDeleted(d: Directory, o: string, u: string)
    ensures var d' := Apply(d, DeleteUser(o, u));
            && d'.users == d.users - {u} && d'.teams == d.teams
            && (forall id :: id in d'.memberships <==>
                  id in d.memberships && (d.memberships[id].userID != u || d.memberships[id].orgID != o))
            && (forall id :: id in d'.memberships ==> d'.memberships[id] == d.memberships[id])
  {
  }

  /** Teams are added, renamed and removed in their own organisation only. */
  lemma TeamAdded(d: Directory, o: string, t: string, name: string, ids: seq<string>)
    ensures var d' := Apply(d, CreateTeam(o, t, name, ids));
            d'.users == d.users && d'.teams == d.teams[t := Team(o, name)] && SameMemberships(d, d', o)
  {
  }

  lemma TeamRenamed(d: Directory, o: string, t: string, name: string, ids: seq<string>)
    ensures var d' := Apply(d, UpdateTeam(o, t, name, ids));
            && d'.users == d.users && SameMemberships(d, d', o) && d'.teams.Keys == d.teams.Keys
            && forall k :: k in d.teams ==>
                 d'.teams[k] == if k == t && d.teams[k].orgID == o then Team(o, name) else d.teams[k]
  {
  }

  lemma TeamRemoved(d: Directory, o: string, t: string)
    ensures var d' := Apply(d, DeleteTeam(o, t));
            && d'.users == d.users && SameMemberships(d, d', o)
            && (forall k :: k in d'.teams <==> k in d.teams && !(k == t && d.teams[k].orgID == o))
            && (forall k :: k in d'.teams ==> d'.teams[k] == d.teams[k])
  {
  }

  // ---------------------------------------------------------------- the list of an updated user

  /** The names of those of the teams that belong to the organisation. */
  function OwnNames(teams: map<string, Team>, ids: seq<string>, o: string): seq<string> {
    if ids == [] then []
    else (if ids[0] in teams && teams[ids[0]].orgID == o then [teams[ids[0]].name] else []) +
         OwnNames(teams, ids[1..], o)
  }

  lemma {:induction false} NamesAdded(teams: map<string, Team>, ids: seq<string>, u: string, o: string)
    ensures NamesOf(JoinRows(teams, RowsForUser(ids, u), o), u) == OwnNames(teams, ids, o)
  {
    if ids != [] {
      NamesAdded(teams, ids[1..], u, o);
      var rows := RowsForUser(ids, u);
      assert rows[0] == TeamMember(ids[0], u) && rows[1..] == RowsForUser(ids[1..], u);
      var first: seq<Row> := if TeamIn(teams, ids[0], o) then [Row(u, teams[ids[0]].name)] else [];
      NamesConcat(first, JoinRows(teams, rows[1..], o), u);
      assert NamesOf(first, u) == if first == [] then [] else [teams[ids[0]].name] by {
        assert first != [] ==> first[1..] == [];
      }
    }
  }

  lemma {:induction false} NoNamesLeft(members: seq<TeamMember>, teams: map<string, Team>, o: string, u: string)
    ensures NamesOf(JoinRows(teams, WithoutUser(members, teams, o, u), o), u) == []
  {
    if members != [] {
      var head, rest := members[0], WithoutUser(members[1..], teams, o, u);
      NoNamesLeft(members[1..], teams, o, u);
      if head.userID == u && TeamIn(teams, head.teamID, o) {
        assert [] + rest == rest;
      } else {
        var first := JoinRows(teams, [head], o);
        JoinConcat(teams, [head], rest, o);
        NamesConcat(first, JoinRows(teams, rest, o), u);
        assert [head][1..] == [];
        assert first != [] ==> first == [Row(head.userID, teams[head.teamID].name)] && first[1..] == [];
      }
    }
  }

  /** After an update the user's list in the organisation holds the names of its teams among those asked for, and
      nothing else. */
  lemma ListAfterUpdateUser(d: Directory, o: string, u: string, ids: seq<string>, id: string)
    requires id in d.memberships && d.memberships[id].userID == u && d.memberships[id].orgID == o
    ensures Apply(d, UpdateUser(o, u, ids)).memberships[id].teams == OwnNames(d.teams, ids, o)
  {
    hide WithoutUser, RowsForUser, JoinRows, NamesOf;
    var kept := WithoutUser(d.members, d.teams, o, u);
    JoinConcat(d.teams, kept, RowsForUser(ids, u), o);
    NamesConcat(JoinRows(d.teams, kept, o), JoinRows(d.teams, RowsForUser(ids, u), o), u);
    NoNamesLeft(d.members, d.teams, o, u);
    NamesAdded(d.teams, ids, u, o);
  }

  lemma {:induction false} OwnNamesAre(teams: map<string, Team>, ids: seq<string>, o: string, name: string)
    ensures name in OwnNames(teams, ids, o) <==>
            exists i :: 0 <= i < |ids| && ids[i] in teams && teams[ids[i]].orgID == o && teams[ids[i]].name == name
  {
    if ids != [] {
      OwnNamesAre(teams, ids[1..], o, name);
      assert forall i :: 1 <= i < |ids| ==> ids[i] == ids[1..][i - 1];
      if i :| 0 <= i < |ids| && ids[i] in teams && teams[ids[i]].orgID == o && teams[ids[i]].name == name && i > 0 {
        assert ids[1..][i - 1] == ids[i];
      }
      if name in OwnNames(teams, ids[1..], o) {
        var j :| 0 <= j < |ids[1..]| && ids[1..][j] in teams && teams[ids[1..][j]].orgID == o &&
                 teams[ids[1..][j]].name == name;
        assert ids[j + 1] == ids[1..][j];
      }
    }
  }

  // ---------------------------------------------------------------- roles

  /** A role of the organisation, or a global one, has the slug. */
  ghost predicate RoleFor(roles: set<(Option<string>, string)>, o: string, slug: string) {
    exists role :: role in roles && (role.0.None? || role.0.value == o) && role.1 == slug
  }

  lemma RoleForByRows(roles: set<(Option<string>, string)>, o: string, slug: string)
    ensures RoleFor(roles, o, slug) <==> (Some(o), slug) in roles || (None, slug) in roles
  {
    if RoleFor(roles, o, slug) {
      var role :| role in roles && (role.0.None? || role.0.value == o) && role.1 == slug;
      if role.0.None? {
        assert role == (None, slug);
      } else {
        assert role == (Some(o), slug);
      }
    }
    if (Some(o), slug) in roles {
      var own: (Option<string>, string) := (Some(o), slug);
      assert own in roles && own.0.value == o && own.1 == slug;
    }
    if (None, slug) in roles {
      var general: (Option<string>, string) := (None, slug);
      assert general in roles && general.0.None? && general.1 == slug;
    }
  }

  /** Every slug, trimmed and in lower case, names such a role. */
  lemma RolesResolveByRows(service: TeamService, o: string, slugs: seq<string>)
    ensures service.RolesResolve(o, slugs) <==>
            forall i :: 0 <= i < |slugs| ==> RoleFor(service.roles, o, Lower(TrimSpace(slugs[i])))
  {
    hide Lower, TrimSpace, RoleFor;
    forall i | 0 <= i < |slugs|
      ensures RoleFor(service.roles, o, Lower(TrimSpace(slugs[i]))) <==>
              (Some(o), Lower(TrimSpace(slugs[i]))) in service.roles ||
              (None, Lower(TrimSpace(slugs[i]))) in service.roles
    {
      RoleForByRows(service.roles, o, Lower(TrimSpace(slugs[i])));
    }
  }
}
