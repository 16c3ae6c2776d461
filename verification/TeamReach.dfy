/** The permission check reads the stored team lists: who it lets through, told by the rows of the team tables. */
module TeamReach {
  import opened Text
  import opened Teams
  import Permissions

  /** The user has a row of a team of the organisation with that name, up to case. */
  ghost predicate Belongs(d: Directory, orgID: string, userID: string, team: string) {
    exists row :: row in d.members && row.userID == userID && TeamIn(d.teams, row.teamID, orgID) &&
                  EqualFold(d.teams[row.teamID].name, team)
  }

  lemma {:induction false} JoinedRow(teams: map<string, Team>, members: seq<TeamMember>, orgID: string, row: Row)
    ensures row in JoinRows(teams, members, orgID) <==>
            exists m :: m in members && m.userID == row.userID && TeamIn(teams, m.teamID, orgID) &&
                        teams[m.teamID].name == row.name
  {
    if members != [] {
      JoinedRow(teams, members[1..], orgID, row);
      assert forall m :: m in members <==> m == members[0] || m in members[1..];
    }
  }

  lemma NamedRow(rows: seq<Row>, userID: string, name: string)
    ensures name in NamesOf(rows, userID) <==> Row(userID, name) in rows
  {
    NamesCount(rows, userID, name);
    assert name in NamesOf(rows, userID) <==> multiset(NamesOf(rows, userID))[name] > 0;
    assert Row(userID, name) in rows <==> multiset(rows)[Row(userID, name)] > 0;
  }

  lemma ListedName(d: Directory, orgID: string, userID: string, name: string)
    ensures name in TeamNames(d, orgID, userID) <==>
            exists m :: m in d.members && m.userID == userID && TeamIn(d.teams, m.teamID, orgID) &&
                        d.teams[m.teamID].name == name
  {
    NamedRow(JoinRows(d.teams, d.members, orgID), userID, name);
    JoinedRow(d.teams, d.members, orgID, Row(userID, name));
  }

  lemma SameNames(a: seq<string>, b: seq<string>)
    requires multiset(a) == multiset(b)
    ensures forall name :: name in a <==> name in b
  {
    forall name ensures name in a <==> name in b {
      assert name in a <==> name in multiset(a);
      assert name in b <==> name in multiset(b);
    }
  }

  /** A list in sync contains a team, up to case, exactly when the tables say that the user belongs to it. */
  lemma ListedExactly(d: Directory, orgID: string, id: string, team: string)
    requires InSync(d, orgID) && id in d.memberships && d.memberships[id].orgID == orgID
    ensures Permissions.ContainsFold(d.memberships[id].teams, team) <==>
            Belongs(d, orgID, d.memberships[id].userID, team)
  {
    hide TeamNames, EqualFold;
    var listed, userID := d.memberships[id].teams, d.memberships[id].userID;
    SameNames(listed, TeamNames(d, orgID, userID));
    if Permissions.ContainsFold(listed, team) {
      var i :| 0 <= i < |listed| && EqualFold(listed[i], team);
      ListedName(d, orgID, userID, listed[i]);
    }
    if Belongs(d, orgID, userID, team) {
      var row :| row in d.members && row.userID == userID && TeamIn(d.teams, row.teamID, orgID) &&
                 EqualFold(d.teams[row.teamID].name, team);
      var name := d.teams[row.teamID].name;
      ListedName(d, orgID, userID, name);
      var i :| 0 <= i < |listed| && listed[i] == name;
    }
  }

  /** A resource of a team is in a member's reach exactly when organisation and environment fit and the tables say that
      the member belongs to the team. */
  lemma ReachByRows(d: Directory, id: string, db: Permissions.Database, q: Permissions.Query)
    requires InSync(d, q.orgID) && id in d.memberships && d.memberships[id].orgID == q.orgID
    requires d.memberships[id].userID == q.userID && q.resourceID != ""
    ensures var scope := Permissions.LookupResourceScope(db, q.resource, q.resourceID);
            scope.team.Some? ==>
              (Permissions.InReach(db, q, d.memberships[id].teams) <==>
               Permissions.ScopeFits(scope, q) && Belongs(d, q.orgID, q.userID, scope.team.value))
  {
    hide Belongs, InSync, EqualFold;
    var scope := Permissions.LookupResourceScope(db, q.resource, q.resourceID);
    if scope.team.Some? {
      ListedExactly(d, q.orgID, id, scope.team.value);
    }
  }

  /** After any run with a synchronising request of the organisation and confined requests since. */
  lemma ReachAfterRun(
    d: Directory, rs: seq<Request>, k: nat, id: string, db: Permissions.Database, q: Permissions.Query)
    requires FreshRun(d, rs) && k < |rs| && Synchronises(rs[k], q.orgID)
    requires ConfinedRun(ApplyAll(d, rs[..k + 1]), rs[k + 1..], q.orgID) && q.resourceID != ""
    ensures var after, scope := ApplyAll(d, rs), Permissions.LookupResourceScope(db, q.resource, q.resourceID);
            id in after.memberships && after.memberships[id].orgID == q.orgID &&
            after.memberships[id].userID == q.userID && scope.team.Some? ==>
              (Permissions.InReach(db, q, after.memberships[id].teams) <==>
               Permissions.ScopeFits(scope, q) && Belongs(after, q.orgID, q.userID, scope.team.value))
  {
    hide Belongs, InSync, ConfinedRun, FreshRun, ApplyAll, Synchronises;
    OnceSynced(d, rs, k, q.orgID);
    var after := ApplyAll(d, rs);
    if id in after.memberships && after.memberships[id].orgID == q.orgID && after.memberships[id].userID == q.userID {
      ReachByRows(after, id, db, q);
    }
  }
}
