/** The permission check told by rows: what the tables must hold for a query to be allowed, and for which reason it is
    refused otherwise. */
module AllowedByRows {
  import opened Text
  import opened Wrappers
  import opened Permissions

  // ---------------------------------------------------------------- rows

  predicate ActiveRow(db: Database, q: Query, i: nat)
    requires i < |db.memberships|
  {
    var m := db.memberships[i];
    m.userID == q.userID && m.orgID == q.orgID && m.status == "active"
  }

  /** The first active membership of the user in the organisation. */
  predicate MemberRow(db: Database, q: Query, i: nat) {
    i < |db.memberships| && ActiveRow(db, q, i) && forall k :: 0 <= k < i ==> !ActiveRow(db, q, k)
  }

  /** The permission is the one asked for, or the one for every action on the resource. */
  predicate Covers(p: Permission, q: Query) {
    var key := p.resource + ":" + p.action;
    key == q.resource + ":" + q.action || key == q.resource + ":*"
  }

  /** An override of the user in the organisation that has not expired. */
  predicate InForce(up: UserPermission, q: Query, now: int) {
    up.userID == q.userID && up.orgID == q.orgID && (up.expiresAt.None? || now < up.expiresAt.value)
  }

  ghost predicate DenyRow(db: Database, now: int, q: Query) {
    exists up, p :: up in db.userPermissions && p in db.permissions && up.permissionID == p.id &&
                    InForce(up, q, now) && EqualFold(up.effect, "deny") && Covers(p, q)
  }

  ghost predicate AllowRow(db: Database, now: int, q: Query) {
    exists up, p :: up in db.userPermissions && p in db.permissions && up.permissionID == p.id &&
                    InForce(up, q, now) && !EqualFold(up.effect, "deny") && Covers(p, q)
  }

  ghost predicate RoleRow(db: Database, q: Query) {
    exists ur, rp, p :: ur in db.userRoles && rp in db.rolePermissions && p in db.permissions &&
                        ur.userID == q.userID && ur.orgID == q.orgID && ur.roleID == rp.roleID &&
                        rp.permissionID == p.id && Covers(p, q)
  }

  /** The first scope of the resource. */
  predicate ScopeRow(db: Database, q: Query, i: nat) {
    && i < |db.scopes| && db.scopes[i].resource == q.resource && db.scopes[i].resourceID == q.resourceID
    && forall k :: 0 <= k < i ==> !(db.scopes[k].resource == q.resource && db.scopes[k].resourceID == q.resourceID)
  }

  predicate NoScopeRow(db: Database, q: Query) {
    forall k :: 0 <= k < |db.scopes| ==>
      !(db.scopes[k].resource == q.resource && db.scopes[k].resourceID == q.resourceID)
  }

  /** The first server with the id, for a server that has no scope. */
  predicate ServerRow(db: Database, q: Query, j: nat) {
    && NoScopeRow(db, q) && q.resource == "server"
    && j < |db.servers| && db.servers[j].id == q.resourceID
    && forall k :: 0 <= k < j ==> db.servers[k].id != q.resourceID
  }

  predicate NoServerRow(db: Database, q: Query) {
    NoScopeRow(db, q) &&
    (q.resource == "server" ==> forall k :: 0 <= k < |db.servers| ==> db.servers[k].id != q.resourceID)
  }

  predicate SameOrg(orgID: string, q: Query) { orgID == "" || orgID == q.orgID }

  predicate SameEnv(env: string, q: Query) { q.env == "" || env == "" || EqualFold(q.env, env) }

  /** With a team set the user must be listed in it; otherwise the owner, if there is one, must be the user. */
  predicate TeamOrOwner(scope: ResourceScope, q: Query, teams: seq<string>) {
    match scope.team
    case Some(team) => exists i :: 0 <= i < |teams| && EqualFold(teams[i], team)
    case None => scope.ownerID == "" || scope.ownerID == q.userID
  }

  // ---------------------------------------------------------------- the lookups find those rows

  lemma {:induction false} ActiveFound(rows: seq<Membership>, userID: string, orgID: string, i: nat)
    requires i <= |rows|
    requires forall k :: 0 <= k < i ==>
               !(rows[k].userID == userID && rows[k].orgID == orgID && rows[k].status == "active")
    requires i < |rows| ==> rows[i].userID == userID && rows[i].orgID == orgID && rows[i].status == "active"
    ensures FirstActive(rows, userID, orgID) == if i < |rows| then Some(rows[i]) else None
  {
    if i > 0 {
      assert forall k :: 0 <= k < i - 1 ==> rows[1..][k] == rows[k + 1];
      ActiveFound(rows[1..], userID, orgID, i - 1);
    }
  }

  lemma MemberFound(db: Database, q: Query, i: nat)
    requires i <= |db.memberships| && if i < |db.memberships| then MemberRow(db, q, i)
                                      else forall k :: 0 <= k < i ==> !ActiveRow(db, q, k)
    ensures FirstActive(db.memberships, q.userID, q.orgID) ==
            if i < |db.memberships| then Some(db.memberships[i]) else None
  {
    forall k | 0 <= k < i
      ensures var m := db.memberships[k]; !(m.userID == q.userID && m.orgID == q.orgID && m.status == "active")
    {
      assert !ActiveRow(db, q, k);
    }
    ActiveFound(db.memberships, q.userID, q.orgID, i);
  }

  lemma {:induction false} ScopeFound(rows: seq<ResourceScope>, resource: string, resourceID: string, i: nat)
    requires i <= |rows|
    requires forall k :: 0 <= k < i ==> !(rows[k].resource == resource && rows[k].resourceID == resourceID)
    requires i < |rows| ==> rows[i].resource == resource && rows[i].resourceID == resourceID
    ensures FirstScope(rows, resource, resourceID) == if i < |rows| then Some(rows[i]) else None
  {
    if i > 0 {
      assert forall k :: 0 <= k < i - 1 ==> rows[1..][k] == rows[k + 1];
      ScopeFound(rows[1..], resource, resourceID, i - 1);
    }
  }

  lemma {:induction false} ServerFound(rows: seq<Server>, id: string, j: nat)
    requires j <= |rows| && (forall k :: 0 <= k < j ==> rows[k].id != id) && (j < |rows| ==> rows[j].id == id)
    ensures FirstServer(rows, id) == if j < |rows| then Some(rows[j]) else None
  {
    if j > 0 {
      assert forall k :: 0 <= k < j - 1 ==> rows[1..][k] == rows[k + 1];
      ServerFound(rows[1..], id, j - 1);
    }
  }

  lemma DeniedByRow(db: Database, now: int, q: Query)
    ensures Denied(db, now, q) <==> DenyRow(db, now, q)
  {
    hide EqualFold;
    var key, wildcard := q.resource + ":" + q.action, q.resource + ":*";
    if Denied(db, now, q) {
      var k := if Override(db, now, q.userID, q.orgID, key, true) then key else wildcard;
      var up, p :| up in db.userPermissions && p in db.permissions && p.id == up.permissionID &&
                   up.userID == q.userID && up.orgID == q.orgID && Live(up, now) &&
                   EqualFold(up.effect, "deny") == true && KeyOf(p) == k;
      assert InForce(up, q, now) && Covers(p, q);
    }
    if DenyRow(db, now, q) {
      var up, p :| up in db.userPermissions && p in db.permissions && up.permissionID == p.id &&
                   InForce(up, q, now) && EqualFold(up.effect, "deny") && Covers(p, q);
      assert Override(db, now, q.userID, q.orgID, KeyOf(p), true);
    }
  }

  lemma GrantedByRow(db: Database, now: int, q: Query)
    ensures Granted(db, now, q) <==> AllowRow(db, now, q) || RoleRow(db, q)
  {
    hide EqualFold;
    var key, wildcard := q.resource + ":" + q.action, q.resource + ":*";
    GrantedByKeys(db, now, q);
    if AllowRow(db, now, q) {
      var up, p :| up in db.userPermissions && p in db.permissions && up.permissionID == p.id &&
                   InForce(up, q, now) && !EqualFold(up.effect, "deny") && Covers(p, q);
      assert Override(db, now, q.userID, q.orgID, KeyOf(p), false);
    }
    if RoleRow(db, q) {
      var ur, rp, p :| ur in db.userRoles && rp in db.rolePermissions && p in db.permissions &&
                       ur.userID == q.userID && ur.orgID == q.orgID && ur.roleID == rp.roleID &&
                       rp.permissionID == p.id && Covers(p, q);
      assert RoleGrants(db, q.userID, q.orgID, KeyOf(p));
    }
    forall k | k == key || k == wildcard
      ensures Override(db, now, q.userID, q.orgID, k, false) ==> AllowRow(db, now, q)
      ensures RoleGrants(db, q.userID, q.orgID, k) ==> RoleRow(db, q)
    {
      KeyRows(db, now, q, k);
    }
  }

  lemma KeyRows(db: Database, now: int, q: Query, k: string)
    requires k == q.resource + ":" + q.action || k == q.resource + ":*"
    ensures Override(db, now, q.userID, q.orgID, k, false) ==> AllowRow(db, now, q)
    ensures RoleGrants(db, q.userID, q.orgID, k) ==> RoleRow(db, q)
  {
    hide EqualFold;
    if Override(db, now, q.userID, q.orgID, k, false) {
      var up, p :| up in db.userPermissions && p in db.permissions && p.id == up.permissionID &&
                   up.userID == q.userID && up.orgID == q.orgID && Live(up, now) &&
                   EqualFold(up.effect, "deny") == false && KeyOf(p) == k;
      assert InForce(up, q, now) && Covers(p, q);
    }
    if RoleGrants(db, q.userID, q.orgID, k) {
      var ur, rp, p :| ur in db.userRoles && rp in db.rolePermissions && p in db.permissions &&
                       ur.userID == q.userID && ur.orgID == q.orgID && rp.roleID == ur.roleID &&
                       p.id == rp.permissionID && KeyOf(p) == k;
      assert Covers(p, q);
    }
  }

  // ---------------------------------------------------------------- the decision

  /** Neither denied nor without a grant. */
  ghost predicate Entitled(db: Database, now: int, q: Query) {
    !DenyRow(db, now, q) && (AllowRow(db, now, q) || RoleRow(db, q))
  }

  /** Nobody but an active member is allowed anything. */
  lemma OutsidersRefused(db: Database, now: int, q: Query)
    requires forall i :: 0 <= i < |db.memberships| ==> !ActiveRow(db, q, i)
    ensures !Allowed(db, now, q) && UncachedReason(db, now, q) == "not_in_org"
  {
    MemberFound(db, q, |db.memberships|);
  }

  /** Without a resource id the decision is about denial and grant alone. */
  lemma AllowedAnywhere(db: Database, now: int, q: Query, m: nat)
    requires MemberRow(db, q, m) && q.resourceID == ""
    ensures Allowed(db, now, q) <==> Entitled(db, now, q)
  {
    hide Denied, Granted, DenyRow, AllowRow, RoleRow, FirstActive;
    MemberFound(db, q, m);
    DeniedByRow(db, now, q);
    GrantedByRow(db, now, q);
  }

  /** For a resource with a scope, its first scope decides besides. */
  lemma AllowedByScope(db: Database, now: int, q: Query, m: nat, i: nat)
    requires MemberRow(db, q, m) && q.resourceID != "" && ScopeRow(db, q, i)
    ensures Allowed(db, now, q) <==>
            && Entitled(db, now, q) && SameOrg(db.scopes[i].orgID, q) && SameEnv(db.scopes[i].env, q)
            && TeamOrOwner(db.scopes[i], q, db.memberships[m].teams)
  {
    hide Denied, Granted, DenyRow, AllowRow, RoleRow, EqualFold, FirstActive, FirstScope;
    MemberFound(db, q, m);
    DeniedByRow(db, now, q);
    GrantedByRow(db, now, q);
    ScopeFound(db.scopes, q.resource, q.resourceID, i);
  }

  /** For a server without a scope, tenant and environment of its row decide besides. */
  lemma AllowedByServer(db: Database, now: int, q: Query, m: nat, j: nat)
    requires MemberRow(db, q, m) && q.resourceID != "" && ServerRow(db, q, j)
    ensures Allowed(db, now, q) <==>
            && Entitled(db, now, q)
            && SameOrg(db.servers[j].tenantID, q) && SameEnv(db.servers[j].environment, q)
  {
    hide Denied, Granted, DenyRow, AllowRow, RoleRow, EqualFold, FirstActive, FirstScope, FirstServer;
    MemberFound(db, q, m);
    DeniedByRow(db, now, q);
    GrantedByRow(db, now, q);
    ScopeFound(db.scopes, q.resource, q.resourceID, |db.scopes|);
    ServerFound(db.servers, q.resourceID, j);
  }

  /** For any other resource only denial and grant decide. */
  lemma AllowedUnscoped(db: Database, now: int, q: Query, m: nat)
    requires MemberRow(db, q, m) && q.resourceID != "" && NoServerRow(db, q)
    ensures Allowed(db, now, q) <==> Entitled(db, now, q)
  {
    hide Denied, Granted, DenyRow, AllowRow, RoleRow, EqualFold, FirstActive, FirstScope, FirstServer;
    MemberFound(db, q, m);
    DeniedByRow(db, now, q);
    GrantedByRow(db, now, q);
    ScopeFound(db.scopes, q.resource, q.resourceID, |db.scopes|);
    if q.resource == "server" {
      ServerFound(db.servers, q.resourceID, |db.servers|);
    }
  }

  // ---------------------------------------------------------------- the reason

  /** The reasons that do not depend on the resource. */
  lemma ReasonBeforeScope(db: Database, now: int, q: Query, m: nat)
    requires MemberRow(db, q, m)
    ensures var reason := UncachedReason(db, now, q);
            && (reason == "deny_override" <==> DenyRow(db, now, q))
            && (reason == "missing_permission" <==>
                !DenyRow(db, now, q) && !AllowRow(db, now, q) && !RoleRow(db, q))
            && (reason in {"cross_org", "env_mismatch", "abac_rejected", "role"} <==> Entitled(db, now, q))
            && (reason == "role" <==> Allowed(db, now, q))
  {
    hide Denied, Granted, DenyRow, AllowRow, RoleRow, EqualFold, FirstActive, LookupResourceScope;
    MemberFound(db, q, m);
    DeniedByRow(db, now, q);
    GrantedByRow(db, now, q);
  }

  /** Organisation before environment, environment before team and owner. */
  lemma ReasonByScope(db: Database, now: int, q: Query, m: nat, i: nat)
    requires MemberRow(db, q, m) && q.resourceID != "" && ScopeRow(db, q, i) && Entitled(db, now, q)
    ensures UncachedReason(db, now, q) ==
            if !SameOrg(db.scopes[i].orgID, q) then "cross_org"
            else if !SameEnv(db.scopes[i].env, q) then "env_mismatch"
            else if !TeamOrOwner(db.scopes[i], q, db.memberships[m].teams) then "abac_rejected"
            else "role"
  {
    hide Denied, Granted, DenyRow, AllowRow, RoleRow, EqualFold, FirstActive, FirstScope;
    MemberFound(db, q, m);
    DeniedByRow(db, now, q);
    GrantedByRow(db, now, q);
    ScopeFound(db.scopes, q.resource, q.resourceID, i);
  }

  lemma ReasonByServer(db: Database, now: int, q: Query, m: nat, j: nat)
    requires MemberRow(db, q, m) && q.resourceID != "" && ServerRow(db, q, j) && Entitled(db, now, q)
    ensures UncachedReason(db, now, q) ==
            if !SameOrg(db.servers[j].tenantID, q) then "cross_org"
            else if !SameEnv(db.servers[j].environment, q) then "env_mismatch"
            else "role"
  {
    hide Denied, Granted, DenyRow, AllowRow, RoleRow, EqualFold, FirstActive, FirstScope, FirstServer;
    MemberFound(db, q, m);
    DeniedByRow(db, now, q);
    GrantedByRow(db, now, q);
    ScopeFound(db.scopes, q.resource, q.resourceID, |db.scopes|);
    ServerFound(db.servers, q.resourceID, j);
  }

  // ---------------------------------------------------------------- what a check leaves in the cache

  /** A check changes no entry but the one of its key, and that one exactly when it was not answered from the cache and
      the user is a member: then it holds the decision for sixty seconds. */
  lemma CacheAfterCheck(s: State, q: Query, key: string)
    ensures var s', live := Step(s, Check(q)), CacheKey(q) in s.cache && s.now < s.cache[CacheKey(q)].expires;
            && s'.now == s.now && s'.db == s.db
            && (if key == CacheKey(q) && !live && exists i :: 0 <= i < |s.db.memberships| && ActiveRow(s.db, q, i)
                then key in s'.cache && s'.cache[key] == Entry(Allowed(s.db, s.now, q), s.now + 60 * SECOND)
                else (key in s'.cache <==> key in s.cache) && (key in s.cache ==> s'.cache[key] == s.cache[key]))
  {
    hide Allowed, CacheKey;
    if i :| 0 <= i < |s.db.memberships| && ActiveRow(s.db, q, i) {
      assert s.db.memberships[i] in s.db.memberships;
    } else {
      MemberFound(s.db, q, |s.db.memberships|);
    }
  }

  /** Time passes and tables are written without a trace in the cache. */
  lemma OtherEvents(s: State, duration: nat, db: Database)
    ensures var s' := Step(s, Tick(duration));
            s'.now == s.now + duration && s'.db == s.db && s'.cache == s.cache
    ensures var s' := Step(s, Write(db)); s'.now == s.now && s'.db == db && s'.cache == s.cache
  {
  }
}
