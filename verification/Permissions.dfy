/** The permission check: a relational decision behind a cache whose entries live for sixty seconds. */
module Permissions {
  import opened Text
  import opened Wrappers

  // ---------------------------------------------------------------- tables

  datatype Membership = Membership(userID: string, orgID: string, status: string, teams: seq<string>)

  datatype UserRole = UserRole(userID: string, orgID: string, roleID: string)

  datatype RolePermission = RolePermission(roleID: string, permissionID: string)

  datatype Permission = Permission(id: string, resource: string, action: string)

  datatype UserPermission =
    UserPermission(userID: string, orgID: string, permissionID: string, effect: string, expiresAt: Option<int>)

  /** The team attribute of a scope is None when it is absent or not a string. */
  datatype ResourceScope =
    ResourceScope(orgID: string, resource: string, resourceID: string, env: string, ownerID: string,
      team: Option<string>)

  datatype Server = Server(id: string, tenantID: string, environment: string)

  /** Tables that are read row by row in key order are sequences, tables that are only joined are sets. */
  datatype Database = Database(
    memberships: seq<Membership>,
    userRoles: set<UserRole>,
    rolePermissions: set<RolePermission>,
    permissions: set<Permission>,
    userPermissions: set<UserPermission>,
    scopes: seq<ResourceScope>,
    servers: seq<Server>)

  datatype Query =
    Query(userID: string, orgID: string, resource: string, action: string, env: string, resourceID: string)

  datatype Decision = Decision(allowed: bool, reason: string)

  datatype Scope = Scope(orgID: string, env: string, ownerID: string, team: Option<string>)

  // ---------------------------------------------------------------- what a decision means

  function KeyOf(p: Permission): string { p.resource + ":" + p.action }

  /** The membership row the check reads: the first active one. */
  function FirstActive(rows: seq<Membership>, userID: string, orgID: string): (r: Option<Membership>)
    ensures r.Some? ==>
              r.value in rows && r.value.userID == userID && r.value.orgID == orgID && r.value.status == "active"
    ensures r.None? ==> forall m :: m in rows ==> !(m.userID == userID && m.orgID == orgID && m.status == "active")
  {
    if rows == [] then None
    else if rows[0].userID == userID && rows[0].orgID == orgID && rows[0].status == "active" then Some(rows[0])
    else FirstActive(rows[1..], userID, orgID)
  }

  ghost predicate RoleGrants(db: Database, userID: string, orgID: string, key: string) {
    exists ur, rp, p :: ur in db.userRoles && rp in db.rolePermissions && p in db.permissions &&
                        ur.userID == userID && ur.orgID == orgID && rp.roleID == ur.roleID &&
                        p.id == rp.permissionID && KeyOf(p) == key
  }

  predicate Live(up: UserPermission, now: int) { up.expiresAt.None? || up.expiresAt.value > now }

  /** An unexpired personal override of the given polarity. */
  ghost predicate Override(db: Database, now: int, userID: string, orgID: string, key: string, deny: bool) {
    exists up, p :: up in db.userPermissions && p in db.permissions && p.id == up.permissionID &&
                    up.userID == userID && up.orgID == orgID && Live(up, now) &&
                    EqualFold(up.effect, "deny") == deny && KeyOf(p) == key
  }

  ghost predicate Denied(db: Database, now: int, q: Query) {
    Override(db, now, q.userID, q.orgID, q.resource + ":" + q.action, true) ||
    Override(db, now, q.userID, q.orgID, q.resource + ":*", true)
  }

  ghost predicate Granted(db: Database, now: int, q: Query) {
    exists key :: key in {q.resource + ":" + q.action, q.resource + ":*"} &&
                  (RoleGrants(db, q.userID, q.orgID, key) || Override(db, now, q.userID, q.orgID, key, false))
  }

  function FirstScope(rows: seq<ResourceScope>, resource: string, resourceID: string): Option<ResourceScope> {
    if rows == [] then None
    else if rows[0].resource == resource && rows[0].resourceID == resourceID then Some(rows[0])
    else FirstScope(rows[1..], resource, resourceID)
  }

  function FirstServer(rows: seq<Server>, id: string): Option<Server> {
    if rows == [] then None else if rows[0].id == id then Some(rows[0]) else FirstServer(rows[1..], id)
  }

  function LookupResourceScope(db: Database, resource: string, resourceID: string): Scope {
    match FirstScope(db.scopes, resource, resourceID)
    case Some(s) => Scope(s.orgID, s.env, s.ownerID, s.team)
    case None =>
      if resource == "server" then
        match FirstServer(db.servers, resourceID)
        case Some(row) => Scope(row.tenantID, row.environment, "", None)
        case None => Scope("", "", "", None)
      else Scope("", "", "", None)
  }

  predicate ContainsFold(items: seq<string>, needle: string) {
    exists i :: 0 <= i < |items| && EqualFold(items[i], needle)
  }

  /** The user may touch the resource: it is in the organisation and environment asked for, and
      it belongs to one of the user's teams or, when no team is set, to nobody else. */
  predicate InReach(db: Database, q: Query, teams: seq<string>) {
    q.resourceID == "" ||
    var s := LookupResourceScope(db, q.resource, q.resourceID);
    && (s.orgID == "" || s.orgID == q.orgID)
    && (q.env == "" || s.env == "" || EqualFold(q.env, s.env))
    && (if s.team.Some? then ContainsFold(teams, s.team.value) else s.ownerID == "" || s.ownerID == q.userID)
  }

  /** The decision without any cache. */
  ghost predicate Allowed(db: Database, now: int, q: Query) {
    var m := FirstActive(db.memberships, q.userID, q.orgID);
    m.Some? && !Denied(db, now, q) && Granted(db, now, q) && InReach(db, q, m.value.teams)
  }

  // ---------------------------------------------------------------- the cache as a state machine

  const SECOND := 1_000_000_000

  const CACHE_TTL := 60 * SECOND

  datatype Entry = Entry(allowed: bool, expires: int)

  datatype State = State(now: int, db: Database, cache: map<string, Entry>)

  /** Other requests may put the tables into any state; time does not run backwards. */
  datatype Event = Tick(duration: nat) | Write(db: Database) | Check(query: Query)

  function AfterAction(q: Query): string { q.env + ":" + q.resourceID }

  function AfterResource(q: Query): string { q.action + ":" + AfterAction(q) }

  function AfterOrg(q: Query): string { q.resource + ":" + AfterResource(q) }

  function AfterUser(q: Query): string { q.orgID + ":" + AfterOrg(q) }

  /** perm:user:org:resource:action:env:resourceID */
  function CacheKey(q: Query): string { "perm:" + (q.userID + ":" + AfterUser(q)) }

  predicate Hit(s: State, q: Query) {
    CacheKey(q) in s.cache && s.now < s.cache[CacheKey(q)].expires
  }

  ghost predicate Answer(s: State, q: Query) {
    if Hit(s, q) then s.cache[CacheKey(q)].allowed else Allowed(s.db, s.now, q)
  }

  /** Decisions are stored except hits and the refusal of a user outside the organisation. */
  ghost function CacheAfter(s: State, q: Query): map<string, Entry> {
    if Hit(s, q) || FirstActive(s.db.memberships, q.userID, q.orgID).None? then s.cache
    else s.cache[CacheKey(q) := Entry(Allowed(s.db, s.now, q), s.now + CACHE_TTL)]
  }

  ghost function Step(s: State, e: Event): State {
    match e
    case Tick(d) => s.(now := s.now + d)
    case Write(db) => s.(db := db)
    case Check(q) => s.(cache := CacheAfter(s, q))
  }

  /** All states of a run, the initial one first. */
  ghost function Run(s: State, events: seq<Event>): (states: seq<State>)
    ensures |states| == |events| + 1
  {
    if events == [] then [s]
    else
      var before := Run(s, events[..|events| - 1]);
      before + [Step(before[|before| - 1], events[|events| - 1])]
  }

  // ---------------------------------------------------------------- the code

  /** The join of the user's roles in the organisation with their permissions. */
  function RoleRows(db: Database, userID: string, orgID: string): set<Permission> {
    set ur, rp, p | ur in db.userRoles && rp in db.rolePermissions && p in db.permissions &&
                    ur.userID == userID && ur.orgID == orgID && rp.roleID == ur.roleID && p.id == rp.permissionID :: p
  }

  /** The join of the user's unexpired overrides with their permissions. */
  function OverrideRows(db: Database, now: int, userID: string, orgID: string): set<(Permission, string)> {
    set up, p | up in db.userPermissions && p in db.permissions && p.id == up.permissionID &&
                up.userID == userID && up.orgID == orgID && Live(up, now) :: (p, up.effect)
  }

  lemma RoleRowsGrant(db: Database, userID: string, orgID: string, key: string)
    ensures RoleGrants(db, userID, orgID, key) <==> exists p :: p in RoleRows(db, userID, orgID) && KeyOf(p) == key
  {
    if RoleGrants(db, userID, orgID, key) {
      var ur, rp, p :| ur in db.userRoles && rp in db.rolePermissions && p in db.permissions &&
                       ur.userID == userID && ur.orgID == orgID && rp.roleID == ur.roleID &&
                       p.id == rp.permissionID && KeyOf(p) == key;
      assert p in RoleRows(db, userID, orgID);
    }
  }

  ghost predicate InRows(rows: set<(Permission, string)>, key: string, deny: bool) {
    exists x :: x in rows && EqualFold(x.1, "deny") == deny && KeyOf(x.0) == key
  }

  lemma OverrideRowsMeaning(db: Database, now: int, userID: string, orgID: string, key: string, deny: bool)
    ensures Override(db, now, userID, orgID, key, deny) <==> InRows(OverrideRows(db, now, userID, orgID), key, deny)
  {
    var rows := OverrideRows(db, now, userID, orgID);
    if Override(db, now, userID, orgID, key, deny) {
      var up, p :| up in db.userPermissions && p in db.permissions && p.id == up.permissionID &&
                   up.userID == userID && up.orgID == orgID && Live(up, now) &&
                   EqualFold(up.effect, "deny") == deny && KeyOf(p) == key;
      assert (p, up.effect) in rows;
    }
  }

  /** Looking a key up: what is missing reads as false. */
  predicate Marked(marks: map<string, bool>, key: string) { key in marks && marks[key] }

  lemma MarkMore(marks: map<string, bool>, key: string)
    ensures forall k :: Marked(marks[key := true], k) <==> Marked(marks, k) || k == key
  {
  }

  method PermissionsForUser(db: Database, now: int, userID: string, orgID: string)
    returns (allow: map<string, bool>, deny: map<string, bool>, rolePerms: map<string, bool>)
    ensures forall key :: Marked(rolePerms, key) <==> RoleGrants(db, userID, orgID, key)
    ensures forall key :: Marked(deny, key) <==> Override(db, now, userID, orgID, key, true)
    ensures forall key :: Marked(allow, key) <==> Override(db, now, userID, orgID, key, false)
  {
    rolePerms := MarkRoles(RoleRows(db, userID, orgID));
    forall key ensures Marked(rolePerms, key) <==> RoleGrants(db, userID, orgID, key) {
      RoleRowsGrant(db, userID, orgID, key);
    }
    allow, deny := MarkOverrides(OverrideRows(db, now, userID, orgID));
    forall key
      ensures Marked(deny, key) <==> Override(db, now, userID, orgID, key, true)
      ensures Marked(allow, key) <==> Override(db, now, userID, orgID, key, false)
    {
      OverrideRowsMeaning(db, now, userID, orgID, key, true);
      OverrideRowsMeaning(db, now, userID, orgID, key, false);
    }
  }

  ghost predicate HasKey(rows: set<Permission>, key: string) {
    exists p :: p in rows && KeyOf(p) == key
  }

  /** The first loop, over the rows of the role join. */
  method MarkRoles(all: set<Permission>) returns (rolePerms: map<string, bool>)
    ensures forall key :: Marked(rolePerms, key) <==> HasKey(all, key)
  {
    hide Marked, KeyOf, HasKey;
    NothingMarked();
    rolePerms := map[];
    var rows := all;
    ghost var done := {};
    while rows != {}
      invariant all == done + rows
      invariant forall key :: Marked(rolePerms, key) <==> HasKey(done, key)
    {
      var row :| row in rows;
      rows := rows - {row};
      MarkMore(rolePerms, KeyOf(row));
      HasKeyGrows(done, row);
      rolePerms := rolePerms[KeyOf(row) := true];
      done := done + {row};
    }
    assert done == all;
  }

  /** The second loop, over the rows of the overrides. */
  method MarkOverrides(joined: set<(Permission, string)>) returns (allow: map<string, bool>, deny: map<string, bool>)
    ensures forall key :: Marked(deny, key) <==> InRows(joined, key, true)
    ensures forall key :: Marked(allow, key) <==> InRows(joined, key, false)
  {
    hide Marked, KeyOf, EqualFold, InRows;
    NothingMarked();
    allow, deny := map[], map[];
    var overrides := joined;
    ghost var done := {};
    while overrides != {}
      invariant joined == done + overrides
      invariant forall key :: Marked(deny, key) <==> InRows(done, key, true)
      invariant forall key :: Marked(allow, key) <==> InRows(done, key, false)
    {
      var item :| item in overrides;
      overrides := overrides - {item};
      MarkItem(deny, done, item, true);
      MarkItem(allow, done, item, false);
      if EqualFold(item.1, "deny") {
        deny := deny[KeyOf(item.0) := true];
      } else {
        allow := allow[KeyOf(item.0) := true];
      }
      done := done + {item};
    }
    assert done == joined;
  }

  lemma NothingMarked()
    ensures forall key :: !Marked(map[], key) && !HasKey({}, key) && !InRows({}, key, true) && !InRows({}, key, false)
  {
  }

  lemma HasKeyGrows(done: set<Permission>, row: Permission)
    ensures forall key :: HasKey(done + {row}, key) <==> HasKey(done, key) || KeyOf(row) == key
  {
    forall key ensures HasKey(done + {row}, key) <==> HasKey(done, key) || KeyOf(row) == key {
      if p :| p in done && KeyOf(p) == key {
        assert p in done + {row};
      }
      if KeyOf(row) == key {
        assert row in done + {row};
      }
    }
  }

  lemma MarkItem(marks: map<string, bool>, done: set<(Permission, string)>, item: (Permission, string), deny: bool)
    requires forall key :: Marked(marks, key) <==> InRows(done, key, deny)
    ensures var more := if EqualFold(item.1, "deny") == deny then marks[KeyOf(item.0) := true] else marks;
            forall key :: Marked(more, key) <==> InRows(done + {item}, key, deny)
  {
    hide Marked, KeyOf, EqualFold, InRows;
    InRowsGrows(done, item, deny);
    MarkMore(marks, KeyOf(item.0));
    var more := if EqualFold(item.1, "deny") == deny then marks[KeyOf(item.0) := true] else marks;
    forall key ensures Marked(more, key) <==> InRows(done + {item}, key, deny) {
      assert Marked(marks, key) <==> InRows(done, key, deny);
      assert EqualFold(item.1, "deny") == deny ==>
          (Marked(marks[KeyOf(item.0) := true], key) <==> Marked(marks, key) || key == KeyOf(item.0));
    }
  }

  lemma InRowsGrows(done: set<(Permission, string)>, item: (Permission, string), deny: bool)
    ensures forall key :: InRows(done + {item}, key, deny) <==>
              InRows(done, key, deny) || (KeyOf(item.0) == key && EqualFold(item.1, "deny") == deny)
  {
    hide KeyOf, EqualFold;
    forall key
      ensures InRows(done + {item}, key, deny) <==>
              InRows(done, key, deny) || (KeyOf(item.0) == key && EqualFold(item.1, "deny") == deny)
    {
      if x :| x in done && EqualFold(x.1, "deny") == deny && KeyOf(x.0) == key {
        assert x in done + {item};
      }
      if KeyOf(item.0) == key && EqualFold(item.1, "deny") == deny {
        assert item in done + {item};
      }
    }
  }

  predicate EvalImplicitConditions(userID: string, teams: seq<string>, ownerID: string, team: Option<string>) {
    if ownerID != "" && ownerID != userID then
      if team.Some? && ContainsFold(teams, team.value) then true else false
    else if team.Some? then ContainsFold(teams, team.value)
    else true
  }

  predicate OrgFits(s: Scope, q: Query) { s.orgID == "" || s.orgID == q.orgID }

  predicate EnvFits(s: Scope, q: Query) { q.env == "" || s.env == "" || EqualFold(q.env, s.env) }

  predicate ScopeFits(s: Scope, q: Query) { OrgFits(s, q) && EnvFits(s, q) }

  /** The first reason against a member, "role" when there is none. */
  ghost function FirstReason(db: Database, now: int, q: Query, teams: seq<string>): string {
    var scope := LookupResourceScope(db, q.resource, q.resourceID);
    if Denied(db, now, q) then "deny_override"
    else if !Granted(db, now, q) then "missing_permission"
    else if q.resourceID != "" && !OrgFits(scope, q) then "cross_org"
    else if q.resourceID != "" && !EnvFits(scope, q) then "env_mismatch"
    else if !InReach(db, q, teams) then "abac_rejected"
    else "role"
  }

  /** The decision for an active member, with the first reason that stands against it. */
  method DecideMember(db: Database, now: int, q: Query, membership: Membership) returns (d: Decision)
    requires FirstActive(db.memberships, q.userID, q.orgID) == Some(membership)
    ensures d.allowed <==> Allowed(db, now, q)
    ensures d.allowed <==> d.reason == "role"
    ensures d.reason == FirstReason(db, now, q, membership.teams)
  {
    hide Override, RoleGrants, LookupResourceScope, EqualFold;
    var allow, deny, rolePerms := PermissionsForUser(db, now, q.userID, q.orgID);
    var key, wildcard := q.resource + ":" + q.action, q.resource + ":*";
    assert Marked(deny, key) || Marked(deny, wildcard) <==> Denied(db, now, q);
    assert (Marked(rolePerms, key) || Marked(allow, key) || Marked(rolePerms, wildcard) || Marked(allow, wildcard)) <==>
           Granted(db, now, q) by {
      GrantedByKeys(db, now, q);
    }
    if Marked(deny, key) || Marked(deny, wildcard) {
      return Decision(false, "deny_override");
    }
    if !Marked(rolePerms, key) && !Marked(allow, key) && !Marked(rolePerms, wildcard) && !Marked(allow, wildcard) {
      return Decision(false, "missing_permission");
    }
    if q.resourceID != "" {
      var scope := LookupResourceScope(db, q.resource, q.resourceID);
      if scope.orgID != "" && scope.orgID != q.orgID {
        return Decision(false, "cross_org");
      }
      if q.env != "" && scope.env != "" && !EqualFold(q.env, scope.env) {
        return Decision(false, "env_mismatch");
      }
      if !EvalImplicitConditions(q.userID, membership.teams, scope.ownerID, scope.team) {
        return Decision(false, "abac_rejected");
      }
    }
    return Decision(true, "role");
  }

  ghost function UncachedReason(db: Database, now: int, q: Query): string {
    var m := FirstActive(db.memberships, q.userID, q.orgID);
    if m.None? then "not_in_org" else FirstReason(db, now, q, m.value.teams)
  }

  lemma GrantedByKeys(db: Database, now: int, q: Query)
    ensures Granted(db, now, q) <==>
            RoleGrants(db, q.userID, q.orgID, q.resource + ":" + q.action) ||
            RoleGrants(db, q.userID, q.orgID, q.resource + ":*") ||
            Override(db, now, q.userID, q.orgID, q.resource + ":" + q.action, false) ||
            Override(db, now, q.userID, q.orgID, q.resource + ":*", false)
  {
    var key, wildcard := q.resource + ":" + q.action, q.resource + ":*";
    assert key in {key, wildcard} && wildcard in {key, wildcard};
  }

  class PermissionService {
    var now: int
    var db: Database
    var cache: map<string, Entry>

    constructor (db: Database, now: int)
      ensures Abstract() == State(now, db, map[])
    {
      this.db, this.now, cache := db, now, map[];
    }

    function Abstract(): State
      reads this
    {
      State(now, db, cache)
    }

    method Advance(duration: nat)
      modifies this`now
      ensures Abstract() == Step(old(Abstract()), Tick(duration))
    {
      now := now + duration;
    }

    method Commit(db: Database)
      modifies this`db
      ensures Abstract() == Step(old(Abstract()), Write(db))
    {
      this.db := db;
    }

    method CacheDecision(key: string, allowed: bool)
      modifies this`cache
      ensures cache == old(cache)[key := Entry(allowed, now + CACHE_TTL)]
    {
      cache := cache[key := Entry(allowed, now + CACHE_TTL)];
    }

    method CheckPermissionDecision(q: Query) returns (d: Decision)
      modifies this`cache
      ensures Abstract() == Step(old(Abstract()), Check(q))
      ensures d.allowed <==> Answer(old(Abstract()), q)
      ensures d.reason == if Hit(old(Abstract()), q) then "cache" else UncachedReason(db, now, q)
    {
      var cacheKey := CacheKey(q);
      if cacheKey in cache && now < cache[cacheKey].expires {
        return Decision(cache[cacheKey].allowed, "cache");
      }
      var membership := FirstActive(db.memberships, q.userID, q.orgID);
      if membership.None? {
        return Decision(false, "not_in_org");
      }
      d := DecideMember(db, now, q, membership.value);
      CacheDecision(cacheKey, d.allowed);
    }
  }

  // ---------------------------------------------------------------- the cache key

  /** No field but the last may contain the separator of the cache key. */
  predicate Clean(q: Query) {
    ':' !in q.userID && ':' !in q.orgID && ':' !in q.resource && ':' !in q.action && ':' !in q.env
  }

  lemma HeadDetermined(u: string, x: string, u': string, x': string)
    requires ':' !in u && ':' !in u' && u + ":" + x == u' + ":" + x'
    ensures u == u' && x == x'
  {
    var s := u + ":" + x;
    assert |u| == |u'| by {
      assert s[|u|] == ':' && s[|u'|] == ':';
    }
    assert u == s[..|u|] && u' == s[..|u'|];
    assert x == s[|u| + 1..] && x' == s[|u'| + 1..];
  }

  /** Different clean queries have different cache keys, even when resource ids contain the separator. */
  lemma CacheKeyInjective(q: Query, q': Query)
    requires Clean(q) && Clean(q') && CacheKey(q) == CacheKey(q')
    ensures q == q'
  {
    assert q.userID + ":" + AfterUser(q) == CacheKey(q)[5..] == q'.userID + ":" + AfterUser(q');
    HeadDetermined(q.userID, AfterUser(q), q'.userID, AfterUser(q'));
    HeadDetermined(q.orgID, AfterOrg(q), q'.orgID, AfterOrg(q'));
    HeadDetermined(q.resource, AfterResource(q), q'.resource, AfterResource(q'));
    HeadDetermined(q.action, AfterAction(q), q'.action, AfterAction(q'));
    HeadDetermined(q.env, q.resourceID, q'.env, q'.resourceID);
  }

  /** With the separator in an earlier field two queries share one key. */
  lemma UncleanKeysCollide()
    ensures exists q, q' :: Clean(q) && !Clean(q') && q != q' && CacheKey(q) == CacheKey(q')
  {
    var q, q' := Query("u", "o", "r", "a", "e", "x:y"), Query("u:o", "r", "a", "e", "x", "y");
    assert CacheKey(q) == "perm:u:o:r:a:e:x:y" && CacheKey(q') == "perm:u:o:r:a:e:x:y";
    assert q'.userID[1] == ':';
  }

  /** No two of the queries share a key. */
  ghost predicate KeysApart(queries: iset<Query>) {
    forall q, q' :: q in queries && q' in queries && CacheKey(q) == CacheKey(q') ==> q == q'
  }

  ghost function CleanQueries(): iset<Query> { iset q | Clean(q) }

  lemma CleanKeysApart()
    ensures KeysApart(CleanQueries())
  {
    hide CacheKey, Clean;
    forall q, q' | Clean(q) && Clean(q') && CacheKey(q) == CacheKey(q') ensures q == q' {
      CacheKeyInjective(q, q');
    }
  }

  // ---------------------------------------------------------------- every run

  /** The run asks no other queries. */
  ghost predicate AsksOnly(events: seq<Event>, queries: iset<Query>) {
    forall i :: 0 <= i < |events| && events[i].Check? ==> events[i].query in queries
  }

  /** The entry under the key was decided in state s for one of the queries that have the key. */
  ghost predicate DecidedAt(s: State, entry: Entry, key: string, q: Query, queries: iset<Query>) {
    q in queries && CacheKey(q) == key && entry == Entry(Allowed(s.db, s.now, q), s.now + CACHE_TTL)
  }

  ghost predicate Explained(states: seq<State>, s: State, queries: iset<Query>) {
    forall key :: key in s.cache ==>
      exists j, q :: 0 <= j < |states| && DecidedAt(states[j], s.cache[key], key, q, queries)
  }

  lemma RunClock(s: State, events: seq<Event>, i: nat, j: nat)
    requires i <= j <= |events|
    ensures Run(s, events)[i].now <= Run(s, events)[j].now
  {
    if j == |events| && i < j {
      RunClock(s, events[..|events| - 1], i, j - 1);
    } else if j < |events| {
      RunClock(s, events[..|events| - 1], i, j);
    }
  }

  lemma CacheStep(s: State, e: Event, key: string)
    requires key in Step(s, e).cache
    ensures (key in s.cache && s.cache[key] == Step(s, e).cache[key]) ||
            (e.Check? && CacheKey(e.query) == key &&
              Step(s, e).cache[key] == Entry(Allowed(s.db, s.now, e.query), s.now + CACHE_TTL))
  {
    hide CacheKey, Allowed;
  }

  lemma StepExplained(before: seq<State>, e: Event, next: State, queries: iset<Query>)
    requires |before| > 0 && Explained(before, before[|before| - 1], queries) && (e.Check? ==> e.query in queries)
    requires next == Step(before[|before| - 1], e)
    ensures Explained(before + [next], next, queries)
  {
    hide Step, CacheKey, Allowed;
    var n := |before| - 1;
    var last, states := before[n], before + [next];
    forall key | key in next.cache
      ensures exists j, q :: 0 <= j < |states| && DecidedAt(states[j], next.cache[key], key, q, queries)
    {
      CacheStep(last, e, key);
      if key in last.cache && last.cache[key] == next.cache[key] {
        var j, q :| 0 <= j < |before| && DecidedAt(before[j], last.cache[key], key, q, queries);
        assert states[j] == before[j];
      } else {
        assert states[n] == last && DecidedAt(states[n], next.cache[key], key, e.query, queries);
      }
    }
  }

  /** In every run each cache entry records a decision of an earlier state for one of the queries asked. */
  lemma {:induction false} CacheExplained(s: State, events: seq<Event>, queries: iset<Query>)
    requires s.cache == map[] && AsksOnly(events, queries)
    ensures var states := Run(s, events); Explained(states, states[|events|], queries)
  {
    if events != [] {
      hide Step, Explained;
      var n := |events| - 1;
      var init := events[..n];
      assert forall i :: 0 <= i < n ==> init[i] == events[i];
      CacheExplained(s, init, queries);
      StepExplained(Run(s, init), events[n], Run(s, events)[n + 1], queries);
    }
  }

  /** The answer to the query at the end of the run equals its uncached decision on a state of the run that held less
      than sixty seconds before. */
  ghost predicate AnsweredRecently(s: State, events: seq<Event>, q: Query) {
    var states := Run(s, events);
    var current := states[|events|];
    exists j :: 0 <= j <= |events| && states[j].now <= current.now < states[j].now + 60 * SECOND &&
                (Answer(current, q) <==> Allowed(states[j].db, states[j].now, q))
  }

  /** In every run of queries whose keys are apart, whatever other requests write, answers are recent. */
  lemma AnswersAtMostSixtySecondsOld(s: State, events: seq<Event>, q: Query, queries: iset<Query>)
    requires s.cache == map[] && AsksOnly(events, queries) && q in queries && KeysApart(queries)
    ensures AnsweredRecently(s, events, q)
  {
    hide CacheKey, Allowed, Run, AsksOnly;
    var states := Run(s, events);
    var n := |events|;
    var current := states[n];
    if Hit(current, q) {
      CacheExplained(s, events, queries);
      var j, q' :| 0 <= j < |states| && DecidedAt(states[j], current.cache[CacheKey(q)], CacheKey(q), q', queries);
      RunClock(s, events, j, n);
      assert states[j].now <= current.now < states[j].now + CACHE_TTL;
    } else {
      assert states[n].now <= current.now < states[n].now + CACHE_TTL;
    }
  }

  // ---------------------------------------------------------------- queries that share a key

  /** One active member who is allowed one permission, and some scopes. */
  function Tables(userID: string, orgID: string, p: Permission, scopes: seq<ResourceScope>): Database {
    Database([Membership(userID, orgID, "active", [])], {}, {}, {p},
             {UserPermission(userID, orgID, p.id, "allow", None)}, scopes, [])
  }

  predicate Names(p: Permission, q: Query) { KeyOf(p) == q.resource + ":" + q.action || KeyOf(p) == q.resource + ":*" }

  lemma AllowedByTables(userID: string, orgID: string, p: Permission, scopes: seq<ResourceScope>, now: int, q: Query)
    ensures var db := Tables(userID, orgID, p, scopes);
            && (Allowed(db, now, q) <==> q.userID == userID && q.orgID == orgID && Names(p, q) && InReach(db, q, []))
            && (FirstActive(db.memberships, q.userID, q.orgID).Some? <==> q.userID == userID && q.orgID == orgID)
  {
    hide InReach, KeyOf;
    var db := Tables(userID, orgID, p, scopes);
    var up := UserPermission(userID, orgID, p.id, "allow", None);
    AllowIsNotDeny();
    FirstOfOne(db.memberships[0], q.userID, q.orgID);
    assert db.memberships == [db.memberships[0]];
    assert !Denied(db, now, q);
    assert Granted(db, now, q) <==> q.userID == userID && q.orgID == orgID && Names(p, q) by {
      GrantedByKeys(db, now, q);
      assert up in db.userPermissions && p in db.permissions && Live(up, now);
    }
  }

  lemma AllowIsNotDeny()
    ensures !EqualFold("allow", "deny")
  {
    assert |Lower("allow")| == 5 && |Lower("deny")| == 4;
  }

  lemma FirstOfOne(m: Membership, userID: string, orgID: string)
    ensures FirstActive([m], userID, orgID) ==
            if m.userID == userID && m.orgID == orgID && m.status == "active" then Some(m) else None
  {
    assert [m][1..] == [];
  }

  lemma InReachWithoutScopes(userID: string, orgID: string, p: Permission, q: Query)
    ensures InReach(Tables(userID, orgID, p, []), q, [])
  {
  }

  /** Tables under which the first query is allowed to a member and the second, with the same key, is not. */
  ghost predicate Apart(db: Database, first: Query, second: Query) {
    && FirstActive(db.memberships, first.userID, first.orgID).Some?
    && forall now :: Allowed(db, now, first) != Allowed(db, now, second)
  }

  lemma OtherMember(q: Query, q': Query) returns (db: Database)
    requires q.userID != q'.userID || q.orgID != q'.orgID
    ensures Apart(db, q, q')
  {
    hide Allowed, FirstActive;
    var p := Permission("p", q.resource, q.action);
    db := Tables(q.userID, q.orgID, p, []);
    forall now ensures Allowed(db, now, q) != Allowed(db, now, q') {
      AllowedByTables(q.userID, q.orgID, p, [], now, q);
      AllowedByTables(q.userID, q.orgID, p, [], now, q');
      InReachWithoutScopes(q.userID, q.orgID, p, q);
    }
    AllowedByTables(q.userID, q.orgID, p, [], 0, q);
  }

  lemma WildcardsEqual(r: string, r': string)
    requires r + ":*" == r' + ":*"
    ensures r == r'
  {
    assert |r| == |r'|;
    assert (r + ":*")[..|r|] == r && (r' + ":*")[..|r'|] == r';
  }

  lemma WildcardIsLonger(r: string, a: string, r': string)
    requires r + ":" + a == r' + ":*"
    ensures |r| <= |r'| && (|r| == |r'| ==> r == r')
  {
    assert (r + ":" + a)[|r|] == ':' && (r' + ":*")[|r'| + 1] == '*';
    assert (r + ":" + a)[..|r|] == r && (r' + ":*")[..|r'|] == r';
  }

  /** Neither key can be the other query's wildcard at once. */
  lemma NotBothWild(r: string, a: string, r': string, a': string)
    requires r != r' && r + ":" + a == r' + ":*"
    ensures r' + ":" + a' != r + ":*"
  {
    WildcardIsLonger(r, a, r');
    if r' + ":" + a' == r + ":*" {
      WildcardIsLonger(r', a', r);
    }
  }

  lemma KeyActionsEqual(r: string, a: string, a': string)
    requires r + ":" + a == r + ":" + a'
    ensures a == a'
  {
    assert (r + ":" + a)[|r| + 1..] == a && (r + ":" + a')[|r| + 1..] == a';
  }

  /** A permission that names exactly one of two queries for different resources or actions. */
  lemma NamesOne(q: Query, q': Query) returns (p: Permission)
    requires q.resource != q'.resource || q.action != q'.action
    ensures Names(p, q) != Names(p, q')
  {
    var r, a, r', a' := q.resource, q.action, q'.resource, q'.action;
    if r != r' {
      if r + ":*" == r' + ":*" {
        WildcardsEqual(r, r');
      }
      if r' + ":" + a' == r + ":*" {
        NotBothWild(r', a', r, a);
        p := Permission("p", r', "*");
      } else {
        p := Permission("p", r, "*");
      }
    } else {
      if r + ":" + a == r + ":" + a' {
        KeyActionsEqual(r, a, a');
      }
      if a == "*" {
        p := Permission("p", r, a');
      } else {
        p := Permission("p", r, a);
        if r + ":" + a == r + ":*" {
          KeyActionsEqual(r, a, "*");
        }
      }
    }
  }

  lemma OtherPermission(q: Query, q': Query) returns (db: Database)
    requires q.userID == q'.userID && q.orgID == q'.orgID && (q.resource != q'.resource || q.action != q'.action)
    ensures Apart(db, q, q')
  {
    hide Allowed, FirstActive, Names;
    var p := NamesOne(q, q');
    db := Tables(q.userID, q.orgID, p, []);
    forall now ensures Allowed(db, now, q) != Allowed(db, now, q') {
      AllowedByTables(q.userID, q.orgID, p, [], now, q);
      AllowedByTables(q.userID, q.orgID, p, [], now, q');
      InReachWithoutScopes(q.userID, q.orgID, p, q);
      InReachWithoutScopes(q.userID, q.orgID, p, q');
    }
    AllowedByTables(q.userID, q.orgID, p, [], 0, q);
  }

  lemma ForeignScope(userID: string, orgID: string, p: Permission, resource: string, resourceID: string, q: Query)
    requires q.orgID == orgID && q.resource == resource && resourceID != ""
    ensures var scope := ResourceScope(orgID + "x", resource, resourceID, "", "", None);
            InReach(Tables(userID, orgID, p, [scope]), q, []) <==> q.resourceID != resourceID
  {
    var scope := ResourceScope(orgID + "x", resource, resourceID, "", "", None);
    var db := Tables(userID, orgID, p, [scope]);
    assert scope.orgID != orgID && scope.orgID != "" by {
      assert |scope.orgID| == |orgID| + 1;
    }
    assert [scope][1..] == [] && FirstScope([], q.resource, q.resourceID) == None;
    if q.resourceID == resourceID {
      assert LookupResourceScope(db, q.resource, q.resourceID) == Scope(scope.orgID, "", "", None);
    } else {
      assert LookupResourceScope(db, q.resource, q.resourceID) == Scope("", "", "", None);
    }
  }

  lemma OtherResource(q: Query, q': Query) returns (db: Database)
    requires q.userID == q'.userID && q.orgID == q'.orgID && q.resource == q'.resource && q.action == q'.action
    requires q.resourceID != q'.resourceID
    ensures Apart(db, q, q')
  {
    hide Allowed, FirstActive, InReach;
    var p := Permission("p", q.resource, q.action);
    var id := if q'.resourceID != "" then q'.resourceID else q.resourceID;
    var scopes := [ResourceScope(q.orgID + "x", q.resource, id, "", "", None)];
    db := Tables(q.userID, q.orgID, p, scopes);
    forall now ensures Allowed(db, now, q) != Allowed(db, now, q') {
      AllowedByTables(q.userID, q.orgID, p, scopes, now, q);
      AllowedByTables(q.userID, q.orgID, p, scopes, now, q');
      ForeignScope(q.userID, q.orgID, p, q.resource, id, q);
      ForeignScope(q.userID, q.orgID, p, q.resource, id, q');
    }
    AllowedByTables(q.userID, q.orgID, p, scopes, 0, q);
  }

  lemma SameKeyApart(q: Query, q': Query) returns (db: Database)
    requires q != q' && CacheKey(q) == CacheKey(q')
    ensures Apart(db, q, q')
  {
    hide Apart;
    if q.userID != q'.userID || q.orgID != q'.orgID {
      db := OtherMember(q, q');
    } else if q.resource != q'.resource || q.action != q'.action {
      db := OtherPermission(q, q');
    } else {
      SameKeyOtherID(q, q');
      db := OtherResource(q, q');
    }
  }

  /** Queries that differ in environment or resource id only and share a key differ in the resource id. */
  lemma SameKeyOtherID(q: Query, q': Query)
    requires q != q' && CacheKey(q) == CacheKey(q')
    requires q.userID == q'.userID && q.orgID == q'.orgID && q.resource == q'.resource && q.action == q'.action
    ensures q.resourceID != q'.resourceID
  {
    var head := "perm:" + (q.userID + ":" + (q.orgID + ":" + (q.resource + ":" + (q.action + ":"))));
    assert CacheKey(q) == head + AfterAction(q) && CacheKey(q') == head + AfterAction(q');
    assert AfterAction(q) == CacheKey(q)[|head|..] && AfterAction(q') == CacheKey(q')[|head|..];
    assert |AfterAction(q)| == |q.env| + 1 + |q.resourceID| && |AfterAction(q')| == |q'.env| + 1 + |q'.resourceID|;
    assert q.env == AfterAction(q)[..|q.env|] && q'.env == AfterAction(q')[..|q'.env|];
  }

  /** Asked right after the first of two such queries, the second gets an answer that was never right. */
  lemma SharedKeyMisleads(q: Query, q': Query) returns (s: State)
    requires q != q' && CacheKey(q) == CacheKey(q')
    ensures s.cache == map[] && !AnsweredRecently(s, [Check(q)], q')
  {
    hide CacheKey, Allowed, FirstActive;
    var db := SameKeyApart(q, q');
    s := State(0, db, map[]);
    var events := [Check(q)];
    assert events[..0] == [];
    assert Run(s, []) == [s];
    var after := Step(s, Check(q));
    assert Run(s, events) == [s, after];
    assert Hit(after, q') && Answer(after, q') == Allowed(db, 0, q);
  }

  /** A set of queries is always answered from the last sixty seconds precisely when no two of them share a key. */
  lemma RecentExactly(queries: iset<Query>)
    ensures (forall s: State, events: seq<Event>, q: Query ::
               s.cache == map[] && AsksOnly(events, queries) && q in queries ==> AnsweredRecently(s, events, q)) <==>
            KeysApart(queries)
  {
    hide AnsweredRecently, CacheKey;
    if KeysApart(queries) {
      forall s: State, events: seq<Event>, q: Query | s.cache == map[] && AsksOnly(events, queries) && q in queries
        ensures AnsweredRecently(s, events, q)
      {
        AnswersAtMostSixtySecondsOld(s, events, q, queries);
      }
    } else {
      var q, q' :| q in queries && q' in queries && CacheKey(q) == CacheKey(q') && q != q';
      var s := SharedKeyMisleads(q, q');
      assert AsksOnly([Check(q)], queries);
    }
  }
}
