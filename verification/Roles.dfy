/** Listing roles: one role per slug, sorted, in pages, fed by tables and maps without an order. */
module Roles {
  import opened Text
  import opened Wrappers

  datatype Role = Role(id: string, orgID: Option<string>, name: string, slug: string, isSystem: bool, createdAt: int)

  // ---------------------------------------------------------------- which role stands for a slug

  predicate Scoped(r: Role, orgID: string) { r.orgID == Some(orgID) }

  predicate PreferRoleCandidate(candidate: Role, existing: Role, orgID: string) {
    if Scoped(candidate, orgID) != Scoped(existing, orgID) then Scoped(candidate, orgID)
    else if candidate.isSystem != existing.isSystem then candidate.isSystem
    else if candidate.createdAt == existing.createdAt then Less(candidate.id, existing.id)
    else candidate.createdAt < existing.createdAt
  }

  /** Preference is a strict total order on roles with different ids. */
  lemma PreferenceIsStrictTotal(a: Role, b: Role, c: Role, orgID: string)
    ensures !PreferRoleCandidate(a, a, orgID)
    ensures PreferRoleCandidate(a, b, orgID) && PreferRoleCandidate(b, c, orgID) ==> PreferRoleCandidate(a, c, orgID)
    ensures a.id != b.id ==> PreferRoleCandidate(a, b, orgID) || PreferRoleCandidate(b, a, orgID)
  {
    LessIrreflexive(a.id);
    LessTotal(a.id, b.id);
    if Less(a.id, b.id) && Less(b.id, c.id) {
      LessTransitive(a.id, b.id, c.id);
    }
  }

  predicate DistinctIDs(roles: seq<Role>) {
    forall i, j :: 0 <= i < j < |roles| ==> roles[i].id != roles[j].id
  }

  /** The role is among the rows and no row with its slug is preferred to it. */
  ghost predicate Winner(roles: seq<Role>, r: Role, orgID: string) {
    r in roles && forall r' :: r' in roles && r'.slug == r.slug && r' != r ==> PreferRoleCandidate(r, r', orgID)
  }

  /** A list of exactly the winners, each once. */
  ghost predicate ListsWinners(result: seq<Role>, roles: seq<Role>, orgID: string) {
    && (forall r :: r in result <==> Winner(roles, r, orgID))
    && (forall i, j :: 0 <= i < j < |result| ==> result[i] != result[j])
  }

  /** Every slug that occurs has exactly one winner. */
  lemma WinnerStays(init: seq<Role>, v: Role, last: Role, orgID: string)
    requires Winner(init, v, orgID) && v.id != last.id
    ensures var w := if last.slug == v.slug && PreferRoleCandidate(last, v, orgID) then last else v;
            Winner(init + [last], w, orgID)
  {
    hide PreferRoleCandidate;
    var roles := init + [last];
    assert forall r :: r in roles <==> r in init || r == last;
    forall r | r in roles && r.slug == v.slug && r != v ensures PreferRoleCandidate(v, r, orgID) || r == last {
    }
    PreferenceIsStrictTotal(v, last, v, orgID);
    forall r | r in roles && r.slug == v.slug && r != last && PreferRoleCandidate(last, v, orgID)
      ensures PreferRoleCandidate(last, r, orgID)
    {
      PreferenceIsStrictTotal(last, v, r, orgID);
    }
  }

  lemma WinnersAreEqual(roles: seq<Role>, r: Role, w: Role, orgID: string)
    requires Winner(roles, r, orgID) && Winner(roles, w, orgID) && r.slug == w.slug
    ensures r == w
  {
    hide PreferRoleCandidate;
    PreferenceIsStrictTotal(r, w, r, orgID);
  }

  lemma {:induction false} OneWinnerPerSlug(roles: seq<Role>, orgID: string, slug: string) returns (w: Role)
    requires DistinctIDs(roles) && exists r :: r in roles && r.slug == slug
    ensures Winner(roles, w, orgID) && w.slug == slug
    ensures forall r :: Winner(roles, r, orgID) && r.slug == slug ==> r == w
  {
    hide PreferRoleCandidate;
    var n := |roles| - 1;
    var init, last := roles[..n], roles[n];
    assert roles == init + [last];
    assert forall r :: r in roles <==> r in init || r == last;
    if r :| r in init && r.slug == slug {
      var v := OneWinnerPerSlug(init, orgID, slug);
      w := if last.slug == slug && PreferRoleCandidate(last, v, orgID) then last else v;
      var i :| 0 <= i < n && init[i] == v;
      assert roles[i] == v && v.id != last.id;
      WinnerStays(init, v, last, orgID);
    } else {
      w := last;
    }
    forall r | Winner(roles, r, orgID) && r.slug == slug ensures r == w {
      WinnersAreEqual(roles, r, w, orgID);
    }
  }

  /** What winning means: no row of the slug is closer to the organisation, or as close and more of a system role, or
      alike in both and older, or alike in all three and smaller by id. */
  lemma WinnerRanks(roles: seq<Role>, w: Role, orgID: string, r: Role)
    requires Winner(roles, w, orgID) && r in roles && r.slug == w.slug
    ensures Scoped(r, orgID) ==> Scoped(w, orgID)
    ensures Scoped(r, orgID) == Scoped(w, orgID) && r.isSystem ==> w.isSystem
    ensures Scoped(r, orgID) == Scoped(w, orgID) && r.isSystem == w.isSystem ==> w.createdAt <= r.createdAt
    ensures Scoped(r, orgID) == Scoped(w, orgID) && r.isSystem == w.isSystem && r.createdAt == w.createdAt ==>
            !Less(r.id, w.id)
  {
    LessIrreflexive(w.id);
    if r != w {
      assert PreferRoleCandidate(w, r, orgID);
      if Less(w.id, r.id) && Less(r.id, w.id) {
        LessTransitive(w.id, r.id, w.id);
      }
    }
  }

  // ---------------------------------------------------------------- the code: deduplication

  /** What the map holds after some rows: for every slug seen its winner. */
  ghost predicate HoldsWinners(bySlug: map<string, Role>, roles: seq<Role>, orgID: string) {
    && (forall slug :: slug in bySlug <==> exists r :: r in roles && r.slug == slug)
    && (forall slug :: slug in bySlug ==> bySlug[slug].slug == slug && Winner(roles, bySlug[slug], orgID))
  }

  lemma WinnerGrows(roles: seq<Role>, role: Role, r: Role, orgID: string)
    requires Winner(roles, r, orgID) && DistinctIDs(roles + [role])
    ensures role.slug != r.slug || PreferRoleCandidate(r, role, orgID) ==> Winner(roles + [role], r, orgID)
    ensures role.slug == r.slug && !PreferRoleCandidate(r, role, orgID) ==> Winner(roles + [role], role, orgID)
  {
    var grown := roles + [role];
    assert forall x :: x in grown <==> x in roles || x == role;
    if role.slug == r.slug && !PreferRoleCandidate(r, role, orgID) {
      var i :| 0 <= i < |roles| && roles[i] == r;
      assert grown[i] == r && grown[|roles|] == role;
      forall x | x in grown && x.slug == role.slug && x != role ensures PreferRoleCandidate(role, x, orgID) {
        PreferenceIsStrictTotal(r, role, x, orgID);
        PreferenceIsStrictTotal(role, r, x, orgID);
      }
    }
  }

  lemma NewSlugWins(roles: seq<Role>, role: Role, orgID: string)
    requires forall r :: r in roles ==> r.slug != role.slug
    ensures Winner(roles + [role], role, orgID)
  {
  }

  lemma HoldsStep(before: map<string, Role>, roles: seq<Role>, role: Role, orgID: string)
    requires HoldsWinners(before, roles, orgID) && DistinctIDs(roles + [role])
    ensures var after := if role.slug !in before || PreferRoleCandidate(role, before[role.slug], orgID)
            then before[role.slug := role] else before;
            HoldsWinners(after, roles + [role], orgID)
  {
    var grown := roles + [role];
    var after := if role.slug !in before || PreferRoleCandidate(role, before[role.slug], orgID)
      then before[role.slug := role] else before;
    assert forall x :: x in grown <==> x in roles || x == role;
    assert forall slug :: slug in after <==> exists r :: r in grown && r.slug == slug by {
      forall slug ensures slug in after <==> exists r :: r in grown && r.slug == slug {
        if slug in before {
          var r :| r in roles && r.slug == slug;
          assert r in grown;
        }
      }
    }
    forall slug | slug in after ensures after[slug].slug == slug && Winner(grown, after[slug], orgID) {
      if slug in before {
        WinnerGrows(roles, role, before[slug], orgID);
        var i :| 0 <= i < |roles| && roles[i] == before[slug];
        assert grown[i] == before[slug] && grown[|roles|] == role;
        PreferenceIsStrictTotal(role, before[slug], role, orgID);
      } else {
        NewSlugWins(roles, role, orgID);
      }
    }
  }

  method CollectWinners(roles: seq<Role>, orgID: string) returns (bySlug: map<string, Role>)
    requires DistinctIDs(roles)
    ensures HoldsWinners(bySlug, roles, orgID)
  {
    bySlug := map[];
    for k := 0 to |roles|
      invariant HoldsWinners(bySlug, roles[..k], orgID)
    {
      var role := roles[k];
      assert roles[..k + 1] == roles[..k] + [role];
      HoldsStep(bySlug, roles[..k], role, orgID);
      if role.slug !in bySlug {
        bySlug := bySlug[role.slug := role];
        continue;
      }
      var existing := bySlug[role.slug];
      if PreferRoleCandidate(role, existing, orgID) {
        bySlug := bySlug[role.slug := role];
      }
    }
    assert roles[..|roles|] == roles;
  }

  /** The values of the map come out in an order the language leaves open. */
  method DedupeRolesBySlug(roles: seq<Role>, orgID: string) returns (result: seq<Role>)
    requires DistinctIDs(roles)
    ensures ListsWinners(result, roles, orgID)
  {
    hide PreferRoleCandidate, Winner, DistinctIDs;
    var bySlug := CollectWinners(roles, orgID);
    result := [];
    var slugs := bySlug.Keys;
    while slugs != {}
      invariant slugs <= bySlug.Keys
      invariant forall r :: r in result <==> r.slug in bySlug.Keys - slugs && bySlug[r.slug] == r
      invariant forall i, j :: 0 <= i < j < |result| ==> result[i] != result[j]
    {
      var slug :| slug in slugs;
      ghost var before := result;
      slugs := slugs - {slug};
      result := result + [bySlug[slug]];
      assert forall r :: r in result <==> r in before || r == bySlug[slug];
    }
    HeldAreWinners(bySlug, roles, orgID);
  }

  lemma HeldAreWinners(bySlug: map<string, Role>, roles: seq<Role>, orgID: string)
    requires DistinctIDs(roles) && HoldsWinners(bySlug, roles, orgID)
    ensures forall r: Role :: (r.slug in bySlug && bySlug[r.slug] == r) <==> Winner(roles, r, orgID)
  {
    hide PreferRoleCandidate, DistinctIDs;
    forall r | Winner(roles, r, orgID) ensures r.slug in bySlug && bySlug[r.slug] == r {
      var w := OneWinnerPerSlug(roles, orgID, r.slug);
    }
  }

  // ---------------------------------------------------------------- sorting

  function SortKey(sortBy: string): string {
    var key := Lower(TrimSpace(sortBy));
    if key == "" then "is_system" else key
  }

  predicate Descending(sortBy: string, sortDir: string) {
    Lower(TrimSpace(sortBy)) == "" || EqualFold(TrimSpace(sortDir), "desc")
  }

  predicate CompareStrings(left: string, right: string, desc: bool) {
    if desc then Less(Lower(right), Lower(left)) else Less(Lower(left), Lower(right))
  }

  /** The comparison of the sort: which of two roles comes first. */
  predicate RoleLess(key: string, desc: bool, left: Role, right: Role) {
    if key == "slug" then CompareStrings(left.slug, right.slug, desc)
    else if key == "is_system" then
      if left.isSystem != right.isSystem then (if desc then left.isSystem else !left.isSystem)
      else CompareStrings(left.name, right.name, false)
    else if Lower(left.name) != Lower(right.name) then CompareStrings(left.name, right.name, desc)
    else CompareStrings(left.name, right.name, false)
  }

  /** Two roles the comparison cannot tell apart. */
  predicate Tied(key: string, left: Role, right: Role) {
    if key == "slug" then Lower(left.slug) == Lower(right.slug)
    else if key == "is_system" then left.isSystem == right.isSystem && Lower(left.name) == Lower(right.name)
    else Lower(left.name) == Lower(right.name)
  }

  lemma CompareIsStrict(a: string, b: string, c: string, desc: bool)
    ensures !CompareStrings(a, a, desc)
    ensures CompareStrings(a, b, desc) && CompareStrings(b, c, desc) ==> CompareStrings(a, c, desc)
    ensures CompareStrings(a, b, desc) || CompareStrings(b, a, desc) || Lower(a) == Lower(b)
    ensures CompareStrings(a, b, desc) ==> Lower(a) != Lower(b)
  {
    LessIrreflexive(Lower(a));
    LessTotal(Lower(a), Lower(b));
    if Less(Lower(a), Lower(b)) && Less(Lower(b), Lower(c)) {
      LessTransitive(Lower(a), Lower(b), Lower(c));
    }
    if Less(Lower(c), Lower(b)) && Less(Lower(b), Lower(a)) {
      LessTransitive(Lower(c), Lower(b), Lower(a));
    }
  }

  /** A strict order in which exactly the tied roles are incomparable. */
  lemma RoleLessIsStrict(key: string, desc: bool, a: Role, b: Role, c: Role)
    ensures !RoleLess(key, desc, a, a)
    ensures RoleLess(key, desc, a, b) && RoleLess(key, desc, b, c) ==> RoleLess(key, desc, a, c)
    ensures Tied(key, a, b) <==> !RoleLess(key, desc, a, b) && !RoleLess(key, desc, b, a)
  {
    CompareIsStrict(a.slug, b.slug, c.slug, desc);
    CompareIsStrict(b.slug, a.slug, c.slug, desc);
    CompareIsStrict(a.name, b.name, c.name, desc);
    CompareIsStrict(b.name, a.name, c.name, desc);
    CompareIsStrict(a.name, b.name, c.name, false);
    CompareIsStrict(b.name, a.name, c.name, false);
  }

  /** Insertion behind everything that does not come after: the stable sort of the library. */
  function Insert(less: (Role, Role) -> bool, sorted: seq<Role>, role: Role): seq<Role> {
    if sorted == [] then [role]
    else
      var k := |sorted| - 1;
      if less(role, sorted[k]) then Insert(less, sorted[..k], role) + [sorted[k]] else sorted + [role]
  }

  function Sort(less: (Role, Role) -> bool, roles: seq<Role>): seq<Role> {
    if roles == [] then [] else Insert(less, Sort(less, roles[..|roles| - 1]), roles[|roles| - 1])
  }

  function Order(key: string, desc: bool): (Role, Role) -> bool {
    (a: Role, b: Role) => RoleLess(key, desc, a, b)
  }

  function SortRoles(roles: seq<Role>, sortBy: string, sortDir: string): seq<Role> {
    Sort(Order(SortKey(sortBy), Descending(sortBy, sortDir)), roles)
  }

  // ---------------------------------------------------------------- one sorted list

  ghost predicate StrictOn(less: (Role, Role) -> bool) {
    && (forall a :: !less(a, a))
    && (forall a, b, c :: less(a, b) && less(b, c) ==> less(a, c))
  }

  predicate Ascending(less: (Role, Role) -> bool, roles: seq<Role>) {
    forall i, j :: 0 <= i < j < |roles| ==> less(roles[i], roles[j])
  }

  lemma {:induction false} InsertElements(less: (Role, Role) -> bool, sorted: seq<Role>, role: Role)
    ensures multiset(Insert(less, sorted, role)) == multiset(sorted) + multiset{role}
  {
    if sorted != [] && less(role, sorted[|sorted| - 1]) {
      var k := |sorted| - 1;
      InsertElements(less, sorted[..k], role);
      assert sorted == sorted[..k] + [sorted[k]];
    }
  }

  lemma SplitLast(roles: seq<Role>)
    requires roles != []
    ensures multiset(roles) == multiset(roles[..|roles| - 1]) + multiset{roles[|roles| - 1]}
  {
    assert roles == roles[..|roles| - 1] + [roles[|roles| - 1]];
  }

  lemma {:induction false} SortElements(less: (Role, Role) -> bool, roles: seq<Role>)
    ensures multiset(Sort(less, roles)) == multiset(roles)
  {
    if roles != [] {
      var init, last := roles[..|roles| - 1], roles[|roles| - 1];
      SortElements(less, init);
      InsertElements(less, Sort(less, init), last);
      SplitLast(roles);
    }
  }

  lemma InsertMembers(less: (Role, Role) -> bool, sorted: seq<Role>, role: Role)
    ensures forall r :: r in Insert(less, sorted, role) <==> r in sorted || r == role
  {
    InsertElements(less, sorted, role);
    forall r ensures r in Insert(less, sorted, role) <==> r in sorted || r == role {
      assert r in multiset(Insert(less, sorted, role)) <==> r in multiset(sorted) + multiset{role};
    }
  }

  lemma {:induction false} InsertAscending(less: (Role, Role) -> bool, sorted: seq<Role>, role: Role)
    requires StrictOn(less) && Ascending(less, sorted)
    requires forall i :: 0 <= i < |sorted| ==> less(sorted[i], role) || less(role, sorted[i])
    ensures Ascending(less, Insert(less, sorted, role))
  {
    if sorted != [] {
      var k := |sorted| - 1;
      var last := sorted[k];
      if less(role, last) {
        InsertAscending(less, sorted[..k], role);
        InsertMembers(less, sorted[..k], role);
        var front := Insert(less, sorted[..k], role);
        forall i | 0 <= i < |front| ensures less(front[i], last) {
          assert front[i] in front;
          if front[i] != role {
            var j :| 0 <= j < k && sorted[j] == front[i];
          }
        }
      } else {
        assert less(last, role);
        forall i | 0 <= i < k ensures less(sorted[i], role) {
          assert less(sorted[i], last);
        }
      }
    }
  }

  ghost predicate Comparable(less: (Role, Role) -> bool, roles: seq<Role>) {
    forall i, j :: 0 <= i < j < |roles| ==> less(roles[i], roles[j]) || less(roles[j], roles[i])
  }

  lemma {:induction false} SortAscending(less: (Role, Role) -> bool, roles: seq<Role>)
    requires StrictOn(less) && Comparable(less, roles)
    ensures Ascending(less, Sort(less, roles))
  {
    if roles != [] {
      var k := |roles| - 1;
      var init := roles[..k];
      SortAscending(less, init);
      SortElements(less, init);
      var sorted := Sort(less, init);
      forall i | 0 <= i < |sorted| ensures less(sorted[i], roles[k]) || less(roles[k], sorted[i]) {
        assert sorted[i] in multiset(sorted);
        assert sorted[i] in init;
        var j :| 0 <= j < k && roles[j] == sorted[i];
      }
      InsertAscending(less, sorted, roles[k]);
    }
  }

  lemma HeadIsLeast(less: (Role, Role) -> bool, a: seq<Role>, b: seq<Role>)
    requires StrictOn(less) && Ascending(less, a) && Ascending(less, b) && multiset(a) == multiset(b) && a != []
    ensures b != [] && a[0] == b[0]
  {
    assert a[0] in multiset(b) && |multiset(a)| == |multiset(b)|;
    assert b[0] in multiset(a);
    var i :| 0 <= i < |b| && b[i] == a[0];
    var j :| 0 <= j < |a| && a[j] == b[0];
  }

  lemma SplitFirst(roles: seq<Role>)
    requires roles != []
    ensures multiset(roles[1..]) == multiset(roles) - multiset{roles[0]}
  {
    assert roles == [roles[0]] + roles[1..];
  }

  /** A strictly ascending list is determined by its elements. */
  lemma {:induction false} AscendingUnique(less: (Role, Role) -> bool, a: seq<Role>, b: seq<Role>)
    requires StrictOn(less) && Ascending(less, a) && Ascending(less, b) && multiset(a) == multiset(b)
    ensures a == b
  {
    if a == [] {
      assert |multiset(b)| == 0;
    } else {
      HeadIsLeast(less, a, b);
      SplitFirst(a);
      SplitFirst(b);
      AscendingUnique(less, a[1..], b[1..]);
      assert a == [a[0]] + a[1..] && b == [b[0]] + b[1..];
    }
  }

  // ---------------------------------------------------------------- what the order of the listing is

  ghost predicate WeakOn(less: (Role, Role) -> bool) {
    && (forall a, b :: less(a, b) ==> !less(b, a))
    && (forall a, b, c :: less(a, c) ==> less(a, b) || less(b, c))
  }

  /** Nothing stands behind what it comes before. */
  predicate Sorted(less: (Role, Role) -> bool, roles: seq<Role>) {
    forall i, j :: 0 <= i < j < |roles| ==> !less(roles[j], roles[i])
  }

  lemma {:induction false} InsertSorted(less: (Role, Role) -> bool, sorted: seq<Role>, role: Role)
    requires WeakOn(less) && Sorted(less, sorted)
    ensures Sorted(less, Insert(less, sorted, role))
  {
    if sorted != [] {
      var k := |sorted| - 1;
      var last := sorted[k];
      if less(role, last) {
        InsertSorted(less, sorted[..k], role);
        InsertMembers(less, sorted[..k], role);
        var front := Insert(less, sorted[..k], role);
        forall i | 0 <= i < |front| ensures !less(last, front[i]) {
          assert front[i] in front;
          if front[i] != role {
            var j :| 0 <= j < k && sorted[j] == front[i];
          }
        }
      } else {
        forall i | 0 <= i < k ensures !less(role, sorted[i]) {
          assert !less(last, sorted[i]);
        }
      }
    }
  }

  lemma {:induction false} SortSorted(less: (Role, Role) -> bool, roles: seq<Role>)
    requires WeakOn(less)
    ensures Sorted(less, Sort(less, roles))
  {
    if roles != [] {
      SortSorted(less, roles[..|roles| - 1]);
      InsertSorted(less, Sort(less, roles[..|roles| - 1]), roles[|roles| - 1]);
    }
  }

  lemma OrderIsWeak(key: string, desc: bool)
    ensures WeakOn(Order(key, desc))
  {
    var less := Order(key, desc);
    forall a, b, c
      ensures (less(a, b) ==> !less(b, a)) && (less(a, c) ==> less(a, b) || less(b, c))
    {
      RoleLessIsStrict(key, desc, a, b, a);
      RoleLessIsWeak(key, desc, a, b, c);
    }
  }

  lemma RoleLessIsWeak(key: string, desc: bool, a: Role, b: Role, c: Role)
    ensures RoleLess(key, desc, a, c) ==> RoleLess(key, desc, a, b) || RoleLess(key, desc, b, c)
  {
    CompareIsStrict(b.slug, a.slug, c.slug, desc);
    CompareIsStrict(c.slug, b.slug, a.slug, desc);
    CompareIsStrict(b.name, a.name, c.name, desc);
    CompareIsStrict(c.name, b.name, a.name, desc);
    CompareIsStrict(b.name, a.name, c.name, false);
    CompareIsStrict(c.name, b.name, a.name, false);
  }

  /** Not after, in the direction asked for and ignoring case. */
  predicate NotAfter(a: string, b: string, desc: bool) {
    if desc then !Less(Lower(a), Lower(b)) else !Less(Lower(b), Lower(a))
  }

  /** How the listing is ordered, ties or not: by slug; or the system roles first (last when ascending) and each group
      by name; or by name. Without a sort key the system roles come first. */
  lemma ListingOrder(roles: seq<Role>, sortBy: string, sortDir: string, i: nat, j: nat)
    requires i < j < |SortRoles(roles, sortBy, sortDir)|
    ensures var sorted, key, desc := SortRoles(roles, sortBy, sortDir), SortKey(sortBy), Descending(sortBy, sortDir);
            var a, b := sorted[i], sorted[j];
            && (key == "slug" ==> NotAfter(a.slug, b.slug, desc))
            && (key == "is_system" ==> (b.isSystem == desc ==> a.isSystem == desc) &&
                                       (a.isSystem == b.isSystem ==> NotAfter(a.name, b.name, false)))
            && (key != "slug" && key != "is_system" ==> NotAfter(a.name, b.name, desc))
    ensures Lower(TrimSpace(sortBy)) == "" && SortRoles(roles, sortBy, sortDir)[j].isSystem ==>
            SortRoles(roles, sortBy, sortDir)[i].isSystem
  {
    hide Lower, TrimSpace, Less, Sort;
    var key, desc := SortKey(sortBy), Descending(sortBy, sortDir);
    OrderIsWeak(key, desc);
    SortSorted(Order(key, desc), roles);
    var sorted := SortRoles(roles, sortBy, sortDir);
    assert !Order(key, desc)(sorted[j], sorted[i]);
    assert !RoleLess(key, desc, sorted[j], sorted[i]);
    LessIrreflexive(Lower(sorted[i].name));
  }

  // ---------------------------------------------------------------- when the listing is determined

  lemma OrderIsStrict(key: string, desc: bool)
    ensures StrictOn(Order(key, desc))
  {
    var less := Order(key, desc);
    forall a, b, c
      ensures !less(a, a) && (less(a, b) && less(b, c) ==> less(a, c))
    {
      RoleLessIsStrict(key, desc, a, b, c);
    }
  }

  /** No two roles of the list are tied: the sort keys are distinct. */
  ghost predicate Untied(key: string, roles: seq<Role>) {
    forall i, j :: 0 <= i < j < |roles| ==> !Tied(key, roles[i], roles[j])
  }

  lemma UntiedComparable(key: string, desc: bool, roles: seq<Role>)
    requires Untied(key, roles)
    ensures Comparable(Order(key, desc), roles)
  {
    forall i, j | 0 <= i < j < |roles|
      ensures Order(key, desc)(roles[i], roles[j]) || Order(key, desc)(roles[j], roles[i])
    {
      RoleLessIsStrict(key, desc, roles[i], roles[j], roles[i]);
    }
  }

  /** Two lists without repeats and with the same members are permutations of each other. */
  lemma {:induction false} SameMembersSameElements(a: seq<Role>, b: seq<Role>)
    requires forall i, j :: 0 <= i < j < |a| ==> a[i] != a[j]
    requires forall i, j :: 0 <= i < j < |b| ==> b[i] != b[j]
    requires forall r :: r in a <==> r in b
    ensures multiset(a) == multiset(b)
  {
    forall r ensures multiset(a)[r] == multiset(b)[r] {
      Occurrences(a, r);
      Occurrences(b, r);
    }
  }

  lemma {:induction false} Occurrences(a: seq<Role>, r: Role)
    requires forall i, j :: 0 <= i < j < |a| ==> a[i] != a[j]
    ensures multiset(a)[r] == if r in a then 1 else 0
  {
    if a != [] {
      Occurrences(a[..|a| - 1], r);
      SplitLast(a);
      assert a == a[..|a| - 1] + [a[|a| - 1]];
    }
  }

  ghost predicate SameRows(rows: seq<Role>, others: seq<Role>) {
    forall r :: r in rows <==> r in others
  }

  /** With distinct sort keys the listing depends only on which rows there are: not on their order in the table,
      not on the order in which the map gives its values back. */
  lemma ListingDetermined(rows: seq<Role>, listed: seq<Role>, others: seq<Role>, listed': seq<Role>,
                          orgID: string, sortBy: string, sortDir: string)
    requires SameRows(rows, others)
    requires ListsWinners(listed, rows, orgID) && ListsWinners(listed', others, orgID)
    requires Untied(SortKey(sortBy), listed)
    ensures SortRoles(listed, sortBy, sortDir) == SortRoles(listed', sortBy, sortDir)
  {
    var less := Order(SortKey(sortBy), Descending(sortBy, sortDir));
    OrderIsStrict(SortKey(sortBy), Descending(sortBy, sortDir));
    forall r ensures r in listed <==> r in listed' {
      assert Winner(rows, r, orgID) <==> Winner(others, r, orgID);
    }
    SameMembersSameElements(listed, listed');
    assert Untied(SortKey(sortBy), listed') by {
      forall i, j | 0 <= i < j < |listed'| ensures !Tied(SortKey(sortBy), listed'[i], listed'[j]) {
        assert listed'[i] in listed && listed'[j] in listed;
      }
    }
    UntiedComparable(SortKey(sortBy), Descending(sortBy, sortDir), listed);
    UntiedComparable(SortKey(sortBy), Descending(sortBy, sortDir), listed');
    SortAscending(less, listed);
    SortAscending(less, listed');
    SortElements(less, listed);
    SortElements(less, listed');
    AscendingUnique(less, Sort(less, listed), Sort(less, listed'));
  }

  ghost predicate Before(roles: seq<Role>, a: Role, b: Role) {
    exists i, j :: 0 <= i < j < |roles| && roles[i] == a && roles[j] == b
  }

  /** Insertion puts the new role somewhere, in front of elements it comes before only. */
  lemma {:induction false} InsertPosition(less: (Role, Role) -> bool, sorted: seq<Role>, role: Role) returns (p: nat)
    ensures p <= |sorted| && Insert(less, sorted, role) == sorted[..p] + [role] + sorted[p..]
    ensures forall i :: p <= i < |sorted| ==> less(role, sorted[i])
  {
    p := |sorted|;
    if sorted != [] && less(role, sorted[|sorted| - 1]) {
      var k := |sorted| - 1;
      p := InsertPosition(less, sorted[..k], role);
      assert sorted[..k][..p] == sorted[..p] && sorted[..k][p..] + [sorted[k]] == sorted[p..];
    }
  }

  lemma InsertKeepsBefore(less: (Role, Role) -> bool, sorted: seq<Role>, role: Role, a: Role, b: Role)
    requires Before(sorted, a, b)
    ensures Before(Insert(less, sorted, role), a, b)
  {
    var p := InsertPosition(less, sorted, role);
    var inserted := Insert(less, sorted, role);
    var i, j :| 0 <= i < j < |sorted| && sorted[i] == a && sorted[j] == b;
    assert inserted[if i < p then i else i + 1] == a;
    assert inserted[if j < p then j else j + 1] == b;
  }

  lemma InsertBehind(less: (Role, Role) -> bool, sorted: seq<Role>, role: Role, a: Role)
    requires a in sorted && !less(role, a)
    ensures Before(Insert(less, sorted, role), a, role)
  {
    var p := InsertPosition(less, sorted, role);
    var inserted := Insert(less, sorted, role);
    var i :| 0 <= i < |sorted| && sorted[i] == a;
    assert i < p;
    assert inserted[i] == a && inserted[p] == role;
  }

  lemma BeforeSplits(roles: seq<Role>, a: Role, b: Role)
    requires Before(roles, a, b)
    ensures var n := |roles| - 1;
            Before(roles[..n], a, b) || (a in roles[..n] && b == roles[n])
  {
    var init := roles[..|roles| - 1];
    var i, j :| 0 <= i < j < |roles| && roles[i] == a && roles[j] == b;
    assert init[i] == a;
    if j < |init| {
      assert init[j] == b;
    }
  }

  lemma SortContains(less: (Role, Role) -> bool, roles: seq<Role>, a: Role)
    requires a in roles
    ensures a in Sort(less, roles)
  {
    SortElements(less, roles);
    assert a in multiset(Sort(less, roles));
  }

  /** Stability: what does not come after stays in front. */
  lemma {:induction false} SortKeepsBefore(less: (Role, Role) -> bool, roles: seq<Role>, a: Role, b: Role)
    requires Before(roles, a, b) && !less(b, a)
    ensures Before(Sort(less, roles), a, b)
  {
    var init, last := roles[..|roles| - 1], roles[|roles| - 1];
    BeforeSplits(roles, a, b);
    if Before(init, a, b) {
      SortKeepsBefore(less, init, a, b);
      InsertKeepsBefore(less, Sort(less, init), last, a, b);
    } else {
      SortContains(less, init, a);
      InsertBehind(less, Sort(less, init), last, a);
    }
  }

  lemma NotBothBefore(roles: seq<Role>, a: Role, b: Role)
    requires forall r :: multiset(roles)[r] <= 1
    requires Before(roles, a, b)
    ensures !Before(roles, b, a)
  {
    if Before(roles, b, a) {
      var i, j :| 0 <= i < j < |roles| && roles[i] == a && roles[j] == b;
      var j', i' :| 0 <= j' < i' < |roles| && roles[j'] == b && roles[i'] == a;
      if i != i' {
        Twice(roles, i, i');
      } else {
        Twice(roles, j, j');
      }
      assert false;
    }
  }

  lemma Twice(roles: seq<Role>, i: nat, j: nat)
    requires i < |roles| && j < |roles| && i != j && roles[i] == roles[j]
    ensures multiset(roles)[roles[i]] >= 2
  {
    var lo, hi := if i < j then i else j, if i < j then j else i;
    assert roles == roles[..hi] + [roles[hi]] + roles[hi + 1..];
    assert roles[..hi][lo] == roles[hi];
    assert roles[hi] in roles[..hi];
  }

  /** A tie hands the order over to the map: the other way round is just as possible. */
  lemma TieUndetermined(rows: seq<Role>, listed: seq<Role>, orgID: string, sortBy: string, sortDir: string)
    returns (listed': seq<Role>)
    requires ListsWinners(listed, rows, orgID) && !Untied(SortKey(sortBy), listed)
    ensures ListsWinners(listed', rows, orgID)
    ensures SortRoles(listed, sortBy, sortDir) != SortRoles(listed', sortBy, sortDir)
  {
    var key, desc := SortKey(sortBy), Descending(sortBy, sortDir);
    var less := Order(key, desc);
    var i, j :| 0 <= i < j < |listed| && Tied(key, listed[i], listed[j]);
    var a, b := listed[i], listed[j];
    listed' := listed[i := b][j := a];
    SwapListsWinners(rows, listed, i, j, orgID);
    RoleLessIsStrict(key, desc, a, b, a);
    SortKeepsBefore(less, listed, a, b);
    assert listed'[i] == b && listed'[j] == a;
    SortKeepsBefore(less, listed', b, a);
    forall r ensures multiset(Sort(less, listed))[r] <= 1 {
      SortElements(less, listed);
      Occurrences(listed, r);
    }
    NotBothBefore(Sort(less, listed), a, b);
  }

  lemma SwapListsWinners(rows: seq<Role>, listed: seq<Role>, i: nat, j: nat, orgID: string)
    requires ListsWinners(listed, rows, orgID) && i < j < |listed|
    ensures ListsWinners(listed[i := listed[j]][j := listed[i]], rows, orgID)
  {
    var swapped := listed[i := listed[j]][j := listed[i]];
    forall r ensures r in swapped <==> r in listed {
      if r in listed {
        var k :| 0 <= k < |listed| && listed[k] == r;
        assert swapped[if k == i then j else if k == j then i else k] == r;
      }
    }
  }

  /** The listing is determined by the rows exactly when no two winners are tied. */
  lemma ListingDeterminedExactly(rows: seq<Role>, listed: seq<Role>, orgID: string, sortBy: string, sortDir: string)
    requires ListsWinners(listed, rows, orgID)
    ensures Untied(SortKey(sortBy), listed) <==>
            forall other :: ListsWinners(other, rows, orgID) ==>
                              SortRoles(other, sortBy, sortDir) == SortRoles(listed, sortBy, sortDir)
  {
    if Untied(SortKey(sortBy), listed) {
      forall other | ListsWinners(other, rows, orgID)
        ensures SortRoles(other, sortBy, sortDir) == SortRoles(listed, sortBy, sortDir)
      {
        ListingDetermined(rows, listed, rows, other, orgID, sortBy, sortDir);
      }
    } else {
      var other := TieUndetermined(rows, listed, orgID, sortBy, sortDir);
    }
  }

  // ---------------------------------------------------------------- paging

  const TWO_64: int := 0x1_0000_0000_0000_0000
  const MAX_INT: int := 0x7FFF_FFFF_FFFF_FFFF

  /** The value of an integer computation kept in 64 bits. */
  function Wrap(x: int): int {
    var low := x % TWO_64;
    if low > MAX_INT then low - TWO_64 else low
  }

  function NormalizePage(page: int, pageSize: int): (int, int) {
    (if page <= 0 then 1 else page, if pageSize <= 0 then 10 else if pageSize > 100 then 100 else pageSize)
  }

  /** The slice of n from an offset; nothing when its bounds make the request fail. The list is short enough for
      memory, so only the offset can have left the 64 bits. */
  function Slice<T>(sorted: seq<T>, offset: int, n: nat): Option<seq<T>> {
    var total := |sorted|;
    var start := if offset > total then total else offset;
    var end := if start + n > total then total else start + n;
    if start < 0 then None else Some(sorted[start..end])
  }

  function PageOf<T>(sorted: seq<T>, page: int, pageSize: int): Option<seq<T>> {
    var (p, n) := NormalizePage(page, pageSize);
    Slice(sorted, Wrap((p - 1) * n), n)
  }

  method ListRolesPage(rows: seq<Role>, orgID: string, page: int, pageSize: int, sortBy: string, sortDir: string)
      returns (paged: Option<seq<Role>>, total: nat)
    requires DistinctIDs(rows)
    ensures exists listed :: ListsWinners(listed, rows, orgID) && total == |listed| &&
                             paged == PageOf(SortRoles(listed, sortBy, sortDir), page, pageSize)
  {
    var roles := DedupeRolesBySlug(rows, orgID);
    var sorted := SortRoles(roles, sortBy, sortDir);
    total := |roles|;
    paged := PageOf(sorted, page, pageSize);
  }

  /** Up to n elements from an offset on. */
  function From<T>(sorted: seq<T>, offset: nat, n: nat): seq<T> {
    if offset >= |sorted| then [] else if offset + n > |sorted| then sorted[offset..] else sorted[offset..offset + n]
  }

  lemma OffsetIsNat(k: nat, n: nat)
    ensures k * n >= 0
  {
  }

  /** The part of the list page number p should show, n to a page. */
  function Part<T>(sorted: seq<T>, p: int, n: nat): seq<T>
    requires p >= 1
  {
    OffsetIsNat(p - 1, n);
    From(sorted, (p - 1) * n, n)
  }

  lemma SliceIsPart<T>(sorted: seq<T>, offset: nat, n: nat)
    requires n >= 1 && |sorted| <= MAX_INT
    ensures Slice(sorted, Wrap(offset), n) == Some(From(sorted, offset, n)) <==>
            offset <= MAX_INT || Wrap(offset) >= |sorted|
  {
    assert sorted[|sorted|..|sorted|] == [];
    if offset <= MAX_INT {
      assert Wrap(offset) == offset;
      if offset < |sorted| {
        assert sorted[offset..|sorted|] == sorted[offset..];
      }
    } else if 0 <= Wrap(offset) < |sorted| {
      assert Slice(sorted, Wrap(offset), n).value != [];
    }
  }

  /** A page is the right part of the list exactly when its offset fits in 64 bits or wraps to beyond the end. */
  lemma PageIsPart<T>(sorted: seq<T>, page: int, pageSize: int)
    requires |sorted| <= MAX_INT
    ensures var (p, n) := NormalizePage(page, pageSize);
            PageOf(sorted, page, pageSize) == Some(Part(sorted, p, n)) <==>
              (p - 1) * n <= MAX_INT || Wrap((p - 1) * n) >= |sorted|
  {
    var (p, n) := NormalizePage(page, pageSize);
    OffsetIsNat(p - 1, n);
    SliceIsPart(sorted, (p - 1) * n, n);
  }

  /** With 64 to a page, page 2^58 + 1 starts over at the first role. */
  lemma PageStartsOver<T>(sorted: seq<T>)
    requires sorted != []
    ensures PageOf(sorted, 0x400_0000_0000_0001, 64) == PageOf(sorted, 1, 64)
    ensures PageOf(sorted, 0x400_0000_0000_0001, 64) != Some(Part(sorted, 0x400_0000_0000_0001, 64)) ||
            |sorted| > MAX_INT
  {
    assert Wrap(0x400_0000_0000_0000 * 64) == 0;
  }

  function Flatten<T>(pages: seq<seq<T>>): seq<T> {
    if pages == [] then [] else Flatten(pages[..|pages| - 1]) + pages[|pages| - 1]
  }

  lemma PartExtends<T>(sorted: seq<T>, k: nat, n: int)
    requires n >= 1
    ensures k * n >= 0 && (k + 1) * n == k * n + n
    ensures var before := k * n;
            (if before >= |sorted| then sorted else sorted[..before]) + Part(sorted, k + 1, n) ==
            (if before + n >= |sorted| then sorted else sorted[..before + n])
  {
    assert (k + 1) * n == k * n + n;
    var before := k * n;
    assert before >= 0;
  }

  /** Pages 1, 2, ... of one list, put together, are its front. */
  lemma {:induction false} PartsFlatten<T>(sorted: seq<T>, pages: seq<seq<T>>, n: int)
    requires n >= 1
    requires forall i :: 0 <= i < |pages| ==> pages[i] == Part(sorted, i + 1, n)
    ensures Flatten(pages) == if |pages| * n >= |sorted| then sorted else sorted[..|pages| * n]
  {
    if pages == [] {
    } else {
      var k := |pages| - 1;
      PartsFlatten(sorted, pages[..k], n);
      PartExtends(sorted, k, n);
    }
  }

  /** A page fetched by some call: the rows come in any order, the map answers in any order. */
  ghost predicate Fetched(
    paged: seq<Role>, rows: seq<Role>, orgID: string, page: int, pageSize: int, sortBy: string, sortDir: string)
  {
    exists others, listed :: SameRows(rows, others) && ListsWinners(listed, others, orgID) &&
                             PageOf(SortRoles(listed, sortBy, sortDir), page, pageSize) == Some(paged)
  }

  lemma SortedLength(listed: seq<Role>, sortBy: string, sortDir: string)
    ensures |SortRoles(listed, sortBy, sortDir)| == |listed|
  {
    var sorted := SortRoles(listed, sortBy, sortDir);
    SortElements(Order(SortKey(sortBy), Descending(sortBy, sortDir)), listed);
    assert |sorted| == |multiset(sorted)|;
  }

  lemma FetchedOf(paged: seq<Role>, rows: seq<Role>, listed: seq<Role>, orgID: string,
                  page: int, pageSize: int, sortBy: string, sortDir: string)
    requires ListsWinners(listed, rows, orgID) && Untied(SortKey(sortBy), listed)
    requires Fetched(paged, rows, orgID, page, pageSize, sortBy, sortDir)
    ensures PageOf(SortRoles(listed, sortBy, sortDir), page, pageSize) == Some(paged)
  {
    var others, listed' :| SameRows(rows, others) && ListsWinners(listed', others, orgID) &&
                           PageOf(SortRoles(listed', sortBy, sortDir), page, pageSize) == Some(paged);
    ListingDetermined(rows, listed, others, listed', orgID, sortBy, sortDir);
  }

  lemma PageSizes(page: int, pageSize: int)
    ensures var (p, n) := NormalizePage(page, pageSize);
            n >= 1 && n == NormalizePage(1, pageSize).1 && (page >= 1 ==> p == page)
  {
  }

  lemma OnePage<T>(sorted: seq<T>, i: nat, k: nat, pageSize: int, n: int)
    requires i < k && n == NormalizePage(1, pageSize).1 && |sorted| <= k * n <= MAX_INT
    ensures n >= 1 && PageOf(sorted, i + 1, pageSize) == Some(Part(sorted, i + 1, n))
  {
    hide PageOf, Part, NormalizePage;
    PageSizes(i + 1, pageSize);
    OffsetFits(i, k, n);
    assert (i + 1) - 1 == i;
    PageIsPart(sorted, i + 1, pageSize);
  }

  /** Pages 1, 2, ... of one list, fetched by the code. */
  lemma PagesFlatten<T>(pages: seq<seq<T>>, sorted: seq<T>, pageSize: int)
    requires forall i :: 0 <= i < |pages| ==> PageOf(sorted, i + 1, pageSize) == Some(pages[i])
    requires |sorted| <= |pages| * NormalizePage(1, pageSize).1 <= MAX_INT
    ensures Flatten(pages) == sorted
  {
    hide PageOf, Part, NormalizePage;
    var n := NormalizePage(1, pageSize).1;
    assert n >= 1 by { PageSizes(1, pageSize); }
    forall i | 0 <= i < |pages| ensures pages[i] == Part(sorted, i + 1, n) {
      OnePage(sorted, i, |pages|, pageSize, n);
    }
    PartsFlatten(sorted, pages, n);
  }

  /** Pages fetched in separate calls until the list is used up give every winner exactly once, in sorted order. */
  lemma PagesCoverListing(pages: seq<seq<Role>>, rows: seq<Role>, listed: seq<Role>, orgID: string,
                          pageSize: int, sortBy: string, sortDir: string)
    requires ListsWinners(listed, rows, orgID) && Untied(SortKey(sortBy), listed)
    requires forall i :: 0 <= i < |pages| ==> Fetched(pages[i], rows, orgID, i + 1, pageSize, sortBy, sortDir)
    requires |listed| <= |pages| * NormalizePage(1, pageSize).1 <= MAX_INT
    ensures Flatten(pages) == SortRoles(listed, sortBy, sortDir)
    ensures ListsWinners(Flatten(pages), rows, orgID)
  {
    forall i | 0 <= i < |pages|
      ensures PageOf(SortRoles(listed, sortBy, sortDir), i + 1, pageSize) == Some(pages[i])
    {
      FetchedOf(pages[i], rows, listed, orgID, i + 1, pageSize, sortBy, sortDir);
    }
    SortedLength(listed, sortBy, sortDir);
    PagesFlatten(pages, SortRoles(listed, sortBy, sortDir), pageSize);
    SortedListsWinners(rows, listed, Order(SortKey(sortBy), Descending(sortBy, sortDir)), orgID);
  }

  lemma OffsetFits(i: nat, k: nat, n: int)
    requires i < k && n >= 1 && k * n <= MAX_INT
    ensures i * n <= MAX_INT && i + 1 <= MAX_INT
  {
    assert k * n == i * n + (k - i) * n;
    assert (k - i) * n >= 0;
    assert k * n == k + k * (n - 1);
    assert k * (n - 1) >= 0;
  }

  lemma SortedListsWinners(rows: seq<Role>, listed: seq<Role>, less: (Role, Role) -> bool, orgID: string)
    requires ListsWinners(listed, rows, orgID)
    ensures ListsWinners(Sort(less, listed), rows, orgID)
  {
    var sorted := Sort(less, listed);
    SortElements(less, listed);
    forall r ensures r in sorted <==> r in listed {
      assert r in sorted <==> r in multiset(sorted);
      assert r in listed <==> r in multiset(listed);
    }
    forall i, j | 0 <= i < j < |sorted| ensures sorted[i] != sorted[j] {
      Occurrences(listed, sorted[i]);
      if sorted[i] == sorted[j] {
        Twice(sorted, i, j);
        assert false;
      }
    }
  }
}
