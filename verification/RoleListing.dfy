/** The role listing told by its parameters: which role stands for a slug, in what order, and which part is a page. */
module RoleListing {
  import opened Text
  import opened Wrappers
  import opened Roles

  // ---------------------------------------------------------------- order of texts

  /** The texts agree up to some place, where the first ends or has the smaller character. */
  predicate ComesBefore(a: string, b: string) {
    exists k :: 0 <= k <= |a| && k < |b| && a[..k] == b[..k] && (k == |a| || a[k] < b[k])
  }

  lemma {:induction false} LessIsBefore(a: string, b: string)
    ensures Less(a, b) <==> ComesBefore(a, b)
  {
    if b == [] {
    } else if a == [] {
      assert a[..0] == b[..0];
    } else {
      LessIsBefore(a[1..], b[1..]);
      if a[0] < b[0] {
        assert a[..0] == b[..0];
      }
      if a[0] == b[0] && ComesBefore(a[1..], b[1..]) {
        var k :| 0 <= k <= |a[1..]| && k < |b[1..]| && a[1..][..k] == b[1..][..k] &&
          (k == |a[1..]| || a[1..][k] < b[1..][k]);
        assert a[..k + 1] == [a[0]] + a[1..][..k] && b[..k + 1] == [b[0]] + b[1..][..k];
      }
      if k :| 0 <= k <= |a| && k < |b| && a[..k] == b[..k] && (k == |a| || a[k] < b[k]) {
        if k > 0 {
          assert a[0] == a[..k][0] && b[0] == b[..k][0];
          assert a[1..][..k - 1] == a[..k][1..] && b[1..][..k - 1] == b[..k][1..];
        }
      }
    }
  }

  // ---------------------------------------------------------------- the winner of a slug

  predicate Own(r: Role, orgID: string) { r.orgID.Some? && r.orgID.value == orgID }

  /** The role is listed for its slug exactly when every other one is less close to the organisation, or as close and
      less of a system role, or alike in both and younger, or alike in all three and of a greater id. */
  lemma WinnerExactly(roles: seq<Role>, w: Role, orgID: string)
    ensures Winner(roles, w, orgID) <==>
            w in roles &&
            forall r :: r in roles && r.slug == w.slug && r != w ==>
              || (Own(w, orgID) && !Own(r, orgID))
              || (Own(w, orgID) == Own(r, orgID) && w.isSystem && !r.isSystem)
              || (Own(w, orgID) == Own(r, orgID) && w.isSystem == r.isSystem && w.createdAt < r.createdAt)
              || (Own(w, orgID) == Own(r, orgID) && w.isSystem == r.isSystem && w.createdAt == r.createdAt &&
                  ComesBefore(w.id, r.id))
  {
    hide Less, ComesBefore;
    forall r ensures PreferRoleCandidate(w, r, orgID) <==>
                     || (Own(w, orgID) && !Own(r, orgID))
                     || (Own(w, orgID) == Own(r, orgID) && w.isSystem && !r.isSystem)
                     || (Own(w, orgID) == Own(r, orgID) && w.isSystem == r.isSystem && w.createdAt < r.createdAt)
                     || (Own(w, orgID) == Own(r, orgID) && w.isSystem == r.isSystem && w.createdAt == r.createdAt &&
                         ComesBefore(w.id, r.id)) {
      LessIsBefore(w.id, r.id);
    }
  }

  // ---------------------------------------------------------------- the order of the list

  /** Ignoring case. */
  predicate NotBehind(a: string, b: string) { !ComesBefore(Lower(b), Lower(a)) }

  /** Two places of the sorted list, for what the request says: nothing, "slug", "is_system", or anything else, which
      means the name. Only an explicit "desc" turns the order round, and that of names within a group never. */
  lemma OrderExactly(roles: seq<Role>, sortBy: string, sortDir: string, i: nat, j: nat)
    requires i < j < |SortRoles(roles, sortBy, sortDir)|
    ensures var a, b := SortRoles(roles, sortBy, sortDir)[i], SortRoles(roles, sortBy, sortDir)[j];
            var field, down := TrimSpace(sortBy), EqualFold(TrimSpace(sortDir), "desc");
            && (field == "" ==> (b.isSystem ==> a.isSystem) && (a.isSystem == b.isSystem ==> NotBehind(a.name, b.name)))
            && (EqualFold(field, "slug") ==> if down then NotBehind(b.slug, a.slug) else NotBehind(a.slug, b.slug))
            && (EqualFold(field, "is_system") ==>
                (if down then b.isSystem ==> a.isSystem else a.isSystem ==> b.isSystem) &&
                (a.isSystem == b.isSystem ==> NotBehind(a.name, b.name)))
            && (field != "" && !EqualFold(field, "slug") && !EqualFold(field, "is_system") ==>
                if down then NotBehind(b.name, a.name) else NotBehind(a.name, b.name))
  {
    hide Lower, TrimSpace, Less, ComesBefore, SortRoles;
    var a, b := SortRoles(roles, sortBy, sortDir)[i], SortRoles(roles, sortBy, sortDir)[j];
    ListingOrder(roles, sortBy, sortDir, i, j);
    LessIsBefore(Lower(a.name), Lower(b.name));
    LessIsBefore(Lower(b.name), Lower(a.name));
    LessIsBefore(Lower(a.slug), Lower(b.slug));
    LessIsBefore(Lower(b.slug), Lower(a.slug));
    KeyWords();
    assert |Lower(TrimSpace(sortBy))| == |TrimSpace(sortBy)|;
  }

  lemma KeyWords()
    ensures Lower("slug") == "slug" && Lower("is_system") == "is_system"
  {
    LowerStays("slug");
    LowerStays("is_system");
  }

  lemma {:induction false} LowerStays(s: string)
    requires forall i :: 0 <= i < |s| ==> !('A' <= s[i] <= 'Z')
    ensures Lower(s) == s
  {
    if s != [] {
      LowerStays(s[1..]);
    }
  }

  /** Nothing is lost or added by sorting. */
  lemma SortedIsPermuted(roles: seq<Role>, sortBy: string, sortDir: string)
    ensures multiset(SortRoles(roles, sortBy, sortDir)) == multiset(roles)
  {
    SortElements(Order(SortKey(sortBy), Descending(sortBy, sortDir)), roles);
  }

  // ---------------------------------------------------------------- pages

  /** Ten to a page when no number is given, a hundred at most. */
  function PerPage(pageSize: int): nat {
    if pageSize < 1 then 10 else if pageSize >= 100 then 100 else pageSize
  }

  /** Pages count from one. */
  function PageNumber(page: int): nat
    ensures PageNumber(page) >= 1
  {
    if page < 1 then 1 else page
  }

  function AtMost(a: nat, b: nat): (c: nat)
    ensures c <= a && c <= b && (c == a || c == b)
  {
    if a < b then a else b
  }

  lemma OffsetOfPage(page: int, pageSize: int)
    ensures var p, n := PageNumber(page), PerPage(pageSize);
            NormalizePage(page, pageSize) == (p, n) && 0 <= (p - 1) * n <= p * n && p * n == (p - 1) * n + n
  {
  }

  /** As long as its offset fits into 64 bits, page p shows the elements from (p - 1) n up to p n, as far as there are
      any. */
  lemma PageShows<T>(sorted: seq<T>, page: int, pageSize: int)
    requires (PageNumber(page) - 1) * PerPage(pageSize) < 0x8000_0000_0000_0000
    ensures var p, n := PageNumber(page), PerPage(pageSize);
            0 <= (p - 1) * n <= p * n &&
            PageOf(sorted, page, pageSize) == Some(sorted[AtMost((p - 1) * n, |sorted|)..AtMost(p * n, |sorted|)])
  {
    hide Wrap, Slice, PerPage, PageNumber, AtMost;
    OffsetOfPage(page, pageSize);
    var n, offset := PerPage(pageSize), (PageNumber(page) - 1) * PerPage(pageSize);
    WrapLeaves(offset, 0, offset);
    SliceShows(sorted, offset, n);
  }

  lemma SliceShows<T>(sorted: seq<T>, offset: nat, n: nat)
    ensures Slice(sorted, offset, n) == Some(sorted[AtMost(offset, |sorted|)..AtMost(offset + n, |sorted|)])
  {
    if offset > |sorted| {
      assert sorted[|sorted|..|sorted|] == sorted[AtMost(offset, |sorted|)..AtMost(offset + n, |sorted|)];
    }
  }

  /** Beyond that the offset loses a multiple of 2^64, and the request fails when what is left is negative. */
  lemma PageWraps<T>(sorted: seq<T>, page: int, pageSize: int, rounds: nat, left: int)
    requires (PageNumber(page) - 1) * PerPage(pageSize) == rounds * 0x1_0000_0000_0000_0000 + left
    requires -0x8000_0000_0000_0000 <= left < 0x8000_0000_0000_0000
    ensures PageOf(sorted, page, pageSize) ==
            if left < 0 then None
            else Some(sorted[AtMost(left, |sorted|)..AtMost(left + PerPage(pageSize), |sorted|)])
  {
    OffsetOfPage(page, pageSize);
    var offset := (PageNumber(page) - 1) * PerPage(pageSize);
    assert Wrap(offset) == left by { WrapLeaves(offset, rounds, left); }
    if left >= 0 {
      SliceShows(sorted, left, PerPage(pageSize));
    }
  }

  lemma WrapLeaves(offset: nat, rounds: nat, left: int)
    requires offset == rounds * 0x1_0000_0000_0000_0000 + left
    requires -0x8000_0000_0000_0000 <= left < 0x8000_0000_0000_0000
    ensures Wrap(offset) == left
  {
    if left >= 0 {
      ModuloIs(offset, rounds, left);
    } else {
      ModuloIs(offset, rounds - 1, left + 0x1_0000_0000_0000_0000);
    }
  }

  lemma ModuloIs(x: int, q: int, r: int)
    requires x == q * 0x1_0000_0000_0000_0000 + r && 0 <= r < 0x1_0000_0000_0000_0000
    ensures x % 0x1_0000_0000_0000_0000 == r
  {
  }
}
