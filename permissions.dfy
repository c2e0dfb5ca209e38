/** Which subsites a member may access (`Subsite::accessible_sites`) and
    whether a member has main-site access (`Subsite::hasMainSitePermission`),
    over the relational state of `Schema`. */
module Permissions {
  import opened Php
  import opened Schema

  const CmsAccessLeftAndMain: string := "CMS_ACCESS_LeftAndMain"
  const Admin: string := "ADMIN"

  /** A `$permCode` argument: a single code, or an array of codes. */
  datatype PermArg = Code(code: string) | Codes(codes: seq<string>)

  /** The codes as they are spliced into the SQL `IN (...)` list and into the
      cache key. An empty array implodes to one empty code, so `Codes([])`
      reads exactly like `Code("")`. */
  function CodeList(p: PermArg): (cs: seq<string>)
    ensures |cs| > 0
    ensures p == Codes([]) ==> cs == [""]
    ensures p.Code? ==> cs == [p.code]
    ensures p.Codes? && p.codes != [] ==> cs == p.codes
  {
    match p
    case Code(c) => [c]
    case Codes(cs) => if cs == [] then [""] else cs
  }

  /** A group qualifies with one of the requested codes, or with
      `CMS_ACCESS_LeftAndMain` or `ADMIN`. */
  function QualifyingCodes(cs: seq<string>): (q: set<string>)
    ensures forall c :: c in q <==> c in cs || c == CmsAccessLeftAndMain || c == Admin
  {
    (set c | c in cs) + {CmsAccessLeftAndMain, Admin}
  }

  predicate HoldsCode(codes: seq<string>, q: set<string>) {
    exists c :: c in codes && c in q
  }

  /** The group has a role (an existing `PermissionRole`) carrying a code in `q`. */
  predicate HoldsCodeViaRole(db: Store, g: Group, q: set<string>) {
    exists r :: r in g.roleIDs && r in db.roleCodes && HoldsCode(db.roleCodes[r], q)
  }

  /** The join condition `Group.ID = Group_Subsites.GroupID OR
      Group.AccessAllSubsites = 1` after the left join from Subsite. */
  predicate Reaches(g: Group, s: Subsite) {
    g.accessAllSubsites || s.id in g.subsiteIDs
  }

  /** A row of the direct-permission query exists for subsite `s`. */
  predicate DirectGrant(db: Store, q: set<string>, m: int, s: Subsite) {
    exists g :: g in db.groups && m in g.memberIDs && Reaches(g, s) && HoldsCode(g.codes, q)
  }

  /** A row of the role query exists for subsite `s`. */
  predicate RoleGrant(db: Store, q: set<string>, m: int, s: Subsite) {
    exists g :: g in db.groups && m in g.memberIDs && Reaches(g, s) && HoldsCodeViaRole(db, g, q)
  }

  /** The first DataList of `accessible_sites` (distinct subsites, default order). */
  function DirectSites(db: Store, q: set<string>, m: int): (sites: seq<Subsite>)
    ensures forall s :: s in sites <==> s in db.subsites && DirectGrant(db, q, m, s)
  {
    Filter(db.subsites, (s: Subsite) => DirectGrant(db, q, m, s))
  }

  /** The second DataList of `accessible_sites`, through roles. */
  function RoleSites(db: Store, q: set<string>, m: int): (sites: seq<Subsite>)
    ensures forall s :: s in sites <==> s in db.subsites && RoleGrant(db, q, m, s)
  {
    Filter(db.subsites, (s: Subsite) => RoleGrant(db, q, m, s))
  }

  function IdSet(sites: seq<Subsite>): set<int> {
    set s | s in sites :: s.id
  }

  /** Pushing, one by one, each subsite of `rest` whose ID is not yet in
      the list. */
  function MergeById(acc: seq<Subsite>, rest: seq<Subsite>): (r: seq<Subsite>)
    ensures |acc| <= |r| <= |acc| + |rest|
    decreases |rest|
  {
    if rest == [] then acc
    else if rest[0].id in IdSet(acc) then MergeById(acc, rest[1..])
    else MergeById(acc + [rest[0]], rest[1..])
  }

  /** The combination step of `accessible_sites`: the role list alone when the
      direct list is empty and the role list is not, else the merge. */
  function Combine(direct: seq<Subsite>, roles: seq<Subsite>): (r: seq<Subsite>)
    ensures direct <= r
    ensures IdSet(r) == IdSet(direct) + IdSet(roles)
  {
    if |direct| == 0 && |roles| > 0 then
      assert IdSet(direct) == {};
      roles
    else
      MergeShape(direct, roles);
      MergeIds(direct, roles);
      MergeById(direct, roles)
  }

  /** What `accessible_sites` computes on a cache miss for member `m` and the
      code list `cs` of its cache key. */
  function Accessible(db: Store, cs: seq<string>, m: int): (r: seq<Subsite>)
    ensures DirectSites(db, QualifyingCodes(cs), m) <= r
    ensures IdSet(r) == IdSet(DirectSites(db, QualifyingCodes(cs), m)) + IdSet(RoleSites(db, QualifyingCodes(cs), m))
  {
    var q := QualifyingCodes(cs);
    Combine(DirectSites(db, q, m), RoleSites(db, q, m))
  }

  /** The loop that copies the direct list and pushes each role subsite that
      `find('ID', ...)` does not find; `MergeShape` says what that yields. */
  method AppendMissing(direct: seq<Subsite>, roles: seq<Subsite>) returns (merged: seq<Subsite>)
    ensures merged == MergeById(direct, roles)
  {
    merged := direct;
    var i := 0;
    while i < |roles|
      invariant 0 <= i <= |roles|
      invariant MergeById(direct, roles) == MergeById(merged, roles[i..])
    {
      assert roles[i..][1..] == roles[i + 1..];
      if roles[i].id !in IdSet(merged) {
        merged := merged + [roles[i]];
      }
      i := i + 1;
    }
  }

  /** The merge keeps the direct list as a prefix and appends only role
      subsites whose ID is not already present. */
  lemma {:induction false} MergeShape(acc: seq<Subsite>, rest: seq<Subsite>)
    ensures var r := MergeById(acc, rest);
      && |r| >= |acc| && r[..|acc|] == acc
      && (forall k :: |acc| <= k < |r| ==> r[k] in rest && r[k].id !in IdSet(r[..k]))
    decreases |rest|
  {
    if rest != [] {
      var tail := rest[1..];
      if rest[0].id in IdSet(acc) {
        MergeShape(acc, tail);
      } else {
        var acc' := acc + [rest[0]];
        MergeShape(acc', tail);
        var r := MergeById(acc', tail);
        assert r[..|acc'|] == acc';
        assert r[..|acc|] == acc'[..|acc|] == acc;
        forall k | |acc| <= k < |r| ensures r[k] in rest && r[k].id !in IdSet(r[..k]) {
          if k == |acc| {
            assert r[k] == rest[0];
            assert r[..k] == acc;
          } else {
            assert r[k] in tail;
          }
        }
      }
    }
  }

  /** The merge ends up with every ID of both lists and no other. */
  lemma {:induction false} MergeIds(acc: seq<Subsite>, rest: seq<Subsite>)
    ensures IdSet(MergeById(acc, rest)) == IdSet(acc) + IdSet(rest)
    decreases |rest|
  {
    if rest != [] {
      var tail := rest[1..];
      assert IdSet(rest) == {rest[0].id} + IdSet(tail) by {
        assert rest == [rest[0]] + tail;
      }
      if rest[0].id in IdSet(acc) {
        MergeIds(acc, tail);
      } else {
        var acc' := acc + [rest[0]];
        MergeIds(acc', tail);
        assert IdSet(acc') == IdSet(acc) + {rest[0].id};
      }
    }
  }

  // ---------------------------------------------------------------------
  // Properties of the combination

  lemma {:induction false} FilterSame<T(!new)>(s: seq<T>, p: T -> bool, p': T -> bool)
    requires forall x :: x in s ==> p(x) == p'(x)
    ensures Filter(s, p) == Filter(s, p')
  {
    if s != [] {
      FilterSame(s[1..], p, p');
    }
  }

  lemma {:induction false} FilterAll<T(!new)>(s: seq<T>, p: T -> bool)
    requires forall x :: x in s ==> p(x)
    ensures Filter(s, p) == s
  {
    if s != [] {
      FilterAll(s[1..], p);
    }
  }

  /** With a role list that repeats no ID, the merge is the direct list
      followed by the role subsites whose IDs it lacks, in role order. */
  lemma {:induction false} MergeClosedForm(acc: seq<Subsite>, rest: seq<Subsite>)
    requires DistinctIds(rest)
    ensures MergeById(acc, rest) == acc + Filter(rest, (s: Subsite) => s.id !in IdSet(acc))
    decreases |rest|
  {
    if rest != [] {
      var tail := rest[1..];
      assert DistinctIds(tail);
      var p := (s: Subsite) => s.id !in IdSet(acc);
      if rest[0].id in IdSet(acc) {
        assert MergeById(acc, rest) == MergeById(acc, tail);
        assert Filter(rest, p) == Filter(tail, p);
        MergeClosedForm(acc, tail);
      } else {
        var acc' := acc + [rest[0]];
        assert MergeById(acc, rest) == MergeById(acc', tail);
        assert Filter(rest, p) == [rest[0]] + Filter(tail, p);
        MergeClosedForm(acc', tail);
        assert IdSet(acc') == IdSet(acc) + {rest[0].id};
        forall x | x in tail ensures x.id != rest[0].id {
          var k :| 0 <= k < |tail| && tail[k] == x;
          assert rest[k + 1] == x;
        }
        FilterSame(tail, (s: Subsite) => s.id !in IdSet(acc'), p);
        assert acc' + Filter(tail, p) == acc + ([rest[0]] + Filter(tail, p));
      }
    }
  }

  /** The short-circuit of `accessible_sites` is unobservable once the role
      list repeats no ID: both branches yield the direct list followed by the
      new role subsites. */
  lemma CombineClosedForm(direct: seq<Subsite>, roles: seq<Subsite>)
    requires DistinctIds(roles)
    ensures Combine(direct, roles) == direct + Filter(roles, (s: Subsite) => s.id !in IdSet(direct))
  {
    MergeClosedForm(direct, roles);
    if |direct| == 0 {
      FilterAll(roles, (s: Subsite) => s.id !in IdSet(direct));
    }
  }

  /** The direct list followed by subsites with IDs it lacks repeats no ID. */
  lemma AppendNewDistinct(direct: seq<Subsite>, roles: seq<Subsite>)
    requires DistinctIds(direct) && DistinctIds(roles)
    ensures DistinctIds(direct + Filter(roles, (s: Subsite) => s.id !in IdSet(direct)))
  {
    var extra := Filter(roles, (s: Subsite) => s.id !in IdSet(direct));
    FilterDistinct(roles, (s: Subsite) => s.id !in IdSet(direct));
    var r := direct + extra;
    forall i, j | 0 <= i < j < |r| ensures r[i].id != r[j].id {
      if j >= |direct| {
        assert r[j] == extra[j - |direct|];
        assert r[j] in extra;
        if i < |direct| {
          assert r[i] == direct[i];
          assert r[i].id in IdSet(direct);
        } else {
          assert r[i] == extra[i - |direct|];
        }
      } else {
        assert r[i] == direct[i] && r[j] == direct[j];
      }
    }
  }

  /** `accessible_sites` on a cache miss: its result is the direct list
      followed by the role-only subsites, repeats no ID, and holds exactly
      the subsites some group of the member grants, directly or via a role. */
  lemma AccessibleShape(db: Store, cs: seq<string>, m: int)
    requires db.Valid()
    ensures var q := QualifyingCodes(cs);
      var direct := DirectSites(db, q, m);
      var r := Accessible(db, cs, m);
      && r == direct + Filter(RoleSites(db, q, m), (s: Subsite) => s.id !in IdSet(direct))
      && DistinctIds(r)
      && forall s :: s in r <==> s in db.subsites && (DirectGrant(db, q, m, s) || RoleGrant(db, q, m, s))
  {
    var q := QualifyingCodes(cs);
    var direct := DirectSites(db, q, m);
    var roles := RoleSites(db, q, m);
    FilterDistinct(db.subsites, (s: Subsite) => DirectGrant(db, q, m, s));
    FilterDistinct(db.subsites, (s: Subsite) => RoleGrant(db, q, m, s));
    CombineClosedForm(direct, roles);
    AppendNewDistinct(direct, roles);
    var r := Accessible(db, cs, m);
    forall s | s in roles ensures s in r {
      if s.id in IdSet(direct) {
        var t :| t in direct && t.id == s.id;
        SameIdSameRow(db.subsites, s, t);
      }
    }
  }

  /** A member of an AccessAllSubsites group that holds a qualifying code,
      directly or via a role, can access every subsite. */
  lemma AccessAllGroupReachesEverySubsite(db: Store, cs: seq<string>, m: int, g: Group)
    requires db.Valid()
    requires g in db.groups && m in g.memberIDs && g.accessAllSubsites
    requires HoldsCode(g.codes, QualifyingCodes(cs)) || HoldsCodeViaRole(db, g, QualifyingCodes(cs))
    ensures forall s :: s in db.subsites ==> s in Accessible(db, cs, m)
  {
    AccessibleShape(db, cs, m);
    forall s | s in db.subsites ensures s in Accessible(db, cs, m) {
      assert Reaches(g, s);
    }
  }

  // ---------------------------------------------------------------------
  // hasMainSitePermission

  /** The number of codes in `q` among `codes` (rows of a COUNT). */
  function CountIn(codes: seq<string>, q: set<string>): (n: nat)
    ensures n <= |codes|
  {
    if codes == [] then 0 else (if codes[0] in q then 1 else 0) + CountIn(codes[1..], q)
  }

  /** Rows counted by the first query: `Permission` rows with a code in `q`
      of the member's AccessAllSubsites groups. */
  function PermissionRows(groups: seq<Group>, m: int, q: set<string>): (n: nat)
    ensures (forall g :: g in groups ==> !g.accessAllSubsites || m !in g.memberIDs) ==> n == 0
  {
    if groups == [] then 0
    else
      var g := groups[0];
      (if g.accessAllSubsites && m in g.memberIDs then CountIn(g.codes, q) else 0)
        + PermissionRows(groups[1..], m, q)
  }

  /** `PermissionRoleCode` rows with a code in `q` over the roles `roleIDs`. */
  function RoleCodeRows(db: Store, roleIDs: seq<int>, q: set<string>): (n: nat)
    ensures (forall r :: r in roleIDs ==> r !in db.roleCodes) ==> n == 0
  {
    if roleIDs == [] then 0
    else
      assert (forall r :: r in roleIDs ==> r !in db.roleCodes) ==>
               roleIDs[0] !in db.roleCodes && forall r :: r in roleIDs[1..] ==> r !in db.roleCodes by {
        assert roleIDs[0] in roleIDs;
        assert forall r :: r in roleIDs[1..] ==> r in roleIDs;
      }
      (if roleIDs[0] in db.roleCodes then CountIn(db.roleCodes[roleIDs[0]], q) else 0)
        + RoleCodeRows(db, roleIDs[1..], q)
  }

  /** Rows counted by the second query: role codes in `q` of the member's
      AccessAllSubsites groups. */
  function RoleRows(db: Store, groups: seq<Group>, m: int, q: set<string>): (n: nat)
    ensures (forall g :: g in groups ==> !g.accessAllSubsites || m !in g.memberIDs) ==> n == 0
  {
    if groups == [] then 0
    else
      var g := groups[0];
      (if g.accessAllSubsites && m in g.memberIDs then RoleCodeRows(db, g.roleIDs, q) else 0)
        + RoleRows(db, groups[1..], m, q)
  }

  /** Some AccessAllSubsites group of the member holds a code in `q`,
      directly or via a role. */
  predicate MainSiteGrant(db: Store, m: int, q: set<string>) {
    exists g :: g in db.groups && g.accessAllSubsites && m in g.memberIDs
      && (HoldsCode(g.codes, q) || HoldsCodeViaRole(db, g, q))
  }

  lemma {:induction false} CountInPositive(codes: seq<string>, q: set<string>)
    ensures CountIn(codes, q) > 0 <==> HoldsCode(codes, q)
  {
    if codes != [] {
      CountInPositive(codes[1..], q);
      if HoldsCode(codes, q) && codes[0] !in q {
        var c :| c in codes && c in q;
        assert c in codes[1..];
      }
    }
  }

  lemma {:induction false} RoleCodeRowsPositive(db: Store, roleIDs: seq<int>, q: set<string>)
    ensures RoleCodeRows(db, roleIDs, q) > 0
        <==> exists r :: r in roleIDs && r in db.roleCodes && HoldsCode(db.roleCodes[r], q)
  {
    if roleIDs != [] {
      RoleCodeRowsPositive(db, roleIDs[1..], q);
      if roleIDs[0] in db.roleCodes {
        CountInPositive(db.roleCodes[roleIDs[0]], q);
      }
      if exists r :: r in roleIDs && r in db.roleCodes && HoldsCode(db.roleCodes[r], q) {
        var r :| r in roleIDs && r in db.roleCodes && HoldsCode(db.roleCodes[r], q);
        if r != roleIDs[0] {
          assert r in roleIDs[1..];
        }
      }
    }
  }

  /** The two COUNT queries add up to a positive number exactly when some
      listed AccessAllSubsites group of the member grants a code in `q`. */
  lemma {:induction false} RowsPositive(db: Store, groups: seq<Group>, m: int, q: set<string>)
    ensures PermissionRows(groups, m, q) + RoleRows(db, groups, m, q) > 0
        <==> exists g :: g in groups && g.accessAllSubsites && m in g.memberIDs
               && (HoldsCode(g.codes, q) || HoldsCodeViaRole(db, g, q))
  {
    if groups != [] {
      var g := groups[0];
      RowsPositive(db, groups[1..], m, q);
      CountInPositive(g.codes, q);
      RoleCodeRowsPositive(db, g.roleIDs, q);
      if exists h :: h in groups && h.accessAllSubsites && m in h.memberIDs
           && (HoldsCode(h.codes, q) || HoldsCodeViaRole(db, h, q)) {
        var h :| h in groups && h.accessAllSubsites && m in h.memberIDs
           && (HoldsCode(h.codes, q) || HoldsCodeViaRole(db, h, q));
        if h != g {
          assert h in groups[1..];
        }
      }
    }
  }

  /** `$member` for `hasMainSitePermission`: an explicit `false` means no
      member; `null` falls back to the logged-in member. */
  function MainSiteMember(member: MemberArg, currentUser: Option<int>): (m: Option<int>)
    ensures member.FalseMember? ==> m.None?
    ensures !member.FalseMember? ==> m == ResolveMember(member, currentUser)
  {
    match member
    case NullMember => currentUser
    case FalseMember => None
    case Member(id) => Some(id)
  }

  /** `Subsite::hasMainSitePermission($member, $permissionCodes)`: a fatal
      error for a non-array code argument; false without a member; otherwise
      whether some AccessAllSubsites group of the member holds one of the
      codes or `ADMIN`, directly or via a role. A call without codes is a
      call with `Codes(["ADMIN"])`, the declared default. */
  function HasMainSitePermission(db: Store, member: MemberArg, codes: PermArg, currentUser: Option<int>): (r: Result<bool>)
    ensures r.Failure? <==> codes.Code?
    ensures codes.Codes? && MainSiteMember(member, currentUser).None? ==> r == Success(false)
    ensures codes.Codes? && MainSiteMember(member, currentUser).Some? ==>
      r == Success(MainSiteGrant(db, MainSiteMember(member, currentUser).value, (set c | c in codes.codes) + {Admin}))
  {
    match codes
    case Code(_) =>
      Failure(UserError("Permissions must be passed to Subsite::hasMainSitePermission as an array"))
    case Codes(cs) =>
      match MainSiteMember(member, currentUser)
      case None => Success(false)
      case Some(m) =>
        var q := (set c | c in cs) + {Admin};
        RowsPositive(db, db.groups, m, q);
        Success(PermissionRows(db.groups, m, q) + RoleRows(db, db.groups, m, q) > 0)
  }

  /** A member with main-site permission for some codes can access every
      subsite through `accessible_sites` with the same codes. */
  lemma MainSitePermissionReachesEverySubsite(db: Store, cs: seq<string>, m: int, currentUser: Option<int>)
    requires db.Valid()
    requires HasMainSitePermission(db, Member(m), Codes(cs), currentUser) == Success(true)
    ensures forall s :: s in db.subsites ==> s in Accessible(db, CodeList(Codes(cs)), m)
  {
    var q := (set c | c in cs) + {Admin};
    var big := QualifyingCodes(CodeList(Codes(cs)));
    assert q <= big;
    var g :| g in db.groups && g.accessAllSubsites && m in g.memberIDs
      && (HoldsCode(g.codes, q) || HoldsCodeViaRole(db, g, q));
    if HoldsCode(g.codes, q) {
      var c :| c in g.codes && c in q;
      assert HoldsCode(g.codes, big);
    } else {
      var r :| r in g.roleIDs && r in db.roleCodes && HoldsCode(db.roleCodes[r], q);
      var c :| c in db.roleCodes[r] && c in q;
      assert HoldsCode(db.roleCodes[r], big);
      assert HoldsCodeViaRole(db, g, big);
    }
    AccessAllGroupReachesEverySubsite(db, CodeList(Codes(cs)), m, g);
  }
}
