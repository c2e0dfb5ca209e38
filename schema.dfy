/** The relational state the subsite core queries, as a value: the Subsite
    table (in its default order, Title ascending), the groups with their
    AccessAllSubsites flag, subsite links, members, direct permission codes
    and roles, and the codes of each permission role. */
module Schema {
  import opened Php

  /** A row of the Subsite table. */
  datatype Subsite = Subsite(id: int, title: Option<string>, language: string, domain: string)

  /** A security group: `Group_Subsites` links, `Group_Members` rows,
      `Permission` codes and `Group_Roles` links, all attached to the group. */
  datatype Group = Group(
    id: int,
    accessAllSubsites: bool,
    subsiteIDs: set<int>,
    memberIDs: set<int>,
    codes: seq<string>,
    roleIDs: seq<int>)

  /** The database: subsites in default sort order, groups, and the codes of
      every `PermissionRole` by role ID. */
  datatype Store = Store(subsites: seq<Subsite>, groups: seq<Group>, roleCodes: map<int, seq<string>>)
  {
    /** Subsite IDs are positive and unique (primary keys of written rows). */
    predicate Valid() {
      DistinctIds(subsites) && forall i :: 0 <= i < |subsites| ==> subsites[i].id > 0
    }
  }

  /** A `$member` argument: `null`, `false`, or a member record with its ID. */
  datatype MemberArg = NullMember | FalseMember | Member(id: int)

  /** `$member ?: Security::getCurrentUser()`: both `null` and `false` fall
      back to the logged-in member. */
  function ResolveMember(member: MemberArg, currentUser: Option<int>): (m: Option<int>)
    ensures member.Member? ==> m == Some(member.id)
    ensures !member.Member? ==> m == currentUser
  {
    match member
    case Member(id) => Some(id)
    case _ => currentUser
  }

  /** The `ID` column of a list of subsites, in order. */
  function Ids(sites: seq<Subsite>): (ids: seq<int>)
    ensures |ids| == |sites| && forall i :: 0 <= i < |sites| ==> ids[i] == sites[i].id
  {
    seq(|sites|, i requires 0 <= i < |sites| => sites[i].id)
  }

  predicate DistinctIds(sites: seq<Subsite>) {
    forall i, j :: 0 <= i < j < |sites| ==> sites[i].id != sites[j].id
  }

  /** Two subsites of one list without repeated IDs that share an ID are the
      same row. */
  lemma SameIdSameRow(sites: seq<Subsite>, x: Subsite, y: Subsite)
    requires DistinctIds(sites) && x in sites && y in sites && x.id == y.id
    ensures x == y
  {
    var i :| 0 <= i < |sites| && sites[i] == x;
    var j :| 0 <= j < |sites| && sites[j] == y;
    assert i == j;
  }

  /** The elements of `s` satisfying `p`, in their order in `s` (a WHERE
      clause over an ordered result). */
  function Filter<T(!new)>(s: seq<T>, p: T -> bool): (r: seq<T>)
    ensures |r| <= |s|
    ensures forall x :: x in r <==> x in s && p(x)
  {
    if s == [] then []
    else if p(s[0]) then [s[0]] + Filter(s[1..], p)
    else Filter(s[1..], p)
  }

  /** Filtering a list without repeated IDs cannot repeat one. */
  lemma {:induction false} FilterDistinct(s: seq<Subsite>, p: Subsite -> bool)
    requires DistinctIds(s)
    ensures DistinctIds(Filter(s, p))
  {
    if s != [] {
      var rest := Filter(s[1..], p);
      FilterDistinct(s[1..], p);
      if p(s[0]) {
        var r := [s[0]] + rest;
        forall i, j | 0 <= i < j < |r| ensures r[i].id != r[j].id {
          if i == 0 {
            assert r[j] in s[1..];
            var k :| 0 <= k < |s[1..]| && s[1..][k] == r[j];
            assert s[k + 1] == r[j];
          } else {
            assert r[i] == rest[i - 1] && r[j] == rest[j - 1];
          }
        }
      }
    }
  }

  /** `$group->Subsites()`: the existing subsites linked to the group. */
  function GroupSubsites(db: Store, g: Group): (sites: seq<Subsite>)
    ensures forall s :: s in sites <==> s in db.subsites && s.id in g.subsiteIDs
  {
    Filter(db.subsites, (s: Subsite) => s.id in g.subsiteIDs)
  }

  /** `$member->Groups()`: the groups the member belongs to. */
  function MemberGroups(db: Store, m: int): (groups: seq<Group>)
    ensures forall g :: g in groups <==> g in db.groups && m in g.memberIDs
  {
    Filter(db.groups, (g: Group) => m in g.memberIDs)
  }
}
