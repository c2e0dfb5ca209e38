/** The static side of the `Subsite` data object: its flags, the
    `force_subsite` slot, its three memory caches, and the entry points that
    read and fill them; plus the per-record checks `validate` and `canView`. */
module Subsites {
  import opened Php
  import opened Schema
  import opened Permissions

  /** What `getSubsiteIDForDomain` returns: a subsite ID, or `false`. */
  datatype DomainResult = SiteID(id: int) | NoSite

  /** `(int)` of a domain lookup result: `false` becomes 0. */
  function DomainResultToInt(d: DomainResult): int {
    match d
    case SiteID(id) => id
    case NoSite => 0
  }

  /** The `$subsite` argument of `changeSubsite`: an ID or a subsite record. */
  datatype SubsiteArg = ById(id: int) | ByObject(site: Subsite)

  /** The ID `changeSubsite` stores for its argument. */
  function ArgID(arg: SubsiteArg): int {
    match arg
    case ById(id) => id
    case ByObject(site) => site.id
  }

  /** The request globals the core reads: `$_GET['SubsiteID']` and
      `$_SERVER['HTTP_HOST']` (`None` when not set). */
  datatype Request = Request(subsiteIDParam: Option<string>, httpHost: Option<string>)

  /** The key of both access caches: the quoted code list and the member ID
      (`"'A', 'B'-7"`; escaping makes the string form one-to-one with this). */
  datatype CacheKey = CacheKey(codes: seq<string>, memberID: int)

  function KeyFor(perm: PermArg, m: int): CacheKey {
    CacheKey(CodeList(perm), m)
  }

  /** `DataObject::get_one(Subsite::class, ['Domain' => $host])`: the first
      subsite in default order whose Domain equals the host exactly. */
  function FindByDomain(sites: seq<Subsite>, host: string): (r: DomainResult)
    ensures r.NoSite? <==> forall s :: s in sites ==> s.domain != host
    ensures r.SiteID? ==> exists i :: 0 <= i < |sites| && sites[i].domain == host && sites[i].id == r.id
                                    && forall j :: 0 <= j < i ==> sites[j].domain != host
  {
    if sites == [] then NoSite
    else if sites[0].domain == host then SiteID(sites[0].id)
    else
      var r := FindByDomain(sites[1..], host);
      assert forall s :: s in sites[1..] ==> s in sites;
      if r.SiteID? then
        var i :| 0 <= i < |sites[1..]| && sites[1..][i].domain == host && sites[1..][i].id == r.id
                 && forall j :: 0 <= j < i ==> sites[1..][j].domain != host;
        assert sites[i + 1].domain == host && sites[i + 1].id == r.id;
        assert forall j :: 0 <= j < i + 1 ==> sites[j].domain != host;
        r
      else
        r
  }

  /** The host `getSubsiteIDForDomain($host)` looks up: a `$host` loosely
      equal to null (unset or "") is replaced by `HTTP_HOST` when that is set. */
  function EffectiveHost(host: Option<string>, req: Request): (h: Option<string>)
    ensures TruthyOpt(host) ==> h == host
    ensures h != host ==> (host == None || host == Some("")) && h == req.httpHost
    ensures req.httpHost.None? ==> h == host
    ensures (host == None || host == Some("")) && req.httpHost.Some? ==> h == req.httpHost
  {
    if (host.None? || host == Some("")) && req.httpHost.Some? then req.httpHost else host
  }

  /** The locale `changeSubsite` switches to: only for a subsite record with a
      non-empty Language whose `i18n::get_locale_from_lang` is truthy. */
  function LocaleFor(arg: SubsiteArg, locales: map<string, string>): (l: Option<string>)
    ensures arg.ById? ==> l.None?
    ensures l.Some? ==> arg.site.language != "" && arg.site.language in locales
                        && l.value == locales[arg.site.language] && Truthy(l.value)
    ensures (arg.ByObject? && arg.site.language != "" && arg.site.language in locales
             && Truthy(locales[arg.site.language])) ==> l == Some(locales[arg.site.language])
  {
    match arg
    case ById(_) => None
    case ByObject(site) =>
      if site.language != "" && site.language in locales && Truthy(locales[site.language])
      then Some(locales[site.language]) else None
  }

  /** The collaborator state `changeSubsite` writes: the session's `SubsiteID`,
      the active i18n locale, and how often `Permission::reset()` has run. */
  class Environment {
    var sessionSubsiteID: Option<int>
    var locale: string
    var permissionResets: nat

    constructor(session: Option<int>, initialLocale: string)
      ensures sessionSubsiteID == session && locale == initialLocale && permissionResets == 0
    {
      sessionSubsiteID := session;
      locale := initialLocale;
      permissionResets := 0;
    }
  }

  /** The static fields of `Subsite`. */
  class SubsiteStatics {
    var useSessionSubsiteID: bool
    var disableSubsiteFilter: bool
    var forceSubsite: Option<string>
    var sitesCache: map<CacheKey, seq<Subsite>>
    var idsCache: map<CacheKey, seq<int>>
    var domainCache: map<string, DomainResult>

    /** Cached site lists repeat no ID, and every cached ID list is the ID
        column of the site list cached under the same key. */
    ghost predicate Valid()
      reads this
    {
      && (forall k :: k in sitesCache ==> DistinctIds(sitesCache[k]))
      && (forall k :: k in idsCache ==> k in sitesCache && idsCache[k] == Ids(sitesCache[k]))
    }

    /** The declared initial values. */
    constructor()
      ensures Valid()
      ensures !useSessionSubsiteID && !disableSubsiteFilter && forceSubsite == None
      ensures sitesCache == map[] && idsCache == map[] && domainCache == map[]
    {
      useSessionSubsiteID := false;
      disableSubsiteFilter := false;
      forceSubsite := None;
      sitesCache := map[];
      idsCache := map[];
      domainCache := map[];
    }

    // -------------------------------------------------------------------
    // Domain lookup and the current subsite

    /** What `getSubsiteIDForDomain($host)` answers from the current cache. */
    function DomainOutcome(host: Option<string>, req: Request, db: Store): DomainResult
      reads this
    {
      var h := EffectiveHost(host, req);
      if !TruthyOpt(h) then NoSite
      else if h.value in domainCache then domainCache[h.value]
      else FindByDomain(db.subsites, h.value)
    }

    /** The domain cache after `getSubsiteIDForDomain($host)`. */
    function DomainCacheAfter(host: Option<string>, req: Request, db: Store): map<string, DomainResult>
      reads this
    {
      var h := EffectiveHost(host, req);
      if !TruthyOpt(h) || h.value in domainCache then domainCache
      else domainCache[h.value := FindByDomain(db.subsites, h.value)]
    }

    /** `Subsite::getSubsiteIDForDomain($host)`: `false` without touching the
        cache when no host is available; otherwise the cached answer for the
        host, or the exact-match lookup, cached even when it is `false`. */
    method GetSubsiteIDForDomain(host: Option<string>, req: Request, db: Store) returns (r: DomainResult)
      requires Valid()
      modifies this`domainCache
      ensures Valid()
      ensures r == old(DomainOutcome(host, req, db)) && domainCache == old(DomainCacheAfter(host, req, db))
      ensures !TruthyOpt(EffectiveHost(host, req)) ==> r == NoSite && domainCache == old(domainCache)
      ensures TruthyOpt(EffectiveHost(host, req)) ==>
        var h := EffectiveHost(host, req).value;
        && (h in old(domainCache) ==> r == old(domainCache)[h] && domainCache == old(domainCache))
        && (h !in old(domainCache) ==> r == FindByDomain(db.subsites, h) && domainCache == old(domainCache)[h := r])
        && h in domainCache && domainCache[h] == r
    {
      var h := EffectiveHost(host, req);
      if !TruthyOpt(h) {
        return NoSite;
      }
      if h.value !in domainCache {
        domainCache := domainCache[h.value := FindByDomain(db.subsites, h.value)];
      }
      r := domainCache[h.value];
    }

    /** `Subsite::currentSubsiteID()`: a set `SubsiteID` GET parameter wins,
        cast to int; otherwise, with session tracking on, a session value;
        only when neither gave an ID, the domain lookup for `HTTP_HOST`, with
        `false` read as 0. */
    method CurrentSubsiteID(req: Request, env: Environment, db: Store) returns (id: int)
      requires Valid()
      modifies this`domainCache
      ensures Valid()
      ensures req.subsiteIDParam.Some? ==>
        id == IntCast(req.subsiteIDParam.value) && domainCache == old(domainCache)
      ensures req.subsiteIDParam.None? && useSessionSubsiteID && env.sessionSubsiteID.Some? ==>
        id == env.sessionSubsiteID.value && domainCache == old(domainCache)
      ensures req.subsiteIDParam.None? && (!useSessionSubsiteID || env.sessionSubsiteID.None?) ==>
        id == DomainResultToInt(old(DomainOutcome(None, req, db)))
        && domainCache == old(DomainCacheAfter(None, req, db))
    {
      var found: Option<int> := None;
      if req.subsiteIDParam.Some? {
        found := Some(IntCast(req.subsiteIDParam.value));
      } else if useSessionSubsiteID {
        found := env.sessionSubsiteID;
      }
      if found.None? {
        var d := GetSubsiteIDForDomain(None, req, db);
        id := DomainResultToInt(d);
      } else {
        id := found.value;
      }
    }

    /** `Subsite::changeSubsite($subsite)`: nothing at all without session
        tracking; otherwise stores the ID in the session, switches the locale
        for a subsite record with a Language that resolves, and always resets
        the permission cache. */
    method ChangeSubsite(arg: SubsiteArg, env: Environment, locales: map<string, string>)
      modifies env
      ensures !useSessionSubsiteID ==> unchanged(env)
      ensures useSessionSubsiteID ==>
        && env.sessionSubsiteID == Some(ArgID(arg))
        && env.locale == (if LocaleFor(arg, locales).Some? then LocaleFor(arg, locales).value else old(env.locale))
        && env.permissionResets == old(env.permissionResets) + 1
    {
      if !useSessionSubsiteID {
        return;
      }
      env.sessionSubsiteID := Some(ArgID(arg));
      match arg {
        case ByObject(site) =>
          if site.language != "" && site.language in locales {
            var locale := locales[site.language];
            if Truthy(locale) {
              env.locale := locale;
            }
          }
        case ById(_) =>
      }
      env.permissionResets := env.permissionResets + 1;
    }

    /** `$subsite->activate()`: `changeSubsite` with the record itself. */
    method Activate(site: Subsite, env: Environment, locales: map<string, string>)
      modifies env
      ensures !useSessionSubsiteID ==> unchanged(env)
      ensures useSessionSubsiteID ==>
        && env.sessionSubsiteID == Some(site.id)
        && env.locale == (if LocaleFor(ByObject(site), locales).Some? then LocaleFor(ByObject(site), locales).value else old(env.locale))
        && env.permissionResets == old(env.permissionResets) + 1
    {
      ChangeSubsite(ByObject(site), env, locales);
    }

    /** `Subsite::disable_subsite_filter($disabled)`. A call without an
        argument is a call with `true`, the declared default. */
    method DisableSubsiteFilter(disabled: bool)
      modifies this`disableSubsiteFilter
      ensures disableSubsiteFilter == disabled
    {
      disableSubsiteFilter := disabled;
    }

    /** `Subsite::reset()`: empties the three caches and nothing else. */
    method Reset()
      modifies this
      ensures Valid()
      ensures sitesCache == map[] && idsCache == map[] && domainCache == map[]
      ensures useSessionSubsiteID == old(useSessionSubsiteID)
      ensures disableSubsiteFilter == old(disableSubsiteFilter)
      ensures forceSubsite == old(forceSubsite)
    {
      sitesCache := map[];
      domainCache := map[];
      idsCache := map[];
    }

    // -------------------------------------------------------------------
    // Accessible sites

    /** What `accessible_sites($perm, $member)` answers from the current cache. */
    function SitesOutcome(perm: PermArg, member: MemberArg, currentUser: Option<int>, db: Store): seq<Subsite>
      reads this
    {
      match ResolveMember(member, currentUser)
      case None => []
      case Some(m) =>
        var k := KeyFor(perm, m);
        if k in sitesCache then sitesCache[k] else Accessible(db, k.codes, m)
    }

    /** `accessible_sites` never answers with a repeated ID, from the cache or
        from the database. */
    lemma SitesOutcomeDistinct(perm: PermArg, member: MemberArg, currentUser: Option<int>, db: Store)
      requires Valid() && db.Valid()
      ensures DistinctIds(SitesOutcome(perm, member, currentUser, db))
    {
      var m := ResolveMember(member, currentUser);
      if m.Some? && KeyFor(perm, m.value) !in sitesCache {
        AccessibleShape(db, KeyFor(perm, m.value).codes, m.value);
      }
    }

    /** The site cache after `accessible_sites($perm, $member)`. */
    function SitesCacheAfter(perm: PermArg, member: MemberArg, currentUser: Option<int>, db: Store): map<CacheKey, seq<Subsite>>
      reads this
    {
      match ResolveMember(member, currentUser)
      case None => sitesCache
      case Some(m) =>
        var k := KeyFor(perm, m);
        if k in sitesCache then sitesCache else sitesCache[k := Accessible(db, k.codes, m)]
    }

    /** `Subsite::accessible_sites($perm, $member)`: an empty list and no
        cache entry without a member; the cached list on a hit; otherwise the
        combined direct and role lists, cached under codes and member ID. */
    method AccessibleSites(perm: PermArg, member: MemberArg, currentUser: Option<int>, db: Store)
      returns (sites: seq<Subsite>)
      requires Valid() && db.Valid()
      modifies this`sitesCache
      ensures Valid()
      ensures sites == old(SitesOutcome(perm, member, currentUser, db))
      ensures sitesCache == old(SitesCacheAfter(perm, member, currentUser, db))
      ensures DistinctIds(sites)
      ensures ResolveMember(member, currentUser).None? ==> sites == [] && sitesCache == old(sitesCache)
      ensures ResolveMember(member, currentUser).Some? ==>
        var k := KeyFor(perm, ResolveMember(member, currentUser).value);
        k in sitesCache && sitesCache[k] == sites
    {
      var m := ResolveMember(member, currentUser);
      if m.None? {
        return [];
      }
      var key := KeyFor(perm, m.value);
      if key in sitesCache {
        return sitesCache[key];
      }
      var q := QualifyingCodes(key.codes);
      var direct := DirectSites(db, q, m.value);
      var roles := RoleSites(db, q, m.value);
      if |direct| == 0 && |roles| > 0 {
        sites := roles;
      } else {
        sites := AppendMissing(direct, roles);
      }
      assert sites == Accessible(db, key.codes, m.value);
      assert DistinctIds(sites) by {
        AccessibleShape(db, key.codes, m.value);
      }
      assert key !in idsCache;
      sitesCache := sitesCache[key := sites];
    }

    /** What `accessible_sites_ids($perm, $member)` answers from the current caches. */
    function IdsOutcome(perm: PermArg, member: MemberArg, currentUser: Option<int>, db: Store): seq<int>
      reads this
    {
      match ResolveMember(member, currentUser)
      case None => []
      case Some(m) =>
        var k := KeyFor(perm, m);
        if k in idsCache then idsCache[k] else Ids(SitesOutcome(perm, Member(m), currentUser, db))
    }

    /** `Subsite::accessible_sites_ids($perm, $member)`: `[]` without a
        member; otherwise the ID column of `accessible_sites`, in its order,
        computed once per key and then served from the cache. */
    method AccessibleSitesIds(perm: PermArg, member: MemberArg, currentUser: Option<int>, db: Store)
      returns (ids: seq<int>)
      requires Valid() && db.Valid()
      modifies this`sitesCache, this`idsCache
      ensures Valid()
      ensures ids == old(IdsOutcome(perm, member, currentUser, db))
      ensures ResolveMember(member, currentUser).None? ==>
        ids == [] && sitesCache == old(sitesCache) && idsCache == old(idsCache)
      ensures ResolveMember(member, currentUser).Some? ==>
        var m := ResolveMember(member, currentUser).value;
        var k := KeyFor(perm, m);
        && (k in old(idsCache) ==> sitesCache == old(sitesCache) && idsCache == old(idsCache))
        && (k !in old(idsCache) ==>
              sitesCache == old(SitesCacheAfter(perm, Member(m), currentUser, db))
              && idsCache == old(idsCache)[k := ids])
        && k in idsCache && idsCache[k] == ids && ids == Ids(sitesCache[k])
    {
      var m := ResolveMember(member, currentUser);
      if m.None? {
        return [];
      }
      var key := KeyFor(perm, m.value);
      if key !in idsCache {
        var sites := AccessibleSites(perm, Member(m.value), currentUser, db);
        idsCache := idsCache[key := Ids(sites)];
      }
      ids := idsCache[key];
    }
  }

  // ---------------------------------------------------------------------
  // Per-record checks

  /** The outcome of `validate()`: its error messages (the parent validation
      adds none). */
  datatype ValidationResult = ValidationResult(messages: seq<string>) {
    predicate IsValid() {
      messages == []
    }
  }

  const TitleMissing: string := "Please add a \"Title\""

  /** `$subsite->validate()`: an error exactly when Title is falsy in PHP,
      that is null, "" or "0". */
  function Validate(site: Subsite): (r: ValidationResult)
    ensures !r.IsValid() <==> site.title == None || site.title == Some("") || site.title == Some("0")
    ensures !r.IsValid() ==> r.messages == [TitleMissing]
  {
    if TruthyOpt(site.title) then ValidationResult([]) else ValidationResult([TitleMissing])
  }

  /** Group `g` lets its members view `site`: it can access all subsites, or
      it is linked to an existing subsite with the same ID. */
  predicate GroupViews(db: Store, g: Group, site: Subsite) {
    g.accessAllSubsites || exists s :: s in db.subsites && s.id in g.subsiteIDs && s.id == site.id
  }

  /** `$subsite->canView($member)`: false without a member; otherwise whether
      some group of the member grants the view. */
  method CanView(site: Subsite, member: MemberArg, currentUser: Option<int>, db: Store) returns (allowed: bool)
    ensures ResolveMember(member, currentUser).None? ==> !allowed
    ensures ResolveMember(member, currentUser).Some? ==>
      (allowed <==> exists g :: g in db.groups && ResolveMember(member, currentUser).value in g.memberIDs
                                && GroupViews(db, g, site))
  {
    var m := ResolveMember(member, currentUser);
    if m.None? {
      return false;
    }
    var groups := MemberGroups(db, m.value);
    var i := 0;
    while i < |groups|
      invariant 0 <= i <= |groups|
      invariant forall k :: 0 <= k < i ==> !GroupViews(db, groups[k], site)
    {
      var g := groups[i];
      if g.accessAllSubsites {
        assert g in groups;
        return true;
      }
      var linked := GroupSubsites(db, g);
      var j := 0;
      while j < |linked|
        invariant 0 <= j <= |linked|
        invariant forall k :: 0 <= k < j ==> linked[k].id != site.id
      {
        if linked[j].id == site.id {
          assert linked[j] in linked;
          assert g in groups;
          return true;
        }
        j := j + 1;
      }
      assert forall s :: s in linked ==> s.id != site.id;
      i := i + 1;
    }
    assert forall g :: g in groups ==> !GroupViews(db, g, site);
    allowed := false;
  }
}
