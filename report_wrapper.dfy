/** `SubsiteReportWrapper`: a report that wraps another report, adds a
    subsite picker to its parameters and a Subsite column to its columns, and
    scopes its queries through the shared `Subsite::$force_subsite` slot. */
module ReportWrapper {
  import opened Php
  import opened Schema
  import opened Permissions
  import opened Subsites

  const CmsAccessCmsMain: string := "CMS_ACCESS_CMSMain"
  const SubsiteColumn: string := "Subsite.Title"
  const MissingProducer: string := "Please override sourceQuery()/sourceRecords() and columns() in your base report"

  /** The submitted report parameters: `$params['Subsites']` and the rest. */
  datatype Params = Params(subsites: Option<string>, others: map<string, string>)

  /** A report column definition: a plain label, or an array of settings. */
  datatype ColumnSpec = Label(text: string) | Settings(entries: map<string, string>)

  /** A report parameter field: the subsite picker, or a field of the base report. */
  datatype ParamField =
    | SubsitePicker(options: seq<(int, Option<string>)>, value: seq<int>, readonly: bool)
    | BaseField(fieldName: string)
  {
    function Name(): string {
      match this
      case SubsitePicker(_, _, _) => "Subsites"
      case BaseField(n) => n
    }
  }

  /** What `sourceQuery` hands back: the parent class's query (the parent
      implementation is outside this model) or the base report's query. */
  datatype SourceQueryResult = ParentQuery(params: Params) | BaseQuery(query: string)

  /** The wrapped report, through the calls the wrapper makes on it. Its two
      producers are given the `force_subsite` value in effect while they run,
      and may throw. */
  datatype BaseReport = BaseReport(
    className: string,
    dataClass: string,
    title: string,
    canView: bool,
    hasSourceRecords: bool,
    hasSourceQuery: bool,
    columns: seq<(string, ColumnSpec)>,
    parameterFields: Option<seq<ParamField>>,
    sourceRecords: (Params, string, string, Option<string>) -> Result<seq<int>>,
    sourceQuery: (Params, Option<string>) -> Result<string>)

  /** `$subsites->toDropdownMap('ID', 'Title')`: an ID => Title array. */
  function DropdownMap(sites: seq<Subsite>): (d: seq<(int, Option<string>)>)
    ensures |d| <= |sites|
    ensures forall k :: k in Keys(d) <==> k in Ids(sites)
  {
    if sites == [] then []
    else
      var init := sites[..|sites| - 1];
      var last := sites[|sites| - 1];
      AssignKeys(DropdownMap(init), last.id, last.title);
      assert Ids(sites) == Ids(init) + [last.id];
      Assign(DropdownMap(init), last.id, last.title)
  }

  /** For a list that repeats no ID, the dropdown map has one entry per
      subsite, in list order. */
  lemma {:induction false} DropdownMapOfDistinct(sites: seq<Subsite>)
    requires DistinctIds(sites)
    ensures DropdownMap(sites) == seq(|sites|, i requires 0 <= i < |sites| => (sites[i].id, sites[i].title))
  {
    if sites != [] {
      var init := sites[..|sites| - 1];
      var last := sites[|sites| - 1];
      DropdownMapOfDistinct(init);
      assert Keys(DropdownMap(init)) == Ids(init);
      assert last.id !in Ids(init);
      AssignFresh(DropdownMap(init), last.id, last.title);
    }
  }

  /** The list `beforeQuery` forces when no subsites are selected names the
      accessible subsites exactly: read back with `explode` and `(int)` it
      gives their IDs in order; with no accessible subsite it is the empty
      string, which is falsy. */
  lemma ForcedListRoundTrip(sites: seq<Subsite>)
    requires DistinctIds(sites)
    requires forall i :: 0 <= i < |sites| ==> IntMin <= sites[i].id <= IntMax
    ensures |sites| == 0 ==> !Truthy(JoinIds(Keys(DropdownMap(sites))))
    ensures |sites| > 0 ==> ParseIds(JoinIds(Keys(DropdownMap(sites)))) == Ids(sites)
  {
    DropdownMapOfDistinct(sites);
    assert Keys(DropdownMap(sites)) == Ids(sites);
    if |sites| > 0 {
      ParseJoinIds(Ids(sites));
    }
  }

  /** `$fields->insertBefore($field, $name)`: the field goes before the first
      field with that name; nothing changes when there is none. */
  function InsertBefore(fields: seq<ParamField>, field: ParamField, name: string): (r: seq<ParamField>)
    ensures |fields| <= |r| <= |fields| + 1
    ensures (forall i :: 0 <= i < |fields| ==> fields[i].Name() != name) ==> r == fields
  {
    if fields == [] then []
    else if fields[0].Name() == name then [field] + fields
    else
      var rest := InsertBefore(fields[1..], field, name);
      assert (forall i :: 0 <= i < |fields| ==> fields[i].Name() != name) ==>
               forall i :: 0 <= i < |fields[1..]| ==> fields[1..][i].Name() != name by {
        forall i | 0 <= i < |fields[1..]| ensures fields[1..][i] == fields[i + 1] { }
      }
      assert [fields[0]] + fields[1..] == fields;
      [fields[0]] + rest
  }

  /** With a field of that name present, the new field lands right before
      the first one and nothing else moves. */
  lemma {:induction false} InsertBeforeFirstMatch(fields: seq<ParamField>, field: ParamField, name: string, i: nat)
    requires i < |fields| && fields[i].Name() == name
    requires forall j :: 0 <= j < i ==> fields[j].Name() != name
    ensures InsertBefore(fields, field, name) == fields[..i] + [field] + fields[i..]
  {
    if i > 0 {
      assert fields[0].Name() != name;
      var tail := fields[1..];
      assert tail[i - 1] == fields[i];
      forall j | 0 <= j < i - 1 ensures tail[j].Name() != name {
        assert tail[j] == fields[j + 1];
      }
      InsertBeforeFirstMatch(tail, field, name, i - 1);
      assert fields[..i] == [fields[0]] + tail[..i - 1];
      assert fields[i..] == tail[i - 1..];
    }
  }

  /** The `force_subsite` value `beforeQuery($params)` sets: a non-empty
      `Subsites` parameter as it is, else the comma-joined IDs the current
      member may access with `CMS_ACCESS_CMSMain`. */
  function ForcedSubsites(st: SubsiteStatics, params: Params, currentUser: Option<int>, db: Store): (f: Option<string>)
    requires st.Valid() && db.Valid()
    reads st
    ensures f.Some?
    ensures TruthyOpt(params.subsites) ==> f == params.subsites
    ensures !TruthyOpt(params.subsites) ==>
      f.value == JoinIds(Ids(st.SitesOutcome(Code(CmsAccessCmsMain), NullMember, currentUser, db)))
  {
    var sites := st.SitesOutcome(Code(CmsAccessCmsMain), NullMember, currentUser, db);
    st.SitesOutcomeDistinct(Code(CmsAccessCmsMain), NullMember, currentUser, db);
    DropdownMapOfDistinct(sites);
    assert Keys(DropdownMap(sites)) == Ids(sites);
    if TruthyOpt(params.subsites) then params.subsites
    else Some(JoinIds(Keys(DropdownMap(st.SitesOutcome(Code(CmsAccessCmsMain), NullMember, currentUser, db)))))
  }

  class SubsiteReportWrapper {
    const baseReport: BaseReport
    const dataClass: string

    constructor(base: BaseReport)
      ensures baseReport == base && dataClass == base.dataClass
    {
      baseReport := base;
      dataClass := base.dataClass;
    }

    /** `ID()`: the base report's class name followed by `_subsite`. */
    function ID(): (id: string)
      ensures |id| == |baseReport.className| + 8
      ensures id[..|baseReport.className|] == baseReport.className
      ensures id[|baseReport.className|..] == "_subsite"
    {
      baseReport.className + "_subsite"
    }

    /** `title()`: the base report's title. */
    function Title(): (t: string)
      ensures t == baseReport.title
    {
      baseReport.title
    }

    /** `description()`: also the base report's title, not its description. */
    function Description(): (d: string)
      ensures d == Title()
    {
      baseReport.title
    }

    /** `canView()`: the base report decides. */
    function CanView(): (allowed: bool)
      ensures allowed == baseReport.canView
    {
      baseReport.canView
    }

    /** `columns()`: the base columns with `Subsite.Title` set to "Subsite",
        in place when the base has that key and appended otherwise; every
        other entry stays where and what it was. */
    function Columns(): (cols: seq<(string, ColumnSpec)>)
      ensures Lookup(cols, SubsiteColumn) == Some(Label("Subsite"))
      ensures forall k :: k != SubsiteColumn ==> Lookup(cols, k) == Lookup(baseReport.columns, k)
      ensures Keys(cols) == if SubsiteColumn in Keys(baseReport.columns) then Keys(baseReport.columns)
                            else Keys(baseReport.columns) + [SubsiteColumn]
      ensures forall i :: 0 <= i < |baseReport.columns| && baseReport.columns[i].0 != SubsiteColumn ==>
                cols[i] == baseReport.columns[i]
    {
      AssignLookup(baseReport.columns, SubsiteColumn, Label("Subsite"));
      AssignKeys(baseReport.columns, SubsiteColumn, Label("Subsite"));
      AssignKeepsOthers(baseReport.columns, SubsiteColumn, Label("Subsite"));
      Assign(baseReport.columns, SubsiteColumn, Label("Subsite"))
    }

    /** `parameterFields()`: a picker over the accessible subsites, all of
        them selected, read-only with at most one option, placed before the
        base report's fields; alone when the base has none (null); an empty
        base field list ends in a call on null. */
    method ParameterFields(st: SubsiteStatics, currentUser: Option<int>, db: Store) returns (r: Result<seq<ParamField>>)
      requires st.Valid() && db.Valid()
      modifies st`sitesCache
      ensures st.Valid()
      ensures st.sitesCache == old(st.SitesCacheAfter(Code(CmsAccessCmsMain), NullMember, currentUser, db))
      ensures var sites := old(st.SitesOutcome(Code(CmsAccessCmsMain), NullMember, currentUser, db));
        var picker := SubsitePicker(DropdownMap(sites), Ids(sites), |sites| <= 1);
        && (baseReport.parameterFields.None? ==> r == Success([picker]))
        && (baseReport.parameterFields == Some([]) ==> r == Failure(CallOnNull("Name")))
        && (baseReport.parameterFields.Some? && baseReport.parameterFields.value != [] ==>
              r == Success([picker] + baseReport.parameterFields.value))
    {
      var sites := st.AccessibleSites(Code(CmsAccessCmsMain), NullMember, currentUser, db);
      var options := DropdownMap(sites);
      DropdownMapOfDistinct(sites);
      assert Keys(options) == Ids(sites);
      var picker := SubsitePicker(options, Keys(options), |options| <= 1);
      match baseReport.parameterFields {
        case None =>
          r := Success([picker]);
        case Some(fields) =>
          if fields == [] {
            r := Failure(CallOnNull("Name"));
          } else {
            r := Success(InsertBefore(fields, picker, fields[0].Name()));
            assert r == Success([picker] + fields);
          }
      }
    }

    /** `beforeQuery($params)`: sets `force_subsite` to the `Subsites`
        parameter when it is non-empty, else to the comma-joined IDs of the
        subsites the current member may access. */
    method BeforeQuery(st: SubsiteStatics, params: Params, currentUser: Option<int>, db: Store)
      requires st.Valid() && db.Valid()
      modifies st`forceSubsite, st`sitesCache
      ensures st.Valid()
      ensures st.forceSubsite == old(ForcedSubsites(st, params, currentUser, db))
      ensures TruthyOpt(params.subsites) ==>
        st.forceSubsite == params.subsites && st.sitesCache == old(st.sitesCache)
      ensures !TruthyOpt(params.subsites) ==>
        && st.forceSubsite == Some(JoinIds(Ids(old(st.SitesOutcome(Code(CmsAccessCmsMain), NullMember, currentUser, db)))))
        && st.sitesCache == old(st.SitesCacheAfter(Code(CmsAccessCmsMain), NullMember, currentUser, db))
    {
      if TruthyOpt(params.subsites) {
        st.forceSubsite := params.subsites;
      } else {
        var sites := st.AccessibleSites(Code(CmsAccessCmsMain), NullMember, currentUser, db);
        var options := DropdownMap(sites);
        DropdownMapOfDistinct(sites);
        assert Keys(options) == Ids(sites);
        st.forceSubsite := Some(JoinIds(Keys(options)));
      }
    }

    /** `afterQuery()`: clears `force_subsite` (to null, whatever it was
        before `beforeQuery`). */
    method AfterQuery(st: SubsiteStatics)
      modifies st`forceSubsite
      ensures st.forceSubsite == None
    {
      st.forceSubsite := None;
    }

    /** `sourceRecords($params, $sort, $limit)`: the base report's records,
        produced while `force_subsite` holds the `beforeQuery` value; cleared
        on a normal return, left set when the base call fails. */
    method SourceRecords(st: SubsiteStatics, params: Params, sort: string, limit: string, currentUser: Option<int>, db: Store)
      returns (r: Result<seq<int>>)
      requires st.Valid() && db.Valid()
      modifies st`forceSubsite, st`sitesCache
      ensures st.Valid()
      ensures var forced := old(ForcedSubsites(st, params, currentUser, db));
        && r == (if baseReport.hasSourceRecords then baseReport.sourceRecords(params, sort, limit, forced)
                 else Failure(UndefinedMethod("sourceRecords")))
        && st.forceSubsite == (if r.Success? then None else forced)
      ensures TruthyOpt(params.subsites) ==> st.sitesCache == old(st.sitesCache)
      ensures !TruthyOpt(params.subsites) ==>
        st.sitesCache == old(st.SitesCacheAfter(Code(CmsAccessCmsMain), NullMember, currentUser, db))
    {
      BeforeQuery(st, params, currentUser, db);
      if !baseReport.hasSourceRecords {
        return Failure(UndefinedMethod("sourceRecords"));
      }
      r := baseReport.sourceRecords(params, sort, limit, st.forceSubsite);
      if r.Failure? {
        return;
      }
      AfterQuery(st);
    }

    /** `sourceQuery($params)`: the parent path, leaving `force_subsite`
        alone, for a base with `sourceRecords`; the base query bracketed by
        `beforeQuery`/`afterQuery` for a base with `sourceQuery`; a fatal
        error otherwise. */
    method SourceQuery(st: SubsiteStatics, params: Params, currentUser: Option<int>, db: Store)
      returns (r: Result<SourceQueryResult>)
      requires st.Valid() && db.Valid()
      modifies st`forceSubsite, st`sitesCache
      ensures st.Valid()
      ensures baseReport.hasSourceRecords ==>
        r == Success(ParentQuery(params))
        && st.forceSubsite == old(st.forceSubsite) && st.sitesCache == old(st.sitesCache)
      ensures !baseReport.hasSourceRecords && !baseReport.hasSourceQuery ==>
        r == Failure(UserError(MissingProducer))
        && st.forceSubsite == old(st.forceSubsite) && st.sitesCache == old(st.sitesCache)
      ensures !baseReport.hasSourceRecords && baseReport.hasSourceQuery ==>
        var forced := old(ForcedSubsites(st, params, currentUser, db));
        var q := baseReport.sourceQuery(params, forced);
        && (q.Success? ==> r == Success(BaseQuery(q.value)) && st.forceSubsite == None)
        && (q.Failure? ==> r == Failure(q.error) && st.forceSubsite == forced)
        && (TruthyOpt(params.subsites) ==> st.sitesCache == old(st.sitesCache))
        && (!TruthyOpt(params.subsites) ==>
              st.sitesCache == old(st.SitesCacheAfter(Code(CmsAccessCmsMain), NullMember, currentUser, db)))
    {
      if baseReport.hasSourceRecords {
        return Success(ParentQuery(params));
      } else if baseReport.hasSourceQuery {
        BeforeQuery(st, params, currentUser, db);
        var q := baseReport.sourceQuery(params, st.forceSubsite);
        if q.Failure? {
          return Failure(q.error);
        }
        AfterQuery(st);
        return Success(BaseQuery(q.value));
      } else {
        return Failure(UserError(MissingProducer));
      }
    }
  }
}
