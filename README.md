# Subsites core, modelled in Dafny

This project models the core of the SilverStripe *subsites* module: one CMS
installation serves several sites ("subsites"), and the module works out
which subsite a request belongs to and which subsites a member may access. It
also scopes reports to those subsites. Two source files make up the core:

- `Subsite` (`tests/code/Model/Subsite.php`). Its static side is modelled as
  the class `Subsites.SubsiteStatics`. The fields are the three flags and
  slots (`use_session_subsiteid`, `disable_subsite_filter`, `force_subsite`)
  and the three memory caches (accessible sites, accessible site IDs, subsite
  per domain). Its methods read and fill those caches: `currentSubsiteID`,
  `getSubsiteIDForDomain`, `changeSubsite`/`activate`, `reset`,
  `disable_subsite_filter`, `accessible_sites` and `accessible_sites_ids`.
  The per-record checks `validate` and `canView` and the static
  `hasMainSitePermission` are pure functions or a loop over the member's
  groups.
- `SubsiteReportWrapper` (`code/SubsiteReportWrapper.php`). It is modelled as
  the class `ReportWrapper.SubsiteReportWrapper` around a `BaseReport` value.
  The wrapper adds a subsite picker to the wrapped report's parameters and a
  `Subsite.Title` column to its columns. Around the wrapped report's queries
  it sets `Subsite::$force_subsite` to the selected or accessible subsite IDs.

The database is the value `Schema.Store`, passed to each call. It holds:

- the Subsite table in its default order, `Title ASC`;
- the groups, with the `AccessAllSubsites` flag and the `Group_Subsites`,
  `Group_Members`, `Permission` and `Group_Roles` rows;
- the `PermissionRoleCode` rows of each role.

The caches live in `SubsiteStatics` and are not tied to the store, so a cached
answer can go stale until `reset` runs (the one place where the source's
cached answer re-reads the database is listed under "Left out"). Each SQL
query of the core is a filter over the store. The queries go through
`DataList`, which selects distinct rows, so a subsite appears at most once and
in default order.

The PHP semantics the core depends on are written out in module `Php`:

- truthiness of strings ("" and "0" are false);
- the `(int)` cast of a string: leading whitespace, an optional sign, the
  longest digit run, clamped to the 64-bit range (the inputs PHP reads as
  floating point are listed under "Left out");
- `join` and `explode`;
- ordered associative arrays, where `$a[$k] = $v` keeps an existing key in
  place and appends a new one;
- fatal errors, as the `Failure` case of `Result`.

Request globals are the `Request` value: `$_GET['SubsiteID']` and
`$_SERVER['HTTP_HOST']`. The session, the i18n locale and
`Permission::reset()` are the `Environment` object. The logged-in member is a
parameter.

Where the code and the module's documentation disagree, the model follows the
code:

- **Domain lookup is exact.** The doc comment of `getSubsiteIDForDomain`
  promises matching with a leading or trailing `*`. The query it runs compares
  `Domain` with the host for equality, and `FindByDomain` models that query.
- **`force_subsite` is cleared, not restored.** `afterQuery` sets it to null,
  whatever it held before `beforeQuery`.
- **A failing report leaves `force_subsite` set.** No `finally` guards the
  slot. When the wrapped report's producer fails, the slot keeps the forced
  IDs, and the contracts of `SourceRecords` and `SourceQuery` say so.
- **Subsites without a Title are not excluded.** The doc comments of
  `accessible_sites` and `accessible_sites_ids` say sites are included only
  when they have a Title. Neither query filters on Title, and
  `Permissions.Accessible` keeps subsites without one.
- **`description()` returns the title.** It returns the wrapped report's
  title, not its description.

## Model

| member | source | states |
|---|---|---|
| Php.IntCast | tests/code/Model/Subsite.php:117 | `(int)` of a string is a 64-bit integer, and 0 when the string, after leading whitespace, starts with neither a digit nor a sign |
| Php.IntCastOfIntToString | tests/code/Model/Subsite.php:117-127 | `(int)` of the decimal rendering of any 64-bit integer is that integer |
| Php.ExplodeJoin | code/SubsiteReportWrapper.php:65 | exploding on a one-character separator undoes joining on it, when no part contains the separator |
| Php.ParseJoinIds | code/SubsiteReportWrapper.php:65 | a non-empty comma-joined list of 64-bit IDs, read back with `explode` and `(int)`, is the same list |
| Php.AssignLookup | code/SubsiteReportWrapper.php:49 | after `$a[$k] = $v`, key `$k` reads `$v` and every other key reads as before |
| Php.AssignKeys | code/SubsiteReportWrapper.php:49 | `$a[$k] = $v` keeps the key order and appends `$k` only when it was absent |
| Php.AssignKeepsOthers | code/SubsiteReportWrapper.php:49 | `$a[$k] = $v` leaves every entry for another key at its index |
| Php.AssignFresh | code/SubsiteReportWrapper.php:25 | assigning an absent key appends exactly one entry at the end |
| Schema.ResolveMember | tests/code/Model/Subsite.php:283-285 | a member argument of null or false falls back to the logged-in member; a member record is used as given |
| Schema.FilterDistinct | tests/code/Model/Subsite.php:307-320 | a filtered subsite list repeats no ID when the table repeats none |
| Schema.GroupSubsites | tests/code/Model/Subsite.php:595 | a group's subsites are exactly the existing subsites linked to it |
| Schema.MemberGroups | tests/code/Model/Subsite.php:591 | a member's groups are exactly the groups listing the member |
| Permissions.CodeList | tests/code/Model/Subsite.php:294-298 | the code list spliced into the queries and the cache key is never empty: a single code is a list of one, a non-empty array is itself, and an empty array reads as one empty code |
| Permissions.DirectSites | tests/code/Model/Subsite.php:307-311 | the first query holds exactly the subsites that a group of the member reaches while holding a qualifying code directly |
| Permissions.RoleSites | tests/code/Model/Subsite.php:314-320 | the second query holds exactly the subsites that a group of the member reaches while holding a qualifying code through an existing role |
| Permissions.Combine | tests/code/Model/Subsite.php:322-335 | the combined list starts with the direct list and holds exactly the IDs of both lists, with or without the short cut |
| Permissions.QualifyingCodes | tests/code/Model/Subsite.php:311 | a code qualifies exactly when it is requested, `CMS_ACCESS_LeftAndMain` or `ADMIN` (the `IN` lists at :311 and :320) |
| Permissions.MergeById | tests/code/Model/Subsite.php:329-335 | pushing role subsites one by one never drops an entry and adds at most one per role subsite |
| Permissions.Accessible | tests/code/Model/Subsite.php:307-338 | the answer on a cache miss starts with the direct list and holds exactly the IDs of both queries |
| Permissions.AppendMissing | tests/code/Model/Subsite.php:327-335 | the push loop over the role subsites computes the merge of the direct list with the role list by ID |
| Permissions.MergeShape | tests/code/Model/Subsite.php:329-335 | the merge keeps the direct list as a prefix and appends only role subsites whose ID is new |
| Permissions.MergeIds | tests/code/Model/Subsite.php:329-335 | the merged list holds every ID of both lists and no other |
| Permissions.MergeClosedForm | tests/code/Model/Subsite.php:329-335 | for a role list without repeated IDs, the merge is the direct list followed by the role subsites whose ID it lacks, in role order |
| Permissions.CombineClosedForm | tests/code/Model/Subsite.php:322-338 | returning the role list alone when the direct list is empty gives the same list as the merge, so the short cut is unobservable |
| Permissions.AppendNewDistinct | tests/code/Model/Subsite.php:327-335 | the merged list repeats no ID when neither input does |
| Permissions.AccessibleShape | tests/code/Model/Subsite.php:307-338 | on a cache miss the accessible list is the direct list followed by the role-only subsites, repeats no ID, and holds exactly the subsites that a group of the member reaches (linked or AccessAllSubsites) while holding a requested code, `CMS_ACCESS_LeftAndMain` or `ADMIN`, directly or through a role |
| Permissions.AccessAllGroupReachesEverySubsite | tests/code/Model/Subsite.php:309-311 | a member of an AccessAllSubsites group holding a qualifying code can access every subsite |
| Permissions.CountIn | tests/code/Model/Subsite.php:413-420 | the rows a group contributes to a COUNT are at most its number of codes |
| Permissions.RoleCodeRows | tests/code/Model/Subsite.php:423-433 | roles that do not exist contribute no `PermissionRoleCode` rows |
| Permissions.CountInPositive | tests/code/Model/Subsite.php:413-420 | a group's permission rows with a listed code count above zero exactly when the group holds such a code |
| Permissions.RoleCodeRowsPositive | tests/code/Model/Subsite.php:423-433 | a group's role code rows with a listed code count above zero exactly when one of its existing roles carries such a code |
| Permissions.PermissionRows | tests/code/Model/Subsite.php:413-420 | the permission row count is 0 when no listed group is an AccessAllSubsites group of the member |
| Permissions.RoleRows | tests/code/Model/Subsite.php:423-433 | the role code row count is 0 when no listed group is an AccessAllSubsites group of the member |
| Permissions.MainSiteMember | tests/code/Model/Subsite.php:396-402 | an explicit false means no member; any other argument resolves as in `accessible_sites` |
| Permissions.RowsPositive | tests/code/Model/Subsite.php:413-436 | the two COUNT queries add up to a positive number exactly when an AccessAllSubsites group of the member holds a listed code, directly or through a role |
| Permissions.HasMainSitePermission | tests/code/Model/Subsite.php:390-437 | a non-array code argument is a fatal error; an explicit false or a missing member gives false; otherwise true exactly when an AccessAllSubsites group of the member holds one of the codes or `ADMIN` |
| Permissions.MainSitePermissionReachesEverySubsite | tests/code/Model/Subsite.php:404-436 | a member with main-site permission for some codes can access every subsite through `accessible_sites` with those codes |
| Subsites.FindByDomain | tests/code/Model/Subsite.php:183-184 | no subsite is found exactly when no Domain equals the host; otherwise the first subsite in default order whose Domain equals it |
| Subsites.EffectiveHost | tests/code/Model/Subsite.php:175-177 | a truthy host is kept; the host is replaced exactly when it is null or "" and HTTP_HOST is set, and then becomes HTTP_HOST |
| Subsites.LocaleFor | tests/code/Model/Subsite.php:154-158 | a locale is set exactly when a subsite record's non-empty Language maps to a truthy locale, and it is that locale |
| Subsites.SubsiteStatics.constructor | tests/code/Model/Subsite.php:44-77 | the flags start false, `force_subsite` null and all three caches empty |
| Subsites.SubsiteStatics.GetSubsiteIDForDomain | tests/code/Model/Subsite.php:173-188 | a host loosely equal to null is replaced by HTTP_HOST; with no truthy host the answer is false and the cache is untouched; otherwise the cached answer, or the exact-match lookup, stored under the host |
| Subsites.SubsiteStatics.CurrentSubsiteID | tests/code/Model/Subsite.php:112-128 | a set `SubsiteID` GET parameter decides through `(int)`; else, with session tracking on and a session value, that value; else the domain lookup, with false read as 0 |
| Subsites.SubsiteStatics.ChangeSubsite | tests/code/Model/Subsite.php:136-162 | nothing changes with session tracking off; otherwise the session holds the subsite's ID, the locale changes only for a subsite record with a language that maps to a locale, and permissions are reset once |
| Subsites.SubsiteStatics.Activate | tests/code/Model/Subsite.php:571-574 | activating a subsite is changing to that subsite record |
| Subsites.SubsiteStatics.DisableSubsiteFilter | tests/code/Model/Subsite.php:209-212 | the filter flag takes the given value |
| Subsites.SubsiteStatics.Reset | tests/code/Model/Subsite.php:217-222 | all three caches become empty; the flags and `force_subsite` stay |
| Subsites.SubsiteStatics.SitesOutcomeDistinct | tests/code/Model/Subsite.php:300-338 | `accessible_sites` never answers with a repeated ID, from the cache or from the database |
| Subsites.SubsiteStatics.AccessibleSites | tests/code/Model/Subsite.php:280-339 | no member gives an empty list and no cache entry; a cached key gives the cached list; otherwise the combined list of `AccessibleShape`, cached under the codes and member ID; the result never repeats an ID |
| Subsites.SubsiteStatics.AccessibleSitesIds | tests/code/Model/Subsite.php:349-375 | no member gives `[]`; otherwise the ID column of `accessible_sites`, computed on the first call for a key and served from the ID cache after, always equal to the IDs of the cached site list |
| Subsites.Validate | tests/code/Model/Subsite.php:539-546 | a subsite fails validation, with the single "Please add a Title" message, exactly when its Title is null, "" or "0" |
| Subsites.CanView | tests/code/Model/Subsite.php:585-603 | false without a member; otherwise true exactly when one of the member's groups has AccessAllSubsites or is linked to the subsite |
| ReportWrapper.DropdownMap | code/SubsiteReportWrapper.php:25 | the ID => Title map has no more entries than subsites, and its keys are exactly the subsites' IDs |
| ReportWrapper.DropdownMapOfDistinct | code/SubsiteReportWrapper.php:24-25 | for subsites without repeated IDs, the ID => Title map has one entry per subsite, in list order |
| ReportWrapper.ForcedListRoundTrip | code/SubsiteReportWrapper.php:63-65 | the forced list names the accessible subsites exactly, reading back as their IDs in order; with none accessible it is the empty, falsy string |
| ReportWrapper.InsertBefore | code/SubsiteReportWrapper.php:37 | inserting adds at most one field; with no field of the given name the list is unchanged |
| ReportWrapper.InsertBeforeFirstMatch | code/SubsiteReportWrapper.php:37 | with a field of the given name present, the new field lands right before the first such field and nothing else moves |
| ReportWrapper.ForcedSubsites | code/SubsiteReportWrapper.php:58-65 | the forced value is always set: a truthy `Subsites` parameter as given, else the comma-joined IDs `accessible_sites('CMS_ACCESS_CMSMain')` answers |
| ReportWrapper.SubsiteReportWrapper.constructor | code/SubsiteReportWrapper.php:10-14 | the wrapper keeps the base report and takes its data class |
| ReportWrapper.SubsiteReportWrapper.ID | code/SubsiteReportWrapper.php:16-18 | the ID is the base report's class name followed by `_subsite` |
| ReportWrapper.SubsiteReportWrapper.Title | code/SubsiteReportWrapper.php:101-103 | the title is the base report's title |
| ReportWrapper.SubsiteReportWrapper.Description | code/SubsiteReportWrapper.php:105-107 | the description is the title as well |
| ReportWrapper.SubsiteReportWrapper.CanView | code/SubsiteReportWrapper.php:109-111 | the base report decides who can view |
| ReportWrapper.SubsiteReportWrapper.Columns | code/SubsiteReportWrapper.php:47-51 | `Subsite.Title` reads "Subsite"; every other column reads as in the base; the key is appended only when the base lacks it; the other entries keep their places |
| ReportWrapper.SubsiteReportWrapper.ParameterFields | code/SubsiteReportWrapper.php:23-42 | a picker over the accessible subsites, with all of them selected and read-only when at most one, comes first; it stands alone when the base has no fields (null); an empty base list ends in a call on null |
| ReportWrapper.SubsiteReportWrapper.BeforeQuery | code/SubsiteReportWrapper.php:56-67 | a non-empty `Subsites` parameter is forced as given, without touching the caches; otherwise the comma-joined IDs of the accessible subsites |
| ReportWrapper.SubsiteReportWrapper.AfterQuery | code/SubsiteReportWrapper.php:68-71 | `force_subsite` becomes null |
| ReportWrapper.SubsiteReportWrapper.SourceRecords | code/SubsiteReportWrapper.php:90-95 | the base records are produced with the forced IDs in place; the slot is cleared on a normal return and left set when the base call fails or the base has no `sourceRecords` |
| ReportWrapper.SubsiteReportWrapper.SourceQuery | code/SubsiteReportWrapper.php:73-88 | a base with `sourceRecords` takes the parent path, leaving the state alone; a base with `sourceQuery` runs bracketed by `beforeQuery`/`afterQuery`, the slot cleared on success and left forced on failure, the site cache filled only when no `Subsites` parameter is given; a base with neither is a fatal error |

## Left out

- `currentSubsite`, `all_sites`, `all_accessible_sites`, `get_from_all_subsites`, `getMembersByPermission`, `canEdit`, `absoluteBaseURL`, `getCMSFields`, `fieldLabels` and `getClassName` are outside the modelled core. They are CMS glue around the modelled functions, or delegations to framework code not in view.
- `code/extensions/CMSPageAddControllerExtension.php` is not part of this model.
- SQL text, `Convert::raw2sql` escaping and the string form of the cache key are not modelled. Escaping is one-to-one, so the key is modelled as the pair of the code list and the member ID.
- Subsites.FindByDomain, Permissions.HoldsCode, Permissions.CountIn: SQL equality and `IN` under a case-insensitive collation are modelled as exact string equality. The Domain lookup (Subsite.php:183) and the `Permission.Code` and `PermissionRoleCode.Code` tests (Subsite.php:311, 320, 418, 430) are affected, so a group holding `admin` qualifies in the source under such a collation and not in the model. The database collation is not part of the modelled state.
- Schema.MemberGroups, Subsites.CanView: `Member::Groups()` in the framework also yields the ancestor groups of the member's groups. The model takes only the groups that list the member, because the group hierarchy (`ParentID`) is not part of the modelled state.
- Every member is a record with an ID. A member passed as a bare ID, loaded with `get_by_id`, is not modelled, and neither is an ID that loads nothing.
- Php.IntCast: PHP reads a numeric string with a fraction or an exponent, or a digit run too large for 64 bits, as a floating-point number and then converts it. The model does not. It truncates at the first non-digit and clamps to the 64-bit range. Two classes of input differ, and both reach `CurrentSubsiteID` through `?SubsiteID=` (Subsite.php:117). First, `"9007199254740993.5"`: PHP rounds it to the double 9007199254740994, the model gives 9007199254740993. Second, a digit run of about 310 digits or more: the double is infinite and PHP gives 0, the model gives the 64-bit maximum (the minimum when negative). Floating point is not modelled. `(int)` of arrays is not modelled either.
- Subsites.SubsiteStatics.DisableSubsiteFilter, Permissions.HasMainSitePermission: the default arguments (`true`, and `['ADMIN']`) are not separate entry points. A call without the argument is the call with the default passed explicitly.
- Subsites.Validate: the framework's own `DataObject::validate()` and its extension hook (Subsite.php:541) are outside the model; they are taken to add no message.
- `i18n::get_locale_from_lang` is a map given as a parameter. The session and `Permission::reset()` are the `Environment` object's fields.
- Subsites.SubsiteStatics.AccessibleSites: when the direct list is empty, the source caches the role `DataList` itself, which is lazy and re-reads the database on each use. The model caches the list as it was when first computed.
- `write_hostmap` is declared but not read by the core, so it has no field.
- ReportWrapper.SubsiteReportWrapper.ParameterFields: the form field classes (`TreeMultiselectField`, `FieldSet`, the read-only transformation) are reduced to the picker's options, value and read-only flag. `insertBefore` is modelled on a flat field list.
- ReportWrapper.SubsiteReportWrapper.SourceQuery: the parent `SSReport::sourceQuery` is not in view, so its branch returns a marker holding the parameters.
- ReportWrapper.SubsiteReportWrapper.SourceRecords, ReportWrapper.SubsiteReportWrapper.SourceQuery: the wrapped report's producers are modelled as functions of the forced value that cannot touch `Subsite`'s static state. In the source they are arbitrary code: they may call `accessible_sites`, which fills the site cache, or run a nested wrapper, which clears `force_subsite`. The exact site-cache clauses and the "left forced on failure" clause hold only for producers that do neither.
- ReportWrapper.SubsiteReportWrapper.constructor: a class name given as a string is not instantiated. The base report is given as a value.
- How `force_subsite` and `disable_subsite_filter` restrict other queries belongs to the query decorator, which is not part of this model.
- Concurrent requests sharing the static caches are not modelled: each call runs alone.
