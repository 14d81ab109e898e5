/** The permission checks on marks (`MarkAccess`) and the version comparison helpers
    (`CompareMarkVersions`) of the Bridge. The ORM lookups they make become fields of plain
    records: the user's role, the mark's versions and their authors, the job's versions and
    the roles it grants. */
module Marks {
  import opened Wrappers
  import opened Ordering
  import opened Text

  /** A position in `USER_ROLES`; position 2 is the manager and position 3 the expert. */
  datatype UserRole = UserRole(position: nat)
  const Manager := UserRole(2)
  const Expert := UserRole(3)

  /** A position in `JOB_ROLES`; positions 2 and 4 may edit the marks of the job. */
  datatype JobRole = JobRole(position: nat)

  predicate MayEditMarks(r: JobRole) {
    r.position == 2 || r.position == 4
  }

  /** A signed-in user: its identifier and its role. */
  datatype User = User(id: nat, role: UserRole)

  /** One version of a job: its number, who made it (`None` once that user is deleted), the
      role every user has and the roles given to single users. */
  datatype JobVersion = JobVersion(
    version: nat, changeAuthor: Option<nat>, globalRole: JobRole, userRoles: map<nat, JobRole>)

  datatype Job = Job(version: nat, versions: seq<JobVersion>, safeMarks: bool)

  /** The class of a mark object: the three mark tables, or anything else. */
  datatype MarkClass = MarkSafe | MarkUnsafe | MarkUnknown | OtherMarkClass

  /** One version of a mark: its number and its author (`None` once that user is deleted). */
  datatype MarkVersion = MarkVersion(version: nat, author: Option<nat>)

  datatype Mark = Mark(
    table: MarkClass, isModifiable: bool, version: nat, versions: seq<MarkVersion>, job: Option<Job>)

  datatype ReportClass = ReportSafe | ReportUnsafe | ReportUnknown

  /** A leaf report and the job of its root. */
  datatype Report = Report(table: ReportClass, job: Job)

  /** The exceptions the checks let escape: `.first()` gave `None` and an attribute of it was
      read, or `.get()` found no job version. */
  datatype AccessError = NoVersions | NoSuchJobVersion(version: nat)

  function IsMarkTable(c: MarkClass): bool {
    c != OtherMarkClass
  }

  /** `order_by('version').first()` on a list of versions numbered by `number`: the earliest
      version with the least number, or `None` for an empty list. */
  function Earliest<T>(vs: seq<T>, number: T -> nat): (r: Option<T>)
    ensures r.Some? <==> vs != []
    ensures r.Some? ==> r.value in vs && forall v :: v in vs ==> number(r.value) <= number(v)
  {
    if vs == [] then None
    else
      var rest := Earliest(vs[1..], number);
      if rest.Some? && number(rest.value) < number(vs[0]) then rest else Some(vs[0])
  }

  function MarkVersionNumber(v: MarkVersion): nat { v.version }

  function JobVersionNumber(v: JobVersion): nat { v.version }

  /** `job.versions.get(version=n)`: the first version numbered `n`. */
  function JobVersionNumbered(vs: seq<JobVersion>, n: nat): (r: Option<JobVersion>)
    ensures r.Some? <==> exists v :: v in vs && v.version == n
    ensures r.Some? ==> r.value in vs && r.value.version == n
  {
    if vs == [] then None
    else if vs[0].version == n then Some(vs[0])
    else JobVersionNumbered(vs[1..], n)
  }

  /** Neither a manager nor an expert. */
  predicate PlainUser(user: User) {
    user.role != Manager && user.role != Expert
  }

  /** `user` wrote the first of the versions `vs`. */
  predicate MadeFirstVersion(user: User, vs: seq<MarkVersion>) {
    var first := Earliest(vs, MarkVersionNumber);
    first.Some? && first.value.author == Some(user.id)
  }

  /** The job lets `user` edit and create its marks: the user made its first version, or its
      current version gives every user, or this user, a role that may edit marks. */
  predicate JobLetsEdit(user: User, job: Job) {
    || (var first := Earliest(job.versions, JobVersionNumber);
        first.Some? && first.value.changeAuthor == Some(user.id))
    || (var last := JobVersionNumbered(job.versions, job.version);
        && last.Some?
        && (MayEditMarks(last.value.globalRole)
            || (user.id in last.value.userRoles && MayEditMarks(last.value.userRoles[user.id]))))
  }

  /** The tail of `can_edit` and `can_create` that looks at the job: its first author, the
      global role of its current version and the role of the user there. A current version
      that is missing is an error for `can_edit` and a refusal for `can_create`. */
  function JobGrants(user: User, job: Job, missingIsError: bool): (r: Result<bool, AccessError>)
    ensures r == Ok(true) <==> JobLetsEdit(user, job)
    ensures job.versions == [] ==> r == Err(NoVersions)
    ensures r.Err? <==>
              job.versions == []
              || (missingIsError && !JobLetsEdit(user, job) && JobVersionNumbered(job.versions, job.version).None?)
  {
    var first := Earliest(job.versions, JobVersionNumber);
    if first.None? then Err(NoVersions)
    else if first.value.changeAuthor == Some(user.id) then Ok(true)
    else
      var last := JobVersionNumbered(job.versions, job.version);
      if last.None? then (if missingIsError then Err(NoSuchJobVersion(job.version)) else Ok(false))
      else if MayEditMarks(last.value.globalRole) then Ok(true)
      else if user.id in last.value.userRoles then Ok(MayEditMarks(last.value.userRoles[user.id]))
      else Ok(false)
  }

  /** `can_edit`. `user` is `None` for a visitor who is not signed in. */
  function CanEdit(user: Option<User>, mark: Mark): (r: Result<bool, AccessError>)
    ensures user.None? ==> r == Ok(false)
    ensures user.Some? && user.value.role == Manager ==> r == Ok(true)
    ensures user.Some? && user.value.role != Manager && (!mark.isModifiable || mark.version == 0) ==> r == Ok(false)
    ensures user.Some? && user.value.role == Expert && mark.isModifiable && mark.version != 0 ==> r == Ok(true)
    ensures r == Ok(true) ==> user.Some? && (user.value.role == Manager || (mark.isModifiable && mark.version != 0))
    ensures r.Err? ==> user.Some? && IsMarkTable(mark.table)
    ensures user.Some? && PlainUser(user.value) && !IsMarkTable(mark.table) ==> r == Ok(false)
    ensures user.Some? && PlainUser(user.value) && mark.isModifiable && mark.version != 0 && IsMarkTable(mark.table) ==>
              if mark.versions == [] then r == Err(NoVersions)
              else (r == Ok(true) <==> MadeFirstVersion(user.value, mark.versions)
                                       || (mark.job.Some? && JobLetsEdit(user.value, mark.job.value)))
    ensures user.Some? && PlainUser(user.value) && mark.isModifiable && mark.version != 0 && IsMarkTable(mark.table)
            && mark.versions != [] && !MadeFirstVersion(user.value, mark.versions) ==>
              r == (if mark.job.Some? then JobGrants(user.value, mark.job.value, true) else Ok(false))
  {
    if user.None? then Ok(false)
    else if user.value.role == Manager then Ok(true)
    else if !mark.isModifiable || mark.version == 0 then Ok(false)
    else if user.value.role == Expert then Ok(true)
    else if !IsMarkTable(mark.table) then Ok(false)
    else
      var first := Earliest(mark.versions, MarkVersionNumber);
      if first.None? then Err(NoVersions)
      else if first.value.author == Some(user.value.id) then Ok(true)
      else if mark.job.Some? then JobGrants(user.value, mark.job.value, true)
      else Ok(false)
  }

  /** A signed-in user who wrote the first version of an editable mark may edit it. */
  lemma FirstAuthorMayEdit(user: User, mark: Mark, v: MarkVersion)
    requires mark.isModifiable && mark.version != 0 && IsMarkTable(mark.table)
    requires v in mark.versions && v.author == Some(user.id)
    requires forall w :: w in mark.versions && w != v ==> v.version < w.version
    ensures CanEdit(Some(user), mark) == Ok(true)
  {
    var first := Earliest(mark.versions, MarkVersionNumber);
    assert first.value == v;
  }

  /** A signed-in user may edit an editable mark of a job whose current version lets everyone,
      or this user, edit marks; a job whose current version is missing raises instead. */
  lemma JobEditorMayEdit(user: User, mark: Mark, job: Job, jv: JobVersion)
    requires mark.isModifiable && mark.version != 0 && IsMarkTable(mark.table)
    requires mark.versions != [] && mark.job == Some(job)
    requires jv in job.versions && jv.version == job.version
    requires forall w :: w in job.versions && w.version == job.version ==> w == jv
    requires MayEditMarks(jv.globalRole) || (user.id in jv.userRoles && MayEditMarks(jv.userRoles[user.id]))
    ensures CanEdit(Some(user), mark) == Ok(true)
  {
    var last := JobVersionNumbered(job.versions, job.version);
    assert last.value == jv;
  }

  /** A plain user on an editable mark whose first version they did not write, of a job whose
      first version they did not make and which has no version with the job's current number,
      gets the `DoesNotExist` of the lookup. */
  lemma MissingJobVersionRaises(user: User, mark: Mark, job: Job)
    requires PlainUser(user)
    requires mark.isModifiable && mark.version != 0 && IsMarkTable(mark.table)
    requires mark.versions != [] && !MadeFirstVersion(user, mark.versions)
    requires mark.job == Some(job) && job.versions != []
    requires Earliest(job.versions, JobVersionNumber).value.changeAuthor != Some(user.id)
    requires forall v :: v in job.versions ==> v.version != job.version
    ensures CanEdit(Some(user), mark) == Err(NoSuchJobVersion(job.version))
  {
  }

  /** `can_create`, for a report or, with `report == None`, for no report at all. */
  function CanCreate(user: Option<User>, report: Option<Report>): (r: Result<bool, AccessError>)
    ensures user.None? ==> r == Ok(false)
    ensures report.Some? && report.value.table == ReportSafe && !report.value.job.safeMarks ==> r == Ok(false)
    ensures (user.Some? && (user.value.role == Manager || user.value.role == Expert)
              && !(report.Some? && report.value.table == ReportSafe && !report.value.job.safeMarks)) ==> r == Ok(true)
    ensures report.None? ==> r == Ok(user.Some? && (user.value.role == Manager || user.value.role == Expert))
    ensures user.Some? && PlainUser(user.value) && report.Some?
            && !(report.value.table == ReportSafe && !report.value.job.safeMarks) ==>
              && (r == Ok(true) <==> JobLetsEdit(user.value, report.value.job))
              && (r.Err? <==> report.value.job.versions == [])
  {
    if user.None? then Ok(false)
    else if report.Some? then
      if report.value.table == ReportSafe && !report.value.job.safeMarks then Ok(false)
      else if user.value.role == Manager || user.value.role == Expert then Ok(true)
      else JobGrants(user.value, report.value.job, false)
    else Ok(user.value.role == Manager || user.value.role == Expert)
  }

  /** The users who wrote a version of the mark and are still known. */
  function Authors(vs: seq<MarkVersion>): (r: set<nat>)
    ensures forall u :: u in r <==> exists v :: v in vs && v.author == Some(u)
  {
    if vs == [] then {}
    else (if vs[0].author.Some? then {vs[0].author.value} else {}) + Authors(vs[1..])
  }

  /** `can_delete`. */
  function CanDelete(user: Option<User>, mark: Mark): (r: bool)
    ensures r ==> user.Some?
    ensures user.Some? && user.value.role == Manager ==> r
    ensures user.Some? && user.value.role != Manager && (!mark.isModifiable || mark.version == 0) ==> !r
    ensures user.Some? && user.value.role == Expert && mark.isModifiable && mark.version != 0 ==> r
    ensures user.Some? && user.value.role != Manager && user.value.role != Expert ==>
              (r <==> mark.isModifiable && mark.version != 0 && Authors(mark.versions) == {user.value.id})
  {
    if user.None? then false
    else if user.value.role == Manager then true
    else if !mark.isModifiable || mark.version == 0 then false
    else if user.value.role == Expert then true
    else
      var authors := Authors(mark.versions);
      SingleMember(authors, user.value.id);
      |authors| == 1 && user.value.id in authors
  }

  /** A set of one element holding `x` is `{x}`. */
  lemma SingleMember(s: set<nat>, x: nat)
    ensures |s| == 1 && x in s <==> s == {x}
  {
    if |s| == 1 && x in s {
      assert |s - {x}| == 0;
      assert s - {x} == {};
    }
  }

  /** `can_remove_version` for the version `v` of `mark`. */
  function CanRemoveVersion(user: Option<User>, mark: Mark, v: MarkVersion): (r: bool)
    ensures r ==> user.Some? && IsMarkTable(mark.table)
    ensures r ==> v.version != 1 && v.version != mark.version && mark.version != 0
    ensures r && user.value.role != Manager ==> mark.isModifiable
    ensures r && user.value.role != Manager && user.value.role != Expert ==> v.author == Some(user.value.id)
    ensures user.Some? && IsMarkTable(mark.table) && v.version != 1 && v.version != mark.version && mark.version != 0 ==>
              (r <==> user.value.role == Manager
                      || (mark.isModifiable && (user.value.role == Expert || v.author == Some(user.value.id))))
  {
    if user.None? || !IsMarkTable(mark.table) then false
    else if v.version == 1 || v.version == mark.version || mark.version == 0 then false
    else if user.value.role == Manager then true
    else if !mark.isModifiable then false
    else if user.value.role == Expert then true
    else v.author == Some(user.value.id)
  }

  /** `can_freeze`: only managers. */
  function CanFreeze(user: Option<User>): (r: bool)
    ensures r <==> user.Some? && user.value.role == Manager
  {
    user.Some? && user.value.role == Manager
  }

  /** Whoever may freeze a mark may also edit and delete it. */
  lemma FreezerMayEditAndDelete(user: Option<User>, mark: Mark)
    requires CanFreeze(user)
    ensures CanEdit(user, mark) == Ok(true) && CanDelete(user, mark)
  {
  }

  function Promoted(user: User): User {
    User(user.id, Manager)
  }

  /** Making a user a manager takes none of their permissions away. */
  lemma PromotionKeepsPermissions(user: User, mark: Mark, report: Option<Report>, v: MarkVersion)
    ensures CanEdit(Some(user), mark) == Ok(true) ==> CanEdit(Some(Promoted(user)), mark) == Ok(true)
    ensures CanCreate(Some(user), report) == Ok(true) ==> CanCreate(Some(Promoted(user)), report) == Ok(true)
    ensures CanDelete(Some(user), mark) ==> CanDelete(Some(Promoted(user)), mark)
    ensures CanRemoveVersion(Some(user), mark, v) ==> CanRemoveVersion(Some(Promoted(user)), mark, v)
  {
  }

  /** A user who is neither manager nor expert and the only known author of a modifiable
      mark may delete it. */
  lemma SoleAuthorMayDelete(user: User, mark: Mark)
    requires user.role != Manager && user.role != Expert
    requires mark.isModifiable && mark.version != 0
    requires forall v :: v in mark.versions ==> v.author == Some(user.id)
    requires mark.versions != []
    ensures CanDelete(Some(user), mark)
  {
    assert mark.versions[0] in mark.versions;
    assert Authors(mark.versions) == {user.id};
  }

  // ---- CompareMarkVersions ----

  datatype MarkType = SafeType | UnsafeType | UnknownType

  /** What a version shows of itself: the verdict and status codes with their display titles
      (`get_verdict_display`, `get_status_display`), and its tags. */
  datatype VersionView = VersionView(
    verdict: string, verdictTitle: string, status: string, statusTitle: string, tags: set<string>)

  /** One side of a change, as the comparison page shows it. */
  datatype Change = Change(title: string, color: string)

  /** A code that is missing from a colour table (`KeyError`). */
  datatype ColorError = NoColor(code: string)

  const StatusColor: map<string, string> :=
    map["0" := "#D11919", "1" := "#FF8533", "2" := "#FF8533", "3" := "#00B800"]
  const UnsafeColor: map<string, string> :=
    map["0" := "#A739CC", "1" := "#D11919", "2" := "#D11919", "3" := "#FF8533", "4" := "#D11919", "5" := "#000000"]
  const SafeColor: map<string, string> :=
    map["0" := "#A739CC", "1" := "#FF8533", "2" := "#D11919", "3" := "#D11919", "4" := "#000000"]

  /** The pair of changes for two codes coloured from `table`, or the first code it lacks. */
  function ChangePair(table: map<string, string>, code1: string, title1: string, code2: string, title2: string)
    : (r: Result<seq<Change>, ColorError>)
    ensures r.Ok? <==> code1 in table && code2 in table
    ensures r.Ok? ==> r.value == [Change(title1, table[code1]), Change(title2, table[code2])]
    ensures code1 !in table ==> r == Err(NoColor(code1))
    ensures code1 in table && code2 !in table ==> r == Err(NoColor(code2))
  {
    if code1 !in table then Err(NoColor(code1))
    else if code2 !in table then Err(NoColor(code2))
    else Ok([Change(title1, table[code1]), Change(title2, table[code2])])
  }

  /** `__verdict_change`: nothing for unknown marks or an unchanged verdict; otherwise the two
      verdicts coloured from the safe or the unsafe table. */
  function VerdictChange(t: MarkType, v1: VersionView, v2: VersionView): (r: Result<Option<seq<Change>>, ColorError>)
    ensures t == UnknownType || v1.verdict == v2.verdict ==> r == Ok(None)
    ensures r.Ok? && r.value.Some? ==> t != UnknownType && v1.verdict != v2.verdict
    ensures r.Ok? && r.value.Some? ==>
              (|r.value.value| == 2 && r.value.value[0].title == v1.verdictTitle && r.value.value[1].title == v2.verdictTitle)
    ensures t == SafeType && v1.verdict != v2.verdict ==>
              (r.Ok? <==> v1.verdict in SafeColor && v2.verdict in SafeColor)
    ensures t == UnsafeType && v1.verdict != v2.verdict ==>
              (r.Ok? <==> v1.verdict in UnsafeColor && v2.verdict in UnsafeColor)
    ensures t != UnknownType && v1.verdict != v2.verdict ==>
              var table := if t == SafeType then SafeColor else UnsafeColor;
              v1.verdict in table && v2.verdict in table ==>
                r == Ok(Some([Change(v1.verdictTitle, table[v1.verdict]), Change(v2.verdictTitle, table[v2.verdict])]))
  {
    if t == UnknownType || v1.verdict == v2.verdict then Ok(None)
    else
      var table := if t == SafeType then SafeColor else UnsafeColor;
      var p :- ChangePair(table, v1.verdict, v1.verdictTitle, v2.verdict, v2.verdictTitle);
      Ok(Some(p))
  }

  /** `__status_change`: nothing for an unchanged status; otherwise both statuses coloured. */
  function StatusChange(v1: VersionView, v2: VersionView): (r: Result<Option<seq<Change>>, ColorError>)
    ensures v1.status == v2.status ==> r == Ok(None)
    ensures r.Ok? && r.value.Some? ==>
              (v1.status != v2.status && v1.status in StatusColor && v2.status in StatusColor && |r.value.value| == 2
               && r.value.value[0] == Change(v1.statusTitle, StatusColor[v1.status])
               && r.value.value[1] == Change(v2.statusTitle, StatusColor[v2.status]))
    ensures v1.status != v2.status ==> (r.Ok? <==> v1.status in StatusColor && v2.status in StatusColor)
    ensures v1.status != v2.status && v1.status in StatusColor && v2.status in StatusColor ==>
              r == Ok(Some([Change(v1.statusTitle, StatusColor[v1.status]), Change(v2.statusTitle, StatusColor[v2.status])]))
  {
    if v1.status == v2.status then Ok(None)
    else
      var p :- ChangePair(StatusColor, v1.status, v1.statusTitle, v2.status, v2.statusTitle);
      Ok(Some(p))
  }

  /** The tags of a version as the page lists them: sorted and joined by "; ". */
  function TagLine(tags: set<string>): string {
    Join(SortStrings(tags), "; ")
  }

  /** `__tags_change`: nothing for unknown marks or equal tag sets; otherwise both tag lines. */
  function TagsChange(t: MarkType, v1: VersionView, v2: VersionView): (r: Option<seq<string>>)
    ensures r.None? <==> t == UnknownType || v1.tags == v2.tags
    ensures r.Some? ==> r.value == [Join(SortStrings(v1.tags), "; "), Join(SortStrings(v2.tags), "; ")]
    ensures r.Some? ==> forall x :: x in v1.tags ==> Contains(r.value[0], x)
    ensures r.Some? ==> forall x :: x in v2.tags ==> Contains(r.value[1], x)
  {
    if t == UnknownType || v1.tags == v2.tags then None
    else
      TagLineMentionsEveryTag(v1.tags);
      TagLineMentionsEveryTag(v2.tags);
      Some([TagLine(v1.tags), TagLine(v2.tags)])
  }

  /** Every tag occurs in the tag line. */
  lemma TagLineMentionsEveryTag(tags: set<string>)
    ensures forall x :: x in tags ==> Contains(TagLine(tags), x)
  {
    forall x | x in tags
      ensures Contains(TagLine(tags), x)
    {
      JoinContains(SortStrings(tags), "; ", x);
    }
  }

  /** Comparing two versions the other way round swaps the two sides of every change. */
  lemma ChangesSwap(t: MarkType, v1: VersionView, v2: VersionView)
    ensures var a := VerdictChange(t, v1, v2); var b := VerdictChange(t, v2, v1);
            a.Ok? && b.Ok? && a.value.Some? ==> b.value.Some? && b.value.value == [a.value.value[1], a.value.value[0]]
    ensures var a := StatusChange(v1, v2); var b := StatusChange(v2, v1);
            a.Ok? && b.Ok? && a.value.Some? ==> b.value.Some? && b.value.value == [a.value.value[1], a.value.value[0]]
    ensures var a := TagsChange(t, v1, v2); var b := TagsChange(t, v2, v1);
            a.Some? ==> b.Some? && b.value == [a.value[1], a.value[0]]
  {
  }
}
