/** The participants page of operations: the progress percentage, one row per
    accepted application joined with its participant, the restriction to the
    user's department or company, the program and search filters, and the
    summary figures. */
module Participants {
  import opened Common

  // ---------------------------------------------------------------------------
  // Progress

  /** `calculateProgress(required, completed)`: 0 without required
      interventions, else the rounded percentage, not capped at 100. */
  function Progress(required: nat, completed: nat): (p: nat)
    ensures required == 0 ==> p == 0
    ensures required > 0 ==> required * (2 * p - 1) <= 200 * completed < required * (2 * p + 1)
    ensures required > 0 && completed <= required ==> p <= 100
    ensures required > 0 && completed == required ==> p == 100
  {
    if required == 0 then 0
    else
      RoundPercentBounds(completed, required);
      RoundPercent(completed, required)
  }

  /** More completed than required gives at least 100: the figure is not
      clamped, and it can pass 100. */
  lemma ProgressUnclamped(required: nat, completed: nat)
    requires 0 < required < completed
    ensures Progress(required, completed) >= 100
  {
    var p := Progress(required, completed);
    if p < 100 {
      MulMono(required, 2 * p + 1, 199);
    }
  }

  lemma ProgressExceeds()
    ensures Progress(1, 2) == 200
  {
    RoundPercentUnique(2, 1, 200);
  }

  // ---------------------------------------------------------------------------
  // Rows

  datatype Requirement = Requirement(id: string, departmentId: Option<string>)

  /** The stored fields of an application the page reads. An absent list is
      the empty list (`|| []`). */
  datatype Application = Application(
    participantId: string,
    applicationStatus: Option<string>,
    programId: Option<string>,
    companyCode: Option<string>,
    incubatorCode: Option<string>,
    stage: Option<string>,
    required: seq<Requirement>,
    completedIds: seq<string>,
    assignedIds: seq<string>)

  datatype ParticipantDoc = ParticipantDoc(beneficiaryName: Option<string>, sector: Option<string>, stage: Option<string>)

  const NoParticipant := ParticipantDoc(None, None, None)

  datatype Row = Row(
    id: string,
    beneficiaryName: Option<string>,
    sector: Option<string>,
    programId: string,
    companyCode: string,
    incubatorCode: string,
    required: seq<Requirement>,
    assignedCount: nat,
    completedCount: nat,
    progress: nat,
    stage: string)

  predicate IsAccepted(a: Application) {
    Lower(Or(a.applicationStatus, "")) == "accepted"
  }

  /** The row of an accepted application and its participant (an empty record
      when the participant is missing). */
  function RowOf(a: Application, participants: map<string, ParticipantDoc>): (r: Row)
    ensures r.id == a.participantId && r.required == a.required
    ensures r.assignedCount == |a.assignedIds| && r.completedCount == |a.completedIds|
    ensures r.progress == Progress(|a.required|, |a.completedIds|)
    ensures r.programId == Or(a.programId, "") && r.companyCode == Or(a.companyCode, "") && r.incubatorCode == Or(a.incubatorCode, "")
  {
    var p := if a.participantId in participants then participants[a.participantId] else NoParticipant;
    Row(a.participantId, p.beneficiaryName, p.sector, Or(a.programId, ""), Or(a.companyCode, ""),
      Or(a.incubatorCode, ""), a.required, |a.assignedIds|, |a.completedIds|,
      Progress(|a.required|, |a.completedIds|), Or(a.stage, Or(p.stage, "N/A")))
  }

  function RowsOf(apps: seq<Application>, participants: map<string, ParticipantDoc>): (r: seq<Row>)
    ensures |r| == |apps|
    ensures forall i :: 0 <= i < |apps| ==> r[i] == RowOf(apps[i], participants)
  {
    if apps == [] then [] else [RowOf(apps[0], participants)] + RowsOf(apps[1..], participants)
  }

  /** The rows: the accepted applications, in fetched order. */
  function AcceptedRows(apps: seq<Application>, participants: map<string, ParticipantDoc>): (r: seq<Row>)
    ensures |r| == Count(apps, IsAccepted) <= |apps|
  {
    CountIsFilterLength(apps, IsAccepted);
    RowsOf(Filter(apps, IsAccepted), participants)
  }

  /** One row per accepted application, and each row comes from one. */
  lemma AcceptedRowsFrom(apps: seq<Application>, participants: map<string, ParticipantDoc>)
    ensures |AcceptedRows(apps, participants)| == Count(apps, IsAccepted)
    ensures forall r :: r in AcceptedRows(apps, participants) ==>
      exists a :: a in apps && IsAccepted(a) && r == RowOf(a, participants)
  {
    CountIsFilterLength(apps, IsAccepted);
    var acc := Filter(apps, IsAccepted);
    forall r | r in AcceptedRows(apps, participants)
      ensures exists a :: a in apps && IsAccepted(a) && r == RowOf(a, participants)
    {
      var i :| 0 <= i < |acc| && AcceptedRows(apps, participants)[i] == r;
      FilterMembers(apps, IsAccepted, acc[i]);
    }
  }

  // ---------------------------------------------------------------------------
  // Department or company restriction

  datatype Department = Department(id: string, isMain: bool)

  /** The department state of the page. `NoDepartment` is its initial `null`
      and what a finished lookup without a match stores; `Found` is a match.
      `Loading` is the `undefined` the filter effect waits on: the page never
      stores it (it starts at `null`), so it is kept only to model that guard. */
  datatype DepartmentState = Loading | NoDepartment | Found(dept: Department)

  predicate InDepartment(r: Row, deptId: string) {
    exists i :: 0 <= i < |r.required| && r.required[i].departmentId == Some(deptId)
  }

  predicate OfCompany(r: Row, code: string) {
    r.companyCode == code || r.incubatorCode == code
  }

  /** The rows the page keeps: no new list in the `undefined` state (the
      previous list stays; unreachable, see `DepartmentState`), none without a
      company code, the department's rows for a non-main department, and
      otherwise the company's rows -- including before the lookup has found
      anything, since the page starts at `null`. */
  function RestrictRows(rows: seq<Row>, dept: DepartmentState, companyCode: Option<string>): (r: Option<seq<Row>>)
    ensures dept.Loading? <==> r.None?
    ensures !dept.Loading? && !Truthy(companyCode) ==> r == Some([])
    ensures r.Some? ==> IsSubsequence(r.value, rows)
    ensures r.Some? && dept.Found? && !dept.dept.isMain ==> forall i :: 0 <= i < |r.value| ==> InDepartment(r.value[i], dept.dept.id)
    ensures r.Some? && !(dept.Found? && !dept.dept.isMain) ==> forall i :: 0 <= i < |r.value| ==> OfCompany(r.value[i], companyCode.value)
  {
    if dept.Loading? then None
    else if !Truthy(companyCode) then Some([])
    else if dept.Found? && !dept.dept.isMain then
      var p := (row: Row) => InDepartment(row, dept.dept.id);
      FilterIsSubsequence(rows, p);
      Some(Filter(rows, p))
    else
      var p := (row: Row) => OfCompany(row, companyCode.value);
      FilterIsSubsequence(rows, p);
      Some(Filter(rows, p))
  }

  /** A row is kept exactly when it passes the rule that applies. */
  lemma RestrictRowsMembers(rows: seq<Row>, dept: DepartmentState, companyCode: Option<string>, row: Row)
    requires !dept.Loading? && Truthy(companyCode)
    ensures row in RestrictRows(rows, dept, companyCode).value <==>
      row in rows && (if dept.Found? && !dept.dept.isMain then InDepartment(row, dept.dept.id) else OfCompany(row, companyCode.value))
  {
    if dept.Found? && !dept.dept.isMain {
      FilterMembers(rows, (r: Row) => InDepartment(r, dept.dept.id), row);
    } else {
      FilterMembers(rows, (r: Row) => OfCompany(r, companyCode.value), row);
    }
  }

  // ---------------------------------------------------------------------------
  // Program and search filters

  predicate InProgram(r: Row, program: string) {
    program == "all" || r.programId == program
  }

  predicate MatchesSearch(r: Row, search: string) {
    Contains(Lower(Or(r.beneficiaryName, "")), Lower(search)) || Contains(Lower(Or(r.sector, "")), Lower(search))
  }

  /** `applyFilters`: the program filter unless `'all'`, then, when the search
      is not blank, the case-insensitive match on name or sector (with the
      search text as typed, untrimmed). */
  function ApplyFilters(rows: seq<Row>, program: string, search: string): (r: seq<Row>)
    ensures IsSubsequence(r, rows)
    ensures forall i :: 0 <= i < |r| ==> r[i].programId == program || program == "all"
    ensures !IsBlank(search) ==> forall i :: 0 <= i < |r| ==> MatchesSearch(r[i], search)
    ensures program == "all" && IsBlank(search) ==> r == rows
  {
    var byProgram := if program != "all" then Filter(rows, (p: Row) => p.programId == program) else rows;
    var bySearch := if !IsBlank(search) then Filter(byProgram, (p: Row) => MatchesSearch(p, search)) else byProgram;
    FilterIsSubsequence(rows, (p: Row) => p.programId == program);
    FilterIsSubsequence(byProgram, (p: Row) => MatchesSearch(p, search));
    SubsequenceRefl(rows);
    SubsequenceRefl(byProgram);
    SubsequenceTransitive(bySearch, byProgram, rows);
    forall i | 0 <= i < |bySearch|
      ensures bySearch[i].programId == program || program == "all"
    {
      SubsequenceMembers(bySearch, byProgram, bySearch[i]);
    }
    bySearch
  }

  /** A row is shown exactly when it is in the program and matches a
      non-blank search. */
  lemma ApplyFiltersMembers(rows: seq<Row>, program: string, search: string, row: Row)
    ensures row in ApplyFilters(rows, program, search) <==>
      row in rows && InProgram(row, program) && (IsBlank(search) || MatchesSearch(row, search))
  {
    var byProgram := if program != "all" then Filter(rows, (p: Row) => p.programId == program) else rows;
    FilterMembers(rows, (p: Row) => p.programId == program, row);
    FilterMembers(byProgram, (p: Row) => MatchesSearch(p, search), row);
  }

  // ---------------------------------------------------------------------------
  // Summary figures

  datatype Metrics = Metrics(totalParticipants: nat, totalRequired: nat, totalCompleted: nat, needingAssignment: nat)

  function SumRequired(rows: seq<Row>): nat {
    if rows == [] then 0 else |rows[0].required| + SumRequired(rows[1..])
  }

  function SumCompleted(rows: seq<Row>): nat {
    if rows == [] then 0 else rows[0].completedCount + SumCompleted(rows[1..])
  }

  /** The four figures; rows needing assignment are some of the rows. */
  function MetricsOf(rows: seq<Row>): (m: Metrics)
    ensures m.totalParticipants == |rows|
    ensures m.needingAssignment <= m.totalParticipants
  {
    Metrics(|rows|, SumRequired(rows), SumCompleted(rows), Count(rows, (r: Row) => r.assignedCount == 0))
  }

  /** Over the rows built from applications, the totals are the totals of the
      applications' lists. */
  lemma {:induction false} MetricsOfRows(apps: seq<Application>, participants: map<string, ParticipantDoc>)
    ensures var m := MetricsOf(RowsOf(apps, participants));
      && m.totalParticipants == |apps|
      && m.needingAssignment == Count(apps, (a: Application) => a.assignedIds == [])
      && m.totalCompleted == SumCompletedLists(apps)
  {
    if apps != [] {
      MetricsOfRows(apps[1..], participants);
      assert RowsOf(apps, participants)[1..] == RowsOf(apps[1..], participants);
    }
  }

  function SumCompletedLists(apps: seq<Application>): nat {
    if apps == [] then 0 else |apps[0].completedIds| + SumCompletedLists(apps[1..])
  }
}
