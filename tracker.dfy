/** The incubatee's application tracker: each application with the name of
    its program, the programs not yet applied to, the status figures and the
    colour of a status tag. */
module Tracker {
  import opened Common

  /** A program of the user's company. */
  datatype Program = Program(id: string, programName: Option<string>, name: Option<string>)

  /** An application of the user, as fetched. */
  datatype Application = Application(id: string, programId: Option<string>, applicationStatus: Option<string>)

  // ---------------------------------------------------------------------------
  // Program names

  /** `allPrograms.find(p => p.id === data.programId)`. */
  function FindProgram(programs: seq<Program>, programId: Option<string>): (r: Option<Program>)
    ensures r.None? <==> forall i :: 0 <= i < |programs| ==> Some(programs[i].id) != programId
    ensures r.Some? ==> exists i ::
      && 0 <= i < |programs| && programs[i] == r.value && Some(programs[i].id) == programId
      && forall j :: 0 <= j < i ==> Some(programs[j].id) != programId
  {
    if programs == [] then None
    else if Some(programs[0].id) == programId then Some(programs[0])
    else
      var r := FindProgram(programs[1..], programId);
      assert forall i :: 1 <= i < |programs| ==> programs[1..][i - 1] == programs[i];
      if r.Some? then
        var i :| 0 <= i < |programs[1..]| && programs[1..][i] == r.value && Some(programs[1..][i].id) == programId
          && forall j :: 0 <= j < i ==> Some(programs[1..][j].id) != programId;
        assert programs[i + 1] == r.value;
        r
      else r
  }

  /** The name shown for an application: the matched program's `programName`,
      else its `name`, else `'Unnamed Program'`. */
  function ProgramName(programs: seq<Program>, programId: Option<string>): (r: string)
    ensures var p := FindProgram(programs, programId);
      && (p.Some? && Truthy(p.value.programName) ==> r == p.value.programName.value)
      && (p.Some? && !Truthy(p.value.programName) && Truthy(p.value.name) ==> r == p.value.name.value)
      && (p.None? || (!Truthy(p.value.programName) && !Truthy(p.value.name)) ==> r == "Unnamed Program")
    ensures r != ""
  {
    var p := FindProgram(programs, programId);
    if p.None? then "Unnamed Program"
    else Or(p.value.programName, Or(p.value.name, "Unnamed Program"))
  }

  datatype TrackedRow = TrackedRow(app: Application, programName: string)

  function TrackedRows(apps: seq<Application>, programs: seq<Program>): (r: seq<TrackedRow>)
    ensures |r| == |apps|
    ensures forall i :: 0 <= i < |apps| ==> r[i].app == apps[i] && r[i].programName == ProgramName(programs, apps[i].programId)
  {
    seq(|apps|, i requires 0 <= i < |apps| => TrackedRow(apps[i], ProgramName(programs, apps[i].programId)))
  }

  /** An application whose program is missing shows `'Unnamed Program'`. */
  lemma UnmatchedIsUnnamed(programs: seq<Program>, a: Application)
    requires forall p :: p in programs ==> Some(p.id) != a.programId
    ensures ProgramName(programs, a.programId) == "Unnamed Program"
  {
    assert forall i :: 0 <= i < |programs| ==> programs[i] in programs;
  }

  // ---------------------------------------------------------------------------
  // Available programs

  /** `new Set(apps.map(app => app.programId))`, less the absent ids, which no
      program id equals. */
  function AppliedIds(apps: seq<Application>): (r: set<string>)
    ensures forall id :: id in r <==> exists a :: a in apps && a.programId == Some(id)
  {
    set a | a in apps && a.programId.Some? :: a.programId.value
  }

  predicate NotApplied(apps: seq<Application>, p: Program) {
    p.id !in AppliedIds(apps)
  }

  /** The programs the user has not applied to, in fetched order. */
  function AvailablePrograms(programs: seq<Program>, apps: seq<Application>): (r: seq<Program>)
    ensures IsSubsequence(r, programs)
    ensures forall i :: 0 <= i < |r| ==> forall a :: a in apps ==> a.programId != Some(r[i].id)
  {
    FilterIsSubsequence(programs, (p: Program) => NotApplied(apps, p));
    Filter(programs, (p: Program) => NotApplied(apps, p))
  }

  /** A program is available exactly when no application names it. */
  lemma AvailableMembers(programs: seq<Program>, apps: seq<Application>, p: Program)
    ensures p in AvailablePrograms(programs, apps) <==>
      p in programs && forall a :: a in apps ==> a.programId != Some(p.id)
  {
    FilterMembers(programs, (q: Program) => NotApplied(apps, q), p);
  }

  /** Every program is either available or applied to, never both. */
  lemma AvailableOrApplied(programs: seq<Program>, apps: seq<Application>)
    ensures Count(programs, (p: Program) => NotApplied(apps, p)) + Count(programs, (p: Program) => !NotApplied(apps, p)) == |programs|
    ensures |AvailablePrograms(programs, apps)| == Count(programs, (p: Program) => NotApplied(apps, p))
  {
    var avail := (p: Program) => NotApplied(apps, p);
    var taken := (p: Program) => !NotApplied(apps, p);
    var any := (p: Program) => avail(p) || taken(p);
    CountUnion(programs, avail, taken, any);
    CountAll(programs, any);
    CountIsFilterLength(programs, avail);
  }

  // ---------------------------------------------------------------------------
  // Status figures and colour

  /** `app.applicationStatus?.toLowerCase() === status`. */
  function HasStatus(status: string): (f: Application -> bool)
    ensures forall a: Application :: f(a) ==> a.applicationStatus.Some?
    ensures forall a: Application :: a.applicationStatus == Some(status) && Lower(status) == status ==> f(a)
  {
    (a: Application) => a.applicationStatus.Some? && Lower(a.applicationStatus.value) == status
  }

  datatype StatusCounts = StatusCounts(accepted: nat, declined: nat, pending: nat, total: nat)

  /** `statusCounts`: case-insensitive counts of three statuses, and the total.
      The three never add up to more than the total. */
  function CountStatuses(apps: seq<Application>): (c: StatusCounts)
    ensures c.total == |apps|
    ensures c.accepted + c.declined + c.pending <= c.total
  {
    var accepted, declined, pending := HasStatus("accepted"), HasStatus("declined"), HasStatus("pending");
    var two := (a: Application) => accepted(a) || declined(a);
    var three := (a: Application) => two(a) || pending(a);
    CountUnion(apps, accepted, declined, two);
    CountUnion(apps, two, pending, three);
    StatusCounts(Count(apps, accepted), Count(apps, declined), Count(apps, pending), |apps|)
  }

  /** Applications whose statuses differ only in letter case. */
  predicate SameUpToCase(xs: seq<Application>, ys: seq<Application>) {
    |xs| == |ys| && forall i :: 0 <= i < |xs| ==>
      (xs[i].applicationStatus.Some? <==> ys[i].applicationStatus.Some?)
      && (xs[i].applicationStatus.Some? ==> Lower(xs[i].applicationStatus.value) == Lower(ys[i].applicationStatus.value))
  }

  lemma {:induction false} CountUpToCase(xs: seq<Application>, ys: seq<Application>, status: string)
    requires SameUpToCase(xs, ys)
    ensures Count(xs, HasStatus(status)) == Count(ys, HasStatus(status))
  {
    if xs != [] {
      assert SameUpToCase(xs[1..], ys[1..]) by {
        forall i | 0 <= i < |xs| - 1 ensures xs[1..][i] == xs[i + 1] && ys[1..][i] == ys[i + 1] { }
      }
      CountUpToCase(xs[1..], ys[1..], status);
    }
  }

  /** The figures do not depend on the letter case of the statuses. */
  lemma CountsCaseInsensitive(xs: seq<Application>, ys: seq<Application>)
    requires SameUpToCase(xs, ys)
    ensures CountStatuses(xs) == CountStatuses(ys)
  {
    CountUpToCase(xs, ys, "accepted");
    CountUpToCase(xs, ys, "declined");
    CountUpToCase(xs, ys, "pending");
  }

  datatype Colour = Green | Red | Gold

  /** The colour of a status tag. */
  function StatusColour(status: Option<string>): (c: Colour)
    ensures c == Green <==> status.Some? && Lower(status.value) == "accepted"
    ensures c == Red <==> status.Some? && Lower(status.value) == "declined"
  {
    if status.None? then Gold
    else
      var s := Lower(status.value);
      if s == "accepted" then Green else if s == "declined" then Red else Gold
  }

  /** The tags agree with the figures: green tags are the accepted count and
      red tags the declined count. */
  lemma {:induction false} ColoursMatchCounts(apps: seq<Application>)
    ensures Count(apps, (a: Application) => StatusColour(a.applicationStatus) == Green) == CountStatuses(apps).accepted
    ensures Count(apps, (a: Application) => StatusColour(a.applicationStatus) == Red) == CountStatuses(apps).declined
  {
    CountCongruent(apps, (a: Application) => StatusColour(a.applicationStatus) == Green, HasStatus("accepted"));
    CountCongruent(apps, (a: Application) => StatusColour(a.applicationStatus) == Red, HasStatus("declined"));
  }
}
