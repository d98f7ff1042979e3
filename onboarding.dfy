/** The participant registration form: the age band, the seven required
    documents with their compliance score and the 10% threshold for submission,
    the upload step, and the grouping of the company's interventions by area of
    support. The document list is the form's state, the class `DocumentForm`. */
module Onboarding {
  import opened Common
  import opened CalendarEntries
  import opened Grouping

  // ---------------------------------------------------------------------------
  // Age bands

  datatype AgeGroup = Youth | Adult | Senior

  /** `getAgeGroup`. An absent or non-numeric age compares false with both
      bounds, so it falls through to `Senior`. */
  function AgeGroupOf(age: Option<int>): (g: AgeGroup)
    ensures g == Youth <==> age.Some? && age.value <= 35
    ensures g == Adult <==> age.Some? && 36 <= age.value <= 59
    ensures g == Senior <==> age.None? || age.value >= 60
  {
    if age.Some? && age.value <= 35 then Youth
    else if age.Some? && age.value <= 59 then Adult
    else Senior
  }

  /** The bands are ordered: an older applicant is never in a younger band. */
  lemma AgeGroupMonotone(a: int, b: int)
    requires a <= b
    ensures AgeGroupOf(Some(a)) == Adult ==> AgeGroupOf(Some(b)) != Youth
    ensures AgeGroupOf(Some(a)) == Senior ==> AgeGroupOf(Some(b)) == Senior
  {
  }

  // ---------------------------------------------------------------------------
  // Documents and compliance

  const DocumentTypes: seq<string> := ["Certified ID Copy", "Proof of Address", "B-BBEE Certificate",
    "Tax PIN", "CIPC", "Management Accounts", "Three Months Bank Statements"]

  const MillisPerWeek := 7 * MillisPerDay

  /** One row of the document step: the chosen file (by name) and the two dates. */
  datatype DocumentField = DocumentField(kind: string, file: Option<string>, issueDate: Option<Moment>, expiryDate: Option<Moment>)

  /** A file and an issue date are present. */
  predicate Complete(d: DocumentField) {
    d.file.Some? && d.issueDate.Some?
  }

  /** The expiry date is within a week from `now` (or already passed). */
  predicate ExpiresWithinWeek(d: DocumentField, now: Moment) {
    d.expiryDate.Some? && d.expiryDate.value <= now + MillisPerWeek
  }

  /** A document that counts: complete, and either without expiry or expiring
      more than a week from now. */
  predicate Counts(d: DocumentField, now: Moment) {
    Complete(d) && (d.expiryDate.None? || d.expiryDate.value > now + MillisPerWeek)
  }

  /** `calculateCompliance`: the share of the seven document types that count,
      as a rounded percentage. With at most seven fields the division by seven
      then multiplication by 100 never lands on a half, so rounding the exact
      quotient gives the same integer. */
  function ComplianceRate(fields: seq<DocumentField>, now: Moment): (r: nat)
    ensures |fields| <= |DocumentTypes| ==> r <= 100
    ensures r == 0 <==> Count(fields, (d: DocumentField) => Counts(d, now)) == 0
    ensures Count(fields, (d: DocumentField) => Counts(d, now)) == |DocumentTypes| ==> r == 100
  {
    var c := Count(fields, (d: DocumentField) => Counts(d, now));
    RoundPercentBounds(c, |DocumentTypes|);
    assert c > 0 ==> RoundPercent(c, |DocumentTypes|) >= 10 by {
      if c > 0 {
        RoundPercentPositive(c, |DocumentTypes|);
      }
    }
    RoundPercent(c, |DocumentTypes|)
  }

  /** With at most seven types, one counting document already rounds to 14. */
  lemma RoundPercentPositive(c: nat, r: nat)
    requires 0 < c && 0 < r <= 7
    ensures RoundPercent(c, r) >= 10
  {
    var p := RoundPercent(c, r);
    if p < 10 {
      assert 2 * p + 1 <= 19;
      MulMono(r, 2 * p + 1, 19);
      MulMono(c, 1, c);
    }
  }

  /** `getExpiredDocuments`: the rows with an expiry date no later than a week
      from now. */
  function ExpiredDocuments(fields: seq<DocumentField>, now: Moment): (r: seq<DocumentField>)
    ensures forall i :: 0 <= i < |r| ==> r[i].expiryDate.Some? && r[i].expiryDate.value <= now + MillisPerWeek
    ensures forall d :: d in r <==> d in fields && ExpiresWithinWeek(d, now)
  {
    var expiring := (d: DocumentField) => ExpiresWithinWeek(d, now);
    FilterIff(fields, expiring);
    Filter(fields, expiring)
  }

  /** A complete document with an expiry date counts exactly when it is not
      listed as expired, and the complete documents split into those that count
      and those listed as expired. */
  lemma ExpiredIffNotCounted(fields: seq<DocumentField>, now: Moment, d: DocumentField)
    requires d in fields && Complete(d) && d.expiryDate.Some?
    ensures Counts(d, now) <==> d !in ExpiredDocuments(fields, now)
    ensures Count(fields, (e: DocumentField) => Counts(e, now))
      + Count(fields, (e: DocumentField) => Complete(e) && ExpiresWithinWeek(e, now))
      == Count(fields, Complete)
  {
    FilterMembers(fields, (e: DocumentField) => ExpiresWithinWeek(e, now), d);
    CountUnion(fields, (e: DocumentField) => Counts(e, now),
      (e: DocumentField) => Complete(e) && ExpiresWithinWeek(e, now), Complete);
  }

  // ---------------------------------------------------------------------------
  // Upload and submission

  /** A stored document record: the type, the two dates and the status. */
  datatype UploadedDoc = UploadedDoc(kind: string, issueDay: int, expiryDay: Option<int>, status: string)

  function RecordOf(d: DocumentField): (u: UploadedDoc)
    requires Complete(d)
    ensures u.kind == d.kind && u.status == "valid" && u.issueDay == DayOf(d.issueDate.value)
  {
    UploadedDoc(d.kind, DayOf(d.issueDate.value),
      if d.expiryDate.Some? then Some(DayOf(d.expiryDate.value)) else None, "valid")
  }

  /** The records `uploadAllDocuments` returns: complete rows whose upload
      succeeded (`uploaded[i]` is the outcome of the storage call for row i). */
  function Uploads(fields: seq<DocumentField>, uploaded: seq<bool>): (r: seq<UploadedDoc>)
    requires |uploaded| == |fields|
    ensures |r| <= |fields|
    ensures forall i :: 0 <= i < |r| ==> r[i].status == "valid"
    decreases |fields|
  {
    if fields == [] then []
    else
      var last := |fields| - 1;
      Uploads(fields[..last], uploaded[..last])
        + (if Complete(fields[last]) && uploaded[last] then [RecordOf(fields[last])] else [])
  }

  /** Every record comes from a complete row of the form, so an incomplete row is
      never uploaded, and with every upload succeeding each complete row gives
      one record. */
  lemma {:induction false} UploadsFromComplete(fields: seq<DocumentField>, uploaded: seq<bool>)
    requires |uploaded| == |fields|
    ensures forall u :: u in Uploads(fields, uploaded) ==> exists d :: d in fields && Complete(d) && u == RecordOf(d)
    ensures (forall i :: 0 <= i < |uploaded| ==> uploaded[i]) ==> |Uploads(fields, uploaded)| == Count(fields, Complete)
    decreases |fields|
  {
    if fields != [] {
      var last := |fields| - 1;
      UploadsFromComplete(fields[..last], uploaded[..last]);
      assert forall d :: d in fields[..last] ==> d in fields;
      CountSnoc(fields[..last], fields[last], Complete);
      assert fields[..last] + [fields[last]] == fields;
    }
  }

  /** `uploadAllDocuments`: skips rows without a file or an issue date. */
  method UploadAll(fields: seq<DocumentField>, uploaded: seq<bool>) returns (docs: seq<UploadedDoc>)
    requires |uploaded| == |fields|
    ensures docs == Uploads(fields, uploaded)
  {
    docs := [];
    var i := 0;
    while i < |fields|
      invariant 0 <= i <= |fields|
      invariant docs == Uploads(fields[..i], uploaded[..i])
    {
      assert fields[..i + 1][..i] == fields[..i] && uploaded[..i + 1][..i] == uploaded[..i];
      var d := fields[i];
      if Complete(d) && uploaded[i] {
        docs := docs + [RecordOf(d)];
      }
      i := i + 1;
    }
    assert fields[..i] == fields && uploaded[..i] == uploaded;
  }

  datatype Submission =
    | Refused(message: string)
    | Submitted(complianceRate: nat, documents: seq<UploadedDoc>)

  /** `handleSubmit` after validation: a rate under 10 refuses before anything
      is uploaded. */
  method Submit(fields: seq<DocumentField>, now: Moment, uploaded: seq<bool>) returns (s: Submission)
    requires |uploaded| == |fields|
    ensures s.Refused? <==> ComplianceRate(fields, now) < 10
    ensures s.Submitted? ==> s.complianceRate == ComplianceRate(fields, now) && s.documents == Uploads(fields, uploaded)
  {
    var rate := ComplianceRate(fields, now);
    if rate < 10 {
      return Refused("Compliance must be 10% or higher to approve this application.");
    }
    var docs := UploadAll(fields, uploaded);
    s := Submitted(rate, docs);
  }

  /** With the seven document rows, submission is refused exactly when no
      document counts. */
  lemma ThresholdMeansOneDocument(fields: seq<DocumentField>, now: Moment)
    requires |fields| <= |DocumentTypes|
    ensures ComplianceRate(fields, now) < 10 <==> Count(fields, (d: DocumentField) => Counts(d, now)) == 0
  {
    var c := Count(fields, (d: DocumentField) => Counts(d, now));
    if c > 0 {
      RoundPercentPositive(c, |DocumentTypes|);
    }
  }

  // ---------------------------------------------------------------------------
  // The document step's state

  function InitialFields(): (r: seq<DocumentField>)
    ensures |r| == |DocumentTypes|
    ensures forall i :: 0 <= i < |r| ==> r[i].kind == DocumentTypes[i] && r[i].file.None?
  {
    seq(|DocumentTypes|, i requires 0 <= i < |DocumentTypes| => DocumentField(DocumentTypes[i], None, None, None))
  }

  class DocumentForm {
    var fields: seq<DocumentField>

    /** One row per document type, in the order of the type list. */
    ghost predicate Valid()
      reads this
    {
      |fields| == |DocumentTypes| && forall i :: 0 <= i < |fields| ==> fields[i].kind == DocumentTypes[i]
    }

    constructor ()
      ensures Valid()
      ensures fields == InitialFields()
    {
      fields := InitialFields();
    }

    /** `handleDateChange(date, field, index)`: sets one date of one row. */
    method DateChange(date: Option<Moment>, issue: bool, index: nat)
      requires index < |fields|
      modifies this
      ensures |fields| == |old(fields)|
      ensures forall i :: 0 <= i < |fields| && i != index ==> fields[i] == old(fields)[i]
      ensures issue ==> fields[index] == old(fields)[index].(issueDate := date)
      ensures !issue ==> fields[index] == old(fields)[index].(expiryDate := date)
      ensures old(Valid()) ==> Valid()
    {
      var d := fields[index];
      var updated := if issue then DocumentField(d.kind, d.file, date, d.expiryDate)
                     else DocumentField(d.kind, d.file, d.issueDate, date);
      fields := fields[index := updated];
    }

    /** `handleFileUpload(file, index)`, and the remove button with `file`
        absent: sets the file of one row. */
    method SetFile(file: Option<string>, index: nat)
      requires index < |fields|
      modifies this
      ensures |fields| == |old(fields)|
      ensures forall i :: 0 <= i < |fields| && i != index ==> fields[i] == old(fields)[i]
      ensures fields[index] == old(fields)[index].(file := file)
      ensures old(Valid()) ==> Valid()
    {
      var d := fields[index];
      fields := fields[index := DocumentField(d.kind, file, d.issueDate, d.expiryDate)];
    }
  }

  // ---------------------------------------------------------------------------
  // Interventions grouped by area of support

  datatype RawIntervention = RawIntervention(id: string, title: Option<string>, area: Option<string>)

  datatype InterventionRef = InterventionRef(id: string, title: Option<string>)

  datatype AreaGroup = AreaGroup(area: string, interventions: seq<InterventionRef>)

  /** The property name an area becomes: an absent area is `"undefined"`. */
  function AreaKey(x: RawIntervention): string {
    if x.area.Some? then x.area.value else "undefined"
  }

  function RefOf(x: RawIntervention): InterventionRef {
    InterventionRef(x.id, x.title)
  }

  /** The interventions of one area. */
  function InArea(area: string): RawIntervention -> bool {
    KeptWith(AnyIntervention, AreaKey, area)
  }

  /** Every intervention is grouped. */
  predicate AnyIntervention(x: RawIntervention) {
    true
  }

  function AreasOf(groups: seq<AreaGroup>): (r: seq<string>)
    ensures |r| == |groups| && forall i :: 0 <= i < |groups| ==> r[i] == groups[i].area
  {
    seq(|groups|, i requires 0 <= i < |groups| => groups[i].area)
  }

  /** The references of the interventions of one area, in fetched order. */
  function RefsIn(raw: seq<RawIntervention>, area: string): seq<InterventionRef> {
    GroupValues(raw, AnyIntervention, AreaKey, RefOf, area)
  }

  /** The grouping: areas in order of first appearance, each once, each with
      the references of its interventions in fetched order; the areas are
      those of the interventions, and the groups together hold one reference
      per intervention. */
  method GroupByArea(raw: seq<RawIntervention>) returns (groups: seq<AreaGroup>)
    ensures forall i, j :: 0 <= i < j < |groups| ==> groups[i].area != groups[j].area
    ensures forall i :: 0 <= i < |groups| ==> groups[i].interventions == RefsIn(raw, groups[i].area)
    ensures forall a :: a in AreasOf(groups) <==> exists k :: 0 <= k < |raw| && AreaKey(raw[k]) == a
    ensures SumSizes(raw, AnyIntervention, AreaKey, RefOf, AreasOf(groups)) == |raw|
    ensures forall i, j, m :: 0 <= i < j < |groups| && 0 <= m < |raw| && AreaKey(raw[m]) == groups[j].area ==>
      exists n :: 0 <= n < m && AreaKey(raw[n]) == groups[i].area
  {
    var areas, areaMap := GroupBy(raw, AnyIntervention, AreaKey, RefOf);
    groups := seq(|areas|, i requires 0 <= i < |areas| => AreaGroup(areas[i], areaMap[areas[i]]));
    assert AreasOf(groups) == areas;
    forall a
      ensures a in areas <==> exists k :: 0 <= k < |raw| && AreaKey(raw[k]) == a
    {
      KeysOfMembers(raw, AnyIntervention, AreaKey, a);
    }
    GroupSizes(raw, AnyIntervention, AreaKey, RefOf, areas);
    KeysOfCount(raw, AnyIntervention, AreaKey);
    CountAll(raw, AnyIntervention);
    forall i, j, m | 0 <= i < j < |groups| && 0 <= m < |raw| && AreaKey(raw[m]) == groups[j].area
      ensures exists n :: 0 <= n < m && AreaKey(raw[n]) == groups[i].area
    {
      AreaBefore(raw, areas, i, j, m);
    }
  }

  /** An area listed before another occurs earlier in `raw`, given that the
      areas are in order of first appearance among the interventions' areas. */
  lemma AreaBefore(raw: seq<RawIntervention>, areas: seq<string>, i: nat, j: nat, m: nat)
    requires FirstAppearanceOrder(areas, KeysOf(raw, AnyIntervention, AreaKey))
    requires i < j < |areas| && m < |raw| && AreaKey(raw[m]) == areas[j]
    ensures exists n :: 0 <= n < m && AreaKey(raw[n]) == areas[i]
  {
    var ks := KeysOf(raw, AnyIntervention, AreaKey);
    KeysOfAll(raw, AnyIntervention, AreaKey);
    assert ks[m] == areas[j];
    assert areas[i] in ks[..m];
    var n :| 0 <= n < m && ks[..m][n] == areas[i];
    assert ks[n] == AreaKey(raw[n]);
  }

  /** An area holds as many references as it has interventions. */
  lemma RefsInCount(raw: seq<RawIntervention>, area: string)
    ensures |RefsIn(raw, area)| == Count(raw, InArea(area))
  {
    GroupValuesCount(raw, AnyIntervention, AreaKey, RefOf, area);
  }

  /** Every intervention lands in exactly one group: the one of its area. */
  lemma GroupsPartition(raw: seq<RawIntervention>, groups: seq<AreaGroup>, k: nat)
    requires k < |raw|
    requires forall i, j :: 0 <= i < j < |groups| ==> groups[i].area != groups[j].area
    requires forall i :: 0 <= i < |groups| ==> groups[i].interventions == RefsIn(raw, groups[i].area)
    requires forall a :: a in AreasOf(groups) <==> exists k :: 0 <= k < |raw| && AreaKey(raw[k]) == a
    ensures exists i :: 0 <= i < |groups| && groups[i].area == AreaKey(raw[k]) && RefOf(raw[k]) in groups[i].interventions
    ensures forall i, j :: 0 <= i < |groups| && 0 <= j < |groups| && groups[i].area == AreaKey(raw[k]) && groups[j].area == AreaKey(raw[k]) ==> i == j
  {
    assert AreaKey(raw[k]) in AreasOf(groups);
    var i :| 0 <= i < |groups| && AreasOf(groups)[i] == AreaKey(raw[k]);
    GroupValuesHas(raw, AnyIntervention, AreaKey, RefOf, k);
  }
}
