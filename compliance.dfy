/** The compliance screen of operations: the documents of the company's
    applications flattened into one list, the search and status filter, the
    per-status figures, the grouping of outstanding documents into one
    reminder per contact email, and the verification of a document. The
    document list is the screen's state, the class `ComplianceScreen`. */
module Compliance {
  import opened Common
  import opened Grouping

  // ---------------------------------------------------------------------------
  // Documents

  /** A compliance document as stored in an application. The optional fields
      are the ones that, when present, take the place of the values the screen
      fills in itself. */
  datatype StoredDoc = StoredDoc(
    id: Option<string>,
    participantName: Option<string>,
    participantId: Option<string>,
    kind: string,
    status: string)

  /** The fields of an application the screen reads. */
  datatype Application = Application(
    id: string,
    companyCode: Option<string>,
    email: string,
    participantId: Option<string>,
    complianceDocuments: seq<StoredDoc>)

  /** A row of the document table. */
  datatype ComplianceDocument = ComplianceDocument(
    id: string,
    participantName: string,
    participantId: Option<string>,
    kind: string,
    status: string,
    lastVerifiedBy: Option<string>,
    lastVerifiedAt: Option<string>)

  /** The id the screen gives the document at `index` of application `appId`. */
  function RowId(appId: string, index: nat): string {
    appId + "-" + NatText(index)
  }

  /** The row of a stored document: the screen's id, name and participant,
      each replaced by the document's own field when it has one at all (a
      field written before `...doc` loses to the document's, empty or not). */
  function RowOf(app: Application, index: nat, d: StoredDoc): ComplianceDocument {
    ComplianceDocument(
      ValueOr(d.id, RowId(app.id, index)),
      ValueOr(d.participantName, app.email),
      if d.participantId.Some? then d.participantId else app.participantId,
      d.kind, d.status, None, None)
  }

  function RowsOfApp(app: Application): (r: seq<ComplianceDocument>)
    ensures |r| == |app.complianceDocuments|
    ensures forall i :: 0 <= i < |r| ==> r[i] == RowOf(app, i, app.complianceDocuments[i])
  {
    seq(|app.complianceDocuments|, i requires 0 <= i < |app.complianceDocuments| => RowOf(app, i, app.complianceDocuments[i]))
  }

  /** Whether the screen takes an application's documents: the company codes
      are equal (two absent codes are equal too) and the user's department is
      the main one. */
  predicate Takes(app: Application, companyCode: Option<string>, isMain: bool) {
    companyCode == app.companyCode && isMain
  }

  /** The flattened list: the rows of each application taken, in fetched order.
      A user outside the main department sees no rows at all. */
  function Flatten(apps: seq<Application>, companyCode: Option<string>, isMain: bool): (r: seq<ComplianceDocument>)
    ensures !isMain ==> r == []
    decreases |apps|
  {
    if apps == [] then []
    else
      var last := |apps| - 1;
      Flatten(apps[..last], companyCode, isMain) + (if Takes(apps[last], companyCode, isMain) then RowsOfApp(apps[last]) else [])
  }

  /** The loops of the fetch: for each application taken, one row per stored
      document. */
  method FlattenDocuments(apps: seq<Application>, companyCode: Option<string>, isMain: bool)
    returns (rows: seq<ComplianceDocument>)
    ensures rows == Flatten(apps, companyCode, isMain)
  {
    rows := [];
    var i := 0;
    while i < |apps|
      invariant 0 <= i <= |apps|
      invariant rows == Flatten(apps[..i], companyCode, isMain)
    {
      var app := apps[i];
      assert apps[..i + 1][..i] == apps[..i];
      if Takes(app, companyCode, isMain) {
        var docs := app.complianceDocuments;
        var j := 0;
        while j < |docs|
          invariant 0 <= j <= |docs|
          invariant rows == Flatten(apps[..i], companyCode, isMain) + RowsOfApp(app)[..j]
        {
          rows := rows + [RowOf(app, j, docs[j])];
          assert RowsOfApp(app)[..j + 1] == RowsOfApp(app)[..j] + [RowOf(app, j, docs[j])];
          j := j + 1;
        }
        assert RowsOfApp(app)[..j] == RowsOfApp(app);
      }
      i := i + 1;
    }
    assert apps[..i] == apps;
  }

  /** Every row comes from a stored document of an application taken. */
  lemma {:induction false} FlattenFrom(apps: seq<Application>, companyCode: Option<string>, isMain: bool, r: ComplianceDocument)
    requires r in Flatten(apps, companyCode, isMain)
    ensures exists a, j ::
      && 0 <= a < |apps| && Takes(apps[a], companyCode, isMain)
      && 0 <= j < |apps[a].complianceDocuments| && r == RowOf(apps[a], j, apps[a].complianceDocuments[j])
    decreases |apps|
  {
    var last := |apps| - 1;
    var init := apps[..last];
    if r in Flatten(init, companyCode, isMain) {
      FlattenFrom(init, companyCode, isMain, r);
      var a, j :| 0 <= a < |init| && Takes(init[a], companyCode, isMain)
        && 0 <= j < |init[a].complianceDocuments| && r == RowOf(init[a], j, init[a].complianceDocuments[j]);
      assert init[a] == apps[a];
    } else {
      var j :| 0 <= j < |RowsOfApp(apps[last])| && RowsOfApp(apps[last])[j] == r;
    }
  }

  /** Every stored document of an application taken has its row. */
  lemma {:induction false} FlattenHas(apps: seq<Application>, companyCode: Option<string>, isMain: bool, a: nat, j: nat)
    requires a < |apps| && Takes(apps[a], companyCode, isMain) && j < |apps[a].complianceDocuments|
    ensures RowOf(apps[a], j, apps[a].complianceDocuments[j]) in Flatten(apps, companyCode, isMain)
    decreases |apps|
  {
    var last := |apps| - 1;
    if a < last {
      assert apps[..last][a] == apps[a];
      FlattenHas(apps[..last], companyCode, isMain, a, j);
    } else {
      assert RowsOfApp(apps[a])[j] == RowOf(apps[a], j, apps[a].complianceDocuments[j]);
    }
  }

  /** The position of the last dash, or -1. */
  function LastDash(s: string): (r: int)
    ensures -1 <= r < |s|
  {
    if s == [] then -1
    else if s[|s| - 1] == '-' then |s| - 1
    else LastDash(s[..|s| - 1])
  }

  /** The last dash of `a-d` is the one before `d` when `d` is all digits. */
  lemma {:induction false} LastDashBeforeDigits(a: string, d: string)
    requires forall i :: 0 <= i < |d| ==> IsDigit(d[i])
    ensures LastDash(a + "-" + d) == |a|
    decreases |d|
  {
    var s := a + "-" + d;
    if d != [] {
      assert s[..|s| - 1] == a + "-" + d[..|d| - 1];
      assert s[|s| - 1] == d[|d| - 1];
      LastDashBeforeDigits(a, d[..|d| - 1]);
    }
  }

  /** `appId-index`: the digits after the last dash fix both parts. */
  lemma RowIdSplit(a1: string, i1: nat, a2: string, i2: nat)
    requires RowId(a1, i1) == RowId(a2, i2)
    ensures a1 == a2 && i1 == i2
  {
    var d1, d2 := NatText(i1), NatText(i2);
    var s := RowId(a1, i1);
    LastDashBeforeDigits(a1, d1);
    LastDashBeforeDigits(a2, d2);
    assert a1 == s[..|a1|] && a2 == s[..|a2|];
    assert d1 == s[|a1| + 1..] && d2 == s[|a2| + 1..];
    NatTextInjective(i1, i2);
  }

  predicate DistinctAppIds(apps: seq<Application>) {
    forall a, b :: 0 <= a < b < |apps| ==> apps[a].id != apps[b].id
  }

  /** No stored document brings its own id. */
  predicate NoStoredIds(apps: seq<Application>) {
    forall a, j :: 0 <= a < |apps| && 0 <= j < |apps[a].complianceDocuments| ==> apps[a].complianceDocuments[j].id.None?
  }

  predicate DistinctRowIds(rows: seq<ComplianceDocument>) {
    forall i, j :: 0 <= i < j < |rows| ==> rows[i].id != rows[j].id
  }

  /** With distinct application ids, and no stored document bringing its own
      id, the rows have distinct ids. */
  lemma {:induction false} FlattenIdsDistinct(apps: seq<Application>, companyCode: Option<string>, isMain: bool)
    requires DistinctAppIds(apps) && NoStoredIds(apps)
    ensures DistinctRowIds(Flatten(apps, companyCode, isMain))
    decreases |apps|
  {
    if apps != [] {
      var last := |apps| - 1;
      var init := apps[..last];
      var app := apps[last];
      assert DistinctAppIds(init) && NoStoredIds(init) by {
        forall a | 0 <= a < |init| ensures init[a] == apps[a] { }
      }
      FlattenIdsDistinct(init, companyCode, isMain);
      if Takes(app, companyCode, isMain) {
        var front := Flatten(init, companyCode, isMain);
        var back := RowsOfApp(app);
        assert forall m :: 0 <= m < |app.complianceDocuments| ==> app.complianceDocuments[m].id.None?;
        forall k1, k2 | 0 <= k1 < k2 < |back| ensures back[k1].id != back[k2].id {
          BackIdsDistinct(app, k1, k2);
        }
        assert forall a :: 0 <= a < |init| ==> init[a].id != app.id by {
          forall a | 0 <= a < |init| ensures init[a].id != app.id { assert init[a] == apps[a]; }
        }
        forall r, k | r in front && 0 <= k < |back| ensures r.id != back[k].id {
          FrontIdNotBack(init, app, companyCode, isMain, r, k);
        }
        AppendDistinct(front, back);
      }
    }
  }

  /** Two lists of rows with distinct ids, no id shared between them, join
      into a list with distinct ids. */
  lemma AppendDistinct(front: seq<ComplianceDocument>, back: seq<ComplianceDocument>)
    requires DistinctRowIds(front) && DistinctRowIds(back)
    requires forall r, k :: r in front && 0 <= k < |back| ==> r.id != back[k].id
    ensures DistinctRowIds(front + back)
  {
    var rows := front + back;
    forall i, j | 0 <= i < j < |rows| ensures rows[i].id != rows[j].id {
      if i >= |front| {
        assert rows[i] == back[i - |front|] && rows[j] == back[j - |front|];
      } else if j >= |front| {
        assert rows[i] in front && rows[j] == back[j - |front|];
      }
    }
  }

  /** Two rows of one application differ in the index part of their ids. */
  lemma BackIdsDistinct(app: Application, k1: nat, k2: nat)
    requires k1 < k2 < |app.complianceDocuments|
    requires app.complianceDocuments[k1].id.None? && app.complianceDocuments[k2].id.None?
    ensures RowsOfApp(app)[k1].id != RowsOfApp(app)[k2].id
  {
    var back := RowsOfApp(app);
    assert back[k1].id == RowId(app.id, k1) && back[k2].id == RowId(app.id, k2);
    if back[k1].id == back[k2].id {
      RowIdSplit(app.id, k1, app.id, k2);
    }
  }

  /** A row of an earlier application differs in the application part of its id. */
  lemma FrontIdNotBack(init: seq<Application>, app: Application, companyCode: Option<string>, isMain: bool,
                       r: ComplianceDocument, k: nat)
    requires r in Flatten(init, companyCode, isMain)
    requires NoStoredIds(init) && forall a :: 0 <= a < |init| ==> init[a].id != app.id
    requires k < |app.complianceDocuments| && app.complianceDocuments[k].id.None?
    ensures r.id != RowsOfApp(app)[k].id
  {
    FlattenFrom(init, companyCode, isMain, r);
    var a, m :| 0 <= a < |init| && Takes(init[a], companyCode, isMain)
      && 0 <= m < |init[a].complianceDocuments| && r == RowOf(init[a], m, init[a].complianceDocuments[m]);
    assert r.id == RowId(init[a].id, m) && RowsOfApp(app)[k].id == RowId(app.id, k);
    if r.id == RowsOfApp(app)[k].id {
      RowIdSplit(init[a].id, m, app.id, k);
    }
  }

  // ---------------------------------------------------------------------------
  // Search and status filter

  /** An entry of the list of document types. */
  datatype DocumentType = DocumentType(value: string, name: string)

  predicate Names(t: DocumentType, kind: string) {
    t.value == kind || t.name == kind
  }

  /** The label of the first type named by `kind`, else `''`. */
  function TypeLabel(types: seq<DocumentType>, kind: string): (r: string)
    ensures r == "" || exists i :: 0 <= i < |types| && Names(types[i], kind) && r == types[i].name
    ensures (forall i :: 0 <= i < |types| ==> !Names(types[i], kind)) ==> r == ""
    ensures forall i :: 0 <= i < |types| && Names(types[i], kind) && (forall j :: 0 <= j < i ==> !Names(types[j], kind)) ==> r == types[i].name
  {
    if types == [] then ""
    else if Names(types[0], kind) then types[0].name
    else
      var r := TypeLabel(types[1..], kind);
      assert forall i :: 1 <= i < |types| ==> types[1..][i - 1] == types[i];
      r
  }

  predicate MatchesSearch(d: ComplianceDocument, search: string, types: seq<DocumentType>) {
    var needle := Lower(search);
    search == ""
      || Contains(Lower(d.participantName), needle)
      || Contains(Lower(d.kind), needle)
      || Contains(Lower(TypeLabel(types, d.kind)), needle)
  }

  predicate MatchesStatus(d: ComplianceDocument, selected: Option<string>) {
    !Truthy(selected) || d.status == selected.value
  }

  predicate Shown(d: ComplianceDocument, search: string, selected: Option<string>, types: seq<DocumentType>) {
    MatchesSearch(d, search, types) && MatchesStatus(d, selected)
  }

  /** `filteredDocuments`: the documents that match the search and the status,
      in list order; with no search and no status, all of them. */
  function FilteredDocuments(docs: seq<ComplianceDocument>, search: string, selected: Option<string>, types: seq<DocumentType>)
    : (r: seq<ComplianceDocument>)
    ensures IsSubsequence(r, docs)
    ensures Truthy(selected) ==> forall i :: 0 <= i < |r| ==> r[i].status == selected.value
    ensures search == "" && !Truthy(selected) ==> r == docs
  {
    var p := (d: ComplianceDocument) => Shown(d, search, selected, types);
    FilterIsSubsequence(docs, p);
    assert search == "" && !Truthy(selected) ==> Filter(docs, p) == docs by {
      if search == "" && !Truthy(selected) {
        FilterAll(docs, p);
      }
    }
    Filter(docs, p)
  }

  /** A document is shown exactly when it matches the search and the status. */
  lemma FilteredMembers(docs: seq<ComplianceDocument>, search: string, selected: Option<string>, types: seq<DocumentType>, d: ComplianceDocument)
    ensures d in FilteredDocuments(docs, search, selected, types) <==> d in docs && Shown(d, search, selected, types)
  {
    FilterMembers(docs, (x: ComplianceDocument) => Shown(x, search, selected, types), d);
  }

  /** A non-empty search shows a document whose type has a label containing
      the text, even when neither its name nor its type do. */
  lemma SearchFindsLabel(d: ComplianceDocument, search: string, types: seq<DocumentType>, i: nat)
    requires i < |types| && Names(types[i], d.kind) && forall j :: 0 <= j < i ==> !Names(types[j], d.kind)
    requires Contains(Lower(types[i].name), Lower(search))
    ensures MatchesSearch(d, search, types)
  {
  }

  // ---------------------------------------------------------------------------
  // Figures

  datatype Stats = Stats(total: nat, valid: nat, expiring: nat, expired: nat, missing: nat, pending: nat)

  function WithStatus(status: string): ComplianceDocument -> bool {
    (d: ComplianceDocument) => d.status == status
  }

  /** `complianceStats`: the number of documents and of each status. The five
      statuses are different, so the five counts never add up to more than
      the total. */
  function StatsOf(docs: seq<ComplianceDocument>): (s: Stats)
    ensures s.total == |docs|
    ensures s.valid + s.expiring + s.expired + s.missing + s.pending <= s.total
    ensures s.valid == Count(docs, WithStatus("valid")) && s.pending == Count(docs, WithStatus("pending"))
  {
    var valid, expiring, expired, missing, pending :=
      WithStatus("valid"), WithStatus("expiring"), WithStatus("expired"), WithStatus("missing"), WithStatus("pending");
    var two := (d: ComplianceDocument) => valid(d) || expiring(d);
    var three := (d: ComplianceDocument) => two(d) || expired(d);
    var four := (d: ComplianceDocument) => three(d) || missing(d);
    var five := (d: ComplianceDocument) => four(d) || pending(d);
    CountUnion(docs, valid, expiring, two);
    CountUnion(docs, two, expired, three);
    CountUnion(docs, three, missing, four);
    CountUnion(docs, four, pending, five);
    Stats(|docs|, Count(docs, valid), Count(docs, expiring), Count(docs, expired), Count(docs, missing), Count(docs, pending))
  }

  // ---------------------------------------------------------------------------
  // Reminders

  datatype Contact = Contact(name: Option<string>, email: Option<string>)

  predicate IsProblematic(d: ComplianceDocument) {
    d.status in ["missing", "expired", "pending"]
  }

  /** `contactInfoMap[doc.participantId]?.email`; an absent participant id is
      looked up as the property `"undefined"`. */
  function ContactEmail(contacts: map<string, Contact>, d: ComplianceDocument): Option<string> {
    var key := ValueOr(d.participantId, "undefined");
    if key in contacts then contacts[key].email else None
  }

  /** Documents that get a reminder: outstanding, with a contact email. */
  function NeedsReminder(contacts: map<string, Contact>): ComplianceDocument -> bool {
    (d: ComplianceDocument) => IsProblematic(d) && Truthy(ContactEmail(contacts, d))
  }

  function ReminderKey(contacts: map<string, Contact>): ComplianceDocument -> string {
    (d: ComplianceDocument) => Or(ContactEmail(contacts, d), "")
  }

  function Same(d: ComplianceDocument): ComplianceDocument {
    d
  }

  /** The documents of one reminder, in list order. */
  function ReminderDocs(docs: seq<ComplianceDocument>, contacts: map<string, Contact>, email: string): seq<ComplianceDocument> {
    GroupValues(docs, NeedsReminder(contacts), ReminderKey(contacts), Same, email)
  }

  /** `remindersByUser`, with its emails in the order `Object.entries` lists
      them: each email once, exactly the emails of the documents that need a
      reminder, each with those documents in list order; together the
      reminders hold one entry per document that needs one. */
  method GroupReminders(docs: seq<ComplianceDocument>, contacts: map<string, Contact>)
    returns (emails: seq<string>, byEmail: map<string, seq<ComplianceDocument>>)
    ensures forall i, j :: 0 <= i < j < |emails| ==> emails[i] != emails[j]
    ensures forall e :: e in byEmail <==> e in emails
    ensures forall e :: e in byEmail ==> byEmail[e] == ReminderDocs(docs, contacts, e)
    ensures forall e :: e in emails <==>
      exists i :: 0 <= i < |docs| && NeedsReminder(contacts)(docs[i]) && ContactEmail(contacts, docs[i]) == Some(e)
    ensures SumSizes(docs, NeedsReminder(contacts), ReminderKey(contacts), Same, emails) == Count(docs, NeedsReminder(contacts))
  {
    emails, byEmail := GroupBy(docs, NeedsReminder(contacts), ReminderKey(contacts), Same);
    forall e
      ensures e in emails <==>
        exists i :: 0 <= i < |docs| && NeedsReminder(contacts)(docs[i]) && ContactEmail(contacts, docs[i]) == Some(e)
    {
      KeysOfMembers(docs, NeedsReminder(contacts), ReminderKey(contacts), e);
    }
    GroupSizes(docs, NeedsReminder(contacts), ReminderKey(contacts), Same, emails);
    KeysOfCount(docs, NeedsReminder(contacts), ReminderKey(contacts));
  }

  /** A document that needs a reminder is in the reminder of its contact's
      email, and a reminder holds only outstanding documents of that email. */
  lemma ReminderPlacement(docs: seq<ComplianceDocument>, contacts: map<string, Contact>, email: string, d: ComplianceDocument)
    ensures d in ReminderDocs(docs, contacts, email) <==>
      d in docs && IsProblematic(d) && ContactEmail(contacts, d) == Some(email) && email != ""
  {
    if d in ReminderDocs(docs, contacts, email) {
      GroupValuesFrom(docs, NeedsReminder(contacts), ReminderKey(contacts), Same, email, d);
    }
    if d in docs && IsProblematic(d) && ContactEmail(contacts, d) == Some(email) && email != "" {
      var i :| 0 <= i < |docs| && docs[i] == d;
      GroupValuesHas(docs, NeedsReminder(contacts), ReminderKey(contacts), Same, i);
    }
  }

  // ---------------------------------------------------------------------------
  // Verification

  /** The list after verifying `id` on day `today`. */
  function Verified(docs: seq<ComplianceDocument>, id: string, today: string): (r: seq<ComplianceDocument>)
    ensures |r| == |docs|
    ensures forall i :: 0 <= i < |docs| && docs[i].id != id ==> r[i] == docs[i]
    ensures forall i :: 0 <= i < |docs| && docs[i].id == id ==>
      r[i] == docs[i].(status := "valid", lastVerifiedBy := Some("Current User"), lastVerifiedAt := Some(today))
  {
    seq(|docs|, i requires 0 <= i < |docs| =>
      if docs[i].id == id then docs[i].(status := "valid", lastVerifiedBy := Some("Current User"), lastVerifiedAt := Some(today))
      else docs[i])
  }

  /** Verifying twice is verifying once. */
  lemma VerifiedIdempotent(docs: seq<ComplianceDocument>, id: string, today: string)
    ensures Verified(Verified(docs, id, today), id, today) == Verified(docs, id, today)
  {
  }

  /** Verifying never lowers the count of valid documents, and only changes
      the documents with that id. */
  lemma {:induction false} VerifiedValidCount(docs: seq<ComplianceDocument>, id: string, today: string)
    ensures Count(Verified(docs, id, today), WithStatus("valid"))
      == Count(docs, (d: ComplianceDocument) => d.status == "valid" || d.id == id)
  {
    if docs != [] {
      VerifiedValidCount(docs[1..], id, today);
      assert Verified(docs, id, today)[1..] == Verified(docs[1..], id, today);
    }
  }

  // ---------------------------------------------------------------------------
  // The screen's state

  datatype User = User(companyCode: Option<string>)

  datatype DepartmentInfo = DepartmentInfo(isMain: bool)

  class ComplianceScreen {
    var documents: seq<ComplianceDocument>

    constructor()
      ensures documents == []
    {
      documents := [];
    }

    /** The fetch: nothing happens before the user and the department are
        known or when the read fails (`fetched` is `None`); otherwise the list
        becomes the flattened documents. */
    method Load(user: Option<User>, dept: Option<DepartmentInfo>, fetched: Option<seq<Application>>)
      modifies this
      ensures user.None? || dept.None? || fetched.None? ==> documents == old(documents)
      ensures user.Some? && dept.Some? && fetched.Some? ==>
        documents == Flatten(fetched.value, user.value.companyCode, dept.value.isMain)
    {
      if user.Some? && dept.Some? && fetched.Some? {
        documents := FlattenDocuments(fetched.value, user.value.companyCode, dept.value.isMain);
      }
    }

    /** `handleVerifyDocument`: the store is written first (`stored` says
        whether that succeeded); the list changes only after a successful
        write. */
    method VerifyDocument(id: string, today: string, stored: bool)
      modifies this
      ensures documents == if stored then Verified(old(documents), id, today) else old(documents)
    {
      if stored {
        documents := Verified(documents, id, today);
      }
    }
  }
}
