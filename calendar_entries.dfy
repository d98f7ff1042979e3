/** Indicative-calendar entries as the calendar screen holds them after loading:
    the conversion of stored timestamps, the normalisation of a stored document
    into an entry, the status aggregation used for grouped sessions, and the
    post-fetch clean-up (deduplication by id, then the tenant filter). */
module CalendarEntries {
  import opened Common

  /** An instant, in milliseconds since the epoch (what `Dayjs.valueOf()` gives). */
  type Moment = int

  const MillisPerDay: int := 86400000

  /** The largest distance from the epoch a JavaScript `Date` can hold. */
  const MaxTime: int := 8640000000000000

  /** The day an instant falls on; `format('YYYY-MM-DD')` of the instant is an
      injective, order-preserving rendering of this number. */
  function DayOf(m: Moment): (d: int)
    ensures d * MillisPerDay <= m < (d + 1) * MillisPerDay
  {
    m / MillisPerDay
  }

  /** Two instants of the same day are never more than a day apart, and a later
      day holds only later instants. */
  lemma {:induction false} DayOfMonotone(m1: Moment, m2: Moment)
    requires m1 <= m2
    ensures DayOf(m1) <= DayOf(m2)
  {
    var d1, d2 := DayOf(m1), DayOf(m2);
    MulStrict(d1, d2 + 1, MillisPerDay);
  }

  lemma MulStrict(a: int, b: int, c: int)
    requires c > 0 && a * c < b * c
    ensures a < b
  {
  }

  // ---------------------------------------------------------------------------
  // tsToDayjs

  /** A stored date field as it may arrive: absent or null, a Firestore
      `Timestamp`, some other object with a `toDate()` method, a number of
      milliseconds, or a string. Parsing a date string is not modelled: the
      instant `new Date(text)` denotes is carried beside the text (`None` when
      it is not a valid date). */
  datatype RawTime =
    | Absent
    | Timestamp(millis: Moment)
    | DateLike(millis: Moment)
    | Number(n: int)
    | Text(text: string, parsed: Option<Moment>)

  /** JavaScript falsiness of the raw value: `undefined`, `null`, `0` and `""`. */
  predicate Falsy(t: RawTime) {
    t.Absent? || (t.Number? && t.n == 0) || (t.Text? && t.text == "")
  }

  /** `tsToDayjs`: falsy values give no date; timestamps and date-like objects
      give their instant; anything else goes through `new Date(...)` and gives
      no date when that is invalid. */
  function ToMoment(t: RawTime): (r: Option<Moment>)
    ensures Falsy(t) ==> r.None?
    ensures (t.Timestamp? || t.DateLike?) ==> r == Some(t.millis)
    ensures t.Number? && r.Some? ==> r.value == t.n && -MaxTime <= t.n <= MaxTime
  {
    if Falsy(t) then None
    else match t
      case Timestamp(m) => Some(m)
      case DateLike(m) => Some(m)
      case Number(n) => if -MaxTime <= n <= MaxTime then Some(n) else None
      case Text(_, p) => p
      case Absent => None
  }

  /** The epoch itself stored as the number 0 is falsy and is lost, while any
      other representable instant stored as a number survives unchanged. */
  lemma {:induction false} NumberRoundTrip(n: int)
    ensures ToMoment(Number(n)) == if n != 0 && -MaxTime <= n <= MaxTime then Some(n) else None
  {
  }

  // ---------------------------------------------------------------------------
  // Entries

  /** A stored calendar document, as `d.data()` returns it, with its document id. */
  datatype Doc = Doc(
    docId: string,
    id: Option<string>,
    participantId: string,
    beneficiaryName: Option<string>,
    interventionId: string,
    interventionTitle: Option<string>,
    areaOfSupport: Option<string>,
    entryType: Option<string>,
    targetDate: RawTime,
    implementationDate: RawTime,
    isRecurring: Option<bool>,
    frequency: Option<string>,
    subtitle: Option<string>,
    coordinatorId: Option<string>,
    coordinatorName: Option<string>,
    companyCode: Option<string>,
    status: Option<string>)

  /** `IndicativeEntry`. An absent or null optional field is `None`. */
  datatype Entry = Entry(
    id: string,
    participantId: string,
    beneficiaryName: Option<string>,
    interventionId: string,
    interventionTitle: Option<string>,
    areaOfSupport: Option<string>,
    entryType: Option<string>,
    targetDate: Option<Moment>,
    implementationDate: Option<Moment>,
    isRecurring: bool,
    frequency: Option<string>,
    subtitle: Option<string>,
    coordinatorId: Option<string>,
    coordinatorName: Option<string>,
    companyCode: Option<string>,
    status: Option<string>)

  /** `pushDoc` (and the same object literal in the export of all entries): the
      stored `id` field when truthy, else the document id; both dates through
      `tsToDayjs`; `isRecurring` coerced with `!!`. */
  function EntryOfDoc(d: Doc): (e: Entry)
    ensures e.id == Or(d.id, d.docId)
    ensures e.targetDate == ToMoment(d.targetDate)
    ensures e.implementationDate == ToMoment(d.implementationDate)
    ensures e.isRecurring <==> d.isRecurring == Some(true)
    ensures e.companyCode == d.companyCode && e.status == d.status
  {
    Entry(Or(d.id, d.docId), d.participantId, d.beneficiaryName, d.interventionId,
          d.interventionTitle, d.areaOfSupport, d.entryType,
          ToMoment(d.targetDate), ToMoment(d.implementationDate),
          d.isRecurring == Some(true), d.frequency, d.subtitle, d.coordinatorId,
          d.coordinatorName, d.companyCode, d.status)
  }

  function EntriesOfDocs(ds: seq<Doc>): (es: seq<Entry>)
    ensures |es| == |ds|
    ensures forall i :: 0 <= i < |ds| ==> es[i] == EntryOfDoc(ds[i])
  {
    seq(|ds|, i requires 0 <= i < |ds| => EntryOfDoc(ds[i]))
  }

  /** `r.type === 'grouped'`. */
  predicate IsGrouped(e: Entry) {
    e.entryType == Some("grouped")
  }

  /** `r.implementationDate || r.targetDate`: the instant that places an entry on
      the calendar, if any. */
  function PlacedAt(e: Entry): (m: Option<Moment>)
    ensures e.implementationDate.Some? ==> m == e.implementationDate
    ensures e.implementationDate.None? ==> m == e.targetDate
  {
    if e.implementationDate.Some? then e.implementationDate else e.targetDate
  }

  /** The entry is placed on day `d`. */
  predicate OnDay(e: Entry, d: int) {
    PlacedAt(e).Some? && DayOf(PlacedAt(e).value) == d
  }

  // ---------------------------------------------------------------------------
  // statusAggregate

  /** `(v || 'planned').toLowerCase()`. */
  function NormStatus(v: Option<string>): string {
    Lower(Or(v, "planned"))
  }

  /** Every normalised status equals the first one (and there is a first one). */
  predicate Uniform(statuses: seq<Option<string>>) {
    |statuses| > 0 && forall i :: 0 <= i < |statuses| ==> NormStatus(statuses[i]) == NormStatus(statuses[0])
  }

  /** `statusAggregate`: the common normalised status when the set of normalised
      statuses has exactly one element, else `'processing'`. */
  function StatusAggregate(statuses: seq<Option<string>>): (r: string)
    ensures Uniform(statuses) ==> r == NormStatus(statuses[0])
    ensures !Uniform(statuses) ==> r == "processing"
  {
    var s := seq(|statuses|, i requires 0 <= i < |statuses| => NormStatus(statuses[i]));
    var uniq := set v | v in s;
    assert |uniq| == 1 <==> Uniform(statuses) by {
      assert forall i :: 0 <= i < |s| ==> s[i] == NormStatus(statuses[i]);
      SingletonSet(s, uniq);
    }
    if |uniq| == 1 then s[0] else "processing"
  }

  /** The set of elements of a sequence has one element exactly when the
      sequence is non-empty and constant. */
  lemma SingletonSet(s: seq<string>, uniq: set<string>)
    requires uniq == set v | v in s
    ensures |uniq| == 1 <==> |s| > 0 && forall i :: 0 <= i < |s| ==> s[i] == s[0]
  {
    if |s| > 0 && forall i :: 0 <= i < |s| ==> s[i] == s[0] {
      assert uniq == {s[0]};
    }
    if |uniq| == 1 {
      assert s != [];
      forall i | 0 <= i < |s|
        ensures s[i] == s[0]
      {
        if s[i] != s[0] {
          assert {s[0], s[i]} <= uniq;
          assert |{s[0], s[i]}| == 2;
          SubsetCard({s[0], s[i]}, uniq);
          assert false;
        }
      }
    }
  }

  lemma SubsetCard(a: set<string>, b: set<string>)
    requires a <= b
    ensures |a| <= |b|
  {
    assert b == a + (b - a);
  }

  /** The aggregate is always lower case. */
  lemma {:induction false} StatusAggregateLowerCase(statuses: seq<Option<string>>)
    ensures Lower(StatusAggregate(statuses)) == StatusAggregate(statuses)
  {
    if Uniform(statuses) {
      LowerIdempotent(Or(statuses[0], "planned"));
    } else {
      assert Lower("processing") == "processing";
    }
  }

  /** A missing status alone aggregates to `'planned'`; nothing at all to
      `'processing'`. */
  lemma {:induction false} StatusAggregateEdges(v: Option<string>)
    ensures StatusAggregate([v]) == NormStatus(v)
    ensures StatusAggregate([None]) == "planned"
    ensures StatusAggregate([]) == "processing"
  {
    assert Uniform([v]);
    assert Uniform([None]);
    assert Lower("planned") == "planned";
  }

  /** Adding one status to a non-empty list: the aggregate stays when the new
      status agrees with it, and becomes `'processing'` otherwise. This is what
      lets a grouped item recompute its status after each merge. */
  lemma {:induction false} StatusAggregateSnoc(statuses: seq<Option<string>>, v: Option<string>)
    requires |statuses| > 0
    ensures StatusAggregate(statuses + [v]) ==
            if StatusAggregate(statuses) == NormStatus(v) then NormStatus(v) else "processing"
  {
    var t := statuses + [v];
    assert t[0] == statuses[0] && t[|t| - 1] == v;
    if Uniform(statuses) {
      if NormStatus(v) == NormStatus(statuses[0]) {
        assert forall i :: 0 <= i < |t| ==> NormStatus(t[i]) == NormStatus(t[0]) by {
          forall i | 0 <= i < |t|
            ensures NormStatus(t[i]) == NormStatus(t[0])
          {
            if i < |statuses| { assert t[i] == statuses[i]; }
          }
        }
      } else {
        assert !Uniform(t);
      }
    } else {
      var j :| 0 <= j < |statuses| && NormStatus(statuses[j]) != NormStatus(statuses[0]);
      assert t[j] == statuses[j];
      assert !Uniform(t);
    }
  }

  // ---------------------------------------------------------------------------
  // Post-fetch clean-up

  /** Position of the last entry with id `id`. */
  function LastIndex(rows: seq<Entry>, id: string): (k: int)
    ensures -1 <= k < |rows|
    ensures k >= 0 ==> rows[k].id == id && forall j :: k < j < |rows| ==> rows[j].id != id
    ensures k == -1 ==> forall j :: 0 <= j < |rows| ==> rows[j].id != id
  {
    if rows == [] then -1
    else if rows[|rows| - 1].id == id then |rows| - 1
    else LastIndex(rows[..|rows| - 1], id)
  }

  /** Position of the first entry with id `id`. */
  function FirstIndex(rows: seq<Entry>, id: string): (k: int)
    ensures -1 <= k < |rows|
    ensures k >= 0 ==> rows[k].id == id && forall j :: 0 <= j < k ==> rows[j].id != id
    ensures k == -1 ==> forall j :: 0 <= j < |rows| ==> rows[j].id != id
  {
    if rows == [] then -1
    else if rows[0].id == id then 0
    else var k := FirstIndex(rows[1..], id); if k == -1 then -1 else k + 1
  }

  predicate UniqueIds(es: seq<Entry>) {
    forall i, j :: 0 <= i < j < |es| ==> es[i].id != es[j].id
  }

  /** `rows.forEach(r => dedup.set(r.id, r))` followed by `[...dedup.values()]`:
      a `Map` keeps each key at the position it was first set and holds the value
      it was last set to. The result has one entry per distinct id, ordered by
      first occurrence, and each is the last entry pushed with that id. */
  method Dedup(rows: seq<Entry>) returns (out: seq<Entry>)
    ensures UniqueIds(out)
    ensures forall e :: e in rows ==> exists i :: 0 <= i < |out| && out[i].id == e.id
    ensures forall i :: 0 <= i < |out| ==> 0 <= LastIndex(rows, out[i].id) && out[i] == rows[LastIndex(rows, out[i].id)]
    ensures forall i, j :: 0 <= i < j < |out| ==> FirstIndex(rows, out[i].id) < FirstIndex(rows, out[j].id)
  {
    var keys, values := SetAll(rows);
    out := ValuesInOrder(keys, values);
    DedupOutput(rows, keys, values);
  }

  /** `rows.forEach(r => dedup.set(r.id, r))` on an empty `Map`: its key order
      and its contents afterwards. */
  method SetAll(rows: seq<Entry>) returns (keys: seq<string>, values: map<string, Entry>)
    ensures DedupState(rows, keys, values)
  {
    keys, values := [], map[];
    var n := 0;
    while n < |rows|
      invariant n <= |rows|
      invariant DedupState(rows[..n], keys, values)
    {
      var r := rows[n];
      DedupStep(rows, n, keys, values);
      if r.id !in values {
        keys := keys + [r.id];
      }
      values := values[r.id := r];
      n := n + 1;
    }
    assert rows[..n] == rows;
  }

  /** `[...map.values()]`: the values in key order. */
  function ValuesInOrder(keys: seq<string>, values: map<string, Entry>): (out: seq<Entry>)
    requires forall i :: 0 <= i < |keys| ==> keys[i] in values
    ensures |out| == |keys|
    ensures forall i :: 0 <= i < |keys| ==> out[i] == values[keys[i]]
  {
    seq(|keys|, i requires 0 <= i < |keys| => values[keys[i]])
  }

  /** Reading the map out once every row has been set into it. */
  lemma DedupOutput(rows: seq<Entry>, keys: seq<string>, values: map<string, Entry>)
    requires DedupState(rows, keys, values)
    ensures forall i :: 0 <= i < |keys| ==> keys[i] in values
    ensures var out := ValuesInOrder(keys, values);
      && UniqueIds(out)
      && (forall e :: e in rows ==> exists i :: 0 <= i < |out| && out[i].id == e.id)
      && (forall i :: 0 <= i < |out| ==> 0 <= LastIndex(rows, out[i].id) && out[i] == rows[LastIndex(rows, out[i].id)])
      && (forall i, j :: 0 <= i < j < |out| ==> FirstIndex(rows, out[i].id) < FirstIndex(rows, out[j].id))
  {
    assert forall i :: 0 <= i < |keys| ==> keys[i] in values;
    var out := ValuesInOrder(keys, values);
    forall i | 0 <= i < |out|
      ensures out[i].id == keys[i]
    {
      assert values[keys[i]] == rows[LastIndex(rows, keys[i])];
    }
    forall e | e in rows
      ensures exists i :: 0 <= i < |out| && out[i].id == e.id
    {
      var j :| 0 <= j < |rows| && rows[j] == e;
      assert e.id in values;
      var i :| 0 <= i < |keys| && keys[i] == e.id;
      assert out[i].id == e.id;
    }
  }

  /** What the `Map` holds after the rows `seen` have been set into it, in order:
      `keys` is its key order and `values` its contents. */
  ghost predicate DedupState(seen: seq<Entry>, keys: seq<string>, values: map<string, Entry>) {
    KeysMatch(keys, values) && LastValues(seen, values) && FirstOrder(seen, keys)
  }

  /** The key order lists each key of the map once. */
  ghost predicate KeysMatch(keys: seq<string>, values: map<string, Entry>) {
    && values.Keys == (set k | k in keys)
    && (forall i, j :: 0 <= i < j < |keys| ==> keys[i] != keys[j])
  }

  /** Every id seen is a key, holding the last row seen with that id. */
  ghost predicate LastValues(seen: seq<Entry>, values: map<string, Entry>) {
    && (forall j :: 0 <= j < |seen| ==> seen[j].id in values)
    && (forall k :: k in values ==> 0 <= LastIndex(seen, k) && values[k] == seen[LastIndex(seen, k)])
  }

  /** Keys are ordered by the first row seen with each. */
  ghost predicate FirstOrder(seen: seq<Entry>, keys: seq<string>) {
    Increasing(Firsts(seen, keys))
  }

  /** The position of the first row seen with each key. */
  function Firsts(seen: seq<Entry>, keys: seq<string>): (f: seq<int>)
    ensures |f| == |keys|
    ensures forall i :: 0 <= i < |keys| ==> f[i] == FirstIndex(seen, keys[i])
  {
    seq(|keys|, i requires 0 <= i < |keys| => FirstIndex(seen, keys[i]))
  }

  predicate Increasing(f: seq<int>) {
    && (forall i :: 0 <= i < |f| ==> 0 <= f[i])
    && (forall i, j :: 0 <= i < j < |f| ==> f[i] < f[j])
  }

  /** Setting one more row: a new id is appended to the key order, and the value
      under the row's id becomes the row. */
  lemma DedupStep(rows: seq<Entry>, n: nat, keys: seq<string>, values: map<string, Entry>)
    requires n < |rows|
    requires DedupState(rows[..n], keys, values)
    ensures var r := rows[n];
      DedupState(rows[..n + 1], if r.id in values then keys else keys + [r.id], values[r.id := r])
  {
    var seen, r := rows[..n], rows[n];
    assert seen + [r] == rows[..n + 1];
    StepKeys(r, keys, values);
    StepLast(seen, r, values);
    StepKnown(seen, r, values);
    StepFirst(seen, r, keys, r.id in values);
  }

  /** An id that is not yet a key has not been seen. */
  lemma StepKnown(seen: seq<Entry>, r: Entry, values: map<string, Entry>)
    requires LastValues(seen, values)
    ensures r.id !in values ==> FirstIndex(seen, r.id) == -1
  {
  }

  lemma StepKeys(r: Entry, keys: seq<string>, values: map<string, Entry>)
    requires KeysMatch(keys, values)
    ensures KeysMatch(if r.id in values then keys else keys + [r.id], values[r.id := r])
  {
  }

  lemma StepLast(seen: seq<Entry>, r: Entry, values: map<string, Entry>)
    requires LastValues(seen, values)
    ensures LastValues(seen + [r], values[r.id := r])
  {
    var t := seen + [r];
    LastIndexExtend(seen, r);
    forall j | 0 <= j < |t|
      ensures t[j].id in values[r.id := r]
    {
      if j < |seen| { assert t[j] == seen[j]; }
    }
    forall k | k in values[r.id := r]
      ensures 0 <= LastIndex(t, k) && values[r.id := r][k] == t[LastIndex(t, k)]
    {
      if k != r.id {
        assert t[LastIndex(seen, k)] == seen[LastIndex(seen, k)];
      }
    }
  }

  lemma StepFirst(seen: seq<Entry>, r: Entry, keys: seq<string>, known: bool)
    requires FirstOrder(seen, keys)
    requires !known ==> FirstIndex(seen, r.id) == -1
    ensures FirstOrder(seen + [r], if known then keys else keys + [r.id])
  {
    var t := seen + [r];
    FirstsExtend(seen, r, keys);
    if !known {
      FirstIndexExtend(seen, r, r.id);
      assert Firsts(t, keys + [r.id]) == Firsts(t, keys) + [|seen|];
      IncreasingSnoc(Firsts(seen, keys), |seen|);
    }
  }

  /** Rows seen later do not move the first position of a key already seen. */
  lemma FirstsExtend(seen: seq<Entry>, r: Entry, keys: seq<string>)
    requires forall i :: 0 <= i < |keys| ==> 0 <= FirstIndex(seen, keys[i])
    ensures Firsts(seen + [r], keys) == Firsts(seen, keys)
  {
    forall i | 0 <= i < |keys|
      ensures FirstIndex(seen + [r], keys[i]) == FirstIndex(seen, keys[i])
    {
      FirstIndexExtend(seen, r, keys[i]);
    }
  }

  lemma IncreasingSnoc(f: seq<int>, x: int)
    requires Increasing(f) && 0 <= x && forall i :: 0 <= i < |f| ==> f[i] < x
    ensures Increasing(f + [x])
  {
    assert forall i :: 0 <= i < |f| ==> (f + [x])[i] == f[i];
  }

  lemma LastIndexExtend(s: seq<Entry>, x: Entry)
    ensures forall k :: LastIndex(s + [x], k) == if k == x.id then |s| else LastIndex(s, k)
  {
    forall k
      ensures LastIndex(s + [x], k) == if k == x.id then |s| else LastIndex(s, k)
    {
      assert (s + [x])[..|s|] == s;
    }
  }

  lemma {:induction false} FirstIndexExtend(s: seq<Entry>, x: Entry, k: string)
    ensures FirstIndex(s, k) >= 0 ==> FirstIndex(s + [x], k) == FirstIndex(s, k)
    ensures FirstIndex(s, k) == -1 && x.id == k ==> FirstIndex(s + [x], k) == |s|
  {
    if s == [] {
      assert [] + [x] == [x];
    } else {
      assert (s + [x])[0] == s[0];
      assert (s + [x])[1..] == s[1..] + [x];
      FirstIndexExtend(s[1..], x, k);
    }
  }

  /** `r.companyCode === companyCode`, as a predicate on entries. */
  function OfTenant(companyCode: Option<string>): Entry -> bool {
    (e: Entry) => e.companyCode == companyCode
  }

  /** The tenant filter: with a (truthy) company code, keep only entries whose
      `companyCode` is that code; without one, keep everything. */
  function TenantFilter(es: seq<Entry>, companyCode: Option<string>): (r: seq<Entry>)
    ensures Truthy(companyCode) ==> forall i :: 0 <= i < |r| ==> r[i].companyCode == companyCode
    ensures !Truthy(companyCode) ==> r == es
    ensures IsSubsequence(r, es)
  {
    if Truthy(companyCode) then
      FilterIsSubsequence(es, OfTenant(companyCode));
      Filter(es, OfTenant(companyCode))
    else
      SubsequenceRefl(es);
      es
  }

  /** An entry of the right tenant is never dropped by the filter. */
  lemma TenantFilterKeeps(es: seq<Entry>, companyCode: Option<string>, e: Entry)
    requires e in es
    requires !Truthy(companyCode) || e.companyCode == companyCode
    ensures e in TenantFilter(es, companyCode)
  {
    if Truthy(companyCode) {
      FilterMembers(es, OfTenant(companyCode), e);
    }
  }

  /** `loadMonth`: the error is cleared, then either both queries succeed
      (`fetched`) and their results are normalised, the target-date matches
      first, deduplicated and filtered by tenant; or the fetch throws, and the
      entries are emptied and the error is the thrown message, or a fixed text
      when it has none. */
  method LoadMonth(snap1: seq<Doc>, snap2: seq<Doc>, companyCode: Option<string>, fetched: bool, thrown: Option<string>)
    returns (entries: seq<Entry>, error: Option<string>)
    ensures fetched <==> error.None?
    ensures !fetched ==> entries == [] && error == Some(Or(thrown, "Failed to load calendar data"))
    ensures UniqueIds(entries)
    ensures Truthy(companyCode) ==> forall i :: 0 <= i < |entries| ==> entries[i].companyCode == companyCode
    ensures var rows := EntriesOfDocs(snap1 + snap2);
      forall i :: 0 <= i < |entries| ==>
        0 <= LastIndex(rows, entries[i].id) && entries[i] == rows[LastIndex(rows, entries[i].id)]
    ensures var rows := EntriesOfDocs(snap1 + snap2);
      forall e :: fetched && e in rows && (!Truthy(companyCode) || rows[LastIndex(rows, e.id)].companyCode == companyCode) ==>
        exists i :: 0 <= i < |entries| && entries[i].id == e.id
  {
    error := None;
    if !fetched {
      entries := [];
      error := Some(Or(thrown, "Failed to load calendar data"));
      return;
    }
    var rows := EntriesOfDocs(snap1 + snap2);
    var unique := Dedup(rows);
    entries := TenantFilter(unique, companyCode);
    SubsequenceUnique(entries, unique);
    forall i | 0 <= i < |entries|
      ensures 0 <= LastIndex(rows, entries[i].id) && entries[i] == rows[LastIndex(rows, entries[i].id)]
    {
      SubsequenceMembers(entries, unique, entries[i]);
    }
    forall e | e in rows && (!Truthy(companyCode) || rows[LastIndex(rows, e.id)].companyCode == companyCode)
      ensures exists i :: 0 <= i < |entries| && entries[i].id == e.id
    {
      var k :| 0 <= k < |unique| && unique[k].id == e.id;
      TenantFilterKeeps(unique, companyCode, unique[k]);
      var i :| 0 <= i < |entries| && entries[i] == unique[k];
    }
  }

  lemma {:induction false} SubsequenceUnique(r: seq<Entry>, s: seq<Entry>)
    requires IsSubsequence(r, s)
    requires UniqueIds(s)
    ensures UniqueIds(r)
    decreases |s|
  {
    if r != [] {
      if r[0] == s[0] && IsSubsequence(r[1..], s[1..]) {
        SubsequenceUnique(r[1..], s[1..]);
        forall j | 0 < j < |r|
          ensures r[0].id != r[j].id
        {
          SubsequenceMembers(r[1..], s[1..], r[j]);
          var k :| 0 <= k < |s[1..]| && s[1..][k] == r[j];
          assert s[k + 1] == r[j];
        }
      } else {
        SubsequenceUnique(r, s[1..]);
      }
    }
  }
}
