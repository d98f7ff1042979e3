/** The calendar's export: calendar items flattened to table rows (title,
    area, participant count, day), sorted by day then title, and, for the export
    of all entries, the earliest and latest day of the exported items. The PDF
    itself is not modelled; what is modelled is the decision to produce one. */
module CalendarExport {
  import opened Common
  import opened Sorting
  import opened CalendarEntries
  import opened CalendarAggregate

  /** One export row. The date column `YYYY-MM-DD` is represented by its day
      number. For years 0 to 9999 the format is fixed-width, so comparing the
      strings with `localeCompare` orders them as the day numbers; the model
      orders by day number for every instant. */
  datatype Row = Row(interventionTitle: string, areaOfSupport: string, participantsCount: nat, implementationDay: int)

  /** The row pushed for an item: title defaulting to `'Intervention'`, area to
      `'—'`, the participant count of a grouped item or 1, and the item's day. */
  function RowOf(it: Item): (r: Row)
    ensures r.interventionTitle != "" && r.areaOfSupport != ""
    ensures r.participantsCount == ParticipantCount(it)
    ensures r.implementationDay == DayOf(it.date)
  {
    Row(Or(it.base.interventionTitle, "Intervention"), Or(it.base.areaOfSupport, "—"),
        ParticipantCount(it), DayOf(it.date))
  }

  function RowsOf(items: seq<Item>): (rows: seq<Row>)
    ensures |rows| == |items|
    ensures forall i :: 0 <= i < |items| ==> rows[i] == RowOf(items[i])
  {
    seq(|items|, i requires 0 <= i < |items| => RowOf(items[i]))
  }

  /** The comparator of the export: day, then title. */
  function RowKey(r: Row): SortKey {
    SortKey(r.implementationDay, r.interventionTitle)
  }

  /** The items in the order the export loops visit them: day keys in insertion
      order, and each day's (sorted) list in order. */
  function ItemsInOrder(days: seq<int>, buckets: map<int, seq<Item>>): seq<Item>
    requires forall i :: 0 <= i < |days| ==> days[i] in buckets
  {
    if days == [] then []
    else ItemsInOrder(days[..|days| - 1], buckets) + buckets[days[|days| - 1]]
  }

  /** `if (!minDate || item.date.isBefore(minDate)) minDate = item.date` over the
      items in order; `None` when there are no items. */
  function Earliest(items: seq<Item>): (m: Option<Moment>)
    ensures m.None? <==> items == []
  {
    if items == [] then None
    else
      var prev := Earliest(items[..|items| - 1]);
      var x := items[|items| - 1].date;
      if prev.None? || x < prev.value then Some(x) else prev
  }

  /** `if (!maxDate || item.date.isAfter(maxDate)) maxDate = item.date`. */
  function Latest(items: seq<Item>): (m: Option<Moment>)
    ensures m.None? <==> items == []
  {
    if items == [] then None
    else
      var prev := Latest(items[..|items| - 1]);
      var x := items[|items| - 1].date;
      if prev.None? || x > prev.value then Some(x) else prev
  }

  /** The earliest instant bounds every item from below and is one of them. */
  lemma {:induction false} EarliestIsMinimum(items: seq<Item>)
    requires items != []
    ensures forall i :: 0 <= i < |items| ==> Earliest(items).value <= items[i].date
    ensures exists i :: 0 <= i < |items| && items[i].date == Earliest(items).value
  {
    var init := items[..|items| - 1];
    if init != [] {
      EarliestIsMinimum(init);
      var k :| 0 <= k < |init| && init[k].date == Earliest(init).value;
      assert items[k] == init[k];
      forall i | 0 <= i < |items| - 1
        ensures Earliest(items).value <= items[i].date
      {
        assert items[i] == init[i];
      }
    }
  }

  /** The latest instant bounds every item from above and is one of them. */
  lemma {:induction false} LatestIsMaximum(items: seq<Item>)
    requires items != []
    ensures forall i :: 0 <= i < |items| ==> items[i].date <= Latest(items).value
    ensures exists i :: 0 <= i < |items| && items[i].date == Latest(items).value
  {
    var init := items[..|items| - 1];
    if init != [] {
      LatestIsMaximum(init);
      var k :| 0 <= k < |init| && init[k].date == Latest(init).value;
      assert items[k] == init[k];
      forall i | 0 <= i < |items| - 1
        ensures items[i].date <= Latest(items).value
      {
        assert items[i] == init[i];
      }
    }
  }

  /** `minDate?.format('YYYY-MM-DD') || '—'`: the day of the instant, `None`
      standing for the dash. */
  function DayText(m: Option<Moment>): Option<int> {
    if m.Some? then Some(DayOf(m.value)) else None
  }

  /** What visiting one more item does to the rows and the range. */
  lemma VisitItem(s: seq<Item>, x: Item)
    ensures RowsOf(s + [x]) == RowsOf(s) + [RowOf(x)]
    ensures Earliest(s + [x]) ==
            if Earliest(s).None? || x.date < Earliest(s).value then Some(x.date) else Earliest(s)
    ensures Latest(s + [x]) ==
            if Latest(s).None? || x.date > Latest(s).value then Some(x.date) else Latest(s)
  {
    assert (s + [x])[..|s|] == s;
  }

  // ---------------------------------------------------------------------------
  // The export loops

  /** `exportRowsMonth`: one row per item of the month's calendar, sorted by
      day then title. */
  method ExportRowsMonth(days: seq<int>, buckets: map<int, seq<Item>>) returns (rows: seq<Row>)
    requires forall i :: 0 <= i < |days| ==> days[i] in buckets
    ensures rows == SortBy(RowsOf(ItemsInOrder(days, buckets)), RowKey)
  {
    rows := [];
    var i := 0;
    while i < |days|
      invariant i <= |days|
      invariant rows == RowsOf(ItemsInOrder(days[..i], buckets))
    {
      var arr := buckets[days[i]];
      var j := 0;
      while j < |arr|
        invariant j <= |arr|
        invariant rows == RowsOf(ItemsInOrder(days[..i], buckets) + arr[..j])
      {
        assert arr[..j + 1] == arr[..j] + [arr[j]];
        rows := rows + [RowOf(arr[j])];
        j := j + 1;
      }
      assert days[..i + 1][..i] == days[..i];
      assert arr[..j] == arr;
      i := i + 1;
    }
    assert days[..i] == days;
    rows := SortBy(rows, RowKey);
  }

  /** The row and range loop of `buildExportAll`: rows as for the month, plus
      the earliest and latest item instants, rendered as days. */
  method ExportRowsAll(days: seq<int>, buckets: map<int, seq<Item>>)
    returns (rows: seq<Row>, minDay: Option<int>, maxDay: Option<int>)
    requires forall i :: 0 <= i < |days| ==> days[i] in buckets
    ensures rows == SortBy(RowsOf(ItemsInOrder(days, buckets)), RowKey)
    ensures minDay == DayText(Earliest(ItemsInOrder(days, buckets)))
    ensures maxDay == DayText(Latest(ItemsInOrder(days, buckets)))
  {
    rows := [];
    var minDate: Option<Moment> := None;
    var maxDate: Option<Moment> := None;
    var i := 0;
    while i < |days|
      invariant i <= |days|
      invariant rows == RowsOf(ItemsInOrder(days[..i], buckets))
      invariant minDate == Earliest(ItemsInOrder(days[..i], buckets))
      invariant maxDate == Latest(ItemsInOrder(days[..i], buckets))
    {
      var arr := buckets[days[i]];
      ghost var seen := ItemsInOrder(days[..i], buckets);
      assert seen + arr[..0] == seen;
      var j := 0;
      while j < |arr|
        invariant j <= |arr|
        invariant rows == RowsOf(seen + arr[..j])
        invariant minDate == Earliest(seen + arr[..j])
        invariant maxDate == Latest(seen + arr[..j])
      {
        var item := arr[j];
        VisitStep(seen, arr, j);
        rows := rows + [RowOf(item)];
        if minDate.None? || item.date < minDate.value {
          minDate := Some(item.date);
        }
        if maxDate.None? || item.date > maxDate.value {
          maxDate := Some(item.date);
        }
        j := j + 1;
      }
      assert days[..i + 1][..i] == days[..i];
      assert arr[..j] == arr;
      i := i + 1;
    }
    assert days[..i] == days;
    rows := SortBy(rows, RowKey);
    minDay := DayText(minDate);
    maxDay := DayText(maxDate);
  }

  /** What visiting item `j` of a day's list does to the rows and the range. */
  lemma VisitStep(seen: seq<Item>, arr: seq<Item>, j: nat)
    requires j < |arr|
    ensures var s, x := seen + arr[..j], arr[j];
      && RowsOf(seen + arr[..j + 1]) == RowsOf(s) + [RowOf(x)]
      && Earliest(seen + arr[..j + 1]) ==
         (if Earliest(s).None? || x.date < Earliest(s).value then Some(x.date) else Earliest(s))
      && Latest(seen + arr[..j + 1]) ==
         (if Latest(s).None? || x.date > Latest(s).value then Some(x.date) else Latest(s))
  {
    assert seen + arr[..j + 1] == (seen + arr[..j]) + [arr[j]];
    VisitItem(seen + arr[..j], arr[j]);
  }

  // ---------------------------------------------------------------------------
  // Properties of the export

  /** The rows are ordered by day then title, and are a permutation of one row
      per item. */
  lemma ExportRowsOrdered(items: seq<Item>)
    ensures var rows := SortBy(RowsOf(items), RowKey);
      && SortedBy(rows, RowKey)
      && multiset(rows) == multiset(RowsOf(items))
      && |rows| == |items|
  {
    SortBySorted(RowsOf(items), RowKey);
  }

  /** The header range: both ends are the dash exactly when there is nothing to
      export, and otherwise every row's day lies between them. */
  lemma ExportRange(items: seq<Item>)
    ensures DayText(Earliest(items)).None? <==> items == []
    ensures DayText(Latest(items)).None? <==> items == []
    ensures items != [] ==> forall r :: r in SortBy(RowsOf(items), RowKey) ==>
      DayText(Earliest(items)).value <= r.implementationDay <= DayText(Latest(items)).value
  {
    if items != [] {
      EarliestIsMinimum(items);
      LatestIsMaximum(items);
      var rows := SortBy(RowsOf(items), RowKey);
      forall r | r in rows
        ensures DayText(Earliest(items)).value <= r.implementationDay <= DayText(Latest(items)).value
      {
        assert r in multiset(RowsOf(items));
        var i :| 0 <= i < |items| && RowsOf(items)[i] == r;
        DayOfMonotone(Earliest(items).value, items[i].date);
        DayOfMonotone(items[i].date, Latest(items).value);
      }
    }
  }

  lemma {:induction false} ItemsInOrderEmpty(days: seq<int>, buckets: map<int, seq<Item>>)
    requires forall i :: 0 <= i < |days| ==> days[i] in buckets
    ensures ItemsInOrder(days, buckets) == [] <==> forall i :: 0 <= i < |days| ==> buckets[days[i]] == []
  {
    if days != [] {
      var init, last := days[..|days| - 1], days[|days| - 1];
      ItemsInOrderEmpty(init, buckets);
      assert ItemsInOrder(days, buckets) == [] <==> ItemsInOrder(init, buckets) == [] && buckets[last] == [] by {
        assert |ItemsInOrder(days, buckets)| == |ItemsInOrder(init, buckets)| + |buckets[last]|;
      }
      assert (forall i :: 0 <= i < |days| ==> buckets[days[i]] == []) <==>
        (forall i :: 0 <= i < |init| ==> buckets[init[i]] == []) && buckets[last] == [] by {
        assert forall i :: 0 <= i < |init| ==> init[i] == days[i];
      }
    }
  }

  /** The calendar of `es` has no item at all exactly when no entry of `es` has
      an implementation or target date. */
  lemma CalendarEmptyIff(es: seq<Entry>)
    ensures var a := Aggregate(es);
      (forall i :: 0 <= i < |a.days| ==> a.days[i] in a.buckets)
      && (ItemsInOrder(a.days, SortBuckets(a.buckets)) == [] <==> forall e :: e in es ==> PlacedAt(e).None?)
  {
    var a := Aggregate(es);
    DaysInBuckets(a);
    ItemsInOrderEmpty(a.days, SortBuckets(a.buckets));
    if exists e :: e in es && PlacedAt(e).Some? {
      var e :| e in es && PlacedAt(e).Some?;
      PlacedEntryHasBucket(es, e);
    }
    if exists i :: 0 <= i < |a.days| && SortBuckets(a.buckets)[a.days[i]] != [] {
      var i :| 0 <= i < |a.days| && SortBuckets(a.buckets)[a.days[i]] != [];
      BucketHasPlacedEntry(es, a.days[i]);
    }
  }

  lemma DaysInBuckets(a: Agg)
    requires Inv(a)
    ensures forall i :: 0 <= i < |a.days| ==> a.days[i] in a.buckets
  {
    forall i | 0 <= i < |a.days|
      ensures a.days[i] in a.buckets
    {
      assert a.days[i] in a.days;
    }
  }

  /** An entry with a date lands in a non-empty (sorted) bucket of a listed day. */
  lemma PlacedEntryHasBucket(es: seq<Entry>, e: Entry)
    requires e in es && PlacedAt(e).Some?
    ensures var a := Aggregate(es);
      exists i :: 0 <= i < |a.days| && a.days[i] in a.buckets && SortBuckets(a.buckets)[a.days[i]] != []
  {
    var a := Aggregate(es);
    var d := DayOf(PlacedAt(e).value);
    AggregatePlacement(es, d, e);
    assert d in a.buckets;
    assert d in a.days;
    var i :| 0 <= i < |a.days| && a.days[i] == d;
    assert |SortBuckets(a.buckets)[d]| == |a.buckets[d]|;
  }

  /** A non-empty bucket holds an entry of `es` with a date. */
  lemma BucketHasPlacedEntry(es: seq<Entry>, d: int)
    requires d in Aggregate(es).buckets && SortBuckets(Aggregate(es).buckets)[d] != []
    ensures exists e :: e in es && PlacedAt(e).Some?
  {
    var a := Aggregate(es);
    assert |SortBuckets(a.buckets)[d]| == |a.buckets[d]|;
    BucketEntries(a, d);
    var e := EntriesOf(a.buckets[d])[0];
    AggregatePlacement(es, d, e);
  }

  /** A well-formed non-empty bucket has entries. */
  lemma BucketEntries(a: Agg, d: int)
    requires ItemsWellFormed(a) && d in a.buckets && a.buckets[d] != []
    ensures Bucket(a, d) == a.buckets[d] && EntriesOf(a.buckets[d]) != []
  {
    var b := a.buckets[d];
    assert WellFormed(b[0], d);
    assert b == [b[0]] + b[1..];
    EntriesOfCons(b[0], b[1..]);
  }

  // ---------------------------------------------------------------------------
  // The export of all entries, and the download decision

  /** `buildExportAll`: every stored entry normalised, kept when no company code
      is set or when it carries that code (no deduplication here), aggregated as
      the calendar does, then flattened with its date range. */
  method BuildExportAll(docs: seq<Doc>, companyCode: Option<string>)
    returns (rows: seq<Row>, minDay: Option<int>, maxDay: Option<int>)
    ensures var all := TenantFilter(EntriesOfDocs(docs), companyCode);
      rows == [] <==> forall e :: e in all ==> PlacedAt(e).None?
    ensures SortedBy(rows, RowKey)
    ensures minDay.None? <==> rows == []
    ensures maxDay.None? <==> rows == []
    ensures forall r :: r in rows ==> minDay.value <= r.implementationDay <= maxDay.value
    ensures var a := Aggregate(TenantFilter(EntriesOfDocs(docs), companyCode));
      (DaysInBuckets(a);
       var items := ItemsInOrder(a.days, SortBuckets(a.buckets));
       && rows == SortBy(RowsOf(items), RowKey)
       && minDay == DayText(Earliest(items))
       && maxDay == DayText(Latest(items)))
  {
    var all := TenantFilter(EntriesOfDocs(docs), companyCode);
    var days, buckets := BuildItemsByDate(all);
    CalendarEmptyIff(all);
    rows, minDay, maxDay := ExportRowsAll(days, buckets);
    ghost var items := ItemsInOrder(days, buckets);
    ExportRowsOrdered(items);
    ExportRange(items);
  }

  /** What the download button produces: a notice when there are no rows, else
      a document of the rows under the date range line. */
  datatype Outcome =
    | NoItems(notice: string)
    | Document(rows: seq<Row>, fromDay: Option<int>, toDay: Option<int>)

  /** `downloadPdf` once the rows are known. For the month the range is the
      first and last day of the displayed month, for all entries the computed
      range; no rows means no document, whatever the scope. */
  function Download(monthScope: bool, rows: seq<Row>, fromDay: Option<int>, toDay: Option<int>): (o: Outcome)
    ensures o.NoItems? <==> rows == []
    ensures o.Document? ==> o.rows == rows && o.fromDay == fromDay && o.toDay == toDay
  {
    if |rows| == 0 then
      NoItems(if monthScope then "No items to export for this month." else "No items to export.")
    else Document(rows, fromDay, toDay)
  }

  /** Downloading all entries yields no document exactly when none of the
      tenant's stored entries has a usable date. */
  method DownloadAll(docs: seq<Doc>, companyCode: Option<string>) returns (o: Outcome)
    ensures o.NoItems? <==> forall e :: e in TenantFilter(EntriesOfDocs(docs), companyCode) ==> PlacedAt(e).None?
    ensures o.Document? ==> SortedBy(o.rows, RowKey) && o.fromDay.Some? && o.toDay.Some?
  {
    var rows, minDay, maxDay := BuildExportAll(docs, companyCode);
    o := Download(false, rows, minDay, maxDay);
  }
}
