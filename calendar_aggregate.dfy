/** `buildItemsByDate`: the calendar's aggregation of entries into day buckets.
    An entry is placed on the day of its implementation date, else of its target
    date, and dropped when it has neither. Grouped entries sharing a day,
    intervention, subtitle and coordinator merge into one item; every other entry
    becomes an item of its own. Each bucket is finally sorted by the item's
    instant, then by its title.

    The specification is a left fold, `Aggregate`, of `Step` over the entries;
    the method `BuildItemsByDate` runs the source's loop over local maps and is
    proved to compute the fold, followed by the per-day sort. */
module CalendarAggregate {
  import opened Common
  import opened Sorting
  import opened CalendarEntries

  /** `ParticipantMini`. */
  datatype Participant = Participant(id: string, name: Option<string>)

  function ParticipantOf(e: Entry): Participant {
    Participant(e.participantId, e.beneficiaryName)
  }

  function Participants(es: seq<Entry>): (ps: seq<Participant>)
    ensures |ps| == |es|
    ensures forall i :: 0 <= i < |es| ==> ps[i] == ParticipantOf(es[i])
  {
    seq(|es|, i requires 0 <= i < |es| => ParticipantOf(es[i]))
  }

  function Statuses(es: seq<Entry>): (ss: seq<Option<string>>)
    ensures |ss| == |es|
    ensures forall i :: 0 <= i < |es| ==> ss[i] == es[i].status
  {
    seq(|es|, i requires 0 <= i < |es| => es[i].status)
  }

  /** `BaseFields`. */
  datatype Base = Base(
    interventionId: string,
    interventionTitle: Option<string>,
    areaOfSupport: Option<string>,
    subtitle: Option<string>,
    coordinatorId: Option<string>,
    coordinatorName: Option<string>,
    isRecurring: bool,
    frequency: Option<string>,
    status: Option<string>)

  /** The `base` object built for each entry; its status is the entry's own. */
  function BaseOf(e: Entry): Base {
    Base(e.interventionId, e.interventionTitle, e.areaOfSupport, e.subtitle,
         e.coordinatorId, e.coordinatorName, e.isRecurring, e.frequency, e.status)
  }

  /** The identity of a grouped session: day, intervention, `subtitle || ''` and
      `coordinatorId || ''`. */
  datatype GroupKey = GroupKey(day: int, interventionId: string, subtitle: string, coordinatorId: string)

  function GroupKeyOf(day: int, e: Entry): GroupKey {
    GroupKey(day, e.interventionId, Or(e.subtitle, ""), Or(e.coordinatorId, ""))
  }

  /** The grouped `idKey` as the source writes it: the formatted day key, the
      marker `|G|`, then intervention, subtitle and coordinator joined by `|`
      with nothing escaped. */
  function IdKeyText(dayKey: string, e: Entry): (r: string)
    ensures |r| >= |dayKey| + 3 && r[..|dayKey| + 3] == dayKey + "|G|"
  {
    var head := dayKey + "|G|";
    var r := head + e.interventionId + "|" + Or(e.subtitle, "") + "|" + Or(e.coordinatorId, "");
    assert r[..|head|] == head;
    r
  }

  /** Two grouped entries of the same day with different interventions get the
      same text key when a `|` inside a component shifts the boundary, so the
      source would merge them into one session. */
  lemma IdKeyTextCollision(dayKey: string, e1: Entry, e2: Entry)
    requires e1.interventionId == "x" && e1.subtitle == Some("y|c") && e1.coordinatorId == None
    requires e2.interventionId == "x|y" && e2.subtitle == Some("c") && e2.coordinatorId == None
    ensures IdKeyText(dayKey, e1) == IdKeyText(dayKey, e2)
    ensures forall d :: GroupKeyOf(d, e1) != GroupKeyOf(d, e2)
  {
    assert IdKeyText(dayKey, e1) == dayKey + "|G|" + "x|y|c" + "|" by {
      assert "x" + "|" + "y|c" + "|" + "" == "x|y|c|";
    }
    assert IdKeyText(dayKey, e2) == dayKey + "|G|" + "x|y|c" + "|" by {
      assert "x|y" + "|" + "c" + "|" + "" == "x|y|c|";
    }
  }

  /** Without a `|` inside any component, the text key and the structured key
      agree: the source's key is then exactly the session identity. */
  lemma IdKeyTextAgrees(dayKey: string, e1: Entry, e2: Entry)
    requires NoBar(e1.interventionId) && NoBar(Or(e1.subtitle, "")) && NoBar(Or(e1.coordinatorId, ""))
    requires NoBar(e2.interventionId) && NoBar(Or(e2.subtitle, "")) && NoBar(Or(e2.coordinatorId, ""))
    ensures forall d :: IdKeyText(dayKey, e1) == IdKeyText(dayKey, e2) <==> GroupKeyOf(d, e1) == GroupKeyOf(d, e2)
  {
    var p := dayKey + "|G|";
    var a1, b1, c1 := e1.interventionId, Or(e1.subtitle, ""), Or(e1.coordinatorId, "");
    var a2, b2, c2 := e2.interventionId, Or(e2.subtitle, ""), Or(e2.coordinatorId, "");
    assert IdKeyText(dayKey, e1) == p + (a1 + "|" + (b1 + "|" + c1));
    assert IdKeyText(dayKey, e2) == p + (a2 + "|" + (b2 + "|" + c2));
    if IdKeyText(dayKey, e1) == IdKeyText(dayKey, e2) {
      var t1, t2 := a1 + "|" + (b1 + "|" + c1), a2 + "|" + (b2 + "|" + c2);
      assert t1 == IdKeyText(dayKey, e1)[|p|..] == t2;
      JoinInjective(a1, b1 + "|" + c1, a2, b2 + "|" + c2);
      JoinInjective(b1, c1, b2, c2);
    }
  }

  predicate NoBar(s: string) {
    forall i :: 0 <= i < |s| ==> s[i] != '|'
  }

  lemma BarAt(a: string, b: string)
    ensures (a + "|" + b)[|a|] == '|'
  {
  }

  /** Joining with a separator that the left parts do not contain is injective. */
  lemma JoinInjective(a1: string, b1: string, a2: string, b2: string)
    requires NoBar(a1) && NoBar(a2)
    requires a1 + "|" + b1 == a2 + "|" + b2
    ensures a1 == a2 && b1 == b2
  {
    var s := a1 + "|" + b1;
    if |a1| < |a2| {
      BarAt(a1, b1);
      assert false;
    } else if |a2| < |a1| {
      BarAt(a2, b2);
      assert false;
    }
    assert a1 == s[..|a1|] == a2;
    assert b1 == s[|a1| + 1..] == b2;
  }

  /** `CalendarItem`: a grouped session with its participants and entries, or a
      single entry (whose `idKey` is its day and entry id). */
  datatype Item =
    | Grouped(key: GroupKey, date: Moment, base: Base, participants: seq<Participant>, entries: seq<Entry>)
    | Single(day: int, entryId: string, date: Moment, base: Base, participant: Participant, entry: Entry)

  function ItemEntries(it: Item): seq<Entry> {
    if it.Grouped? then it.entries else [it.entry]
  }

  /** `item.kind === 'grouped' ? item.participants.length : 1`. */
  function ParticipantCount(it: Item): nat {
    if it.Grouped? then |it.participants| else 1
  }

  /** All entries held by a list of items, item by item. */
  function EntriesOf(items: seq<Item>): seq<Entry> {
    if items == [] then [] else ItemEntries(items[0]) + EntriesOf(items[1..])
  }

  function ParticipantTotal(items: seq<Item>): nat {
    if items == [] then 0 else ParticipantCount(items[0]) + ParticipantTotal(items[1..])
  }

  /** What every item in the bucket of day `d` satisfies. A grouped item holds at
      least one entry; its participants are its entries' participants, one for
      one; every entry is grouped, placed on day `d` and has the item's key; the
      item's instant and base fields come from its first entry, and its status is
      the aggregate of all its entries' statuses. A single item holds one entry
      that is not grouped, placed on day `d`. */
  predicate WellFormed(it: Item, d: int) {
    && DayOf(it.date) == d
    && match it
      case Grouped(k, date, base, ps, es) =>
        && k.day == d
        && |es| > 0
        && ps == Participants(es)
        && PlacedAt(es[0]) == Some(date)
        && base == BaseOf(es[0]).(status := Some(StatusAggregate(Statuses(es))))
        && forall i :: 0 <= i < |es| ==> IsGrouped(es[i]) && OnDay(es[i], d) && GroupKeyOf(d, es[i]) == k
      case Single(day, id, date, base, p, e) =>
        && day == d && id == e.id && !IsGrouped(e)
        && PlacedAt(e) == Some(date) && base == BaseOf(e) && p == ParticipantOf(e)
  }

  // ---------------------------------------------------------------------------
  // The aggregation state

  /** The two `Map`s of `buildItemsByDate`: `days` is the insertion order of the
      day keys, `buckets` the item list of each day, and `index` the position of
      each grouped item in its day's bucket (the source keeps the item object
      itself in `groupedIndex` and mutates it through that alias). */
  datatype Agg = Agg(days: seq<int>, buckets: map<int, seq<Item>>, index: map<GroupKey, nat>)

  const Empty: Agg := Agg([], map[], map[])

  function Bucket(a: Agg, d: int): seq<Item> {
    if d in a.buckets then a.buckets[d] else []
  }

  ghost predicate DaysMatch(a: Agg) {
    && (forall d :: d in a.buckets <==> d in a.days)
    && (forall i, j :: 0 <= i < j < |a.days| ==> a.days[i] != a.days[j])
    && (forall d :: d in a.buckets ==> |a.buckets[d]| > 0)
  }

  ghost predicate ItemsWellFormed(a: Agg) {
    forall d, i :: d in a.buckets && 0 <= i < |a.buckets[d]| ==> WellFormed(a.buckets[d][i], d)
  }

  /** Every indexed key points at the grouped item with that key. */
  ghost predicate IndexSound(a: Agg) {
    forall k :: k in a.index ==>
      && k.day in a.buckets
      && a.index[k] < |a.buckets[k.day]|
      && a.buckets[k.day][a.index[k]].Grouped?
      && a.buckets[k.day][a.index[k]].key == k
  }

  /** Every grouped item is indexed under its key, at its own position; hence no
      two grouped items of a bucket share a key. */
  ghost predicate IndexComplete(a: Agg) {
    forall d, i :: d in a.buckets && 0 <= i < |a.buckets[d]| && a.buckets[d][i].Grouped? ==>
      a.buckets[d][i].key in a.index && a.index[a.buckets[d][i].key] == i
  }

  ghost predicate Inv(a: Agg) {
    DaysMatch(a) && ItemsWellFormed(a) && IndexSound(a) && IndexComplete(a)
  }

  /** `push(dayKey, item)`: append to the day's list, creating it (and so the
      day key) when absent. */
  function AddItem(a: Agg, d: int, it: Item): Agg {
    Agg(if d in a.buckets then a.days else a.days + [d], a.buckets[d := Bucket(a, d) + [it]], a.index)
  }

  /** The first entry of a grouped session: its base carries the aggregate of
      its own status. */
  function NewGroup(k: GroupKey, m: Moment, e: Entry): Item {
    Grouped(k, m, BaseOf(e).(status := Some(StatusAggregate([e.status]))), [ParticipantOf(e)], [e])
  }

  /** The entry joins an existing session: participant and entry appended, status
      recomputed over all entries. */
  function MergeItem(it: Item, e: Entry): Item
    requires it.Grouped?
  {
    var es := it.entries + [e];
    it.(base := it.base.(status := Some(StatusAggregate(Statuses(es)))),
        participants := it.participants + [ParticipantOf(e)],
        entries := es)
  }

  /** One iteration of the source's loop: an entry without a date changes
      nothing; otherwise only the list of the entry's day changes, that day is
      present afterwards, and day keys are only ever appended. */
  function Step(a: Agg, e: Entry): (r: Agg)
    requires IndexSound(a)
    ensures forall d :: (PlacedAt(e).None? || d != DayOf(PlacedAt(e).value)) ==> Bucket(r, d) == Bucket(a, d)
    ensures PlacedAt(e).Some? ==> DayOf(PlacedAt(e).value) in r.buckets
    ensures a.days <= r.days
  {
    match PlacedAt(e)
    case None => a
    case Some(m) =>
      var d := DayOf(m);
      if IsGrouped(e) then
        var k := GroupKeyOf(d, e);
        if k in a.index then
          var pos := a.index[k];
          a.(buckets := a.buckets[d := a.buckets[d][pos := MergeItem(a.buckets[d][pos], e)]])
        else
          var a' := AddItem(a, d, NewGroup(k, m, e));
          a'.(index := a.index[k := |Bucket(a, d)|])
      else
        AddItem(a, d, Single(d, e.id, m, BaseOf(e), ParticipantOf(e), e))
  }

  /** The state after the loop has seen `es`. */
  function Aggregate(es: seq<Entry>): (a: Agg)
    ensures Inv(a)
  {
    if es == [] then Empty
    else
      var prev := Aggregate(es[..|es| - 1]);
      StepInv(prev, es[|es| - 1]);
      Step(prev, es[|es| - 1])
  }

  lemma StepInv(a: Agg, e: Entry)
    requires Inv(a)
    ensures Inv(Step(a, e))
  {
    match PlacedAt(e)
    case None =>
    case Some(m) =>
      var d := DayOf(m);
      if IsGrouped(e) {
        var k := GroupKeyOf(d, e);
        if k in a.index {
          MergeInv(a, k, m, e);
        } else {
          NewGroupInv(a, k, m, e);
        }
      } else {
        SingleInv(a, m, e);
      }
  }

  lemma MergeItemWellFormed(it: Item, d: int, e: Entry)
    requires it.Grouped? && WellFormed(it, d)
    requires IsGrouped(e) && OnDay(e, d) && GroupKeyOf(d, e) == it.key
    ensures WellFormed(MergeItem(it, e), d)
  {
    var es := it.entries + [e];
    assert es[0] == it.entries[0];
    assert Participants(es) == it.participants + [ParticipantOf(e)];
  }

  lemma MergeInv(a: Agg, k: GroupKey, m: Moment, e: Entry)
    requires Inv(a)
    requires PlacedAt(e) == Some(m) && IsGrouped(e)
    requires k == GroupKeyOf(DayOf(m), e) && k in a.index
    ensures Inv(Step(a, e))
  {
    var d := DayOf(m);
    var pos := a.index[k];
    var it := a.buckets[d][pos];
    MergeItemWellFormed(it, d, e);
    ReplaceInv(a, d, pos, MergeItem(it, e));
  }

  /** Replacing a grouped item by a well-formed grouped item with the same key
      keeps the invariant. */
  lemma ReplaceInv(a: Agg, d: int, pos: nat, it: Item)
    requires Inv(a)
    requires d in a.buckets && pos < |a.buckets[d]| && a.buckets[d][pos].Grouped?
    requires it.Grouped? && it.key == a.buckets[d][pos].key && WellFormed(it, d)
    ensures Inv(a.(buckets := a.buckets[d := a.buckets[d][pos := it]]))
  {
    var r := a.(buckets := a.buckets[d := a.buckets[d][pos := it]]);
    assert DaysMatch(r);
    ReplaceWellFormed(a, r, d, pos, it);
    ReplaceSound(a, r, d, pos, it);
    ReplaceComplete(a, r, d, pos, it);
  }

  lemma ReplaceWellFormed(a: Agg, r: Agg, d: int, pos: nat, it: Item)
    requires ItemsWellFormed(a) && WellFormed(it, d)
    requires d in a.buckets && pos < |a.buckets[d]|
    requires r.buckets == a.buckets[d := a.buckets[d][pos := it]]
    ensures ItemsWellFormed(r)
  {
    forall d', i | d' in r.buckets && 0 <= i < |r.buckets[d']|
      ensures WellFormed(r.buckets[d'][i], d')
    {
      if d' == d && i != pos {
        assert r.buckets[d'][i] == a.buckets[d][i];
      }
    }
  }

  lemma ReplaceSound(a: Agg, r: Agg, d: int, pos: nat, it: Item)
    requires IndexSound(a)
    requires d in a.buckets && pos < |a.buckets[d]| && a.buckets[d][pos].Grouped?
    requires it.Grouped? && it.key == a.buckets[d][pos].key
    requires r.buckets == a.buckets[d := a.buckets[d][pos := it]] && r.index == a.index
    ensures IndexSound(r)
  {
    forall k' | k' in r.index
      ensures k'.day in r.buckets && r.index[k'] < |r.buckets[k'.day]|
      ensures r.buckets[k'.day][r.index[k']].Grouped? && r.buckets[k'.day][r.index[k']].key == k'
    {
      if k'.day == d && a.index[k'] != pos {
        assert r.buckets[d][a.index[k']] == a.buckets[d][a.index[k']];
      }
    }
  }

  lemma ReplaceComplete(a: Agg, r: Agg, d: int, pos: nat, it: Item)
    requires IndexComplete(a)
    requires d in a.buckets && pos < |a.buckets[d]| && a.buckets[d][pos].Grouped?
    requires it.Grouped? && it.key == a.buckets[d][pos].key
    requires r.buckets == a.buckets[d := a.buckets[d][pos := it]] && r.index == a.index
    ensures IndexComplete(r)
  {
    forall d', i | d' in r.buckets && 0 <= i < |r.buckets[d']| && r.buckets[d'][i].Grouped?
      ensures r.buckets[d'][i].key in r.index && r.index[r.buckets[d'][i].key] == i
    {
      if d' == d && i != pos {
        assert r.buckets[d'][i] == a.buckets[d][i];
      }
    }
  }

  lemma NewGroupInv(a: Agg, k: GroupKey, m: Moment, e: Entry)
    requires Inv(a)
    requires PlacedAt(e) == Some(m) && IsGrouped(e)
    requires k == GroupKeyOf(DayOf(m), e) && k !in a.index
    ensures Inv(Step(a, e))
  {
    var d := DayOf(m);
    var it := NewGroup(k, m, e);
    assert Statuses([e]) == [e.status];
    assert WellFormed(it, d);
    var r := Step(a, e);
    assert r.days == AddItem(a, d, it).days;
    assert r.buckets == a.buckets[d := Bucket(a, d) + [it]];
    assert r.index == a.index[k := |Bucket(a, d)|];
    AddItemKeeps(a, r, d, it);
    AppendSound(a, r, d, it);
    AppendComplete(a, r, d, it);
  }

  lemma SingleInv(a: Agg, m: Moment, e: Entry)
    requires Inv(a)
    requires PlacedAt(e) == Some(m) && !IsGrouped(e)
    ensures Inv(Step(a, e))
  {
    var d := DayOf(m);
    var it := Single(d, e.id, m, BaseOf(e), ParticipantOf(e), e);
    assert WellFormed(it, d);
    var r := Step(a, e);
    assert r == AddItem(a, d, it);
    AddItemKeeps(a, r, d, it);
    AppendSound(a, r, d, it);
    AppendComplete(a, r, d, it);
  }

  /** Appending a well-formed item keeps the day order and every bucket's items
      well formed. */
  lemma AddItemKeeps(a: Agg, r: Agg, d: int, it: Item)
    requires Inv(a) && WellFormed(it, d)
    requires r.days == AddItem(a, d, it).days && r.buckets == AddItem(a, d, it).buckets
    ensures DaysMatch(r) && ItemsWellFormed(r)
  {
    var b := Bucket(a, d);
    forall d', i | d' in r.buckets && 0 <= i < |r.buckets[d']|
      ensures WellFormed(r.buckets[d'][i], d')
    {
      if d' == d && i < |b| {
        assert r.buckets[d'][i] == b[i];
      }
    }
    if d !in a.buckets {
      forall i, j | 0 <= i < j < |r.days|
        ensures r.days[i] != r.days[j]
      {
        if j == |a.days| {
          assert r.days[i] == a.days[i];
        }
      }
    }
  }

  /** After an append, a grouped item is indexed at its new position and a
      single one is not indexed. */
  ghost predicate AppendIndex(a: Agg, r: Agg, d: int, it: Item) {
    && r.buckets == a.buckets[d := Bucket(a, d) + [it]]
    && (it.Grouped? ==> it.key.day == d && it.key !in a.index && r.index == a.index[it.key := |Bucket(a, d)|])
    && (it.Single? ==> r.index == a.index)
  }

  lemma AppendSound(a: Agg, r: Agg, d: int, it: Item)
    requires IndexSound(a) && AppendIndex(a, r, d, it)
    ensures IndexSound(r)
  {
    var b := Bucket(a, d);
    forall k' | k' in r.index
      ensures k'.day in r.buckets && r.index[k'] < |r.buckets[k'.day]|
      ensures r.buckets[k'.day][r.index[k']].Grouped? && r.buckets[k'.day][r.index[k']].key == k'
    {
      if k' in a.index && k'.day == d {
        assert r.buckets[d][a.index[k']] == b[a.index[k']];
      }
    }
  }

  lemma AppendComplete(a: Agg, r: Agg, d: int, it: Item)
    requires IndexComplete(a) && AppendIndex(a, r, d, it)
    ensures IndexComplete(r)
  {
    var b := Bucket(a, d);
    forall d', i | d' in r.buckets && 0 <= i < |r.buckets[d']| && r.buckets[d'][i].Grouped?
      ensures r.buckets[d'][i].key in r.index && r.index[r.buckets[d'][i].key] == i
    {
      if d' == d && i < |b| {
        assert r.buckets[d'][i] == b[i];
        assert b[i].key in a.index;
      }
    }
  }

  // ---------------------------------------------------------------------------
  // Conservation: the entries held by a day's bucket are the entries placed on
  // that day

  function OnDayOf(d: int): Entry -> bool {
    (e: Entry) => OnDay(e, d)
  }

  lemma {:induction false} EntriesOfAppend(a: seq<Item>, b: seq<Item>)
    ensures EntriesOf(a + b) == EntriesOf(a) + EntriesOf(b)
  {
    if a == [] {
      assert a + b == b;
    } else {
      assert (a + b)[0] == a[0];
      assert (a + b)[1..] == a[1..] + b;
      EntriesOfAppend(a[1..], b);
    }
  }

  lemma EntriesOfSingleton(it: Item)
    ensures EntriesOf([it]) == ItemEntries(it)
  {
    assert [it][1..] == [];
  }

  /** Replacing an item by one holding `extra` entries more adds those entries. */
  lemma EntriesOfReplace(b: seq<Item>, pos: nat, x: Item, extra: seq<Entry>)
    requires pos < |b| && ItemEntries(x) == ItemEntries(b[pos]) + extra
    ensures multiset(EntriesOf(b[pos := x])) == multiset(EntriesOf(b)) + multiset(extra)
  {
    var pre, post := b[..pos], b[pos + 1..];
    assert b == pre + [b[pos]] + post;
    assert b[pos := x] == pre + [x] + post;
    EntriesOfAppend(pre + [b[pos]], post);
    EntriesOfAppend(pre, [b[pos]]);
    EntriesOfAppend(pre + [x], post);
    EntriesOfAppend(pre, [x]);
    EntriesOfSingleton(b[pos]);
    EntriesOfSingleton(x);
  }

  lemma EntriesOfPush(b: seq<Item>, x: Item)
    ensures EntriesOf(b + [x]) == EntriesOf(b) + ItemEntries(x)
  {
    EntriesOfAppend(b, [x]);
    EntriesOfSingleton(x);
  }

  /** One step adds the entry to the bucket of its day and to no other. */
  lemma StepConserves(a: Agg, e: Entry, d: int)
    requires Inv(a)
    ensures multiset(EntriesOf(Bucket(Step(a, e), d))) ==
            multiset(EntriesOf(Bucket(a, d))) + (if OnDay(e, d) then multiset{e} else multiset{})
  {
    match PlacedAt(e)
    case None =>
    case Some(m) =>
      var day := DayOf(m);
      if day == d {
        var b := Bucket(a, d);
        if IsGrouped(e) && GroupKeyOf(day, e) in a.index {
          var pos := a.index[GroupKeyOf(day, e)];
          EntriesOfReplace(b, pos, MergeItem(b[pos], e), [e]);
        } else if IsGrouped(e) {
          EntriesOfPush(b, NewGroup(GroupKeyOf(day, e), m, e));
        } else {
          EntriesOfPush(b, Single(day, e.id, m, BaseOf(e), ParticipantOf(e), e));
        }
      }
  }

  /** Conservation: the entries held by the bucket of day `d`, counted with
      multiplicity, are exactly the input entries placed on day `d`. */
  lemma {:induction false} AggregateConserves(es: seq<Entry>, d: int)
    ensures multiset(EntriesOf(Bucket(Aggregate(es), d))) == multiset(Filter(es, OnDayOf(d)))
  {
    if es != [] {
      var init, e := es[..|es| - 1], es[|es| - 1];
      assert es == init + [e];
      AggregateConserves(init, d);
      StepConserves(Aggregate(init), e, d);
      FilterAppend(init, [e], OnDayOf(d));
      FilterSingleton(e, OnDayOf(d));
    }
  }

  /** An entry shows up in the bucket of day `d` exactly when it is an input
      entry placed on day `d`: the implementation date's day when it has one,
      else the target date's; an entry with neither is in no bucket. */
  lemma AggregatePlacement(es: seq<Entry>, d: int, e: Entry)
    ensures e in EntriesOf(Bucket(Aggregate(es), d)) <==> e in es && OnDay(e, d)
  {
    AggregateConserves(es, d);
    FilterMembers(es, OnDayOf(d), e);
    assert e in EntriesOf(Bucket(Aggregate(es), d)) <==> e in multiset(EntriesOf(Bucket(Aggregate(es), d)));
    assert e in Filter(es, OnDayOf(d)) <==> e in multiset(Filter(es, OnDayOf(d)));
  }

  /** In well-formed items, one participant stands for each entry. */
  lemma {:induction false} ParticipantTotalIsEntries(items: seq<Item>, d: int)
    requires forall i :: 0 <= i < |items| ==> WellFormed(items[i], d)
    ensures ParticipantTotal(items) == |EntriesOf(items)|
  {
    if items != [] {
      assert WellFormed(items[0], d);
      ParticipantTotalIsEntries(items[1..], d);
    }
  }

  /** The participant counts of a day's items add up to the number of input
      entries placed on that day. */
  lemma ParticipantsConserved(es: seq<Entry>, d: int)
    ensures ParticipantTotal(Bucket(Aggregate(es), d)) == Count(es, OnDayOf(d))
  {
    var b := Bucket(Aggregate(es), d);
    ParticipantTotalIsEntries(b, d);
    AggregateConserves(es, d);
    assert |EntriesOf(b)| == |multiset(EntriesOf(b))|;
    assert |Filter(es, OnDayOf(d))| == |multiset(Filter(es, OnDayOf(d)))|;
    CountIsFilterLength(es, OnDayOf(d));
  }

  /** Two grouped entries of a day's bucket sit in the same item exactly when
      they share intervention, `subtitle || ''` and `coordinatorId || ''`. */
  lemma SameItemIffSameKey(es: seq<Entry>, d: int, i: nat, j: nat, e1: Entry, e2: Entry)
    requires d in Aggregate(es).buckets
    requires i < |Aggregate(es).buckets[d]| && j < |Aggregate(es).buckets[d]|
    requires e1 in ItemEntries(Aggregate(es).buckets[d][i]) && IsGrouped(e1)
    requires e2 in ItemEntries(Aggregate(es).buckets[d][j]) && IsGrouped(e2)
    ensures i == j <==> GroupKeyOf(d, e1) == GroupKeyOf(d, e2)
  {
    var a := Aggregate(es);
    var b := a.buckets[d];
    assert ItemsWellFormed(a) && IndexComplete(a);
    GroupedEntryKey(b[i], d, e1);
    GroupedEntryKey(b[j], d, e2);
  }

  /** A grouped entry of a well-formed item sits in a grouped item with its key. */
  lemma GroupedEntryKey(it: Item, d: int, e: Entry)
    requires WellFormed(it, d) && e in ItemEntries(it) && IsGrouped(e)
    ensures it.Grouped? && GroupKeyOf(d, e) == it.key
  {
    if it.Grouped? {
      var p :| 0 <= p < |it.entries| && it.entries[p] == e;
    }
  }

  /** A singular entry is never merged: its item holds it alone. */
  lemma SingleStaysAlone(es: seq<Entry>, d: int, i: nat, e: Entry)
    requires d in Aggregate(es).buckets && i < |Aggregate(es).buckets[d]|
    requires e in ItemEntries(Aggregate(es).buckets[d][i]) && !IsGrouped(e)
    ensures Aggregate(es).buckets[d][i].Single?
    ensures ItemEntries(Aggregate(es).buckets[d][i]) == [e]
  {
    var it := Aggregate(es).buckets[d][i];
    assert WellFormed(it, d);
  }

  // ---------------------------------------------------------------------------
  // The per-day sort

  /** The comparator of the final pass: instant, then `interventionTitle || ''`. */
  function ItemKey(it: Item): SortKey {
    SortKey(it.date, Or(it.base.interventionTitle, ""))
  }

  function SortBuckets(buckets: map<int, seq<Item>>): map<int, seq<Item>> {
    map d | d in buckets :: SortBy(buckets[d], ItemKey)
  }

  lemma EntriesOfCons(h: Item, t: seq<Item>)
    ensures EntriesOf([h] + t) == ItemEntries(h) + EntriesOf(t)
  {
    assert ([h] + t)[0] == h && ([h] + t)[1..] == t;
  }

  lemma {:induction false} InsertEntries(x: Item, s: seq<Item>)
    ensures multiset(EntriesOf(Insert(x, s, ItemKey))) == multiset(EntriesOf(s)) + multiset(ItemEntries(x))
  {
    if s == [] {
      EntriesOfSingleton(x);
    } else if KeyLess(ItemKey(x), ItemKey(s[0])) {
      EntriesOfCons(x, s);
    } else {
      InsertEntries(x, s[1..]);
      InsertEntriesPast(x, s);
    }
  }

  lemma InsertEntriesPast(x: Item, s: seq<Item>)
    requires s != [] && !KeyLess(ItemKey(x), ItemKey(s[0]))
    requires multiset(EntriesOf(Insert(x, s[1..], ItemKey))) == multiset(EntriesOf(s[1..])) + multiset(ItemEntries(x))
    ensures multiset(EntriesOf(Insert(x, s, ItemKey))) == multiset(EntriesOf(s)) + multiset(ItemEntries(x))
  {
    var t := Insert(x, s[1..], ItemKey);
    assert Insert(x, s, ItemKey) == [s[0]] + t;
    EntriesOfCons(s[0], t);
    assert EntriesOf(s) == ItemEntries(s[0]) + EntriesOf(s[1..]);
  }

  /** Sorting the items moves whole items: the entries they hold are the same. */
  lemma {:induction false} SortByEntries(s: seq<Item>)
    ensures multiset(EntriesOf(SortBy(s, ItemKey))) == multiset(EntriesOf(s))
  {
    if s != [] {
      var init, x := s[..|s| - 1], s[|s| - 1];
      assert s == init + [x];
      SortByEntries(init);
      InsertEntries(x, SortBy(init, ItemKey));
      EntriesOfPush(init, x);
    }
  }

  /** The final bucket of a day: sorted by instant then title, a permutation of
      the bucket in discovery order, holding exactly the entries placed on that
      day, with as many participants as there are such entries. */
  lemma SortedBucket(es: seq<Entry>, d: int)
    requires d in Aggregate(es).buckets
    ensures var b := Aggregate(es).buckets[d];
      var s := SortBy(b, ItemKey);
      && SortedBy(s, ItemKey)
      && multiset(s) == multiset(b)
      && multiset(EntriesOf(s)) == multiset(Filter(es, OnDayOf(d)))
      && ParticipantTotal(s) == Count(es, OnDayOf(d))
  {
    var b := Aggregate(es).buckets[d];
    var s := SortBy(b, ItemKey);
    SortBySorted(b, ItemKey);
    SortByEntries(b);
    AggregateConserves(es, d);
    assert forall i :: 0 <= i < |b| ==> WellFormed(b[i], d);
    PermutedWellFormed(b, s, d);
    ParticipantTotalIsEntries(s, d);
    SameSize(EntriesOf(s), Filter(es, OnDayOf(d)));
    CountIsFilterLength(es, OnDayOf(d));
  }

  lemma PermutedWellFormed(b: seq<Item>, s: seq<Item>, d: int)
    requires multiset(s) == multiset(b)
    requires forall i :: 0 <= i < |b| ==> WellFormed(b[i], d)
    ensures forall i :: 0 <= i < |s| ==> WellFormed(s[i], d)
  {
    forall i | 0 <= i < |s|
      ensures WellFormed(s[i], d)
    {
      assert s[i] in multiset(b);
      var j :| 0 <= j < |b| && b[j] == s[i];
    }
  }

  /** Sequences with the same elements counted with multiplicity have the same length. */
  lemma SameSize<T>(s: seq<T>, t: seq<T>)
    requires multiset(s) == multiset(t)
    ensures |s| == |t|
  {
    assert |s| == |multiset(s)|;
    assert |t| == |multiset(t)|;
  }

  // ---------------------------------------------------------------------------
  // The source's loop

  /** `buildItemsByDate`: the loop over the entries, filling the day map and the
      index of grouped items, then the sort of each day's list in day order.
      Returns the day keys in insertion order and the sorted bucket of each. */
  method BuildItemsByDate(entries: seq<Entry>) returns (days: seq<int>, buckets: map<int, seq<Item>>)
    ensures days == Aggregate(entries).days
    ensures buckets == SortBuckets(Aggregate(entries).buckets)
  {
    var unsorted;
    days, unsorted := CollectItems(entries);
    buckets := SortEachDay(days, unsorted);
  }

  /** The first loop of `buildItemsByDate`. */
  method CollectItems(entries: seq<Entry>) returns (days: seq<int>, map_: map<int, seq<Item>>)
    ensures Agg(days, map_, Aggregate(entries).index) == Aggregate(entries)
  {
    var groupedIndex: map<GroupKey, nat> := map[];
    map_ := map[];
    days := [];
    var n := 0;
    while n < |entries|
      invariant n <= |entries|
      invariant Agg(days, map_, groupedIndex) == Aggregate(entries[..n])
    {
      var r := entries[n];
      assert entries[..n + 1][..n] == entries[..n];
      var placed := PlacedAt(r);
      if placed.Some? {
        var d := placed.value;
        var dayKey := DayOf(d);
        if IsGrouped(r) {
          var idKey := GroupKeyOf(dayKey, r);
          if idKey in groupedIndex {
            var pos := groupedIndex[idKey];
            var existing := map_[dayKey][pos];
            var participants := existing.participants + [ParticipantOf(r)];
            var es := existing.entries + [r];
            var status := StatusAggregate(Statuses(es));
            existing := Grouped(existing.key, existing.date, existing.base.(status := Some(status)), participants, es);
            map_ := map_[dayKey := map_[dayKey][pos := existing]];
          } else {
            var item := Grouped(idKey, d, BaseOf(r).(status := Some(StatusAggregate([r.status]))), [ParticipantOf(r)], [r]);
            var arr := if dayKey in map_ then map_[dayKey] else [];
            groupedIndex := groupedIndex[idKey := |arr|];
            if dayKey !in map_ {
              days := days + [dayKey];
            }
            map_ := map_[dayKey := arr + [item]];
          }
        } else {
          var item := Single(dayKey, r.id, d, BaseOf(r), ParticipantOf(r), r);
          var arr := if dayKey in map_ then map_[dayKey] else [];
          if dayKey !in map_ {
            days := days + [dayKey];
          }
          map_ := map_[dayKey := arr + [item]];
        }
      }
      n := n + 1;
    }
    assert entries[..n] == entries;
  }

  /** The buckets after sorting the days in `done`. */
  ghost predicate SortedDays(buckets: map<int, seq<Item>>, map_: map<int, seq<Item>>, done: set<int>) {
    && buckets.Keys == map_.Keys
    && forall d :: d in map_ ==> buckets[d] == (if d in done then SortBy(map_[d], ItemKey) else map_[d])
  }

  /** The second loop of `buildItemsByDate`: each day's list, in day order,
      replaced by its sorted copy. */
  method SortEachDay(days: seq<int>, map_: map<int, seq<Item>>) returns (buckets: map<int, seq<Item>>)
    requires forall d :: d in map_ <==> d in days
    requires forall i, j :: 0 <= i < j < |days| ==> days[i] != days[j]
    ensures buckets == SortBuckets(map_)
  {
    buckets := map_;
    ghost var done: set<int> := {};
    var i := 0;
    while i < |days|
      invariant i <= |days|
      invariant forall d :: d in done <==> d in days[..i]
      invariant SortedDays(buckets, map_, done)
    {
      var k := days[i];
      assert k in days;
      assert k !in done by {
        assert forall j :: 0 <= j < i ==> days[j] != k;
      }
      buckets := buckets[k := SortBy(buckets[k], ItemKey)];
      done := done + {k};
      assert days[..i + 1] == days[..i] + [k];
      i := i + 1;
    }
    assert days[..i] == days;
    forall d | d in map_
      ensures buckets[d] == SortBuckets(map_)[d]
    {
      assert d in done;
    }
  }
}
