/** The operations dashboard once its lists are fetched: scheduling an event
    inside the 06:00-18:00 window without a clash, the direct-cost lines of the
    intervention form, completing tasks and the order tasks are listed in, the
    read flags of notifications and the unread badge, and the compliance
    figures. The component's state is the class `Dashboard`; each handler that
    replaces a piece of state is a method. */
module OperationsDashboard {
  import opened Common
  import opened Sorting
  import opened CalendarEntries

  // ---------------------------------------------------------------------------
  // Events and the scheduling checks

  datatype Event = Event(id: string, title: string, date: int, time: Moment, kind: string, createdAt: int)

  const MillisPerMinute := 60000

  /** Minutes since midnight of a moment: what `format('HH:mm')` shows, read as
      hours * 60 + minutes. */
  function MinuteOfDay(m: Moment): (r: int)
    ensures 0 <= r < 1440
    ensures (DayOf(m) * MillisPerDay + r * MillisPerMinute <= m < DayOf(m) * MillisPerDay + (r + 1) * MillisPerMinute)
  {
    (m - DayOf(m) * MillisPerDay) / MillisPerMinute
  }

  /** The guard of the source, on the hour and minute of the chosen time. */
  predicate OutsideHours(hour: int, minute: int) {
    hour < 6 || (hour == 18 && minute > 0) || hour > 18
  }

  /** The window check accepts exactly the times from 06:00 to 18:00 inclusive. */
  lemma OutsideHoursIsWindow(m: Moment)
    ensures var t := MinuteOfDay(m);
      !OutsideHours(t / 60, t % 60) <==> 6 * 60 <= t <= 18 * 60
  {
  }

  /** Some stored event has the same day and the same `HH:mm`. */
  predicate Clash(events: seq<Event>, date: int, time: Moment) {
    exists i :: 0 <= i < |events| && events[i].date == date && MinuteOfDay(events[i].time) == MinuteOfDay(time)
  }

  /** Why `handleAddEvent` refuses a new event, if it does. The store write is
      an outside call; `stored` says whether it succeeded. */
  function EventError(events: seq<Event>, date: int, time: Moment, stored: bool): (r: Option<string>)
    ensures r.None? <==> 360 <= MinuteOfDay(time) <= 1080 && !Clash(events, date, time) && stored
    ensures r == Some("Event time must be between 06:00 and 18:00.") <==> !(360 <= MinuteOfDay(time) <= 1080)
  {
    var t := MinuteOfDay(time);
    OutsideHoursIsWindow(time);
    if OutsideHours(t / 60, t % 60) then Some("Event time must be between 06:00 and 18:00.")
    else if Clash(events, date, time) then Some("Another event is already scheduled for this time.")
    else if !stored then Some("Failed to add event")
    else None
  }

  /** Once an event is added, no other event of the list shares its day and
      time, and a second identical request is refused. */
  lemma AddedEventBlocksSameSlot(events: seq<Event>, e: Event)
    requires EventError(events, e.date, e.time, true).None?
    ensures EventError(events + [e], e.date, e.time, true).Some?
    ensures forall i :: 0 <= i < |events| ==> !(events[i].date == e.date && MinuteOfDay(events[i].time) == MinuteOfDay(e.time))
  {
    var s := events + [e];
    assert s[|events|] == e;
  }

  // ---------------------------------------------------------------------------
  // Tasks

  datatype Task = Task(id: string, title: string, status: string)

  predicate IsCompleted(t: Task) {
    t.status == "Completed"
  }

  /** The "Pending Tasks" figure: tasks whose status is not `Completed`. */
  function PendingCount(ts: seq<Task>): nat {
    Count(ts, (t: Task) => t.status != "Completed")
  }

  /** The "Completed Tasks" figure: status `Completed` or `confirmed`. */
  function CompletedCount(ts: seq<Task>): nat {
    Count(ts, (t: Task) => t.status == "Completed" || t.status == "confirmed")
  }

  /** A `confirmed` task appears in both figures, so they add up to the number
      of tasks plus the number of confirmed tasks. */
  lemma {:induction false} TaskFigures(ts: seq<Task>)
    ensures PendingCount(ts) + CompletedCount(ts) == |ts| + Count(ts, (t: Task) => t.status == "confirmed")
  {
    if ts != [] {
      TaskFigures(ts[1..]);
    }
  }

  /** `tasks.map(t => t.id === id ? {...t, status: 'Completed'} : t)`. */
  function CompleteTaskIn(ts: seq<Task>, id: string): (r: seq<Task>)
    ensures |r| == |ts|
    ensures forall i :: 0 <= i < |ts| ==> r[i].id == ts[i].id && r[i].title == ts[i].title
    ensures forall i :: 0 <= i < |ts| ==> (if ts[i].id == id then IsCompleted(r[i]) else r[i] == ts[i])
  {
    if ts == [] then []
    else [if ts[0].id == id then Task(ts[0].id, ts[0].title, "Completed") else ts[0]] + CompleteTaskIn(ts[1..], id)
  }

  /** After completing `id`, the pending tasks are the pending tasks with other ids. */
  lemma {:induction false} CompleteTaskPending(ts: seq<Task>, id: string)
    ensures PendingCount(CompleteTaskIn(ts, id)) == Count(ts, (t: Task) => t.status != "Completed" && t.id != id)
  {
    if ts != [] {
      CompleteTaskPending(ts[1..], id);
      assert CompleteTaskIn(ts, id)[1..] == CompleteTaskIn(ts[1..], id);
    }
  }

  /** The comparator of the task list, as a key: completed tasks sort last. */
  function TaskKey(t: Task): SortKey {
    FlagKey(IsCompleted(t))
  }

  /** `[...tasks].sort(...)`: with a stable sort the list shows every task that
      is not completed, in fetched order, then every completed task, in fetched
      order. */
  function DisplayedTasks(ts: seq<Task>): (r: seq<Task>)
    ensures r == Filter(ts, Not(IsCompleted)) + Filter(ts, IsCompleted)
    ensures multiset(r) == multiset(ts)
  {
    SortByFlagIsPartition(ts, TaskKey, IsCompleted);
    SortBy(ts, TaskKey)
  }

  // ---------------------------------------------------------------------------
  // Notifications

  datatype Notification = Notification(id: string, message: string, readBy: map<string, bool>)

  /** `!n.readBy?.operations`. */
  predicate IsUnread(n: Notification) {
    !("operations" in n.readBy && n.readBy["operations"])
  }

  /** The badge on the notification button. */
  function UnreadCount(ns: seq<Notification>): nat {
    Count(ns, IsUnread)
  }

  /** `prev.map(n => n.id === id ? {...n, readBy: {...n.readBy, operations: flag}} : n)`. */
  function SetReadBy(ns: seq<Notification>, id: string, flag: bool): (r: seq<Notification>)
    ensures |r| == |ns|
    ensures forall i :: 0 <= i < |ns| ==> r[i].id == ns[i].id && r[i].message == ns[i].message
    ensures forall i :: 0 <= i < |ns| ==> ns[i].id != id ==> r[i] == ns[i]
    ensures forall i :: 0 <= i < |ns| ==> ns[i].id == id ==> r[i].readBy == ns[i].readBy["operations" := flag]
  {
    seq(|ns|, i requires 0 <= i < |ns| =>
      if ns[i].id == id then ns[i].(readBy := ns[i].readBy["operations" := flag]) else ns[i])
  }

  /** Marking `id` read takes exactly its unread copies off the badge. */
  lemma {:induction false} MarkReadBadge(ns: seq<Notification>, id: string)
    ensures UnreadCount(SetReadBy(ns, id, true)) + Count(ns, (n: Notification) => n.id == id && IsUnread(n)) == UnreadCount(ns)
  {
    if ns != [] {
      MarkReadBadge(ns[1..], id);
      assert SetReadBy(ns, id, true)[1..] == SetReadBy(ns[1..], id, true);
    }
  }

  /** Marking `id` unread adds exactly its read copies to the badge. */
  lemma {:induction false} MarkUnreadBadge(ns: seq<Notification>, id: string)
    ensures UnreadCount(SetReadBy(ns, id, false)) == UnreadCount(ns) + Count(ns, (n: Notification) => n.id == id && !IsUnread(n))
  {
    if ns != [] {
      MarkUnreadBadge(ns[1..], id);
      assert SetReadBy(ns, id, false)[1..] == SetReadBy(ns[1..], id, false);
    }
  }

  // ---------------------------------------------------------------------------
  // Compliance figures

  datatype ComplianceFigures = ComplianceFigures(upToDate: nat, needsReview: nat, overdue: nat, total: nat)

  predicate IsOverdue(status: string) {
    status == "expired" || status == "missing" || status == "pending"
  }

  /** The three figures count different statuses, so together they never
      exceed the number of documents. */
  function Figures(statuses: seq<string>): (f: ComplianceFigures)
    ensures f.total == |statuses|
    ensures f.upToDate + f.needsReview + f.overdue <= f.total
  {
    var valid := (s: string) => s == "valid";
    var expiring := (s: string) => s == "expiring";
    var reviewed := (s: string) => s == "valid" || s == "expiring";
    var tracked := (s: string) => reviewed(s) || IsOverdue(s);
    CountUnion(statuses, valid, expiring, reviewed);
    CountUnion(statuses, reviewed, IsOverdue, tracked);
    ComplianceFigures(Count(statuses, valid), Count(statuses, expiring), Count(statuses, IsOverdue), |statuses|)
  }

  // ---------------------------------------------------------------------------
  // The component state

  datatype CostLine = CostLine(description: string, amount: string)

  const EmptyCost := CostLine("", "")

  /** Where `splice(index, 1)` starts: a negative index counts from the end. */
  function SpliceStart(len: nat, index: int): (k: nat)
    ensures k <= len
    ensures 0 <= index ==> k == if index < len then index else len
    ensures index < 0 ==> k == if len + index < 0 then 0 else len + index
  {
    if index < 0 then (if len + index < 0 then 0 else len + index)
    else if index < len then index else len
  }

  class Dashboard {
    var events: seq<Event>
    var tasks: seq<Task>
    var notifications: seq<Notification>
    var directCosts: seq<CostLine>

    /** The form starts with one empty cost line and the cost lines never run out. */
    ghost predicate Valid()
      reads this
    {
      |directCosts| > 0
    }

    constructor ()
      ensures Valid()
      ensures events == [] && tasks == [] && notifications == []
      ensures directCosts == [EmptyCost]
    {
      events, tasks, notifications := [], [], [];
      directCosts := [EmptyCost];
    }

    /** `handleAddEvent`: checks the window and the clash, then appends the new
        event; nothing changes when the event is refused. */
    method AddEvent(newId: string, title: string, date: int, time: Moment, kind: string, now: int, stored: bool)
      returns (error: Option<string>)
      modifies this
      ensures error == EventError(old(events), date, time, stored)
      ensures error.None? ==> events == old(events) + [Event(newId, title, date, time, kind, now)]
      ensures error.Some? ==> events == old(events)
      ensures tasks == old(tasks) && notifications == old(notifications) && directCosts == old(directCosts)
    {
      var t := MinuteOfDay(time);
      var hour, minute := t / 60, t % 60;
      if OutsideHours(hour, minute) {
        return Some("Event time must be between 06:00 and 18:00.");
      }
      var i := 0;
      while i < |events|
        invariant 0 <= i <= |events|
        invariant forall j :: 0 <= j < i ==> !(events[j].date == date && MinuteOfDay(events[j].time) == t)
      {
        if events[i].date == date && MinuteOfDay(events[i].time) == t {
          return Some("Another event is already scheduled for this time.");
        }
        i := i + 1;
      }
      if !stored {
        return Some("Failed to add event");
      }
      events := events + [Event(newId, title, date, time, kind, now)];
      error := None;
    }

    /** `addCostField`. */
    method AddCostField()
      modifies this
      ensures directCosts == old(directCosts) + [EmptyCost]
      ensures Valid()
      ensures events == old(events) && tasks == old(tasks) && notifications == old(notifications)
    {
      directCosts := directCosts + [EmptyCost];
    }

    /** `updateCostField(index, field, value)`: only that field of that line
        changes. The source fails on an index outside the list. */
    method UpdateCostField(index: nat, description: bool, value: string)
      requires index < |directCosts|
      modifies this
      ensures |directCosts| == |old(directCosts)|
      ensures forall i :: 0 <= i < |directCosts| && i != index ==> directCosts[i] == old(directCosts)[i]
      ensures description ==> directCosts[index] == old(directCosts)[index].(description := value)
      ensures !description ==> directCosts[index] == old(directCosts)[index].(amount := value)
      ensures Valid()
      ensures events == old(events) && tasks == old(tasks) && notifications == old(notifications)
    {
      var line := directCosts[index];
      var updated := if description then CostLine(value, line.amount) else CostLine(line.description, value);
      directCosts := directCosts[index := updated];
    }

    /** `removeCostField(index)`: removes the line `splice` selects; a list left
        empty becomes one empty line, so the form always shows a line. */
    method RemoveCostField(index: int)
      modifies this
      ensures Valid()
      ensures var k := SpliceStart(|old(directCosts)|, index);
        var rest := if k < |old(directCosts)| then old(directCosts)[..k] + old(directCosts)[k + 1..] else old(directCosts);
        directCosts == if |rest| > 0 then rest else [EmptyCost]
      ensures events == old(events) && tasks == old(tasks) && notifications == old(notifications)
    {
      var k := SpliceStart(|directCosts|, index);
      var updated := directCosts;
      if k < |updated| {
        updated := updated[..k] + updated[k + 1..];
      }
      directCosts := if |updated| > 0 then updated else [EmptyCost];
    }

    /** `handleCompleteTask(id)`: the list is replaced before the store write,
        so a failed write leaves the change on screen. */
    method CompleteTask(id: string)
      modifies this
      ensures tasks == CompleteTaskIn(old(tasks), id)
      ensures events == old(events) && notifications == old(notifications) && directCosts == old(directCosts)
    {
      tasks := CompleteTaskIn(tasks, id);
    }

    /** `markAsRead` / `markAsUnread`: the store write comes first and the list
        changes only when it succeeds. */
    method SetRead(id: string, flag: bool, stored: bool)
      modifies this
      ensures notifications == if stored then SetReadBy(old(notifications), id, flag) else old(notifications)
      ensures events == old(events) && tasks == old(tasks) && directCosts == old(directCosts)
    {
      if stored {
        notifications := SetReadBy(notifications, id, flag);
      }
    }
  }
}
