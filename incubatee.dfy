/** The incubatee dashboard once its data is fetched: which assigned
    interventions wait for the incubatee (a response or a completion
    confirmation), the twelve monthly figures with their fallbacks, the quarter
    of a date, the notifications the incubatee sees and the unread badge, and
    the list updates on accept, decline and reading. */
module Incubatee {
  import opened Common

  // ---------------------------------------------------------------------------
  // Interventions waiting for the incubatee

  /** The fields of an assigned intervention the screen inspects. A status the
      stored document lacks is the empty string, which equals no literal the
      screen compares with. */
  datatype Intervention = Intervention(
    id: string,
    interventionTitle: string,
    consultantStatus: string,
    userStatus: string,
    consultantCompletionStatus: string,
    userCompletionStatus: string)

  /** The incubatee still has to accept or decline. */
  predicate IsPending(x: Intervention) {
    x.consultantStatus == "accepted" && x.userStatus == "pending"
  }

  /** The consultant has finished and the incubatee has to confirm. */
  predicate NeedsConfirmation(x: Intervention) {
    x.userStatus == "accepted" && x.consultantCompletionStatus == "done" && x.userCompletionStatus == "pending"
  }

  /** No intervention is in both lists: they disagree on `userStatus`. */
  lemma PendingDisjoint(x: Intervention)
    ensures !(IsPending(x) && NeedsConfirmation(x))
  {
  }

  datatype Kind = Confirmation | Assignment

  datatype PendingItem = PendingItem(id: string, title: string, kind: Kind, full: Intervention)

  /** The row built for one intervention; its kind depends only on the two
      completion statuses, whichever list it came from. */
  function ItemOf(x: Intervention): (p: PendingItem)
    ensures p.id == x.id && p.title == x.interventionTitle && p.full == x
    ensures p.kind == Confirmation <==> x.consultantCompletionStatus == "done" && x.userCompletionStatus == "pending"
  {
    PendingItem(x.id, x.interventionTitle,
      if x.consultantCompletionStatus == "done" && x.userCompletionStatus == "pending" then Confirmation else Assignment,
      x)
  }

  function ItemsOf(xs: seq<Intervention>): (r: seq<PendingItem>)
    ensures |r| == |xs|
    ensures forall i :: 0 <= i < |xs| ==> r[i] == ItemOf(xs[i])
  {
    if xs == [] then [] else [ItemOf(xs[0])] + ItemsOf(xs[1..])
  }

  /** `[...pending, ...needsConfirmation].map(...)`. */
  function PendingList(xs: seq<Intervention>): (r: seq<PendingItem>)
    ensures |r| == Count(xs, IsPending) + Count(xs, NeedsConfirmation)
  {
    CountIsFilterLength(xs, IsPending);
    CountIsFilterLength(xs, NeedsConfirmation);
    ItemsOf(Filter(xs, IsPending) + Filter(xs, NeedsConfirmation))
  }

  /** An intervention is listed exactly when it is pending or needs
      confirmation; pending ones come first; the list is as long as the two
      filters together. */
  lemma PendingListContents(xs: seq<Intervention>, x: Intervention)
    ensures (exists i :: 0 <= i < |PendingList(xs)| && PendingList(xs)[i].full == x)
      <==> x in xs && (IsPending(x) || NeedsConfirmation(x))
    ensures forall i :: 0 <= i < Count(xs, IsPending) ==> IsPending(PendingList(xs)[i].full)
    ensures forall i :: Count(xs, IsPending) <= i < |PendingList(xs)| ==> NeedsConfirmation(PendingList(xs)[i].full)
  {
    var both := Filter(xs, IsPending) + Filter(xs, NeedsConfirmation);
    FilterMembers(xs, IsPending, x);
    FilterMembers(xs, NeedsConfirmation, x);
    CountIsFilterLength(xs, IsPending);
    CountIsFilterLength(xs, NeedsConfirmation);
    if x in both {
      var i :| 0 <= i < |both| && both[i] == x;
      assert PendingList(xs)[i].full == x;
    }
    forall i | 0 <= i < |PendingList(xs)|
      ensures PendingList(xs)[i].full == both[i]
    {
    }
  }

  /** `prev.filter(item => item.id !== id)` after accept or decline. */
  function RemoveById(items: seq<PendingItem>, id: string): (r: seq<PendingItem>)
    ensures forall i :: 0 <= i < |r| ==> r[i].id != id
  {
    Filter(items, (p: PendingItem) => p.id != id)
  }

  /** Accept or decline removes exactly the items with that id and keeps the
      others in order. */
  lemma RemoveByIdKeeps(items: seq<PendingItem>, id: string, p: PendingItem)
    ensures p in RemoveById(items, id) <==> p in items && p.id != id
    ensures IsSubsequence(RemoveById(items, id), items)
  {
    FilterMembers(items, (q: PendingItem) => q.id != id, p);
    FilterIsSubsequence(items, (q: PendingItem) => q.id != id);
  }

  // ---------------------------------------------------------------------------
  // Monthly figures

  /** A field value of a stored document: a number or anything else. */
  datatype Field = Num(n: int) | Other

  const MonthLabels: seq<string> := ["January", "February", "March", "April", "May", "June",
    "July", "August", "September", "October", "November", "December"]

  /** The value of one month: the monthly history if it is a number, else the
      flat field if it is a number, else 0. */
  function Pick(monthly: Option<Field>, flat: Option<Field>): (v: int)
    ensures monthly.Some? && monthly.value.Num? ==> v == monthly.value.n
    ensures !(monthly.Some? && monthly.value.Num?) && flat.Some? && flat.value.Num? ==> v == flat.value.n
    ensures !(monthly.Some? && monthly.value.Num?) && !(flat.Some? && flat.value.Num?) ==> v == 0
  {
    match monthly
    case Some(Num(n)) => n
    case _ => match flat
      case Some(Num(n)) => n
      case _ => 0
  }

  function Lookup(m: map<string, Field>, k: string): Option<Field> {
    if k in m then Some(m[k]) else None
  }

  /** Twelve values, January to December; `monthly` is keyed by month name and
      the participant's flat fields by `prefix + month` (`revenue_January`). */
  function MonthlySeries(monthly: map<string, Field>, participant: map<string, Field>, prefix: string): (r: seq<int>)
    ensures |r| == 12
  {
    seq(12, i requires 0 <= i < 12 =>
      Pick(Lookup(monthly, MonthLabels[i]), Lookup(participant, prefix + MonthLabels[i])))
  }

  /** Each month of the series follows the fallback order, and a month with
      neither value shows 0. */
  lemma MonthlySeriesFallback(monthly: map<string, Field>, participant: map<string, Field>, prefix: string, i: int)
    requires 0 <= i < 12
    ensures var m, f := MonthLabels[i], prefix + MonthLabels[i];
      var v := MonthlySeries(monthly, participant, prefix)[i];
      && (m in monthly && monthly[m].Num? ==> v == monthly[m].n)
      && (!(m in monthly && monthly[m].Num?) && f in participant && participant[f].Num? ==> v == participant[f].n)
      && (!(m in monthly && monthly[m].Num?) && !(f in participant && participant[f].Num?) ==> v == 0)
  {
  }

  // ---------------------------------------------------------------------------
  // Quarters

  /** `getQuarter`: `month` is `getMonth()` of the date, absent for an invalid
      date, whose month is `NaN` and gives `"QNaN"`. */
  function Quarter(month: Option<int>): (q: string)
    requires month.Some? ==> 0 <= month.value < 12
    ensures month.Some? ==> q in ["Q1", "Q2", "Q3", "Q4"]
    ensures month.None? ==> q == "QNaN"
  {
    match month
    case None => "QNaN"
    case Some(m) =>
      var q := "Q" + [(m / 3 + 1 + '0' as int) as char];
      assert q == ["Q1", "Q2", "Q3", "Q4"][m / 3];
      q
  }

  /** Two months share a quarter exactly when they fall in the same run of
      three months. */
  lemma QuarterGroups(m1: int, m2: int)
    requires 0 <= m1 < 12 && 0 <= m2 < 12
    ensures Quarter(Some(m1)) == Quarter(Some(m2)) <==> m1 / 3 == m2 / 3
  {
    var q1, q2 := Quarter(Some(m1)), Quarter(Some(m2));
    if q1 == q2 {
      assert q1[1] == q2[1];
    }
  }

  // ---------------------------------------------------------------------------
  // Notifications

  datatype Notification = Notification(
    id: string,
    kind: string,
    recipientRoles: Option<seq<string>>,
    participantId: Option<string>,
    readBy: map<string, bool>)

  /** `!userRole` is false: a role is set and is not empty. */
  predicate HasRole(role: Option<string>) {
    Truthy(role)
  }

  /** A notification is shown when a role is set and is among its recipients,
      and, for an incubatee, when it concerns this participant. */
  predicate Visible(n: Notification, role: Option<string>, participantId: string) {
    && HasRole(role)
    && n.recipientRoles.Some? && role.value in n.recipientRoles.value
    && (role.value != "incubatee" || n.participantId == Some(participantId))
  }

  function VisibleNotifications(ns: seq<Notification>, role: Option<string>, participantId: string): (r: seq<Notification>)
    ensures forall i :: 0 <= i < |r| ==> Visible(r[i], role, participantId)
    ensures !HasRole(role) ==> r == []
  {
    if !HasRole(role) then
      FilterNone(ns, role, participantId);
      []
    else Filter(ns, (n: Notification) => Visible(n, role, participantId))
  }

  lemma {:induction false} FilterNone(ns: seq<Notification>, role: Option<string>, participantId: string)
    requires !HasRole(role)
    ensures Filter(ns, (n: Notification) => Visible(n, role, participantId)) == []
  {
    if ns != [] {
      FilterNone(ns[1..], role, participantId);
    }
  }

  /** A notification is shown exactly when it is stored and visible. */
  lemma VisibleMembers(ns: seq<Notification>, role: Option<string>, participantId: string, n: Notification)
    ensures n in VisibleNotifications(ns, role, participantId) <==> n in ns && Visible(n, role, participantId)
  {
    if HasRole(role) {
      FilterMembers(ns, (m: Notification) => Visible(m, role, participantId), n);
    }
  }

  /** The type filter applies only when a type is chosen. */
  function FilteredNotifications(visible: seq<Notification>, filterType: Option<string>): (r: seq<Notification>)
    ensures !Truthy(filterType) ==> r == visible
    ensures Truthy(filterType) ==> forall i :: 0 <= i < |r| ==> r[i].kind == filterType.value
    ensures Truthy(filterType) ==> forall n :: n in r <==> n in visible && n.kind == filterType.value
    ensures |r| <= |visible|
  {
    if Truthy(filterType) then
      var ofType := (n: Notification) => n.kind == filterType.value;
      FilterIff(visible, ofType);
      Filter(visible, ofType)
    else visible
  }

  /** The key `readBy` uses for the role: JavaScript writes an absent role as
      `"undefined"`. */
  function RoleKey(role: Option<string>): string {
    if role.Some? then role.value else "undefined"
  }

  predicate IsUnreadBy(n: Notification, role: Option<string>) {
    !(RoleKey(role) in n.readBy && n.readBy[RoleKey(role)])
  }

  /** The badge: visible notifications the role has not read. */
  function UnreadCount(ns: seq<Notification>, role: Option<string>, participantId: string): (c: nat)
    ensures c <= |VisibleNotifications(ns, role, participantId)|
    ensures !HasRole(role) ==> c == 0
  {
    var visible := VisibleNotifications(ns, role, participantId);
    if HasRole(role) && |visible| > 0 then Count(visible, (n: Notification) => IsUnreadBy(n, role)) else 0
  }

  /** `handleMarkAsRead` / `handleMarkAsUnread`: the role's flag of the
      notification with that id is set; nothing else changes. */
  function SetReadBy(ns: seq<Notification>, id: string, role: Option<string>, flag: bool): (r: seq<Notification>)
    ensures |r| == |ns|
    ensures forall i :: 0 <= i < |ns| ==> ns[i].id != id ==> r[i] == ns[i]
    ensures forall i :: 0 <= i < |ns| ==> ns[i].id == id ==>
      r[i] == ns[i].(readBy := ns[i].readBy[RoleKey(role) := flag])
  {
    if ns == [] then []
    else
      var n := ns[0];
      [if n.id == id then n.(readBy := n.readBy[RoleKey(role) := flag]) else n] + SetReadBy(ns[1..], id, role, flag)
  }

  /** After marking `id` read, no visible copy of it counts as unread, and the
      set of visible notifications is unchanged in number. */
  lemma {:induction false} MarkReadVisible(ns: seq<Notification>, id: string, role: Option<string>, participantId: string)
    ensures |VisibleNotifications(SetReadBy(ns, id, role, true), role, participantId)| == |VisibleNotifications(ns, role, participantId)|
    ensures forall n :: n in VisibleNotifications(SetReadBy(ns, id, role, true), role, participantId) && n.id == id ==> !IsUnreadBy(n, role)
  {
    var r := SetReadBy(ns, id, role, true);
    if HasRole(role) {
      var p := (n: Notification) => Visible(n, role, participantId);
      SetReadByVisible(ns, id, role, participantId);
      forall n | n in VisibleNotifications(r, role, participantId) && n.id == id
        ensures !IsUnreadBy(n, role)
      {
        FilterMembers(r, p, n);
        var i :| 0 <= i < |r| && r[i] == n;
        assert ns[i].id == id;
      }
    }
  }

  lemma {:induction false} SetReadByVisible(ns: seq<Notification>, id: string, role: Option<string>, participantId: string)
    requires HasRole(role)
    ensures |Filter(SetReadBy(ns, id, role, true), (n: Notification) => Visible(n, role, participantId))|
      == |Filter(ns, (n: Notification) => Visible(n, role, participantId))|
  {
    if ns != [] {
      SetReadByVisible(ns[1..], id, role, participantId);
      assert SetReadBy(ns, id, role, true)[1..] == SetReadBy(ns[1..], id, role, true);
    }
  }
}
