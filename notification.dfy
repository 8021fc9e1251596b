/**
 * The state of the notification bell of
 * apps/client-app/components/atoms/notification.tsx: the list of notifications
 * and the active tab, the handlers that replace the list, and the values the
 * bell derives from it (unread count, badge, visible items, relative times).
 * Times are milliseconds; the clock is the parameter `now`.
 */
module NotificationBell {
  import opened Wrappers
  import opened Seqs
  import opened JsStrings

  datatype Kind = Message | System | Invite

  datatype Notification = Notification(
    notificationId: string,
    userName: Option<string>,
    kind: Option<Kind>,
    message: string,
    time: int,
    seen: bool)

  datatype Tab = All | Unread

  /** The test of the unread filter. */
  function IsUnseen(n: Notification): bool
  {
    !n.seen
  }

  /** `unreadCount`: how many notifications are not seen. */
  function UnreadCount(ns: seq<Notification>): nat
  {
    |Filter(ns, IsUnseen)|
  }

  /** `filteredNotifications`: the unseen items on the "unread" tab, every item on "all", in list order. */
  function Visible(ns: seq<Notification>, tab: Tab): seq<Notification>
  {
    if tab == Unread then Filter(ns, IsUnseen) else ns
  }

  /** The badge on the bell: none with nothing unread, the count up to 9, "9+" above. */
  function Badge(count: nat): (b: Option<string>)
    ensures b.Some? <==> count > 0
    ensures b.Some? ==> 1 <= |b.value| <= 2
  {
    if count == 0 then None
    else if count > 9 then Some("9+")
    else Some(DecimalString(count))
  }

  /** The two tabs: "all" shows the whole list, "unread" exactly the unseen items, as many as the unread count, in order. */
  lemma VisibleTabs(ns: seq<Notification>)
    ensures Visible(ns, All) == ns
    ensures |Visible(ns, Unread)| == UnreadCount(ns) <= |ns|
    ensures forall i :: 0 <= i < |Visible(ns, Unread)| ==> !Visible(ns, Unread)[i].seen
    ensures forall i :: 0 <= i < |ns| && !ns[i].seen ==> ns[i] in Visible(ns, Unread)
    ensures IsSubsequence(Visible(ns, Unread), ns)
  {
  }

  /** The badge reads the count for 1 to 9 and "9+" for 10 and more. */
  lemma BadgeText(count: nat)
    ensures Badge(3) == Some("3")
    ensures count > 9 ==> Badge(count) == Some("9+")
    ensures 1 <= count <= 9 ==> Badge(count) == Some([DigitChar(count)])
  {
  }

  // ---------------------------------------------------------------------------
  // The list updates
  // ---------------------------------------------------------------------------

  /** `prev.map((n) => ({ ...n, seen: true }))`. */
  function MarkAllSeen(ns: seq<Notification>): (r: seq<Notification>)
    ensures |r| == |ns|
    ensures forall i :: 0 <= i < |ns| ==> r[i] == ns[i].(seen := true)
  {
    seq(|ns|, i requires 0 <= i < |ns| => ns[i].(seen := true))
  }

  /** `prev.map((n) => (n.notificationId === id ? { ...n, seen: true } : n))`. */
  function MarkSeen(ns: seq<Notification>, id: string): (r: seq<Notification>)
    ensures |r| == |ns|
    ensures forall i :: 0 <= i < |ns| ==> r[i] == if ns[i].notificationId == id then ns[i].(seen := true) else ns[i]
  {
    seq(|ns|, i requires 0 <= i < |ns| => if ns[i].notificationId == id then ns[i].(seen := true) else ns[i])
  }

  /** The test of `removeNotification`: keep the items with another id. */
  function OtherId(id: string): Notification -> bool
  {
    (n: Notification) => n.notificationId != id
  }

  /** `prev.filter((n) => n.notificationId !== id)`. */
  function Remove(ns: seq<Notification>, id: string): seq<Notification>
  {
    Filter(ns, OtherId(id))
  }

  /** After "mark all as read" nothing is unread; the list keeps its length, order and every other field, and marking again changes nothing. */
  lemma MarkAllSeenClears(ns: seq<Notification>)
    ensures UnreadCount(MarkAllSeen(ns)) == 0
    ensures MarkAllSeen(MarkAllSeen(ns)) == MarkAllSeen(ns)
    ensures forall i :: 0 <= i < |ns| ==> MarkAllSeen(ns)[i].(seen := ns[i].seen) == ns[i]
  {
    FilterNone(MarkAllSeen(ns), IsUnseen);
  }

  lemma MarkSeenTail(ns: seq<Notification>, id: string)
    requires ns != []
    ensures MarkSeen(ns, id)[1..] == MarkSeen(ns[1..], id)
    ensures MarkSeen(ns, id) == [MarkSeen(ns, id)[0]] + MarkSeen(ns[1..], id)
  {
  }

  lemma UnreadStep(ns: seq<Notification>)
    requires ns != []
    ensures UnreadCount(ns) == (if ns[0].seen then 0 else 1) + UnreadCount(ns[1..])
  {
  }

  /** Some unseen item has this id. */
  predicate HasUnseen(ns: seq<Notification>, id: string)
  {
    exists i :: 0 <= i < |ns| && ns[i].notificationId == id && !ns[i].seen
  }

  lemma HasUnseenStep(ns: seq<Notification>, id: string)
    requires ns != []
    ensures HasUnseen(ns, id) <==> (ns[0].notificationId == id && !ns[0].seen) || HasUnseen(ns[1..], id)
  {
    if HasUnseen(ns[1..], id) {
      var i :| 0 <= i < |ns[1..]| && ns[1..][i].notificationId == id && !ns[1..][i].seen;
      assert ns[i + 1] == ns[1..][i];
    }
    if HasUnseen(ns, id) {
      var i :| 0 <= i < |ns| && ns[i].notificationId == id && !ns[i].seen;
      if i > 0 {
        assert ns[1..][i - 1] == ns[i];
      }
    }
  }

  /** Marking one id seen never raises the unread count, and lowers it exactly when an unseen item has that id. */
  lemma {:induction false} MarkSeenUnread(ns: seq<Notification>, id: string)
    ensures UnreadCount(MarkSeen(ns, id)) <= UnreadCount(ns)
    ensures UnreadCount(MarkSeen(ns, id)) < UnreadCount(ns) <==> HasUnseen(ns, id)
  {
    if ns != [] {
      var m := MarkSeen(ns, id);
      MarkSeenTail(ns, id);
      MarkSeenUnread(ns[1..], id);
      UnreadStep(ns);
      UnreadStep(m);
      HasUnseenStep(ns, id);
    }
  }

  /** Marking one id seen and then all is marking all. */
  lemma MarkSeenThenAll(ns: seq<Notification>, id: string)
    ensures MarkAllSeen(MarkSeen(ns, id)) == MarkAllSeen(ns)
  {
  }

  /**
   * Removing an id leaves no item with that id and keeps every other item in
   * order; removing an id that is not there, or removing twice, changes nothing
   * more.
   */
  lemma RemoveKeepsOthers(ns: seq<Notification>, id: string)
    ensures forall i :: 0 <= i < |Remove(ns, id)| ==> Remove(ns, id)[i].notificationId != id
    ensures forall i :: 0 <= i < |ns| && ns[i].notificationId != id ==> ns[i] in Remove(ns, id)
    ensures IsSubsequence(Remove(ns, id), ns)
    ensures (forall i :: 0 <= i < |ns| ==> ns[i].notificationId != id) ==> Remove(ns, id) == ns
    ensures Remove(Remove(ns, id), id) == Remove(ns, id)
  {
    var r := Remove(ns, id);
    assert forall i :: 0 <= i < |r| ==> OtherId(id)(r[i]);
    FilterAll(r, OtherId(id));
    if forall i :: 0 <= i < |ns| ==> ns[i].notificationId != id {
      FilterAll(ns, OtherId(id));
    }
  }

  /** The item `simulateIncoming` makes: a new unseen message, its id built from the clock. */
  function Incoming(now: int): Notification
  {
    Notification("n-" + IntString(now), Some("New User"), Some(Message), "just signed up for a demo.", now, false)
  }

  /** Prepending an unseen item makes the list and the unread count one longer and shows it first on both tabs. */
  lemma IncomingCounts(ns: seq<Notification>, now: int)
    ensures |[Incoming(now)] + ns| == |ns| + 1
    ensures UnreadCount([Incoming(now)] + ns) == UnreadCount(ns) + 1
    ensures Visible([Incoming(now)] + ns, Unread) == [Incoming(now)] + Visible(ns, Unread)
  {
    assert ([Incoming(now)] + ns)[1..] == ns;
  }

  // ---------------------------------------------------------------------------
  // formatTimestamp
  // ---------------------------------------------------------------------------

  /** The relative time `formatTimestamp` shows, before it is written out. */
  datatype Ago = MinutesAgo(n: int) | HoursAgo(n: int) | DaysAgo(n: int)

  /**
   * Whole minutes, hours and days since `time`, each `Math.floor` of the one
   * before it (floor division, which for a positive divisor is Dafny's); minutes
   * below 60, else hours below 24, else days.
   */
  function TimeAgo(now: int, time: int): Ago
  {
    var minutes := (now - time) / 60000;
    var hours := minutes / 60;
    var days := hours / 24;
    if minutes < 60 then MinutesAgo(minutes)
    else if hours < 24 then HoursAgo(hours)
    else DaysAgo(days)
  }

  /** `formatTimestamp`: "5m ago", "5h ago", "5d ago". */
  function FormatTimestamp(now: int, time: int): string
  {
    match TimeAgo(now, time)
    case MinutesAgo(n) => IntString(n) + "m ago"
    case HoursAgo(n) => IntString(n) + "h ago"
    case DaysAgo(n) => IntString(n) + "d ago"
  }

  /**
   * The buckets by elapsed time: under an hour in whole minutes, under a day in
   * whole hours (1 to 23), otherwise in whole days; each count is the elapsed
   * time rounded down to its unit. A time in the future gives negative minutes.
   */
  lemma TimeAgoBuckets(now: int, time: int)
    ensures var diff := now - time;
      var a := TimeAgo(now, time);
      && (a.MinutesAgo? <==> diff < 3600000)
      && (a.MinutesAgo? ==> a.n * 60000 <= diff < (a.n + 1) * 60000 && a.n < 60)
      && (a.MinutesAgo? && diff >= 0 ==> 0 <= a.n)
      && (a.HoursAgo? <==> 3600000 <= diff < 86400000)
      && (a.HoursAgo? ==> 1 <= a.n < 24 && a.n * 3600000 <= diff < (a.n + 1) * 3600000)
      && (a.DaysAgo? <==> 86400000 <= diff)
      && (a.DaysAgo? ==> 1 <= a.n && a.n * 86400000 <= diff < (a.n + 1) * 86400000)
  {
    var diff := now - time;
    var minutes := diff / 60000;
    var hours := minutes / 60;
    var days := hours / 24;
    assert minutes * 60000 <= diff < minutes * 60000 + 60000;
    assert hours * 60 <= minutes < hours * 60 + 60;
    assert days * 24 <= hours < days * 24 + 24;
  }

  /** The second sample notification, five hours old, reads "5h ago". */
  lemma FiveHoursAgo(now: int)
    ensures FormatTimestamp(now, now - 1000 * 60 * 60 * 5) == "5h ago"
  {
    assert TimeAgo(now, now - 1000 * 60 * 60 * 5) == HoursAgo(5);
  }

  // ---------------------------------------------------------------------------
  // The component state
  // ---------------------------------------------------------------------------

  /** `DUMMY_NOTIFICATIONS`: two unseen items (now and five hours ago) and two seen ones (one and three days ago). */
  function Samples(now: int): seq<Notification>
  {
    [ Notification("n-1", Some("Asha"), Some(Message), "commented on the Apollo Project report.", now, false),
      Notification("n-2", Some("System"), Some(System), "Your password will expire in 3 days.", now - 1000 * 60 * 60 * 5, false),
      Notification("n-3", Some("Ravi"), Some(Invite), "invited you to the 'Design Sync' channel.", now - 1000 * 60 * 60 * 24, true),
      Notification("n-4", Some("System"), Some(System), "Backup completed successfully.", now - 1000 * 60 * 60 * 72, true) ]
  }

  /** The bell starts with two unread notifications and shows the badge "2". */
  lemma SamplesUnread(now: int)
    ensures UnreadCount(Samples(now)) == 2
    ensures Badge(UnreadCount(Samples(now))) == Some("2")
  {
    var s := Samples(now);
    assert s[1..][1..][1..][1..] == [];
    assert Filter(s, IsUnseen) == [s[0], s[1]];
  }

  class Bell {
    var notifications: seq<Notification>
    var activeTab: Tab

    /** The initial state: the sample list on the "all" tab. */
    constructor (now: int)
      ensures notifications == Samples(now) && activeTab == All
    {
      notifications := Samples(now);
      activeTab := All;
    }

    /** The items the open sheet lists. */
    function Shown(): seq<Notification>
      reads this
    {
      Visible(notifications, activeTab)
    }

    method SetActiveTab(tab: Tab)
      modifies this
      ensures activeTab == tab && notifications == old(notifications)
    {
      activeTab := tab;
    }

    /** `markAllAsRead`. */
    method MarkAllAsRead()
      modifies this
      ensures notifications == MarkAllSeen(old(notifications)) && activeTab == old(activeTab)
      ensures UnreadCount(notifications) == 0
    {
      MarkAllSeenClears(notifications);
      notifications := MarkAllSeen(notifications);
    }

    /** `markAsSeen(id)`. */
    method MarkAsSeen(id: string)
      modifies this
      ensures notifications == MarkSeen(old(notifications), id) && activeTab == old(activeTab)
      ensures UnreadCount(notifications) <= UnreadCount(old(notifications))
    {
      MarkSeenUnread(notifications, id);
      notifications := MarkSeen(notifications, id);
    }

    /** `removeNotification(id)`. */
    method RemoveNotification(id: string)
      modifies this
      ensures notifications == Remove(old(notifications), id) && activeTab == old(activeTab)
    {
      notifications := Remove(notifications, id);
    }

    /** `simulateIncoming`: a new unseen item goes to the front. */
    method SimulateIncoming(now: int)
      modifies this
      ensures notifications == [Incoming(now)] + old(notifications) && activeTab == old(activeTab)
      ensures UnreadCount(notifications) == UnreadCount(old(notifications)) + 1
    {
      IncomingCounts(notifications, now);
      notifications := [Incoming(now)] + notifications;
    }

    /** "Clear All History". */
    method ClearAll()
      modifies this
      ensures notifications == [] && activeTab == old(activeTab)
    {
      notifications := [];
    }
  }
}
