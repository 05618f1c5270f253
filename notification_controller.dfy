/** The inbox handlers: list the caller's latest notifications, mark one or
    all as read, and clear them. `userId` is the session's claim; the
    `recipient` filters cast it to an ObjectId first, so a claim that is not
    24 hexadecimal digits makes the query throw and the handler answer 500. */
module NotificationController {
  import opened Common
  import opened NotificationModel
  import opened Store

  function Addressed(c: Option<Id>): Notification -> bool {
    (n: Notification) => c == Some(n.recipient)
  }

  function NotAddressed(c: Option<Id>): Notification -> bool {
    (n: Notification) => c != Some(n.recipient)
  }

  /** `{ recipient: userId }` once cast. */
  function Mine(userId: Option<Id>): Notification -> bool {
    Addressed(CastClaim(userId))
  }

  function NotMine(userId: Option<Id>): Notification -> bool {
    NotAddressed(CastClaim(userId))
  }

  function CreatedAt(n: Notification): int {
    n.createdAt
  }

  /** The page size of the inbox. */
  const INBOX_LIMIT: nat := 50

  // ---------------------------------------------------------------------
  // getNotifications

  /** `Notification.find({ recipient }).sort({ createdAt: -1 }).limit(50)`;
      the CastError is caught as a 500. */
  function GetNotifications(ns: seq<Notification>, userId: Option<Id>): (r: Result<seq<Notification>>)
    ensures r.Err? <==> CastFails(userId)
    ensures r.Err? ==> r.failure == ServerError("Error fetching notifications")
    ensures r.Ok? ==> |r.value| <= INBOX_LIMIT && |r.value| <= |ns|
    ensures r.Ok? ==> forall i, j :: 0 <= i < j < |r.value| ==> r.value[i].createdAt >= r.value[j].createdAt
  {
    if CastFails(userId) then Err(ServerError("Error fetching notifications"))
    else Ok(Take(SortDesc(Filter(ns, Mine(userId)), CreatedAt), INBOX_LIMIT))
  }

  /** The inbox holds at most fifty of the caller's own notifications, each
      one stored, newest first; the caller's own are those whose recipient is
      the cast claim. */
  lemma InboxSound(ns: seq<Notification>, userId: Option<Id>)
    ensures var r := GetNotifications(ns, userId);
      r.Ok? ==>
        && |r.value| <= INBOX_LIMIT
        && (forall i :: 0 <= i < |r.value| ==>
              userId.Some? && r.value[i].recipient == ObjectIdOf(userId.value) && r.value[i] in ns)
        && (forall i, j :: 0 <= i < j < |r.value| ==> r.value[i].createdAt >= r.value[j].createdAt)
  {
    if !CastFails(userId) {
      var mine := Filter(ns, Mine(userId));
      var sorted := SortDesc(mine, CreatedAt);
      var r := GetNotifications(ns, userId).value;
      forall i | 0 <= i < |r| ensures userId.Some? && r[i].recipient == ObjectIdOf(userId.value) && r[i] in ns {
        SortDescSameElements(mine, CreatedAt, sorted[i]);
        var m :| 0 <= m < |mine| && mine[m] == sorted[i];
        FilterFrom(ns, Mine(userId), m);
      }
    }
  }

  /** The inbox is the latest page: a notification of the caller that is
      left out is no newer than every one shown, and the page is full. */
  lemma InboxLatest(ns: seq<Notification>, userId: Option<Id>, k: nat)
    requires userId.Some? && IsHex24(userId.value)
    requires k < |ns| && ns[k].recipient == ObjectIdOf(userId.value)
    ensures var r := GetNotifications(ns, userId);
      r.Ok? &&
      (ns[k] in r.value || (|r.value| == INBOX_LIMIT && forall i :: 0 <= i < |r.value| ==> r.value[i].createdAt >= ns[k].createdAt))
  {
    var mine := Filter(ns, Mine(userId));
    var sorted := SortDesc(mine, CreatedAt);
    var r := GetNotifications(ns, userId).value;
    FilterKeeps(ns, Mine(userId), k);
    SortDescSameElements(mine, CreatedAt, ns[k]);
    var j :| 0 <= j < |sorted| && sorted[j] == ns[k];
    if j < |r| {
      assert r[j] == ns[k];
    } else {
      assert forall i :: 0 <= i < |r| ==> CreatedAt(sorted[i]) >= CreatedAt(sorted[j]);
    }
  }

  /** The letters of the claim may be in either case: an upper-case
      spelling of the caller's id answers the same inbox. */
  lemma InboxIgnoresCase(ns: seq<Notification>, id: string)
    ensures GetNotifications(ns, Some(id)) == GetNotifications(ns, Some(ObjectIdOf(id)))
  {
    CastClaimIgnoresCase(id);
    assert Mine(Some(id)) == Mine(Some(ObjectIdOf(id)));
  }

  // ---------------------------------------------------------------------
  // markAsRead

  function IdIs(id: Id): Notification -> bool {
    (n: Notification) => n.id == id
  }

  /** `Notification.findByIdAndUpdate(id, { isRead: true })`. An id that is
      not 24 hexadecimal digits makes the cast throw; an unknown id is
      answered as success. The recipient is never compared with the caller. */
  function MarkAsReadSpec(ns: seq<Notification>, id: string): (r: (seq<Notification>, Result<string>))
    ensures r.1.Err? <==> !IsHex24(id)
    ensures r.1.Err? ==> r.1.failure == ServerError("Error marking as read") && r.0 == ns
    ensures r.1.Ok? ==> r.1.value == "Marked as read"
  {
    if !IsHex24(id) then (ns, Err(ServerError("Error marking as read")))
    else match FirstIndex(ns, IdIs(ObjectIdOf(id)))
      case None => (ns, Ok("Marked as read"))
      case Some(k) => (ns[k := ns[k].(isRead := true)], Ok("Marked as read"))
  }

  /** Exactly the notification with that id, its letters in either case,
      becomes read, whoever it belongs to; every other one is unchanged. */
  lemma MarkAsReadEffect(ns: seq<Notification>, id: string)
    requires NotificationModel.StoreValid(ns)
    requires IsHex24(id)
    ensures var r := MarkAsReadSpec(ns, id).0;
      |r| == |ns| &&
      forall i :: 0 <= i < |ns| ==> r[i] == if ns[i].id == ObjectIdOf(id) then ns[i].(isRead := true) else ns[i]
  {
  }

  method MarkAsRead(db: Db, id: string) returns (r: Result<string>)
    requires db.Valid()
    modifies db`notifications
    ensures db.Valid()
    ensures (db.notifications, r) == MarkAsReadSpec(old(db.notifications), id)
  {
    var (ns, answer) := MarkAsReadSpec(db.notifications, id);
    db.notifications := ns;
    r := answer;
  }

  // ---------------------------------------------------------------------
  // markAllAsRead

  /** `updateMany({ recipient, isRead: false }, { isRead: true })`; the
      CastError is caught as a 500 and nothing is written. */
  function MarkAllAsReadSpec(ns: seq<Notification>, userId: Option<Id>): (r: (seq<Notification>, Result<string>))
    ensures r.1.Err? <==> CastFails(userId)
    ensures r.1.Err? ==> r.1.failure == ServerError("Error marking all read") && r.0 == ns
    ensures r.1.Ok? ==> r.1.value == "All marked as read"
    ensures |r.0| == |ns|
  {
    if CastFails(userId) then (ns, Err(ServerError("Error marking all read")))
    else
      (seq(|ns|, i requires 0 <= i < |ns| =>
         if Mine(userId)(ns[i]) && !ns[i].isRead then ns[i].(isRead := true) else ns[i]),
       Ok("All marked as read"))
  }

  /** Afterwards none of the caller's notifications is unread, each keeps
      every other path, and everybody else's are untouched. The caller's
      are those whose recipient is the cast claim, whatever the case of its
      letters. */
  lemma MarkAllAsReadEffect(ns: seq<Notification>, userId: Option<Id>)
    ensures var r := MarkAllAsReadSpec(ns, userId).0;
      forall i :: 0 <= i < |ns| ==>
        (!CastFails(userId) && userId.Some? && ns[i].recipient == ObjectIdOf(userId.value) ==>
           r[i] == ns[i].(isRead := true)) &&
        (CastFails(userId) || userId.None? || ns[i].recipient != ObjectIdOf(userId.value) ==>
           r[i] == ns[i])
  {
    forall i | 0 <= i < |ns| && !CastFails(userId)
      ensures Mine(userId)(ns[i]) <==> userId.Some? && ns[i].recipient == ObjectIdOf(userId.value)
    {
    }
  }

  /** Marking everything read a second time changes nothing. */
  lemma MarkAllAsReadIdempotent(ns: seq<Notification>, userId: Option<Id>)
    ensures var once := MarkAllAsReadSpec(ns, userId).0;
      MarkAllAsReadSpec(once, userId).0 == once
  {
  }

  method MarkAllAsRead(db: Db, userId: Option<Id>) returns (r: Result<string>)
    requires db.Valid()
    modifies db`notifications
    ensures db.Valid()
    ensures (db.notifications, r) == MarkAllAsReadSpec(old(db.notifications), userId)
  {
    var (ns, answer) := MarkAllAsReadSpec(db.notifications, userId);
    assert forall i :: 0 <= i < |ns| ==> ns[i].id == db.notifications[i].id && ns[i].title == db.notifications[i].title;
    db.notifications := ns;
    r := answer;
  }

  // ---------------------------------------------------------------------
  // clearNotifications

  /** `deleteMany({ recipient })`; the CastError is caught as a 500 and
      nothing is deleted. */
  function ClearSpec(ns: seq<Notification>, userId: Option<Id>): (r: (seq<Notification>, Result<string>))
    ensures r.1.Err? <==> CastFails(userId)
    ensures r.1.Err? ==> r.1.failure == ServerError("Error clearing notifications") && r.0 == ns
    ensures r.1.Ok? ==> r.1.value == "Notifications cleared"
  {
    if CastFails(userId) then (ns, Err(ServerError("Error clearing notifications")))
    else (Filter(ns, NotMine(userId)), Ok("Notifications cleared"))
  }

  /** For a claim that casts, clearing deletes exactly the caller's
      notifications: none of them is left, every other one stays, and
      nothing else is added. */
  lemma ClearEffect(ns: seq<Notification>, userId: Option<Id>)
    requires !CastFails(userId)
    ensures var r := ClearSpec(ns, userId).0;
      && (forall i :: 0 <= i < |r| ==>
            (userId.None? || r[i].recipient != ObjectIdOf(userId.value)) && r[i] in ns)
      && (forall i :: 0 <= i < |ns| && (userId.None? || ns[i].recipient != ObjectIdOf(userId.value)) ==> ns[i] in r)
      && |r| == |ns| - Count(ns, Mine(userId))
  {
    FilterMembers(ns, NotMine(userId));
    ClearCount(ns, userId);
  }

  lemma {:induction false} ClearCount(ns: seq<Notification>, userId: Option<Id>)
    ensures |Filter(ns, NotMine(userId))| + Count(ns, Mine(userId)) == |ns|
  {
    if ns != [] {
      ClearCount(ns[1..], userId);
    }
  }

  /** After clearing, the caller's inbox is empty; a claim that does not
      cast makes both handlers answer 500. */
  lemma ClearEmptiesInbox(ns: seq<Notification>, userId: Option<Id>)
    ensures GetNotifications(ClearSpec(ns, userId).0, userId) ==
      if CastFails(userId) then Err(ServerError("Error fetching notifications")) else Ok([])
  {
    if !CastFails(userId) {
      var r := ClearSpec(ns, userId).0;
      var mine := Filter(r, Mine(userId));
      if mine != [] {
        FilterFrom(r, Mine(userId), 0);
        assert false;
      }
    }
  }

  lemma ClearKeepsValid(ns: seq<Notification>, userId: Option<Id>)
    requires NotificationModel.StoreValid(ns)
    ensures NotificationModel.StoreValid(ClearSpec(ns, userId).0)
  {
    FilterKeepsAll(ns, NotMine(userId), (n: Notification) => NotificationModel.SchemaValid(n));
    FilterKeepsPairwise(ns, NotMine(userId), (a: Notification, b: Notification) => a.id != b.id);
  }

  method ClearNotifications(db: Db, userId: Option<Id>) returns (r: Result<string>)
    requires db.Valid()
    modifies db`notifications
    ensures db.Valid()
    ensures (db.notifications, r) == ClearSpec(old(db.notifications), userId)
  {
    ClearKeepsValid(db.notifications, userId);
    var (ns, answer) := ClearSpec(db.notifications, userId);
    db.notifications := ns;
    r := answer;
  }
}
