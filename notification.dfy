/** app/routes/notification.py: sending notifications to one user or to a
    whole batch, listing one's own, marking them read and deleting them. */
module Notifications {
  import opened Common
  import opened Auth
  import opened Table
  import opened Order
  import opened Store

  /** The `NotificationCreate` payload. */
  datatype NotificationCreate = NotificationCreate(
    recipientId: Option<int>,
    batchId: Option<int>,
    title: string,
    message: string,
    channel: Option<string>)

  /** The roles allowed to send: an admin (flag or role), a coordinator or a
      teacher; a caller without the flag whose role is anything else, a
      student for one, is refused. */
  function MaySend(caller: Caller): (ok: bool)
    ensures ok <==> AdminByFlag(caller) || AdminByRole(caller) || IsCoordinator(caller) || IsTeacher(caller)
    ensures !caller.isAdmin && caller.role != "admin" && caller.role != "coordinator" && caller.role != "teacher"
            ==> !ok
  {
    AdminByFlagOrRole(caller) || IsCoordinator(caller) || IsTeacher(caller)
  }

  /** A coordinator who is not an admin may only address the batch they
      coordinate, when the batch has a coordinator at all. */
  function CoordinatorBlocked(b: Batch, caller: Caller): (blocked: bool)
    ensures blocked ==> IsCoordinator(caller) && !AdminByFlag(caller)
    ensures blocked ==> b.coordinatorId.Some? && b.coordinatorId.value != caller.id
    ensures IsCoordinator(caller) && !caller.isAdmin && b.coordinatorId.Some? && b.coordinatorId.value != caller.id
            ==> blocked
  {
    IsCoordinator(caller) && b.coordinatorId.Some? && b.coordinatorId.value != caller.id
    && !AdminByFlagOrRole(caller)
  }

  /** Teachers and admins are never held back by the coordinator rule. */
  lemma OnlyCoordinatorsBlocked(b: Batch, caller: Caller)
    ensures IsTeacher(caller) ==> !CoordinatorBlocked(b, caller)
    ensures AdminByFlagOrRole(caller) ==> !CoordinatorBlocked(b, caller)
    ensures b.coordinatorId.None? ==> !CoordinatorBlocked(b, caller)
  {
  }

  /** The notification built for one recipient: unread, stamped `now`, and on
      the "in-app" channel unless the payload names one. */
  function Notice(recipient: int, p: NotificationCreate, now: int): (n: Notification)
    ensures n.recipientId == recipient && !n.isRead && n.createdAt == now
    ensures n.title == p.title && n.message == p.message
    ensures n.channel == if TextGiven(p.channel) then p.channel.value else "in-app"
  {
    Notification(recipient, p.title, p.message, OrElse(p.channel, "in-app"), false, now)
  }

  /** The filter `batch_id == batchId and is_active == True`. */
  function ActiveIn(batchId: int): Row<Enrollment> -> bool
  {
    (e: Row<Enrollment>) => e.val.batchId == batchId && e.val.isActive
  }

  /** The active enrollment rows of a batch, in scan order. */
  function ActiveEnrollments(enrollments: seq<Row<Enrollment>>, batchId: int): (r: seq<Row<Enrollment>>)
    ensures forall e :: e in r ==> e in enrollments && e.val.batchId == batchId && e.val.isActive
    ensures forall e :: multiset(r)[e]
                        == if e.val.batchId == batchId && e.val.isActive then multiset(enrollments)[e] else 0
  {
    FilterCount(enrollments, ActiveIn(batchId));
    Filter(enrollments, ActiveIn(batchId))
  }

  /** The fan-out: one notification per enrollment row, in order, with
      consecutive fresh keys from `firstId`. */
  function FanOut(es: seq<Row<Enrollment>>, firstId: int, p: NotificationCreate, now: int)
    : (r: seq<Row<Notification>>)
    ensures |r| == |es|
    ensures forall k :: 0 <= k < |es| ==> r[k] == Row(firstId + k, Notice(es[k].val.studentId, p, now))
  {
    if es == [] then []
    else [Row(firstId, Notice(es[0].val.studentId, p, now))] + FanOut(es[1..], firstId + 1, p, now)
  }

  /** The fan-out's rows carry fresh, distinct keys from `firstId` on, so
      appending them to a table whose keys are below `firstId` keeps it well keyed. */
  lemma FanOutWellKeyed(t: seq<Row<Notification>>, es: seq<Row<Enrollment>>, firstId: int,
                        p: NotificationCreate, now: int)
    requires WellKeyed(t, firstId)
    ensures WellKeyed(t + FanOut(es, firstId, p, now), firstId + |es|)
  {
    var f := FanOut(es, firstId, p, now);
    var r := t + f;
    forall i, j | 0 <= i < |r| && 0 <= j < |r| && r[i].id == r[j].id ensures i == j {
      if i >= |t| && j >= |t| {
        assert r[i] == f[i - |t|] && r[j] == f[j - |t|];
      }
    }
    forall i | 0 <= i < |r| ensures r[i].id < firstId + |es| {
      if i >= |t| {
        assert r[i] == f[i - |t|];
      }
    }
  }

  /** The loop of `send_notification` that builds one notification per
      active enrollment row. */
  method BuildFanOut(rows: seq<Row<Enrollment>>, firstId: int, p: NotificationCreate, now: int)
    returns (created: seq<Row<Notification>>)
    ensures created == FanOut(rows, firstId, p, now)
  {
    created := [];
    var i := 0;
    while i < |rows|
      invariant 0 <= i <= |rows|
      invariant |created| == i
      invariant forall k :: 0 <= k < i ==> created[k] == Row(firstId + k, Notice(rows[k].val.studentId, p, now))
    {
      created := created + [Row(firstId + i, Notice(rows[i].val.studentId, p, now))];
      i := i + 1;
    }
  }

  /** The single-recipient path of `send_notification`: the user must exist. */
  method SendToRecipient(db: Db, recipientId: int, p: NotificationCreate, now: int)
    returns (r: Result<seq<Row<Notification>>>)
    requires db.Valid()
    modifies db`notifications, db`nextId
    ensures db.Valid()
    ensures !HasId(old(db.users), recipientId) ==> r == Failure(NotFound)
    ensures HasId(old(db.users), recipientId)
            ==> && r == Success([Row(old(db.nextId), Notice(recipientId, p, now))])
                && db.notifications == old(db.notifications) + r.value
                && db.nextId == old(db.nextId) + 1
    ensures r.Failure? ==> db.notifications == old(db.notifications) && db.nextId == old(db.nextId)
  {
    if Lookup(db.users, recipientId).None? {
      return Failure(NotFound);
    }
    var n := Row(db.nextId, Notice(recipientId, p, now));
    InsertReadBack(db.notifications, n.val, db.nextId);
    db.notifications := db.notifications + [n];
    db.nextId := db.nextId + 1;
    return Success([n]);
  }

  /** The batch path of `send_notification`: the batch must exist, a
      coordinator may only address a batch they coordinate, and every active
      enrollment of the batch gets one notification, added all together. */
  method SendToBatch(db: Db, batchId: int, p: NotificationCreate, caller: Caller, now: int)
    returns (r: Result<seq<Row<Notification>>>)
    requires db.Valid()
    modifies db`notifications, db`nextId
    ensures db.Valid()
    ensures !HasId(old(db.batches), batchId) ==> r == Failure(NotFound)
    ensures (HasId(old(db.batches), batchId)
             && CoordinatorBlocked(Lookup(old(db.batches), batchId).value.val, caller))
            ==> r == Failure(Forbidden)
    ensures (HasId(old(db.batches), batchId)
             && !CoordinatorBlocked(Lookup(old(db.batches), batchId).value.val, caller))
            ==> && r == Success(FanOut(ActiveEnrollments(old(db.enrollments), batchId), old(db.nextId), p, now))
                && db.notifications == old(db.notifications) + r.value
                && db.nextId == old(db.nextId) + |r.value|
    ensures r.Failure? ==> db.notifications == old(db.notifications) && db.nextId == old(db.nextId)
    ensures r == Success([]) <==> (HasId(old(db.batches), batchId)
                                   && !CoordinatorBlocked(Lookup(old(db.batches), batchId).value.val, caller)
                                   && ActiveEnrollments(old(db.enrollments), batchId) == [])
    ensures r == Success([]) ==> db.notifications == old(db.notifications) && db.nextId == old(db.nextId)
  {
    var batch := Lookup(db.batches, batchId);
    if batch.None? {
      return Failure(NotFound);
    }
    if CoordinatorBlocked(batch.value.val, caller) {
      return Failure(Forbidden);
    }
    var rows := ActiveEnrollments(db.enrollments, batchId);
    if rows == [] {
      return Success([]);
    }
    // Build every row first and add them together: the commit is all or nothing.
    var created := BuildFanOut(rows, db.nextId, p, now);
    FanOutWellKeyed(db.notifications, rows, db.nextId, p, now);
    db.notifications := db.notifications + created;
    db.nextId := db.nextId + |created|;
    r := Success(created);
  }

  /** `send_notification`. The role check comes first, then a target must be
      given; an explicit recipient wins over a batch. */
  method SendNotification(db: Db, p: NotificationCreate, caller: Caller, now: int)
    returns (r: Result<seq<Row<Notification>>>)
    requires db.Valid()
    modifies db`notifications, db`nextId
    ensures db.Valid()
    ensures !MaySend(caller) ==> r == Failure(Forbidden)
    ensures (MaySend(caller) && !IdGiven(p.recipientId) && !IdGiven(p.batchId)) ==> r == Failure(BadRequest)
    // the single-recipient path
    ensures (MaySend(caller) && IdGiven(p.recipientId) && !HasId(old(db.users), p.recipientId.value))
            ==> r == Failure(NotFound)
    ensures (MaySend(caller) && IdGiven(p.recipientId) && HasId(old(db.users), p.recipientId.value))
            ==> && r == Success([Row(old(db.nextId), Notice(p.recipientId.value, p, now))])
                && db.notifications == old(db.notifications) + r.value
                && db.nextId == old(db.nextId) + 1
    // the batch path
    ensures (MaySend(caller) && !IdGiven(p.recipientId) && IdGiven(p.batchId)
             && !HasId(old(db.batches), p.batchId.value))
            ==> r == Failure(NotFound)
    ensures (MaySend(caller) && !IdGiven(p.recipientId) && IdGiven(p.batchId)
             && HasId(old(db.batches), p.batchId.value)
             && CoordinatorBlocked(Lookup(old(db.batches), p.batchId.value).value.val, caller))
            ==> r == Failure(Forbidden)
    ensures (MaySend(caller) && !IdGiven(p.recipientId) && IdGiven(p.batchId)
             && HasId(old(db.batches), p.batchId.value)
             && !CoordinatorBlocked(Lookup(old(db.batches), p.batchId.value).value.val, caller))
            ==> && r == Success(FanOut(ActiveEnrollments(old(db.enrollments), p.batchId.value), old(db.nextId), p, now))
                && db.notifications == old(db.notifications) + r.value
                && db.nextId == old(db.nextId) + |r.value|
    ensures r.Failure? ==> db.notifications == old(db.notifications) && db.nextId == old(db.nextId)
    ensures r == Success([]) ==> db.notifications == old(db.notifications) && db.nextId == old(db.nextId)
  {
    if !MaySend(caller) {
      return Failure(Forbidden);
    }
    if !IdGiven(p.recipientId) && !IdGiven(p.batchId) {
      return Failure(BadRequest);
    }
    if IdGiven(p.recipientId) {
      r := SendToRecipient(db, p.recipientId.value, p, now);
    } else {
      r := SendToBatch(db, p.batchId.value, p, caller, now);
    }
  }

  /** `order_by(created_at.desc())`. */
  predicate NewestFirst(a: Row<Notification>, b: Row<Notification>)
  {
    a.val.createdAt >= b.val.createdAt
  }

  lemma NewestFirstIsTotal()
    ensures TotalPreorder(NewestFirst)
  {
  }

  /** The filter `recipient_id == userId`. */
  function AddressedTo(userId: int): Row<Notification> -> bool
  {
    (n: Row<Notification>) => n.val.recipientId == userId
  }

  /** `list_my_notifications`: at most `limit` of the caller's notifications,
      newest first; no notification of the caller that is left out is newer
      than one that is listed. */
  function ListMyNotifications(notifications: seq<Row<Notification>>, caller: Caller, limit: nat)
    : (r: seq<Row<Notification>>)
    ensures |r| == if limit < |Filter(notifications, AddressedTo(caller.id))| then limit
                   else |Filter(notifications, AddressedTo(caller.id))|
    ensures forall n :: n in r ==> n in notifications && n.val.recipientId == caller.id
    ensures multiset(r) <= multiset(Filter(notifications, AddressedTo(caller.id)))
    ensures SortedBy(r, NewestFirst)
    ensures forall x, y :: x in r && y in notifications && y.val.recipientId == caller.id && y !in r
                           ==> y.val.createdAt <= x.val.createdAt
  {
    NewestFirstIsTotal();
    var mine := Filter(notifications, AddressedTo(caller.id));
    var all := SortBy(mine, NewestFirst);
    var n := if limit < |all| then limit else |all|;
    SortedLimit(mine, all, NewestFirst, n);
    all[..n]
  }

  /** `mark_notification_read`: the notification must exist, then the caller
      must be an admin (flag or role) or its recipient; only its read flag is set. */
  method MarkNotificationRead(db: Db, notificationId: int, caller: Caller)
    returns (r: Result<Row<Notification>>)
    requires db.Valid()
    modifies db`notifications
    ensures db.Valid()
    ensures !HasId(old(db.notifications), notificationId) ==> r == Failure(NotFound)
    ensures (HasId(old(db.notifications), notificationId)
             && !AdminByFlagOrRole(caller)
             && Lookup(old(db.notifications), notificationId).value.val.recipientId != caller.id)
            ==> r == Failure(Forbidden)
    ensures r.Success? <==> (HasId(old(db.notifications), notificationId)
                             && (AdminByFlagOrRole(caller)
                                 || Lookup(old(db.notifications), notificationId).value.val.recipientId == caller.id))
    ensures r.Failure? ==> db.notifications == old(db.notifications)
    ensures r.Success? ==>
              var before := Lookup(old(db.notifications), notificationId).value.val;
              && r.value == Row(notificationId, before.(isRead := true))
              && db.notifications == Replace(old(db.notifications), notificationId, r.value.val)
              && Lookup(db.notifications, notificationId) == Some(r.value)
              && (forall other :: other != notificationId
                    ==> Lookup(db.notifications, other) == Lookup(old(db.notifications), other))
    ensures (r.Success? && Lookup(old(db.notifications), notificationId).value.val.isRead)
            ==> db.notifications == old(db.notifications)
  {
    var found := Lookup(db.notifications, notificationId);
    if found.None? {
      return Failure(NotFound);
    }
    var n := found.value;
    if !(AdminByFlagOrRole(caller) || n.val.recipientId == caller.id) {
      return Failure(Forbidden);
    }
    var marked := n.val.(isRead := true);
    ReplaceReadBack(db.notifications, notificationId, marked, db.nextId);
    if n.val.isRead {
      ReplaceSame(db.notifications, notificationId, marked);
    }
    db.notifications := Replace(db.notifications, notificationId, marked);
    r := Success(Row(notificationId, marked));
  }

  /** `delete_notification`: admin (flag or role) first, so a non-admin is
      refused even for a missing id; then the notification must exist. */
  method DeleteNotification(db: Db, notificationId: int, caller: Caller) returns (r: Result<()>)
    requires db.Valid()
    modifies db`notifications
    ensures db.Valid()
    ensures !AdminByFlagOrRole(caller) ==> r == Failure(Forbidden)
    ensures (AdminByFlagOrRole(caller) && !HasId(old(db.notifications), notificationId)) ==> r == Failure(NotFound)
    ensures r.Success? <==> AdminByFlagOrRole(caller) && HasId(old(db.notifications), notificationId)
    ensures r.Failure? ==> db.notifications == old(db.notifications)
    ensures r.Success? ==>
              && db.notifications == Remove(old(db.notifications), notificationId)
              && forall k :: 0 <= k < |old(db.notifications)| && old(db.notifications)[k].id == notificationId
                   ==> db.notifications == old(db.notifications)[..k] + old(db.notifications)[k + 1..]
  {
    if !AdminByFlagOrRole(caller) {
      return Failure(Forbidden);
    }
    if Lookup(db.notifications, notificationId).None? {
      return Failure(NotFound);
    }
    RemoveExactlyOne(db.notifications, notificationId, db.nextId);
    db.notifications := Remove(db.notifications, notificationId);
    r := Success(());
  }
}
