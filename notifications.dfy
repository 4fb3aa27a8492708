/** backend/routes/notifications.js: a user's notifications, marking them
    all read, and creating one directly. */
module Notifications {
  import opened Common
  import opened Seqs
  import opened Tables

  /** `ORDER BY created_at DESC`. */
  predicate NewerNotice(a: Notification, b: Notification) {
    a.createdAt >= b.createdAt
  }

  function NoticesOf(notifications: seq<Notification>, user: Id): seq<Notification> {
    Filter(notifications, (n: Notification) => n.user == user)
  }

  /** GET /api/notifications. */
  function List(notifications: seq<Notification>, user: Id): seq<Notification> {
    Sort(NoticesOf(notifications, user), NewerNotice)
  }

  /** The caller sees all of their notifications and only theirs, newest
      first. */
  lemma ListStates(notifications: seq<Notification>, user: Id)
    ensures var r := List(notifications, user);
      && (forall n :: n in r <==> n in notifications && n.user == user)
      && multiset(r) == multiset(NoticesOf(notifications, user))
      && (forall i, j :: 0 <= i < j < |r| ==> r[i].createdAt >= r[j].createdAt)
  {
    var mine := NoticesOf(notifications, user);
    assert TotalPreorder(NewerNotice);
    SortSorted(mine, NewerNotice);
    forall n
      ensures n in List(notifications, user) <==> n in notifications && n.user == user
    {
      FilterMembership(notifications, (n: Notification) => n.user == user, n);
      assert n in List(notifications, user) <==> n in multiset(mine);
    }
  }

  /** `UPDATE notifications SET is_read = TRUE WHERE user_id = $1`. */
  function MarkAllRead(notifications: seq<Notification>, user: Id): (r: seq<Notification>)
    ensures |r| == |notifications|
  {
    seq(|notifications|, i requires 0 <= i < |notifications| =>
      if notifications[i].user == user then notifications[i].(isRead := true) else notifications[i])
  }

  /** PUT /api/notifications/read-all. */
  method ReadAll(db: Db, user: Id)
    modifies db`notifications
    ensures db.notifications == MarkAllRead(old(db.notifications), user)
  {
    db.notifications := MarkAllRead(db.notifications, user);
  }

  /** Afterwards every notification of the caller is read, every other row
      is as it was, and only the read flag of the caller's rows changed. */
  lemma ReadAllStates(notifications: seq<Notification>, user: Id)
    ensures var r := MarkAllRead(notifications, user);
      forall i :: 0 <= i < |r| ==>
        && (r[i].user == user ==> r[i].isRead && r[i].(isRead := notifications[i].isRead) == notifications[i])
        && (r[i].user != user ==> r[i] == notifications[i])
  {
  }

  /** Marking all read twice is marking all read once. */
  lemma ReadAllIdempotent(notifications: seq<Notification>, user: Id)
    ensures MarkAllRead(MarkAllRead(notifications, user), user) == MarkAllRead(notifications, user)
  {
  }

  /** POST /api/notifications. A missing (falsy) `user_id` or `type` is
      refused; missing metadata is stored as `{}`, and no message is set. */
  method Create(db: Db, user: Option<Id>, kind: string, metadata: Option<Meta>, now: Millis)
    returns (r: Reply<string>)
    modifies db`notifications, db`serial
    ensures user.None? || kind == "" ==>
      r == Err(400, "user_id and type are required") && db.notifications == old(db.notifications)
      && db.serial == old(db.serial)
    ensures user.Some? && kind != "" ==>
      && r == Ok("Notification created")
      && db.notifications == old(db.notifications) +
           [Notification(old(db.serial), user.value, kind, None,
                         if metadata.Some? then metadata.value else map[], false, now)]
      && db.serial == old(db.serial) + 1
  {
    if user.None? || kind == "" {
      return Err(400, "user_id and type are required");
    }
    var meta := if metadata.Some? then metadata.value else map[];
    db.notifications := db.notifications + [Notification(db.serial, user.value, kind, None, meta, false, now)];
    db.serial := db.serial + 1;
    r := Ok("Notification created");
  }
}
