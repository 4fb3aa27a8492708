/** backend/routes/ppv.js: POST /api/ppv/purchase, the direct purchase that
    records a purchase at once and tells the post's creator. */
module Ppv {
  import opened Common
  import opened Tables

  /** Some purchase row of this buyer for this post, expired or not
      (`SELECT * FROM purchases WHERE user_id = $1 AND post_id = $2`). */
  predicate HasPurchase(purchases: seq<Purchase>, buyer: Id, post: Id) {
    exists p :: p in purchases && p.buyer == buyer && p.post == post
  }

  /** The notification the creator receives. */
  function UnlockNotice(id: Id, creator: Id, buyer: Id, post: Id, now: Millis): Notification {
    Notification(id, creator, "unlock", None, map["buyer_id" := buyer, "post_id" := post], false, now)
  }

  /** The handler. `postId` is the body's `post_id` (`None` when missing).
      The purchase row gets no `expires_at`, so the column stays NULL. */
  method Purchase(db: Db, buyer: Id, postId: Option<Id>, now: Millis) returns (r: Reply<string>)
    modifies db`purchases, db`notifications, db`serial
    ensures postId.None? ==>
      r == Err(400, "Post ID required") &&
      db.purchases == old(db.purchases) && db.notifications == old(db.notifications) &&
      db.serial == old(db.serial)
    ensures postId.Some? && HasPurchase(old(db.purchases), buyer, postId.value) ==>
      r == Ok("Already purchased") &&
      db.purchases == old(db.purchases) && db.notifications == old(db.notifications) &&
      db.serial == old(db.serial)
    ensures postId.Some? && !HasPurchase(old(db.purchases), buyer, postId.value) &&
            FindPost(db.posts, postId.value).None? ==>
      r == Err(404, "Post not found") &&
      db.purchases == old(db.purchases) && db.notifications == old(db.notifications) &&
      db.serial == old(db.serial)
    ensures postId.Some? && !HasPurchase(old(db.purchases), buyer, postId.value) &&
            FindPost(db.posts, postId.value).Some? ==>
      var post := FindPost(db.posts, postId.value).value;
      && r == Ok("Unlocked successfully")
      && db.purchases == old(db.purchases) + [Tables.Purchase(buyer, post.id, post.price, now, None)]
      && db.notifications == old(db.notifications) + [UnlockNotice(old(db.serial), post.creator, buyer, post.id, now)]
      && db.serial == old(db.serial) + 1
    ensures r.Ok? ==> HasPurchase(db.purchases, buyer, postId.value)
  {
    if postId.None? {
      return Err(400, "Post ID required");
    }
    var pid := postId.value;
    if HasPurchase(db.purchases, buyer, pid) {
      return Ok("Already purchased");
    }
    var found := FindPost(db.posts, pid);
    if found.None? {
      return Err(404, "Post not found");
    }
    var post := found.value;
    var row := Tables.Purchase(buyer, pid, post.price, now, None);
    db.purchases := db.purchases + [row];
    assert row in db.purchases;
    // the creator is read back with a second `WHERE id = $1` lookup
    var creator := FindPost(db.posts, pid).value.creator;
    db.notifications := db.notifications + [UnlockNotice(db.serial, creator, buyer, pid, now)];
    db.serial := db.serial + 1;
    r := Ok("Unlocked successfully");
  }

  /** Buying the same post twice: the second request finds the first
      purchase, answers "Already purchased" and writes nothing. */
  method PurchaseTwice(db: Db, buyer: Id, post: Id, first: Millis, second: Millis)
    returns (r1: Reply<string>, r2: Reply<string>, ghost afterFirst: seq<Tables.Purchase>,
             ghost noticesAfterFirst: seq<Notification>)
    modifies db`purchases, db`notifications, db`serial
    ensures r1.Ok? ==> r2 == Ok("Already purchased")
    ensures db.purchases == afterFirst && db.notifications == noticesAfterFirst
  {
    r1 := Purchase(db, buyer, Some(post), first);
    afterFirst, noticesAfterFirst := db.purchases, db.notifications;
    r2 := Purchase(db, buyer, Some(post), second);
  }
}
