/** backend/routes/purchases.js: the caller's purchased posts (GET /) and the
    live unlocks the client uses to decide what to show (GET /mine). */
module Purchases {
  import opened Common
  import opened Tables
  import opened Seqs
  import opened Ledger
  import Creator

  /** One row of the join purchases ⋈ posts ⋈ users. */
  datatype Joined = Joined(purchase: Purchase, post: Post, creator: User)

  /** The inner join for one buyer, in purchase-table order. A purchase whose
      post or whose post's creator is missing drops out. */
  function Join(purchases: seq<Purchase>, posts: seq<Post>, users: seq<User>, buyer: Id): (r: seq<Joined>)
    ensures |r| <= |purchases|
    ensures forall i :: 0 <= i < |r| ==>
      && r[i].purchase in purchases && r[i].purchase.buyer == buyer
      && r[i].post in posts && r[i].post.id == r[i].purchase.post
      && r[i].creator in users && r[i].creator.id == r[i].post.creator
  {
    if purchases == [] then []
    else
      var rest := Join(purchases[1..], posts, users, buyer);
      var p := purchases[0];
      var post := FindPost(posts, p.post);
      if p.buyer == buyer && post.Some? && FindUser(users, post.value.creator).Some? then
        [Joined(p, post.value, FindUser(users, post.value.creator).value)] + rest
      else rest
  }

  /** A purchase's post and the post's creator are both on record. */
  predicate Resolvable(p: Purchase, posts: seq<Post>, users: seq<User>) {
    FindPost(posts, p.post).Some? && FindUser(users, FindPost(posts, p.post).value.creator).Some?
  }

  /** When every purchase of the buyer resolves, the join keeps one row per
      purchase: repeated purchases of one post are listed repeatedly. */
  lemma {:induction false} JoinKeepsEveryPurchase(purchases: seq<Purchase>, posts: seq<Post>,
                                                  users: seq<User>, buyer: Id)
    requires forall p :: p in purchases && p.buyer == buyer ==> Resolvable(p, posts, users)
    ensures |Join(purchases, posts, users, buyer)| == |Creator.PurchasesBy(purchases, buyer)|
  {
    if purchases != [] {
      assert forall p :: p in purchases[1..] ==> p in purchases;
      JoinKeepsEveryPurchase(purchases[1..], posts, users, buyer);
    }
  }

  /** `ORDER BY purchases.purchase_date DESC`. */
  predicate NewerPurchase(a: Joined, b: Joined) {
    a.purchase.at >= b.purchase.at
  }

  lemma NewerPurchaseIsPreorder()
    ensures TotalPreorder(NewerPurchase)
  {
  }

  /** One entry of the "My Purchases" list. */
  datatype Listed = Listed(id: Id, title: string, content: string, price: int, creator: string)

  function ListEntry(j: Joined): Listed {
    Listed(j.post.id, j.post.title, j.post.content, j.post.price, j.creator.username)
  }

  /** GET /api/purchases. */
  function ListPurchases(purchases: seq<Purchase>, posts: seq<Post>, users: seq<User>, buyer: Id): seq<Listed> {
    var rows := Sort(Join(purchases, posts, users, buyer), NewerPurchase);
    seq(|rows|, i requires 0 <= i < |rows| => ListEntry(rows[i]))
  }

  /** The list holds the caller's resolvable purchases, newest first, each
      carrying the post's fields and its creator's username. */
  lemma ListPurchasesStates(purchases: seq<Purchase>, posts: seq<Post>, users: seq<User>, buyer: Id)
    ensures var r := ListPurchases(purchases, posts, users, buyer);
      var rows := Sort(Join(purchases, posts, users, buyer), NewerPurchase);
      && multiset(rows) == multiset(Join(purchases, posts, users, buyer))
      && Sorted(rows, NewerPurchase)
      && |r| == |rows|
      && forall i :: 0 <= i < |r| ==>
           && rows[i].purchase.buyer == buyer
           && r[i].id == rows[i].purchase.post
           && r[i].title == rows[i].post.title
           && r[i].content == rows[i].post.content
           && r[i].price == rows[i].post.price
           && r[i].creator == rows[i].creator.username
           && rows[i].post.creator == rows[i].creator.id
  {
    var j := Join(purchases, posts, users, buyer);
    var rows := Sort(j, NewerPurchase);
    NewerPurchaseIsPreorder();
    SortSorted(j, NewerPurchase);
    forall i | 0 <= i < |rows|
      ensures rows[i].purchase.buyer == buyer && rows[i].post.id == rows[i].purchase.post
      ensures rows[i].post.creator == rows[i].creator.id
    {
      assert rows[i] in multiset(j);
    }
  }

  /** One entry of `/mine`: the post and the purchase time recovered as
      `expires_at - 7 days`. */
  datatype Unlock = Unlock(postId: Id, purchasedAt: Millis)

  /** GET /api/purchases/mine: the caller's purchases whose `expires_at` is
      set and still in the future, in table order. */
  function Mine(purchases: seq<Purchase>, buyer: Id, now: Millis): (r: seq<Unlock>)
    ensures |r| <= |purchases|
    ensures forall i :: 0 <= i < |r| ==>
      exists p :: p in purchases && p.buyer == buyer && p.post == r[i].postId &&
        p.expiresAt == Some(r[i].purchasedAt + WEEK_MS) && Live(r[i].purchasedAt + WEEK_MS, now)
  {
    if purchases == [] then []
    else
      var p := purchases[0];
      var rest := Mine(purchases[1..], buyer, now);
      assert forall q :: q in purchases[1..] ==> q in purchases;
      if p.buyer == buyer && p.expiresAt.Some? && Live(p.expiresAt.value, now) then
        [Unlock(p.post, p.expiresAt.value - WEEK_MS)] + rest
      else rest
  }

  /** Every live purchase with an expiry shows up in `/mine`. */
  lemma {:induction false} MineComplete(purchases: seq<Purchase>, buyer: Id, now: Millis, p: Purchase)
    requires p in purchases && p.buyer == buyer && p.expiresAt.Some? && Live(p.expiresAt.value, now)
    ensures Unlock(p.post, p.expiresAt.value - WEEK_MS) in Mine(purchases, buyer, now)
  {
    if purchases[0] != p {
      MineComplete(purchases[1..], buyer, now, p);
    }
  }

  /** A purchase the webhook recorded, while live, comes back from `/mine`
      with its own purchase time: the round trip through `expires_at`. */
  lemma WebhookPurchaseInMine(purchases: seq<Purchase>, p: Purchase, now: Millis)
    requires p in purchases && p.expiresAt == Some(p.at + WEEK_MS) && now < p.at + WEEK_MS
    ensures Unlock(p.post, p.at) in Mine(purchases, p.buyer, now)
  {
    MineComplete(purchases, p.buyer, now, p);
  }

  /** A direct purchase sets no `expires_at`, so a buyer whose purchases all
      came that way has an empty `/mine`. */
  lemma DirectPurchasesNeverInMine(purchases: seq<Purchase>, buyer: Id, now: Millis)
    requires forall p :: p in purchases && p.buyer == buyer ==> p.expiresAt.None?
    ensures Mine(purchases, buyer, now) == []
  {
  }
}
