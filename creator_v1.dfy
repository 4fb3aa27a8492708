/** backend/routes/creator_v1.1.js: the earlier posts listing. Any user whose
    username matches (whatever the role) is treated as the creator, posts come
    in table order, and no media or owner flag is attached. */
module CreatorV1 {
  import opened Common
  import opened Text
  import opened Tables
  import opened Ledger
  import Creator

  datatype PostViewV1 = PostViewV1(
    id: Id,
    title: string,
    price: int,
    content: string,
    unlocked: bool,
    expired: bool,
    purchasedAt: Option<Millis>)

  function ViewV1(post: Post, purchase: Option<Purchase>, now: Millis): PostViewV1 {
    var expired := purchase.Some? && ExpiredByAge(purchase.value.at, now);
    PostViewV1(post.id, post.title, post.price,
               if expired then "" else post.content,
               purchase.Some? && !expired,
               expired,
               if purchase.Some? then Some(purchase.value.at) else None)
  }

  /** GET /api/creator/:username/posts (earlier version). */
  function CreatorPostsV1(users: seq<User>, posts: seq<Post>, purchases: seq<Purchase>,
                          viewer: Id, username: string, now: Millis): Reply<seq<PostViewV1>>
  {
    if ILikeRefuses(username) then Err(500, "Server error")
    else match Creator.UserByName(users, username)
    case None => Err(404, "Creator not found")
    case Some(c) =>
      var mine := Creator.PostsBy(posts, c.id);
      var bought := Creator.PurchasesBy(purchases, viewer);
      Ok(seq(|mine|, i requires 0 <= i < |mine| =>
        ViewV1(mine[i], FirstPurchaseOf(bought, mine[i].id), now)))
  }

  /** A username pattern ending in a lone escape gives 500, an unknown
      username (case-insensitively, any role) 404; otherwise there is one
      entry per post row of the creator, in query order, each the view of
      that post for the viewer's first purchase row of it. */
  lemma CreatorPostsV1Listing(users: seq<User>, posts: seq<Post>, purchases: seq<Purchase>,
                              viewer: Id, username: string, now: Millis)
    ensures var r := CreatorPostsV1(users, posts, purchases, viewer, username, now);
      && (r.Err? <==> ILikeRefuses(username) || Creator.UserByName(users, username).None?)
      && (r.Err? ==> r.status == (if ILikeRefuses(username) then 500 else 404))
      && (r.Ok? ==> var mine := Creator.PostsBy(posts, Creator.UserByName(users, username).value.id);
            && |r.body| == |mine|
            && forall i :: 0 <= i < |mine| ==>
                 && r.body[i].id == mine[i].id
                 && r.body[i] == ViewV1(mine[i], FirstPurchaseOf(Creator.PurchasesBy(purchases, viewer), mine[i].id), now))
  {
  }

  /** The earlier view decides `expired`, `unlocked` and the content exactly
      as the current one does; it only lacks the media and owner fields. */
  lemma ViewV1AgreesWithView(post: Post, purchase: Option<Purchase>, now: Millis,
                             media: seq<Creator.MediaItem>, isCreator: bool)
    ensures var a := ViewV1(post, purchase, now);
      var b := Creator.View(post, media, purchase, isCreator, now);
      && a.content == b.content && a.unlocked == b.unlocked
      && a.expired == b.expired && a.purchasedAt == b.purchasedAt
  {
  }

  /** `expired` holds exactly for a purchase older than seven days, and
      `unlocked` for a purchase that has not expired. */
  lemma ViewV1States(post: Post, purchase: Option<Purchase>, now: Millis)
    ensures var v := ViewV1(post, purchase, now);
      && (v.expired <==> purchase.Some? && purchase.value.at < now - WEEK_MS)
      && (v.unlocked <==> purchase.Some? && !v.expired)
      && (v.content == "" <== v.expired)
      && (!v.expired ==> v.content == post.content)
  {
  }
}
