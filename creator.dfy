/** backend/routes/creator.js: the public profile, the owner-only bio
    update, and a creator's posts as one viewer sees them (media attached,
    purchase looked up, content blanked once the purchase has expired). */
module Creator {
  import opened Common
  import opened Text
  import opened Seqs
  import opened Tables
  import opened Ledger

  // ---------------------------------------------------------------- profile

  datatype Profile = Profile(
    id: Id,
    username: string,
    email: Option<string>,
    bio: string,
    role: Option<string>,
    avatarUrl: Option<string>,
    bannerUrl: Option<string>,
    createdAt: Option<Millis>)

  /** `value || null` on a text column: NULL and '' both become null. */
  function OrNull(s: Option<string>): Option<string> {
    if s == Some("") then None else s
  }

  /** `mapUserRow`: no row gives null; otherwise each optional text becomes
      null when missing or empty, and a missing bio becomes ''. */
  function MapUserRow(row: Option<User>): Option<Profile> {
    match row
    case None => None
    case Some(u) =>
      Some(Profile(u.id, u.username, OrNull(u.email),
                   if u.bio.Some? then u.bio.value else "",
                   OrNull(u.role), OrNull(u.avatarUrl), OrNull(u.bannerUrl), u.createdAt))
  }

  /** No optional text field of a profile is the empty string. */
  predicate Normalised(p: Profile) {
    && p.email != Some("") && p.role != Some("")
    && p.avatarUrl != Some("") && p.bannerUrl != Some("")
  }

  /** A row maps to a normalised profile with the same identity, every
      non-empty field kept as it was, and '' for a bio that is NULL. */
  lemma MapUserRowNormalises(row: Option<User>)
    ensures MapUserRow(row).None? <==> row.None?
    ensures row.Some? ==> var p := MapUserRow(row).value; var u := row.value;
      && Normalised(p)
      && p.id == u.id && p.username == u.username && p.createdAt == u.createdAt
      && (u.email != Some("") ==> p.email == u.email)
      && (u.role != Some("") ==> p.role == u.role)
      && (u.avatarUrl != Some("") ==> p.avatarUrl == u.avatarUrl)
      && (u.bannerUrl != Some("") ==> p.bannerUrl == u.bannerUrl)
      && (p.bio == "" <==> u.bio == None || u.bio == Some(""))
      && (u.bio.Some? ==> p.bio == u.bio.value)
  {
  }

  /** `WHERE username ILIKE $1` (any role), first row. */
  function UserByName(users: seq<User>, username: string): (r: Option<User>)
    ensures r.Some? ==> r.value in users && ILike(r.value.username, username)
    ensures r.None? ==> forall u :: u in users ==> !ILike(u.username, username)
  {
    FirstUser(users, (u: User) => ILike(u.username, username))
  }

  /** `WHERE username ILIKE $1 AND role = 'creator'`, first row. */
  function CreatorByName(users: seq<User>, username: string): (r: Option<User>)
    ensures r.Some? ==> r.value in users && ILike(r.value.username, username) && r.value.role == Some("creator")
    ensures r.None? ==> forall u :: u in users ==> !(ILike(u.username, username) && u.role == Some("creator"))
  {
    FirstUser(users, (u: User) => ILike(u.username, username) && u.role == Some("creator"))
  }

  /** GET /api/creator/:username. The parameter is the ILIKE pattern, so a
      trailing lone `\` makes the query fail and the handler answer 500. */
  function GetProfile(users: seq<User>, username: string): (r: Reply<Profile>)
    ensures r.Err? <==> ILikeRefuses(username) || UserByName(users, username).None?
    ensures ILikeRefuses(username) ==> r == Err(500, "Server error")
    ensures !ILikeRefuses(username) && r.Err? ==> r == Err(404, "User not found")
    ensures r.Ok? ==> Some(r.body) == MapUserRow(UserByName(users, username)) && Normalised(r.body)
  {
    if ILikeRefuses(username) then Err(500, "Server error")
    else match UserByName(users, username)
    case None => Err(404, "User not found")
    case Some(u) =>
      MapUserRowNormalises(Some(u));
      Ok(MapUserRow(Some(u)).value)
  }

  // ------------------------------------------------------------- bio update

  /** `typeof bio === 'string' ? bio : ''`; `None` stands for a body field
      that is missing or not a string. */
  function BioText(bio: Option<string>): string {
    if bio.Some? then bio.value else ""
  }

  /** `UPDATE users SET bio = $1 WHERE id = $2`. */
  function SetBio(users: seq<User>, id: Id, bio: string): (r: seq<User>)
    ensures |r| == |users|
    ensures forall i :: 0 <= i < |users| ==>
      if users[i].id == id then r[i] == users[i].(bio := Some(bio)) else r[i] == users[i]
  {
    seq(|users|, i requires 0 <= i < |users| =>
      if users[i].id == id then users[i].(bio := Some(bio)) else users[i])
  }

  /** The row `RETURNING` hands back: the first row with that id, now
      carrying the new bio. */
  lemma {:induction false} FindUserAfterSetBio(users: seq<User>, t: User, bio: string)
    requires t in users
    ensures FindUser(SetBio(users, t.id, bio), t.id) == Some(FindUser(users, t.id).value.(bio := Some(bio)))
  {
    if users[0].id != t.id {
      assert t in users[1..];
      assert SetBio(users, t.id, bio)[1..] == SetBio(users[1..], t.id, bio);
      FindUserAfterSetBio(users[1..], t, bio);
    }
  }

  /** PUT /api/creator/:username/bio. `requester` is the authenticated id
      (`None` when the token carries none). */
  method UpdateBio(db: Db, username: string, bio: Option<string>, requester: Option<Id>)
    returns (r: Reply<Profile>)
    modifies db`users
    ensures ILikeRefuses(username) ==> r == Err(500, "Server error") && db.users == old(db.users)
    ensures var target := UserByName(old(db.users), username);
      !ILikeRefuses(username) ==>
      && (target.None? ==> r == Err(404, "User not found") && db.users == old(db.users))
      && (target.Some? && requester != Some(target.value.id) ==>
            r == Err(403, "Forbidden: not the profile owner") && db.users == old(db.users))
      && (target.Some? && requester == Some(target.value.id) ==>
            && db.users == SetBio(old(db.users), target.value.id, BioText(bio))
            && r.Ok? && r.body.id == target.value.id && r.body.bio == BioText(bio)
            && Normalised(r.body)
            && Some(r.body) == MapUserRow(Some(FindUser(old(db.users), target.value.id).value.(bio := Some(BioText(bio)))))
            && (UniqueUserIds(old(db.users)) ==>
                  Some(r.body) == MapUserRow(Some(target.value.(bio := Some(BioText(bio)))))))
  {
    if ILikeRefuses(username) {
      return Err(500, "Server error");
    }
    var target := UserByName(db.users, username);
    if target.None? {
      return Err(404, "User not found");
    }
    var t := target.value;
    if requester.None? || requester.value != t.id {
      return Err(403, "Forbidden: not the profile owner");
    }
    db.users := SetBio(db.users, t.id, BioText(bio));
    var row := FindUser(db.users, t.id);
    ghost var before := old(db.users);
    FindUserAfterSetBio(before, t, BioText(bio));
    if UniqueUserIds(before) {
      FindUserUnique(before, t);
    }
    MapUserRowNormalises(row);
    r := Ok(MapUserRow(row).value);
  }

  // ------------------------------------------------------------ posts view

  datatype MediaItem = MediaItem(url: string, kind: MediaKind)

  /** The media of one post, in table order. */
  function MediaOf(rows: seq<Media>, post: Id): seq<MediaItem> {
    if rows == [] then []
    else (if rows[0].postId == post then [MediaItem(rows[0].url, rows[0].kind)] else [])
         + MediaOf(rows[1..], post)
  }

  lemma {:induction false} MediaOfAppend(rows: seq<Media>, row: Media, post: Id)
    ensures MediaOf(rows + [row], post)
         == MediaOf(rows, post) + (if row.postId == post then [MediaItem(row.url, row.kind)] else [])
  {
    if rows == [] {
      assert [row][1..] == [];
    } else {
      var head := if rows[0].postId == post then [MediaItem(rows[0].url, rows[0].kind)] else [];
      var tail := if row.postId == post then [MediaItem(row.url, row.kind)] else [];
      assert (rows + [row])[0] == rows[0];
      assert (rows + [row])[1..] == rows[1..] + [row];
      MediaOfAppend(rows[1..], row, post);
      calc {
        MediaOf(rows + [row], post);
        head + MediaOf(rows[1..] + [row], post);
        head + (MediaOf(rows[1..], post) + tail);
        (head + MediaOf(rows[1..], post)) + tail;
      }
    }
  }

  lemma {:induction false} MediaOfAbsent(rows: seq<Media>, post: Id)
    requires forall r :: r in rows ==> r.postId != post
    ensures MediaOf(rows, post) == []
  {
    if rows != [] {
      MediaOfAbsent(rows[1..], post);
    }
  }

  /** `WHERE post_id = ANY($1)`. */
  function MediaOfPosts(rows: seq<Media>, ids: set<Id>): (r: seq<Media>)
    ensures forall m :: m in r ==> m.postId in ids
  {
    if rows == [] then []
    else (if rows[0].postId in ids then [rows[0]] else []) + MediaOfPosts(rows[1..], ids)
  }

  /** Restricting the media query to the listed posts loses none of a listed
      post's media. */
  lemma {:induction false} MediaOfPostsKeeps(rows: seq<Media>, ids: set<Id>, post: Id)
    requires post in ids
    ensures MediaOf(MediaOfPosts(rows, ids), post) == MediaOf(rows, post)
  {
    if rows != [] {
      MediaOfPostsKeeps(rows[1..], ids, post);
      var head := if rows[0].postId in ids then [rows[0]] else [];
      var rest := MediaOfPosts(rows[1..], ids);
      if rows[0].postId in ids {
        assert MediaOfPosts(rows, ids) == [rows[0]] + rest;
        assert ([rows[0]] + rest)[1..] == rest;
      } else {
        assert MediaOfPosts(rows, ids) == rest;
      }
    }
  }

  /** `mediaMap[post_id] || []`. */
  function MediaLookup(m: map<Id, seq<MediaItem>>, post: Id): seq<MediaItem> {
    if post in m then m[post] else []
  }

  /** The map the `mediaMap` loop builds: rows in order, each pushed onto
      the list of its post. */
  function MediaMapOf(rows: seq<Media>): map<Id, seq<MediaItem>> {
    if rows == [] then map[]
    else
      var init := MediaMapOf(rows[..|rows| - 1]);
      var last := rows[|rows| - 1];
      init[last.postId := MediaLookup(init, last.postId) + [MediaItem(last.url, last.kind)]]
  }

  /** The map has a key for each post with media, and each post's list is
      its media rows in table order. */
  lemma {:induction false} MediaMapOfStates(rows: seq<Media>)
    ensures MediaMapOf(rows).Keys == set r | r in rows :: r.postId
    ensures forall post :: MediaLookup(MediaMapOf(rows), post) == MediaOf(rows, post)
  {
    if rows != [] {
      var init := rows[..|rows| - 1];
      var last := rows[|rows| - 1];
      MediaMapOfStates(init);
      assert rows == init + [last];
      assert forall r :: r in rows <==> r in init || r == last;
      forall post
        ensures MediaLookup(MediaMapOf(rows), post) == MediaOf(rows, post)
      {
        MediaOfAppend(init, last, post);
      }
    }
  }

  /** The `mediaMap` loop: each row is pushed onto the list of its post. */
  method BuildMediaMap(rows: seq<Media>) returns (m: map<Id, seq<MediaItem>>)
    ensures m == MediaMapOf(rows)
  {
    m := map[];
    for i := 0 to |rows|
      invariant m == MediaMapOf(rows[..i])
    {
      var row := rows[i];
      var cur := if row.postId in m then m[row.postId] else [];
      assert rows[..i + 1][..i] == rows[..i];
      m := m[row.postId := cur + [MediaItem(row.url, row.kind)]];
    }
    assert rows[..|rows|] == rows;
  }

  /** One post as the viewer receives it. */
  datatype PostView = PostView(
    id: Id,
    title: string,
    price: int,
    content: string,
    unlocked: bool,
    expired: bool,
    purchasedAt: Option<Millis>,
    mediaUrls: seq<MediaItem>,
    userIsCreator: bool)

  /** The per-post projection of creator.js:159-177. */
  function View(post: Post, media: seq<MediaItem>, purchase: Option<Purchase>,
                isCreator: bool, now: Millis): PostView
  {
    var expired := purchase.Some? && ExpiredByAge(purchase.value.at, now);
    PostView(post.id, post.title, post.price,
             if expired then "" else post.content,
             purchase.Some? && !expired,
             expired,
             if purchase.Some? then Some(purchase.value.at) else None,
             media, isCreator)
  }

  /** A post is in exactly one of three states for the viewer: never bought
      (locked, content kept), bought within the window (unlocked), or bought
      longer ago (expired, content blanked). */
  lemma ViewStates(post: Post, media: seq<MediaItem>, purchase: Option<Purchase>,
                   isCreator: bool, now: Millis)
    ensures var v := View(post, media, purchase, isCreator, now);
      && (purchase.None? ==> !v.unlocked && !v.expired && v.content == post.content && v.purchasedAt.None?)
      && (purchase.Some? ==> (v.unlocked <==> now <= purchase.value.at + WEEK_MS))
      && (v.expired <==> purchase.Some? && purchase.value.at + WEEK_MS < now)
      && !(v.unlocked && v.expired)
      && (v.content == post.content || (v.expired && v.content == ""))
      && v.id == post.id && v.title == post.title && v.price == post.price
  {
  }

  predicate PostNewerOrSame(a: Post, b: Post) {
    a.createdAt >= b.createdAt
  }

  lemma PostNewestFirstIsPreorder()
    ensures TotalPreorder(PostNewerOrSame)
  {
  }

  /** `SELECT ... FROM posts WHERE creator_id = $1`, in table order. */
  function PostsBy(posts: seq<Post>, creator: Id): seq<Post> {
    Filter(posts, (p: Post) => p.creator == creator)
  }

  /** `SELECT ... FROM purchases WHERE buyer_id = $1`, in table order. */
  function PurchasesBy(purchases: seq<Purchase>, buyer: Id): seq<Purchase> {
    Filter(purchases, (p: Purchase) => p.buyer == buyer)
  }

  function IdsOf(posts: seq<Post>): set<Id> {
    set p | p in posts :: p.id
  }

  /** GET /api/creator/:username/posts, as a function of the tables. */
  function CreatorPosts(users: seq<User>, posts: seq<Post>, media: seq<Media>,
                        purchases: seq<Purchase>, viewer: Id, username: string,
                        now: Millis): Reply<seq<PostView>>
  {
    if FindUser(users, viewer).None? then Err(403, "Access denied. Invalid user")
    else if ILikeRefuses(username) then Err(500, "Server error")
    else match CreatorByName(users, username)
      case None => Err(404, "Creator not found")
      case Some(c) =>
        var mine := Sort(PostsBy(posts, c.id), PostNewerOrSame);
        if mine == [] then Ok([])
        else
          var bought := PurchasesBy(purchases, viewer);
          Ok(seq(|mine|, i requires 0 <= i < |mine| =>
            View(mine[i], MediaOf(media, mine[i].id), FirstPurchaseOf(bought, mine[i].id),
                 viewer == c.id, now)))
  }

  /** The handler: the media are grouped by the `mediaMap` loop and each
      post reads its list from the map. */
  method GetCreatorPosts(db: Db, viewer: Id, username: string, now: Millis)
    returns (r: Reply<seq<PostView>>)
    ensures r == CreatorPosts(db.users, db.posts, db.media, db.purchases, viewer, username, now)
  {
    if FindUser(db.users, viewer).None? {
      return Err(403, "Access denied. Invalid user");
    }
    if ILikeRefuses(username) {
      return Err(500, "Server error");
    }
    var creator := CreatorByName(db.users, username);
    if creator.None? {
      return Err(404, "Creator not found");
    }
    var c := creator.value;
    var mine := Sort(PostsBy(db.posts, c.id), PostNewerOrSame);
    if mine == [] {
      return Ok([]);
    }
    var ids := IdsOf(mine);
    var rows := MediaOfPosts(db.media, ids);
    var mediaMap := BuildMediaMap(rows);
    var bought := PurchasesBy(db.purchases, viewer);
    var views := seq(|mine|, i requires 0 <= i < |mine| =>
      View(mine[i], MediaLookup(mediaMap, mine[i].id), FirstPurchaseOf(bought, mine[i].id), viewer == c.id, now));
    MediaMapOfStates(rows);
    forall i | 0 <= i < |mine|
      ensures MediaLookup(mediaMap, mine[i].id) == MediaOf(db.media, mine[i].id)
    {
      assert mine[i] in mine;
      MediaOfPostsKeeps(db.media, ids, mine[i].id);
    }
    ghost var media := db.media;
    assert views == seq(|mine|, i requires 0 <= i < |mine| =>
      View(mine[i], MediaOf(media, mine[i].id), FirstPurchaseOf(bought, mine[i].id), viewer == c.id, now));
    r := Ok(views);
  }

  /** A successful listing has one view per post of the creator, newest
      first. Each entry is the view of that post for the viewer's first
      purchase row of it: it carries exactly that post's media rows in table
      order, `userIsCreator` holds exactly when the viewer is the creator, and
      (by `ViewStates`) it is unlocked, expired or locked as that purchase's
      age says. */
  lemma CreatorPostsListing(users: seq<User>, posts: seq<Post>, media: seq<Media>,
                            purchases: seq<Purchase>, viewer: Id, username: string, now: Millis)
    requires FindUser(users, viewer).Some? && !ILikeRefuses(username) && CreatorByName(users, username).Some?
    ensures var c := CreatorByName(users, username).value;
      var r := CreatorPosts(users, posts, media, purchases, viewer, username, now);
      var mine := Sort(PostsBy(posts, c.id), PostNewerOrSame);
      && r.Ok?
      && |r.body| == |PostsBy(posts, c.id)|
      && (forall i :: 0 <= i < |r.body| ==>
            && r.body[i] == View(mine[i], MediaOf(media, mine[i].id),
                                 FirstPurchaseOf(PurchasesBy(purchases, viewer), mine[i].id), viewer == c.id, now)
            && r.body[i].id == mine[i].id
            && r.body[i].mediaUrls == MediaOf(media, mine[i].id)
            && (r.body[i].userIsCreator <==> viewer == c.id))
      && Sorted(mine, PostNewerOrSame)
      && multiset(mine) == multiset(PostsBy(posts, c.id))
  {
    var c := CreatorByName(users, username).value;
    PostNewestFirstIsPreorder();
    SortSorted(PostsBy(posts, c.id), PostNewerOrSame);
  }

  /** The error replies: an unknown viewer id gets 403 before anything else,
      a username pattern ending in a lone escape 500, a username with no
      creator-role user 404, and a creator without posts an empty list. */
  lemma CreatorPostsErrors(users: seq<User>, posts: seq<Post>, media: seq<Media>,
                           purchases: seq<Purchase>, viewer: Id, username: string, now: Millis)
    ensures var r := CreatorPosts(users, posts, media, purchases, viewer, username, now);
      && (FindUser(users, viewer).None? ==> r.Err? && r.status == 403)
      && (FindUser(users, viewer).Some? && ILikeRefuses(username) ==> r.Err? && r.status == 500)
      && (FindUser(users, viewer).Some? && !ILikeRefuses(username) && CreatorByName(users, username).None? ==>
            r.Err? && r.status == 404)
      && (FindUser(users, viewer).Some? && !ILikeRefuses(username) && CreatorByName(users, username).Some? &&
          PostsBy(posts, CreatorByName(users, username).value.id) == []
          ==> r == Ok([]))
  {
    if FindUser(users, viewer).Some? && !ILikeRefuses(username) && CreatorByName(users, username).Some? {
      var c := CreatorByName(users, username).value;
      if PostsBy(posts, c.id) == [] {
        assert |Sort(PostsBy(posts, c.id), PostNewerOrSame)| == 0;
      }
    }
  }

  /** The view consults the first purchase row of the post, so a second,
      recent purchase made after the first expired does not unlock the post
      again. */
  lemma RepurchaseStaysExpired(post: Post, viewer: Id)
    ensures var first := Purchase(viewer, post.id, 500, 0, None);
      var again := Purchase(viewer, post.id, 500, 2 * WEEK_MS, None);
      var now := 2 * WEEK_MS + 1;
      var v := View(post, [], FirstPurchaseOf([first, again], post.id), false, now);
      v.expired && !v.unlocked && !ExpiredByAge(again.at, now)
  {
  }

  /** Nothing special-cases free posts: a price-0 post the viewer never
      bought is reported locked. */
  lemma FreePostIsNotUnlocked(post: Post, now: Millis)
    requires post.price == 0
    ensures !View(post, [], None, false, now).unlocked
    ensures View(post, [], None, false, now).content == post.content
  {
  }
}
