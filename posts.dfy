/** backend/routes/posts.js: a creator's dashboard listing, the public
    listing by username, creating a post with its media rows, pinning, and
    the owner-checked delete. */
module Posts {
  import opened Common
  import opened Text
  import opened Seqs
  import opened Tables
  import Creator

  /** `CASE WHEN url ILIKE '%.mp4' THEN 'video' ELSE 'image' END`. */
  function KindOf(url: string): MediaKind {
    if ILike(url, "%.mp4") then Video else Image
  }

  /** A URL is typed as video exactly when it ends in ".mp4" in any case. */
  lemma KindOfIsSuffixTest(url: string)
    ensures KindOf(url) == Video <==> IsSuffix(".mp4", Lower(url))
  {
    assert Lower("%.mp4") == "%" + ".mp4";
    assert NoWildcards(".mp4");
    LikeEndsWith(Lower(url), ".mp4");
  }

  /** The media rows written for a new post, one per URL in order. */
  function MediaRows(post: Id, urls: seq<string>): (r: seq<Media>)
    ensures |r| == |urls|
    ensures forall i :: 0 <= i < |r| ==> r[i].postId == post && r[i].url == urls[i]
  {
    seq(|urls|, i requires 0 <= i < |urls| => Media(post, urls[i], KindOf(urls[i])))
  }

  /** POST /api/posts. A missing (falsy) title or content becomes "", price 0
      and the pin flag false. `urls` are the pathnames of the submitted media
      URLs. */
  method Create(db: Db, creator: Id, title: Option<string>, content: Option<string>,
                price: Option<int>, pinned: Option<bool>, urls: seq<string>, now: Millis)
    returns (post: Post)
    modifies db`posts, db`media, db`serial
    ensures post.id == old(db.serial) && post.creator == creator && post.createdAt == now
    ensures post.title == (if title.Some? then title.value else "")
    ensures post.content == (if content.Some? then content.value else "")
    ensures post.price == (if price.Some? then price.value else 0)
    ensures post.pinned == (pinned.Some? && pinned.value)
    ensures db.posts == old(db.posts) + [post]
    ensures db.media == old(db.media) + MediaRows(post.id, urls)
    ensures db.serial == old(db.serial) + 1
  {
    post := Post(db.serial, creator,
                 if title.Some? then title.value else "",
                 if content.Some? then content.value else "",
                 if price.Some? then price.value else 0,
                 pinned.Some? && pinned.value,
                 now);
    db.posts := db.posts + [post];
    db.serial := db.serial + 1;
    ghost var before := db.media;
    for i := 0 to |urls|
      invariant db.media == before + MediaRows(post.id, urls[..i])
      invariant db.posts == old(db.posts) + [post] && db.serial == old(db.serial) + 1
    {
      assert MediaRows(post.id, urls[..i + 1]) == MediaRows(post.id, urls[..i]) + [Media(post.id, urls[i], KindOf(urls[i]))];
      db.media := db.media + [Media(post.id, urls[i], KindOf(urls[i]))];
    }
    assert urls[..|urls|] == urls;
  }

  /** The new post's media, read back through the creator listing, are the
      submitted URLs, each typed by its suffix. */
  lemma {:induction false} CreatedMediaReadBack(rows: seq<Media>, post: Id, urls: seq<string>)
    requires forall m :: m in rows ==> m.postId != post
    ensures Creator.MediaOf(rows + MediaRows(post, urls), post)
         == seq(|urls|, i requires 0 <= i < |urls| => Creator.MediaItem(urls[i], KindOf(urls[i])))
    decreases |urls|
  {
    Creator.MediaOfAbsent(rows, post);
    if urls != [] {
      var init := urls[..|urls| - 1];
      var last := urls[|urls| - 1];
      assert MediaRows(post, urls) == MediaRows(post, init) + [Media(post, last, KindOf(last))];
      assert rows + MediaRows(post, urls) == (rows + MediaRows(post, init)) + [Media(post, last, KindOf(last))];
      Creator.MediaOfAppend(rows + MediaRows(post, init), Media(post, last, KindOf(last)), post);
      CreatedMediaReadBack(rows, post, init);
    } else {
      assert rows + MediaRows(post, urls) == rows;
    }
  }

  /** The tables without one post, and without its media rows. */
  function PostsWithout(posts: seq<Post>, id: Id): seq<Post> {
    Filter(posts, (p: Post) => p.id != id)
  }

  function MediaWithout(media: seq<Media>, id: Id): seq<Media> {
    Filter(media, (m: Media) => m.postId != id)
  }

  /** DELETE /api/posts/:id: 404 for an unknown post, 403 unless the caller
      created it; otherwise the media rows go first, then the post. */
  method Delete(db: Db, caller: Id, id: Id) returns (r: Reply<Id>)
    modifies db`posts, db`media
    ensures FindPost(old(db.posts), id).None? ==>
      r == Err(404, "Post not found") && db.posts == old(db.posts) && db.media == old(db.media)
    ensures FindPost(old(db.posts), id).Some? && FindPost(old(db.posts), id).value.creator != caller ==>
      r == Err(403, "Unauthorized") && db.posts == old(db.posts) && db.media == old(db.media)
    ensures FindPost(old(db.posts), id).Some? && FindPost(old(db.posts), id).value.creator == caller ==>
      && r == Ok(id)
      && db.media == MediaWithout(old(db.media), id)
      && db.posts == PostsWithout(old(db.posts), id)
  {
    var found := FindPost(db.posts, id);
    if found.None? {
      return Err(404, "Post not found");
    }
    if found.value.creator != caller {
      return Err(403, "Unauthorized");
    }
    db.media := MediaWithout(db.media, id);
    db.posts := PostsWithout(db.posts, id);
    r := Ok(id);
  }

  /** The delete removes exactly the post's rows: every other post and every
      other post's media stay. */
  lemma DeleteRemovesExactly(posts: seq<Post>, media: seq<Media>, id: Id)
    ensures forall p :: p in PostsWithout(posts, id) <==> p in posts && p.id != id
    ensures forall m :: m in MediaWithout(media, id) <==> m in media && m.postId != id
    ensures FindPost(PostsWithout(posts, id), id).None?
  {
    forall p
      ensures p in PostsWithout(posts, id) <==> p in posts && p.id != id
    {
      FilterMembership(posts, (p: Post) => p.id != id, p);
    }
    forall m
      ensures m in MediaWithout(media, id) <==> m in media && m.postId != id
    {
      FilterMembership(media, (m: Media) => m.postId != id, m);
    }
  }

  /** `UPDATE posts SET is_pinned = $1 WHERE id = $2`. */
  function SetPinned(posts: seq<Post>, id: Id, pinned: bool): (r: seq<Post>)
    ensures |r| == |posts|
  {
    seq(|posts|, i requires 0 <= i < |posts| =>
      if posts[i].id == id then posts[i].(pinned := pinned) else posts[i])
  }

  /** PATCH /api/posts/:id/pin: no ownership check; 404 when no row has the
      id. The reply is the updated row. */
  method Pin(db: Db, id: Id, pinned: bool) returns (r: Reply<Post>)
    modifies db`posts
    ensures FindPost(old(db.posts), id).None? ==> r == Err(404, "Post not found") && db.posts == old(db.posts)
    ensures FindPost(old(db.posts), id).Some? ==>
      && db.posts == SetPinned(old(db.posts), id, pinned)
      && r == Ok(FindPost(old(db.posts), id).value.(pinned := pinned))
  {
    var found := FindPost(db.posts, id);
    if found.None? {
      return Err(404, "Post not found");
    }
    db.posts := SetPinned(db.posts, id, pinned);
    r := Ok(found.value.(pinned := pinned));
  }

  /** Pinning changes the flag of the named post and nothing else, and
      reading the post back shows the new flag. */
  lemma PinChangesOnlyTheFlag(posts: seq<Post>, id: Id, pinned: bool)
    ensures var r := SetPinned(posts, id, pinned);
      && (forall i :: 0 <= i < |posts| ==>
            r[i].(pinned := posts[i].pinned) == posts[i]
            && (r[i].pinned == if posts[i].id == id then pinned else posts[i].pinned))
      && (FindPost(posts, id).Some? ==> FindPost(r, id) == Some(FindPost(posts, id).value.(pinned := pinned)))
      && (FindPost(posts, id).None? ==> r == posts)
  {
    var r := SetPinned(posts, id, pinned);
    FindAfterSetPinned(posts, id, pinned);
  }

  lemma {:induction false} FindAfterSetPinned(posts: seq<Post>, id: Id, pinned: bool)
    ensures FindPost(posts, id).Some? ==>
      FindPost(SetPinned(posts, id, pinned), id) == Some(FindPost(posts, id).value.(pinned := pinned))
    ensures FindPost(posts, id).None? ==> SetPinned(posts, id, pinned) == posts
  {
    if posts != [] {
      FindAfterSetPinned(posts[1..], id, pinned);
      assert SetPinned(posts, id, pinned)[1..] == SetPinned(posts[1..], id, pinned);
    }
  }

  /** One row of the dashboard: the post and its media URLs (`[]` when none). */
  datatype DashboardRow = DashboardRow(post: Post, mediaUrls: seq<string>)

  function UrlsOf(media: seq<Media>, post: Id): seq<string> {
    var items := Creator.MediaOf(media, post);
    seq(|items|, i requires 0 <= i < |items| => items[i].url)
  }

  /** `ORDER BY posts.is_pinned DESC, posts.created_at DESC`. */
  predicate PinnedThenNewer(a: Post, b: Post) {
    (a.pinned && !b.pinned) || (a.pinned == b.pinned && a.createdAt >= b.createdAt)
  }

  lemma PinnedThenNewerIsPreorder()
    ensures TotalPreorder(PinnedThenNewer)
  {
  }

  /** GET /api/posts/dashboard. */
  function Dashboard(posts: seq<Post>, media: seq<Media>, caller: Id): seq<DashboardRow> {
    var mine := Sort(Creator.PostsBy(posts, caller), PinnedThenNewer);
    seq(|mine|, i requires 0 <= i < |mine| => DashboardRow(mine[i], UrlsOf(media, mine[i].id)))
  }

  /** The dashboard holds the caller's posts, each once per row of the
      posts table, with that post's media URLs. */
  lemma DashboardRows(posts: seq<Post>, media: seq<Media>, caller: Id)
    ensures var rows := Dashboard(posts, media, caller);
      var mine := Sort(Creator.PostsBy(posts, caller), PinnedThenNewer);
      && multiset(mine) == multiset(Creator.PostsBy(posts, caller))
      && |rows| == |mine|
      && (forall i :: 0 <= i < |rows| ==>
            && rows[i].post == mine[i] && rows[i].mediaUrls == UrlsOf(media, mine[i].id)
            && rows[i].post.creator == caller && rows[i].post in posts)
  {
    var mine := Sort(Creator.PostsBy(posts, caller), PinnedThenNewer);
    forall i | 0 <= i < |mine|
      ensures mine[i].creator == caller && mine[i] in posts
    {
      assert mine[i] in multiset(Creator.PostsBy(posts, caller));
    }
  }

  /** Every pinned post comes before every unpinned one, newest first within
      each group. */
  lemma DashboardOrder(posts: seq<Post>, media: seq<Media>, caller: Id)
    ensures var rows := Dashboard(posts, media, caller);
      && (forall i, j :: 0 <= i < j < |rows| && rows[j].post.pinned ==> rows[i].post.pinned)
      && (forall i, j :: 0 <= i < j < |rows| && rows[i].post.pinned == rows[j].post.pinned ==>
            rows[i].post.createdAt >= rows[j].post.createdAt)
  {
    PinnedThenNewerIsPreorder();
    SortSorted(Creator.PostsBy(posts, caller), PinnedThenNewer);
  }

  /** One row of the public listing: the post with its author's name and
      avatar. */
  datatype PublicRow = PublicRow(post: Post, username: string, avatarUrl: Option<string>,
                                 mediaUrls: seq<string>)

  /** Every (post, author) pair whose author's name equals `name` ignoring
      case, in post-table order. */
  function Authored(posts: seq<Post>, users: seq<User>, name: string): seq<(Post, User)> {
    if posts == [] then []
    else
      var author := FindUser(users, posts[0].creator);
      (if author.Some? && Lower(author.value.username) == Lower(name)
       then [(posts[0], author.value)] else [])
      + Authored(posts[1..], users, name)
  }

  predicate NewerPair(a: (Post, User), b: (Post, User)) {
    a.0.createdAt >= b.0.createdAt
  }

  /** GET /api/posts/:username. */
  function ByUsername(posts: seq<Post>, users: seq<User>, media: seq<Media>, name: string): seq<PublicRow> {
    var rows := Sort(Authored(posts, users, name), NewerPair);
    seq(|rows|, i requires 0 <= i < |rows| =>
      PublicRow(rows[i].0, rows[i].1.username, rows[i].1.avatarUrl, UrlsOf(media, rows[i].0.id)))
  }

  /** The join and the `WHERE`: the post's author, found by id, has `name`
      ignoring case. */
  predicate AuthorNamed(users: seq<User>, name: string, p: Post) {
    var a := FindUser(users, p.creator);
    a.Some? && Lower(a.value.username) == Lower(name)
  }

  /** Each listed post's author matches the name ignoring case, and every
      post whose author does is listed, with the author's name and avatar
      and the post's media URLs; the list runs newest first. */
  lemma ByUsernameStates(posts: seq<Post>, users: seq<User>, media: seq<Media>, name: string)
    ensures var rows := ByUsername(posts, users, media, name);
      && (forall i :: 0 <= i < |rows| ==>
            && rows[i].post in posts && AuthorNamed(users, name, rows[i].post)
            && Lower(rows[i].username) == Lower(name)
            && rows[i].mediaUrls == UrlsOf(media, rows[i].post.id))
      && (forall p :: p in posts && AuthorNamed(users, name, p) ==>
            exists i :: 0 <= i < |rows| && rows[i].post == p &&
              rows[i].username == FindUser(users, p.creator).value.username &&
              rows[i].avatarUrl == FindUser(users, p.creator).value.avatarUrl)
      && (forall i, j :: 0 <= i < j < |rows| ==> rows[i].post.createdAt >= rows[j].post.createdAt)
  {
    ByUsernameSound(posts, users, media, name);
    ByUsernameComplete(posts, users, media, name);
    ByUsernameNewestFirst(posts, users, media, name);
  }

  lemma ByUsernameSound(posts: seq<Post>, users: seq<User>, media: seq<Media>, name: string)
    ensures var rows := ByUsername(posts, users, media, name);
      forall i :: 0 <= i < |rows| ==>
        && rows[i].post in posts && AuthorNamed(users, name, rows[i].post)
        && Lower(rows[i].username) == Lower(name)
        && rows[i].mediaUrls == UrlsOf(media, rows[i].post.id)
  {
    SortedAuthored(posts, users, name);
  }

  lemma ByUsernameComplete(posts: seq<Post>, users: seq<User>, media: seq<Media>, name: string)
    ensures var rows := ByUsername(posts, users, media, name);
      forall p :: p in posts && AuthorNamed(users, name, p) ==>
        exists i :: 0 <= i < |rows| && rows[i].post == p &&
          rows[i].username == FindUser(users, p.creator).value.username &&
          rows[i].avatarUrl == FindUser(users, p.creator).value.avatarUrl
  {
    SortedAuthored(posts, users, name);
    var pairs := Sort(Authored(posts, users, name), NewerPair);
    var rows := ByUsername(posts, users, media, name);
    forall p | p in posts && AuthorNamed(users, name, p)
      ensures exists i :: 0 <= i < |rows| && rows[i].post == p &&
                rows[i].username == FindUser(users, p.creator).value.username &&
                rows[i].avatarUrl == FindUser(users, p.creator).value.avatarUrl
    {
      var i :| 0 <= i < |pairs| && pairs[i] == (p, FindUser(users, p.creator).value);
      assert rows[i].post == p;
    }
  }

  lemma ByUsernameNewestFirst(posts: seq<Post>, users: seq<User>, media: seq<Media>, name: string)
    ensures var rows := ByUsername(posts, users, media, name);
      forall i, j :: 0 <= i < j < |rows| ==> rows[i].post.createdAt >= rows[j].post.createdAt
  {
    SortedAuthored(posts, users, name);
    var pairs := Sort(Authored(posts, users, name), NewerPair);
    var rows := ByUsername(posts, users, media, name);
    forall i, j | 0 <= i < j < |rows|
      ensures rows[i].post.createdAt >= rows[j].post.createdAt
    {
      assert NewerPair(pairs[i], pairs[j]);
    }
  }

  /** The sorted pairs: each is a post with its matching author, every such
      pair is there, and the posts run newest first. */
  lemma SortedAuthored(posts: seq<Post>, users: seq<User>, name: string)
    ensures var rows := Sort(Authored(posts, users, name), NewerPair);
      && (forall i :: 0 <= i < |rows| ==>
            rows[i].0 in posts && AuthorNamed(users, name, rows[i].0) && Lower(rows[i].1.username) == Lower(name))
      && (forall p :: p in posts && AuthorNamed(users, name, p) ==>
            exists i :: 0 <= i < |rows| && rows[i] == (p, FindUser(users, p.creator).value))
      && Sorted(rows, NewerPair)
  {
    var a := Authored(posts, users, name);
    var rows := Sort(a, NewerPair);
    AuthoredStates(posts, users, name);
    AuthoredComplete(posts, users, name);
    assert TotalPreorder(NewerPair);
    SortSorted(a, NewerPair);
    forall i | 0 <= i < |rows|
      ensures rows[i].0 in posts && AuthorNamed(users, name, rows[i].0) && Lower(rows[i].1.username) == Lower(name)
    {
      assert rows[i] in multiset(a);
    }
    forall p | p in posts && AuthorNamed(users, name, p)
      ensures exists i :: 0 <= i < |rows| && rows[i] == (p, FindUser(users, p.creator).value)
    {
      assert (p, FindUser(users, p.creator).value) in multiset(rows);
    }
  }

  /** Every post whose author matches is paired with that author. */
  lemma {:induction false} AuthoredComplete(posts: seq<Post>, users: seq<User>, name: string)
    ensures forall p :: p in posts && AuthorNamed(users, name, p) ==>
      (p, FindUser(users, p.creator).value) in Authored(posts, users, name)
  {
    if posts != [] {
      AuthoredComplete(posts[1..], users, name);
      forall p | p in posts && AuthorNamed(users, name, p)
        ensures (p, FindUser(users, p.creator).value) in Authored(posts, users, name)
      {
        if p != posts[0] {
          assert p in posts[1..];
        }
      }
    }
  }

  lemma {:induction false} AuthoredStates(posts: seq<Post>, users: seq<User>, name: string)
    ensures forall x :: x in Authored(posts, users, name) ==>
      x.0 in posts && x.1 in users && x.1.id == x.0.creator && Lower(x.1.username) == Lower(name)
      && x.1 == FindUser(users, x.0.creator).value
  {
    if posts != [] {
      AuthoredStates(posts[1..], users, name);
    }
  }
}
