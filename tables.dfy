/** The relational store the route handlers query, as in-memory tables.
    Each table is a field of `Db`, in insertion order; the follow graph is a
    set because its table has a uniqueness constraint. The model hands out
    ids from one counter shared by every table, where the database keeps one
    sequence per SERIAL column; only the ids' freshness matters here. */
module Tables {
  import opened Common

  datatype User = User(
    id: Id,
    username: string,
    email: Option<string>,
    password: string,        // the stored bcrypt hash
    role: Option<string>,
    bio: Option<string>,
    avatarUrl: Option<string>,
    bannerUrl: Option<string>,
    createdAt: Option<Millis>)

  /** `price` is kept in integer cents. */
  datatype Post = Post(
    id: Id,
    creator: Id,
    title: string,
    content: string,
    price: int,
    pinned: bool,
    createdAt: Millis)

  datatype MediaKind = Image | Video

  datatype Media = Media(postId: Id, url: string, kind: MediaKind)

  /** One pay-per-view purchase. `at` is the insertion time (the column
      creator.js reads as created_at and stripe.js writes as purchase_date);
      `expiresAt` is NULL unless the inserting handler sets it. */
  datatype Purchase = Purchase(
    buyer: Id,
    post: Id,
    amountCents: int,
    at: Millis,
    expiresAt: Option<Millis>)

  /** `follower` follows `followed` (columns follower_id, user_id). */
  datatype Edge = Edge(follower: Id, followed: Id)

  /** The JSON metadata of a notification, e.g. {"post_id": 7}. */
  type Meta = map<string, nat>

  datatype Notification = Notification(
    id: Id,
    user: Id,
    kind: string,
    message: Option<string>,
    metadata: Meta,
    isRead: bool,
    createdAt: Millis)

  datatype Message = Message(
    id: Id,
    sender: Id,
    recipient: Id,
    content: string,
    isRead: bool,
    createdAt: Millis)

  datatype Subscription = Subscription(creator: Id, subscriber: Id)

  datatype Reset = Reset(user: Id, token: string, expiresAt: Millis)

  datatype Stream = Stream(
    id: Id,
    creator: Id,
    title: string,
    key: string,
    isLive: bool,
    createdAt: Millis)

  class Db {
    var users: seq<User>
    var posts: seq<Post>
    var media: seq<Media>
    var purchases: seq<Purchase>
    var followers: set<Edge>
    var notifications: seq<Notification>
    var messages: seq<Message>
    var subscriptions: seq<Subscription>
    var resets: seq<Reset>
    var streams: seq<Stream>
    /** The next id the database hands out. */
    var serial: Id

    constructor ()
      ensures users == [] && posts == [] && media == [] && purchases == []
      ensures followers == {} && notifications == [] && messages == []
      ensures subscriptions == [] && resets == [] && streams == []
      ensures serial == 1
    {
      users, posts, media, purchases := [], [], [], [];
      followers, notifications, messages := {}, [], [];
      subscriptions, resets, streams := [], [], [];
      serial := 1;
    }
  }

  /** The first row a `WHERE id = $1` lookup returns. */
  function FindUser(users: seq<User>, id: Id): (r: Option<User>)
    ensures r.Some? ==> r.value in users && r.value.id == id
    ensures r.None? <==> forall u :: u in users ==> u.id != id
  {
    if users == [] then None
    else if users[0].id == id then Some(users[0])
    else FindUser(users[1..], id)
  }

  /** `users.id` is the primary key: no two rows share an id. */
  predicate UniqueUserIds(users: seq<User>) {
    forall i, j :: 0 <= i < j < |users| ==> users[i].id != users[j].id
  }

  /** Under the key, the id lookup finds the one row with that id. */
  lemma {:induction false} FindUserUnique(users: seq<User>, u: User)
    requires UniqueUserIds(users)
    requires u in users
    ensures FindUser(users, u.id) == Some(u)
  {
    if users[0] != u {
      assert users[0].id != u.id by {
        var k :| 0 <= k < |users| && users[k] == u;
      }
      assert u in users[1..];
      FindUserUnique(users[1..], u);
    }
  }

  function FindPost(posts: seq<Post>, id: Id): (r: Option<Post>)
    ensures r.Some? ==> r.value in posts && r.value.id == id
    ensures r.None? <==> forall p :: p in posts ==> p.id != id
  {
    if posts == [] then None
    else if posts[0].id == id then Some(posts[0])
    else FindPost(posts[1..], id)
  }

  /** The first user row satisfying a `WHERE` condition, as `rows[0]` after a
      query without `ORDER BY`. */
  function FirstUser(users: seq<User>, cond: User -> bool): (r: Option<User>)
    ensures r.Some? ==> r.value in users && cond(r.value)
    ensures r.None? <==> forall u :: u in users ==> !cond(u)
  {
    if users == [] then None
    else if cond(users[0]) then Some(users[0])
    else FirstUser(users[1..], cond)
  }
}
