/** backend/routes/follow.js: toggling and removing follow edges, the
    follower/following counts, and the follow-status lookup. */
module Follow {
  import opened Common
  import opened Text
  import opened Tables

  /** `WHERE username = $1`: exact, case-sensitive. */
  function UserNamed(users: seq<User>, name: string): (r: Option<User>)
    ensures r.Some? ==> r.value in users && r.value.username == name
    ensures r.None? <==> forall u :: u in users ==> u.username != name
  {
    FirstUser(users, (u: User) => u.username == name)
  }

  /** `WHERE LOWER(username) = LOWER($1)`: case-insensitive equality (no
      wildcards, unlike ILIKE). */
  function UserNamedIgnoringCase(users: seq<User>, name: string): (r: Option<User>)
    ensures r.Some? ==> r.value in users && Lower(r.value.username) == Lower(name)
    ensures r.None? <==> forall u :: u in users ==> Lower(u.username) != Lower(name)
  {
    FirstUser(users, (u: User) => Lower(u.username) == Lower(name))
  }

  /** Edges into `target` (its followers) and out of `viewer`. */
  function Into(edges: set<Edge>, target: Id): set<Edge> {
    set e | e in edges && e.followed == target
  }

  function OutOf(edges: set<Edge>, viewer: Id): set<Edge> {
    set e | e in edges && e.follower == viewer
  }

  /** `getCounts`: the target's follower count and the viewer's following
      count, each a `COUNT(*)` over the edge table. */
  datatype Counts = Counts(followers: nat, following: nat)

  function CountsOf(edges: set<Edge>, target: Id, viewer: Id): Counts {
    Counts(|Into(edges, target)|, |OutOf(edges, viewer)|)
  }

  /** The toggle's effect on the edge table: delete if present, else insert. */
  function Toggled(edges: set<Edge>, e: Edge): set<Edge> {
    if e in edges then edges - {e} else edges + {e}
  }

  /** Toggling the same edge twice restores the table. */
  lemma ToggleTwiceRestores(edges: set<Edge>, e: Edge)
    ensures Toggled(Toggled(edges, e), e) == edges
  {
  }

  /** Following adds one to both counts and unfollowing takes one from both. */
  lemma CountsAfterToggle(edges: set<Edge>, follower: Id, target: Id)
    ensures var e := Edge(follower, target);
      var before := CountsOf(edges, target, follower);
      var after := CountsOf(Toggled(edges, e), target, follower);
      && (e !in edges ==> after == Counts(before.followers + 1, before.following + 1))
      && (e in edges ==> before == Counts(after.followers + 1, after.following + 1))
  {
    var e := Edge(follower, target);
    var t := Toggled(edges, e);
    if e in edges {
      assert e in Into(edges, target) && e in OutOf(edges, follower);
      assert Into(t, target) == Into(edges, target) - {e};
      assert OutOf(t, follower) == OutOf(edges, follower) - {e};
    } else {
      assert e !in Into(edges, target) && e !in OutOf(edges, follower);
      assert Into(t, target) == Into(edges, target) + {e};
      assert OutOf(t, follower) == OutOf(edges, follower) + {e};
    }
  }

  /** The notification a new follow raises for the target. */
  function FollowNotice(id: Id, target: Id, follower: Id, now: Millis): Notification {
    Notification(id, target, "follow", Some("You have a new follower."), map["follower_id" := follower], false, now)
  }

  /** What the handlers decide to report. `counts` is absent only for the
      explicit unfollow of an edge that was not there. */
  datatype FollowReply = FollowReply(message: string, following: bool, counts: Option<Counts>)

  /** `String(x || '').trim()`; a missing parameter reads as empty. */
  function Requested(username: Option<string>): string {
    if username.Some? then Trim(username.value) else ""
  }

  /** The lookup and the checks shared by both handlers: blank name 400,
      unknown user 404, the caller themself 400. */
  function Target(users: seq<User>, follower: Id, username: Option<string>): (r: Reply<Id>)
    ensures r.Ok? <==> Requested(username) != "" && UserNamed(users, Requested(username)).Some?
                       && UserNamed(users, Requested(username)).value.id != follower
    ensures r.Ok? ==> r.body == UserNamed(users, Requested(username)).value.id && r.body != follower
    ensures r.Err? ==> r.status in {400, 404}
    ensures Requested(username) == "" ==> r == Err(400, "username is required")
    ensures Requested(username) != "" && UserNamed(users, Requested(username)).None? ==>
      r == Err(404, "User not found")
    ensures Requested(username) != "" && UserNamed(users, Requested(username)).Some? &&
            UserNamed(users, Requested(username)).value.id == follower ==>
      r == Err(400, "You cannot follow yourself")
  {
    var name := Requested(username);
    if name == "" then Err(400, "username is required")
    else match UserNamed(users, name)
      case None => Err(404, "User not found")
      case Some(u) => if u.id == follower then Err(400, "You cannot follow yourself") else Ok(u.id)
  }

  /** The toggle's writes once the target is known: delete the edge if it
      is there, otherwise insert it and notify the target. */
  method ToggleEdge(db: Db, follower: Id, target: Id, now: Millis) returns (r: FollowReply)
    modifies db`followers, db`notifications, db`serial
    ensures db.followers == Toggled(old(db.followers), Edge(follower, target))
    ensures r.counts == Some(CountsOf(db.followers, target, follower))
    ensures r.following <==> Edge(follower, target) in db.followers
    ensures Edge(follower, target) in old(db.followers) ==>
      r.message == "Unfollowed" && db.notifications == old(db.notifications) && db.serial == old(db.serial)
    ensures Edge(follower, target) !in old(db.followers) ==>
      && r.message == "Followed"
      && db.notifications == old(db.notifications) + [FollowNotice(old(db.serial), target, follower, now)]
      && db.serial == old(db.serial) + 1
  {
    var e := Edge(follower, target);
    if e in db.followers {
      db.followers := db.followers - {e};
      return FollowReply("Unfollowed", false, Some(CountsOf(db.followers, target, follower)));
    }
    // ON CONFLICT DO NOTHING: the edge table is a set
    db.followers := db.followers + {e};
    db.notifications := db.notifications + [FollowNotice(db.serial, target, follower, now)];
    db.serial := db.serial + 1;
    r := FollowReply("Followed", true, Some(CountsOf(db.followers, target, follower)));
  }

  /** `toggleByUsername`, behind POST /toggle and POST /:username. */
  method Toggle(db: Db, follower: Id, username: Option<string>, now: Millis) returns (r: Reply<FollowReply>)
    modifies db`followers, db`notifications, db`serial
    ensures var t := Target(db.users, follower, username);
      t.Err? ==>
        && r == Err(t.status, t.error)
        && db.followers == old(db.followers) && db.notifications == old(db.notifications)
        && db.serial == old(db.serial)
    ensures var t := Target(db.users, follower, username);
      t.Ok? ==>
        var e := Edge(follower, t.body);
        && db.followers == Toggled(old(db.followers), e)
        && (e in old(db.followers) ==>
              && r == Ok(FollowReply("Unfollowed", false, Some(CountsOf(db.followers, t.body, follower))))
              && db.notifications == old(db.notifications) && db.serial == old(db.serial))
        && (e !in old(db.followers) ==>
              && r == Ok(FollowReply("Followed", true, Some(CountsOf(db.followers, t.body, follower))))
              && db.notifications == old(db.notifications) + [FollowNotice(old(db.serial), t.body, follower, now)]
              && db.serial == old(db.serial) + 1)
  {
    var t := Target(db.users, follower, username);
    if t.Err? {
      return Err(t.status, t.error);
    }
    var reply := ToggleEdge(db, follower, t.body, now);
    r := Ok(reply);
  }

  /** The explicit unfollow's write once the target is known: delete the
      edge, and report counts only when there was one to delete. */
  method RemoveEdge(db: Db, follower: Id, target: Id) returns (r: FollowReply)
    modifies db`followers
    ensures db.followers == old(db.followers) - {Edge(follower, target)}
    ensures Edge(follower, target) in old(db.followers) ==>
      r == FollowReply("Unfollowed", false, Some(CountsOf(db.followers, target, follower)))
    ensures Edge(follower, target) !in old(db.followers) ==>
      r == FollowReply("Already not following", false, None) && db.followers == old(db.followers)
  {
    var e := Edge(follower, target);
    if e !in db.followers {
      return FollowReply("Already not following", false, None);
    }
    db.followers := db.followers - {e};
    r := FollowReply("Unfollowed", false, Some(CountsOf(db.followers, target, follower)));
  }

  /** DELETE /api/follow/:username: never inserts and raises no notification. */
  method Unfollow(db: Db, follower: Id, username: Option<string>) returns (r: Reply<FollowReply>)
    modifies db`followers
    ensures var t := Target(db.users, follower, username);
      t.Err? ==> r == Err(t.status, t.error) && db.followers == old(db.followers)
    ensures var t := Target(db.users, follower, username);
      t.Ok? ==>
      var target := t.body;
      var e := Edge(follower, target);
      && db.followers == old(db.followers) - {e}
      && (e in old(db.followers) ==>
            r == Ok(FollowReply("Unfollowed", false, Some(CountsOf(db.followers, target, follower)))))
      && (e !in old(db.followers) ==>
            r == Ok(FollowReply("Already not following", false, None)) && db.followers == old(db.followers))
  {
    var t := Target(db.users, follower, username);
    if t.Err? {
      return Err(t.status, t.error);
    }
    var reply := RemoveEdge(db, follower, t.body);
    r := Ok(reply);
  }

  /** GET /api/follow/status/:username. */
  function Status(users: seq<User>, edges: set<Edge>, viewer: Id, username: string): Reply<bool> {
    match UserNamedIgnoringCase(users, username)
    case None => Err(404, "User not found")
    case Some(u) => Ok(Edge(viewer, u.id) in edges)
  }

  /** Status answers true exactly when the viewer's edge to the user the
      case-insensitive lookup finds exists, and 404 when no username
      matches in any case. */
  lemma StatusIff(users: seq<User>, edges: set<Edge>, viewer: Id, username: string)
    ensures Status(users, edges, viewer, username).Err? <==>
      forall u :: u in users ==> Lower(u.username) != Lower(username)
    ensures Status(users, edges, viewer, username) == Ok(true) <==>
      UserNamedIgnoringCase(users, username).Some? &&
      Edge(viewer, UserNamedIgnoringCase(users, username).value.id) in edges
  {
  }

  /** The status lookup ignores case: with a single user "Ann", the name
      "ann" has a status ... */
  lemma StatusLookupIgnoresCase()
    ensures var users := [User(1, "Ann", None, "", None, None, None, None, None)];
      Status(users, {}, 2, "ann") == Ok(false)
  {
    var ann := User(1, "Ann", None, "", None, None, None, None, None);
    assert UserNamedIgnoringCase([ann], "ann") == Some(ann) by {
      assert Lower("Ann") == "ann" by {
        assert Lower("Ann")[0] == 'a';
      }
      assert Lower("ann") == "ann";
    }
  }

  /** ... but the toggle's lookup is exact, so the same name cannot be
      toggled. */
  lemma ToggleLookupIsExact()
    ensures var users := [User(1, "Ann", None, "", None, None, None, None, None)];
      Target(users, 2, Some("ann")) == Err(404, "User not found")
  {
    var ann := User(1, "Ann", None, "", None, None, None, None, None);
    assert Requested(Some("ann")) == "ann" by {
      assert !IsSpace("ann"[0]) && !IsSpace("ann"[2]);
      TrimUnpadded("ann");
    }
    assert UserNamed([ann], "ann") == None by {
      assert "Ann" != "ann" by {
        assert "Ann"[0] != "ann"[0];
      }
    }
  }

  /** The JSON value of a `following` field: the boolean the handler writes
      or the count a later spread puts over it. */
  datatype Flag = Bool(b: bool) | Num(n: nat)

  predicate Truthy(f: Flag) {
    match f
    case Bool(b) => b
    case Num(n) => n != 0
  }

  /** The reply body as sent: `following`, and the counts when present. */
  datatype FollowJson = FollowJson(message: string, following: Flag, followers: Option<nat>)

  /** As written, `{ message, following: false, ...counts }`: the spread's
      `following` (the viewer's following count) replaces the boolean. */
  function WireAsWritten(r: FollowReply): FollowJson {
    match r.counts
    case None => FollowJson(r.message, Bool(r.following), None)
    case Some(c) => FollowJson(r.message, Num(c.following), Some(c.followers))
  }

  /** As intended: `following` keeps the edge state beside the counts. */
  function Wire(r: FollowReply): FollowJson {
    FollowJson(r.message, Bool(r.following), if r.counts.Some? then Some(r.counts.value.followers) else None)
  }
}
