/** backend/routes/social.js: the paginated followers and following lists of
    a user, each row flagged with whether the viewer follows that user. */
module Social {
  import opened Common
  import opened Seqs
  import opened Tables
  import Follow

  /** `{ page, limit, offset }`. */
  datatype PageParams = PageParams(page: nat, limit: nat, offset: nat)

  /** `parsePageLimit`. The arguments are the `parseInt` results of the
      query parameters, `None` standing for NaN. */
  function ParsePageLimit(page: Option<int>, limit: Option<int>): (r: PageParams)
    ensures r.page >= 1 && 1 <= r.limit <= 100
    ensures r.offset == (r.page - 1) * r.limit
  {
    // `parseInt(...) || 1`: NaN and 0 both fall back to 1
    var p := if page.Some? && page.value != 0 then page.value else 1;
    var pg := if p > 1 then p else 1;
    var l := if limit.None? then 25 else limit.value;
    var lim := if l > 100 then 100 else if l < 1 then 1 else l;
    PageParams(pg, lim, (pg - 1) * lim)
  }

  /** What the parameters come to: page 1 and 25 rows by default, a positive
      page kept as given and any other page read as 1, a limit clamped to
      [1, 100]. */
  lemma ParsePageLimitStates(page: Option<int>, limit: Option<int>)
    ensures ParsePageLimit(None, None) == PageParams(1, 25, 0)
    ensures var r := ParsePageLimit(page, limit);
      && (page.Some? && page.value >= 1 ==> r.page == page.value)
      && (page.None? || page.value < 1 ==> r.page == 1)
      && (limit.None? ==> r.limit == 25)
      && (limit.Some? && 1 <= limit.value <= 100 ==> r.limit == limit.value)
      && (limit.Some? && limit.value > 100 ==> r.limit == 100)
      && (limit.Some? && limit.value < 1 ==> r.limit == 1)
  {
  }

  datatype Pagination = Pagination(page: nat, limit: nat, total: nat, totalPages: nat,
                                   hasPrev: bool, hasNext: bool)

  function PaginationOf(p: PageParams, total: nat): Pagination
    requires p.limit > 0
  {
    var pages := CeilDiv(total, p.limit);
    var totalPages := if pages > 1 then pages else 1;
    Pagination(p.page, p.limit, total, totalPages, p.page > 1, p.page < totalPages)
  }

  /** There is a next page exactly when rows remain past this one, and a
      previous page exactly when this one is not the first. The pages
      together cover every row, and the last one is never empty. */
  lemma PaginationStates(p: PageParams, total: nat)
    requires p.page >= 1 && p.limit >= 1 && p.offset == (p.page - 1) * p.limit
    ensures var g := PaginationOf(p, total);
      && (g.hasNext <==> p.offset + p.limit < total)
      && (g.hasPrev <==> p.offset > 0)
      && g.totalPages >= 1
      && g.totalPages * p.limit >= total
      && (total > 0 ==> (g.totalPages - 1) * p.limit < total)
  {
    PagesCover(p.page, p.limit, total);
    assert p.offset + p.limit == p.page * p.limit;
    if p.page > 1 {
      MulMonotone(1, p.page - 1, p.limit);
    }
  }

  lemma MulMonotone(a: nat, b: nat, c: nat)
    requires a <= b
    ensures a * c <= b * c
  {
    var d: nat := b - a;
    assert b * c == a * c + d * c;
  }

  /** The page arithmetic on its own: `page < totalPages` exactly when
      `page * limit < total`. */
  lemma PagesCover(page: nat, limit: nat, total: nat)
    requires page >= 1 && limit >= 1
    ensures var q := CeilDiv(total, limit);
      var pages := if q > 1 then q else 1;
      && (page < pages <==> page * limit < total)
      && pages * limit >= total
      && (total > 0 ==> (pages - 1) * limit < total)
  {
    var q := CeilDiv(total, limit);
    CeilDivBounds(total, limit);
    var pages := if q > 1 then q else 1;
    if page < pages {
      MulMonotone(page, q - 1, limit);
    } else {
      MulMonotone(pages, page, limit);
    }
    if q == 0 {
      assert pages * limit >= 0;
    }
  }

  /** One listed user. */
  datatype Row = Row(id: Id, username: string, role: Option<string>, avatarUrl: Option<string>,
                     isFollowing: bool)

  /** `ORDER BY u.username ASC`. */
  predicate ByUsername(a: User, b: User) {
    LexLe(a.username, b.username)
  }

  lemma ByUsernameIsPreorder()
    ensures TotalPreorder(ByUsername)
  {
    forall a: User, b: User
      ensures ByUsername(a, b) || ByUsername(b, a)
    {
      LexLeTotal(a.username, b.username);
    }
    forall a: User, b: User, c: User | ByUsername(a, b) && ByUsername(b, c)
      ensures ByUsername(a, c)
    {
      LexLeTransitive(a.username, b.username, c.username);
    }
  }

  /** Users with an edge into `target` (`JOIN users u ON u.id = f.follower_id`). */
  function FollowerUsers(users: seq<User>, edges: set<Edge>, target: Id): seq<User> {
    Filter(users, (u: User) => Edge(u.id, target) in edges)
  }

  /** Users `target` has an edge to (`JOIN users u ON u.id = f.user_id`). */
  function FollowedUsers(users: seq<User>, edges: set<Edge>, target: Id): seq<User> {
    Filter(users, (u: User) => Edge(target, u.id) in edges)
  }

  function RowOf(u: User, edges: set<Edge>, viewer: Id): Row {
    Row(u.id, u.username, u.role, u.avatarUrl, Edge(viewer, u.id) in edges)
  }

  /** Sort by username, then `LIMIT limit OFFSET offset`. */
  function ListPage(listed: seq<User>, edges: set<Edge>, viewer: Id, p: PageParams): seq<Row> {
    var page := Page(Sort(listed, ByUsername), p.offset, p.limit);
    seq(|page|, i requires 0 <= i < |page| => RowOf(page[i], edges, viewer))
  }

  datatype SocialList = SocialList(users: seq<Row>, pagination: Pagination)

  /** GET /api/social/followers/:username. */
  function Followers(users: seq<User>, edges: set<Edge>, viewer: Id, username: string,
                     page: Option<int>, limit: Option<int>): Reply<SocialList>
  {
    var p := ParsePageLimit(page, limit);
    match Follow.UserNamedIgnoringCase(users, username)
    case None => Err(404, "User not found")
    case Some(t) =>
      Ok(SocialList(ListPage(FollowerUsers(users, edges, t.id), edges, viewer, p),
                    PaginationOf(p, |Follow.Into(edges, t.id)|)))
  }

  /** GET /api/social/following/:username. */
  function Following(users: seq<User>, edges: set<Edge>, viewer: Id, username: string,
                     page: Option<int>, limit: Option<int>): Reply<SocialList>
  {
    var p := ParsePageLimit(page, limit);
    match Follow.UserNamedIgnoringCase(users, username)
    case None => Err(404, "User not found")
    case Some(t) =>
      Ok(SocialList(ListPage(FollowedUsers(users, edges, t.id), edges, viewer, p),
                    PaginationOf(p, |Follow.OutOf(edges, t.id)|)))
  }

  /** A page is the `offset`..`offset + limit` slice of the listed users in
      username order; each row is one of them and carries whether the viewer
      follows it. */
  lemma ListPageStates(listed: seq<User>, edges: set<Edge>, viewer: Id, p: PageParams)
    ensures var rows := ListPage(listed, edges, viewer, p);
      var sorted := Sort(listed, ByUsername);
      && multiset(sorted) == multiset(listed)
      && |rows| <= p.limit
      && (forall i :: 0 <= i < |rows| ==>
            && p.offset + i < |sorted|
            && rows[i].id == sorted[p.offset + i].id
            && rows[i].username == sorted[p.offset + i].username
            && (rows[i].isFollowing <==> Edge(viewer, rows[i].id) in edges))
      && (forall i, j :: 0 <= i < j < |rows| ==> LexLe(rows[i].username, rows[j].username))
  {
    var sorted := Sort(listed, ByUsername);
    ByUsernameIsPreorder();
    SortSorted(listed, ByUsername);
  }

  /** Every row of the followers list follows the target and every row of
      the following list is followed by it; an unknown user is 404. */
  lemma ListsHoldOnlyEdges(users: seq<User>, edges: set<Edge>, viewer: Id, username: string,
                           page: Option<int>, limit: Option<int>)
    ensures Followers(users, edges, viewer, username, page, limit).Err? <==>
      Follow.UserNamedIgnoringCase(users, username).None?
    ensures Following(users, edges, viewer, username, page, limit).Err? <==>
      Follow.UserNamedIgnoringCase(users, username).None?
    ensures Followers(users, edges, viewer, username, page, limit).Ok? ==>
      var t := Follow.UserNamedIgnoringCase(users, username).value;
      forall row :: row in Followers(users, edges, viewer, username, page, limit).body.users ==>
        Edge(row.id, t.id) in edges
    ensures Following(users, edges, viewer, username, page, limit).Ok? ==>
      var t := Follow.UserNamedIgnoringCase(users, username).value;
      forall row :: row in Following(users, edges, viewer, username, page, limit).body.users ==>
        Edge(t.id, row.id) in edges
  {
    var p := ParsePageLimit(page, limit);
    if Follow.UserNamedIgnoringCase(users, username).Some? {
      var t := Follow.UserNamedIgnoringCase(users, username).value;
      EveryRowFromList(FollowerUsers(users, edges, t.id), edges, viewer, p);
      EveryRowFromList(FollowedUsers(users, edges, t.id), edges, viewer, p);
    }
  }

  /** Each row comes from a user of the list it pages. */
  lemma EveryRowFromList(listed: seq<User>, edges: set<Edge>, viewer: Id, p: PageParams)
    ensures forall row :: row in ListPage(listed, edges, viewer, p) ==>
      exists u :: u in listed && row.id == u.id
  {
    var sorted := Sort(listed, ByUsername);
    var rows := ListPage(listed, edges, viewer, p);
    forall row | row in rows
      ensures exists u :: u in listed && row.id == u.id
    {
      var i :| 0 <= i < |rows| && rows[i] == row;
      var u := sorted[p.offset + i];
      assert u in multiset(listed);
    }
  }
}
