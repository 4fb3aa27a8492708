/** frontend/app/search/page.js: the class-name helper, when a search runs,
    how a search reply is normalised into rows, and the follow button's
    update of one row. */
module SearchPage {
  import opened Common
  import opened Text
  import opened Tables
  import Follow

  const SPACE: char := ' '

  /** A class-name argument; `None` stands for `false`, `null` or
      `undefined`, and `Some("")` is falsy too. */
  type Part = Option<string>

  predicate Truthy(p: Part) {
    p.Some? && p.value != ""
  }

  /** `parts.filter(Boolean)`. */
  function Kept(parts: seq<Part>): (r: seq<string>)
    ensures |r| <= |parts|
    ensures forall i :: 0 <= i < |r| ==> r[i] != ""
    ensures forall w :: w in r <==> exists i :: 0 <= i < |parts| && Truthy(parts[i]) && parts[i].value == w
  {
    if parts == [] then []
    else
      assert forall i :: 1 <= i < |parts| ==> parts[i] == parts[1..][i - 1];
      (if Truthy(parts[0]) then [parts[0].value] else []) + Kept(parts[1..])
  }

  /** `.join(' ')`. */
  function Join(words: seq<string>): string {
    if words == [] then ""
    else if |words| == 1 then words[0]
    else words[0] + [SPACE] + Join(words[1..])
  }

  /** `classNames(...parts)`. */
  function ClassNames(parts: seq<Part>): string {
    Join(Kept(parts))
  }

  /** The class string is empty exactly when no part is truthy. */
  lemma {:induction false} ClassNamesEmptyIff(parts: seq<Part>)
    ensures ClassNames(parts) == "" <==> forall i :: 0 <= i < |parts| ==> !Truthy(parts[i])
  {
    if parts != [] {
      ClassNamesEmptyIff(parts[1..]);
      var k := Kept(parts);
      if Truthy(parts[0]) {
        assert k[0] == parts[0].value;
        assert |Join(k)| >= |k[0]| by {
          if |k| > 1 { assert Join(k) == k[0] + [SPACE] + Join(k[1..]); }
        }
      } else {
        assert k == Kept(parts[1..]);
        assert forall i :: 1 <= i < |parts| ==> parts[i] == parts[1..][i - 1];
      }
    }
  }

  /** The index of the first space, or the length when there is none. */
  function SpaceAt(s: string): (i: nat)
    ensures i <= |s|
    ensures i < |s| ==> s[i] == SPACE
    ensures forall j :: 0 <= j < i ==> s[j] != SPACE
  {
    if s == [] then 0
    else if s[0] == SPACE then 0
    else 1 + SpaceAt(s[1..])
  }

  /** What a browser makes of a class attribute: the words between single
      spaces. */
  function Split(s: string): seq<string>
    decreases |s|
  {
    var i := SpaceAt(s);
    if i == |s| then [s] else [s[..i]] + Split(s[i + 1..])
  }

  predicate Word(w: string) {
    w != "" && forall j :: 0 <= j < |w| ==> w[j] != SPACE
  }

  lemma SpaceAtAfterWord(w: string, rest: string)
    requires Word(w)
    ensures SpaceAt(w + [SPACE] + rest) == |w|
    ensures SpaceAt(w) == |w|
  {
    var s := w + [SPACE] + rest;
    assert s[|w|] == SPACE;
    assert forall j :: 0 <= j < |w| ==> s[j] == w[j];
  }

  /** Splitting the joined words gives the words back. */
  lemma {:induction false} SplitJoin(words: seq<string>)
    requires words != []
    requires forall i :: 0 <= i < |words| ==> Word(words[i])
    ensures Split(Join(words)) == words
    decreases |words|
  {
    var w := words[0];
    if |words| == 1 {
      SpaceAtAfterWord(w, "");
    } else {
      var s := Join(words);
      assert s == w + [SPACE] + Join(words[1..]);
      SpaceAtAfterWord(w, Join(words[1..]));
      assert s[..|w|] == w;
      assert s[|w| + 1..] == Join(words[1..]);
      SplitJoin(words[1..]);
    }
  }

  /** With class names that hold no space, the class string lists exactly the
      truthy parts, in order. */
  lemma ClassNamesRoundTrip(parts: seq<Part>)
    requires exists i :: 0 <= i < |parts| && Truthy(parts[i])
    requires forall i :: 0 <= i < |parts| && parts[i].Some? ==> SPACE !in parts[i].value
    ensures Split(ClassNames(parts)) == Kept(parts)
  {
    ClassNamesEmptyIff(parts);
    KeptAreWords(parts);
    SplitJoin(Kept(parts));
  }

  lemma {:induction false} KeptAreWords(parts: seq<Part>)
    requires forall i :: 0 <= i < |parts| && parts[i].Some? ==> SPACE !in parts[i].value
    ensures forall i :: 0 <= i < |Kept(parts)| ==> Word(Kept(parts)[i])
  {
    if parts != [] {
      assert forall i :: 0 <= i < |parts[1..]| ==> parts[1..][i] == parts[i + 1];
      KeptAreWords(parts[1..]);
    }
  }

  /** `debouncedQ.trim().length > 0`. */
  predicate CanSearch(q: string) {
    |Trim(q)| > 0
  }

  /** A search runs exactly when the query holds a character other than
      white space. */
  lemma CanSearchIff(q: string)
    ensures CanSearch(q) <==> exists i :: 0 <= i < |q| && !IsSpace(q[i])
  {
    TrimEmptyIffBlank(q);
  }

  /** One user of a search reply, as far as the page reads it. `isFollowing`
      is `None` when the field is not a boolean; `following` is `None` when
      absent. */
  datatype RawUser = RawUser(id: Id, username: string, role: Option<string>,
                             avatarUrl: Option<string>, avatar: Option<string>,
                             isFollowing: Option<bool>, following: Option<Follow.Flag>)

  /** A reply body: a bare array, or an object whose `results` is an array
      (`Some`) or something else (`None`). */
  datatype Payload = List(items: seq<RawUser>) | Object(results: Option<seq<RawUser>>)

  /** `{ id, username, role, avatar_url, is_following }`. */
  datatype Row = Row(id: Id, username: string, role: Option<string>, avatarUrl: Option<string>,
                     isFollowing: bool)

  /** `a || b || null` over two optional strings. */
  function OrElse(a: Option<string>, b: Option<string>): (r: Option<string>)
    ensures r.Some? ==> r.value != ""
    ensures r.None? <==> !Truthy(a) && !Truthy(b)
  {
    if Truthy(a) then a else if Truthy(b) then b else None
  }

  function NormaliseUser(u: RawUser): Row {
    Row(u.id, u.username, u.role, OrElse(u.avatarUrl, u.avatar),
        if u.isFollowing.Some? then u.isFollowing.value
        else u.following.Some? && Follow.Truthy(u.following.value))
  }

  function Listed(data: Payload): seq<RawUser> {
    match data
    case List(items) => items
    case Object(results) => if results.Some? then results.value else []
  }

  function Normalise(data: Payload): (rows: seq<Row>)
    ensures |rows| == |Listed(data)|
  {
    var items := Listed(data);
    seq(|items|, i requires 0 <= i < |items| => NormaliseUser(items[i]))
  }

  /** Each row keeps the user's id, name and role; the avatar is the first
      truthy of `avatar_url` and `avatar`; the follow flag is the boolean
      when one is given and the truthiness of `following` otherwise. An
      object without a `results` array gives no rows. */
  lemma NormaliseStates(data: Payload)
    ensures data.Object? && data.results.None? ==> Normalise(data) == []
    ensures var items := Listed(data);
      forall i :: 0 <= i < |items| ==>
        var r := Normalise(data)[i];
        && r.id == items[i].id && r.username == items[i].username && r.role == items[i].role
        && (Truthy(items[i].avatarUrl) ==> r.avatarUrl == items[i].avatarUrl)
        && (!Truthy(items[i].avatarUrl) ==> r.avatarUrl == OrElse(None, items[i].avatar))
        && (items[i].isFollowing.Some? ==> r.isFollowing == items[i].isFollowing.value)
        && (items[i].isFollowing.None? ==>
              (r.isFollowing <==> items[i].following.Some? && Follow.Truthy(items[i].following.value)))
  {
  }

  /** `copy[index] = { ...copy[index], is_following }` when that row
      exists. */
  function ApplyToggle(rows: seq<Row>, index: int, following: bool): seq<Row> {
    if 0 <= index < |rows| then rows[index := rows[index].(isFollowing := following)] else rows
  }

  /** Only the row at `index` changes, and only its follow flag; an index
      outside the list changes nothing. */
  lemma ApplyToggleStates(rows: seq<Row>, index: int, following: bool)
    ensures var r := ApplyToggle(rows, index, following);
      && |r| == |rows|
      && (forall i :: 0 <= i < |r| && i != index ==> r[i] == rows[i])
      && (0 <= index < |rows| ==> r[index].isFollowing == following &&
                                   r[index].(isFollowing := rows[index].isFollowing) == rows[index])
      && (!(0 <= index < |rows|) ==> r == rows)
  {
  }

  /** The `onlyskins:follow-changed` entry the toggle leaves in local
      storage for the dashboard: the reply's `followers` and `following`
      fields as they came, and the time of writing. */
  datatype FollowChanged = FollowChanged(followers: Option<nat>, following: Follow.Flag, ts: Millis)

  /** The page's result list and error line. */
  class Results {
    var rows: seq<Row>
    var error: string
    /** What this page last wrote to the `onlyskins:follow-changed` entry. */
    var followChanged: Option<FollowChanged>

    constructor ()
      ensures rows == [] && error == "" && followChanged == None
    {
      rows, error, followChanged := [], "", None;
    }

    /** The search effect. `reply` is the fetched response: `Ok` with the
        parsed body, or `Err` with the status and the response text.
        Cancellation by a newer query is not modelled. */
    method Run(q: string, reply: Reply<Payload>)
      modifies this`rows, this`error
      ensures !CanSearch(q) ==> rows == [] && error == ""
      ensures CanSearch(q) && reply.Ok? ==> rows == Normalise(reply.body) && error == ""
      ensures CanSearch(q) && reply.Err? ==>
        && rows == old(rows)
        && error == (if reply.error != "" then reply.error else "Search failed with " + NatStr(reply.status))
    {
      error := "";
      if !CanSearch(q) {
        rows := [];
        return;
      }
      if reply.Err? {
        error := if reply.error != "" then reply.error else "Search failed with " + NatStr(reply.status);
        return;
      }
      rows := Normalise(reply.body);
    }

    /** `handleFollowToggle`: without a token or on a non-ok reply the rows
        and the stored entry stay as they are; otherwise the row at `index`
        takes the truthiness of the reply's `following`, and the reply's two
        count fields are stored with the time `now`. */
    method HandleFollowToggle(hasToken: bool, reply: Reply<Follow.FollowJson>, index: int, now: Millis)
      modifies this`rows, this`followChanged
      ensures !hasToken || reply.Err? ==> rows == old(rows) && followChanged == old(followChanged)
      ensures hasToken && reply.Ok? ==>
        && rows == ApplyToggle(old(rows), index, Follow.Truthy(reply.body.following))
        && followChanged == Some(FollowChanged(reply.body.followers, reply.body.following, now))
    {
      if !hasToken || reply.Err? {
        return;
      }
      rows := ApplyToggle(rows, index, Follow.Truthy(reply.body.following));
      followChanged := Some(FollowChanged(reply.body.followers, reply.body.following, now));
    }
  }

  /** As written, the toggle reply's `following` is the viewer's following
      count whenever counts are sent, so its truthiness says nothing about
      the edge just toggled. */
  lemma WireAsWrittenFlagIsCount(r: Follow.FollowReply)
    requires r.counts.Some?
    ensures Follow.Truthy(Follow.WireAsWritten(r).following) <==> r.counts.value.following > 0
  {
  }

  /** The input that shows it: a viewer following users 2 and 3 unfollows 2.
      The edge is gone, yet the row for user 2 goes on showing "following",
      because the viewer still follows one user. */
  lemma StaleFollowFlagAsWritten()
    ensures var edges := {Edge(1, 2), Edge(1, 3)};
      var after := Follow.Toggled(edges, Edge(1, 2));
      var reply := Follow.FollowReply("Unfollowed", false, Some(Follow.CountsOf(after, 2, 1)));
      var rows := [Row(2, "b", None, None, true)];
      && Edge(1, 2) !in after
      && ApplyToggle(rows, 0, Follow.Truthy(Follow.WireAsWritten(reply).following))[0].isFollowing
  {
    var edges := {Edge(1, 2), Edge(1, 3)};
    var after := Follow.Toggled(edges, Edge(1, 2));
    assert after == {Edge(1, 3)};
    assert Follow.OutOf(after, 1) == {Edge(1, 3)};
  }

  /** With the boolean kept on the wire, the row shows exactly whether the
      edge exists after the toggle. */
  lemma RowTracksEdge(edges: set<Edge>, viewer: Id, target: Id, rows: seq<Row>, index: nat)
    requires index < |rows|
    ensures var e := Edge(viewer, target);
      var after := Follow.Toggled(edges, e);
      var reply := Follow.FollowReply(if e in edges then "Unfollowed" else "Followed", e !in edges,
                                      Some(Follow.CountsOf(after, target, viewer)));
      ApplyToggle(rows, index, Follow.Truthy(Follow.Wire(reply).following))[index].isFollowing <==> e in after
  {
  }
}
