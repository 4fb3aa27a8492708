/** backend/routes/streams.js: starting and stopping a live stream, and the
    live-stream lookup for a creator. The start route has no authentication
    and always acts for creator 1. */
module Streams {
  import opened Common
  import opened Seqs
  import opened Tables

  /** The creator every stream is started for. */
  const START_CREATOR: Id := 1

  /** `${creatorId}-${Date.now()}`. */
  function StreamKey(creator: Id, now: nat): (k: string)
    ensures |k| > |NatStr(creator)| && k[|NatStr(creator)|] == '-'
    ensures k[..|NatStr(creator)|] == NatStr(creator) && k[|NatStr(creator)| + 1..] == NatStr(now)
  {
    NatStr(creator) + "-" + NatStr(now)
  }

  /** The length of the run of digits a string starts with. */
  function DigitRun(s: string): (n: nat)
    ensures n <= |s|
  {
    if s == [] || !IsDigit(s[0]) then 0 else 1 + DigitRun(s[1..])
  }

  lemma {:induction false} DigitRunStopsAtDash(digits: string, rest: string)
    requires forall i :: 0 <= i < |digits| ==> IsDigit(digits[i])
    ensures DigitRun(digits + "-" + rest) == |digits|
  {
    if digits != [] {
      assert (digits + "-" + rest)[1..] == digits[1..] + "-" + rest;
      DigitRunStopsAtDash(digits[1..], rest);
    }
  }

  /** Keys made at different milliseconds differ, and so do keys of
      different creators. */
  lemma StreamKeyInjective(c1: Id, t1: nat, c2: Id, t2: nat)
    ensures StreamKey(c1, t1) == StreamKey(c2, t2) ==> c1 == c2 && t1 == t2
  {
    if StreamKey(c1, t1) == StreamKey(c2, t2) {
      var a, b := NatStr(c1), NatStr(c2);
      var k := StreamKey(c1, t1);
      // the creator's digits run up to the first '-' in both keys
      DigitRunStopsAtDash(a, NatStr(t1));
      DigitRunStopsAtDash(b, NatStr(t2));
      assert a == k[..|a|] && b == k[..|b|];
      NatStrInjective(c1, c2);
      assert NatStr(t1) == k[|a| + 1..] == NatStr(t2);
      NatStrInjective(t1, t2);
    }
  }

  /** `RETURNING id, title, stream_key, is_live`. */
  datatype Started = Started(id: Id, title: string, key: string, isLive: bool)

  /** POST /api/streams/start. */
  method Start(db: Db, title: string, now: nat) returns (r: Started)
    modifies db`streams, db`serial
    ensures var s := Stream(old(db.serial), START_CREATOR, title, StreamKey(START_CREATOR, now), true, now);
      && db.streams == old(db.streams) + [s]
      && r == Started(s.id, title, s.key, true)
    ensures db.serial == old(db.serial) + 1
  {
    var s := Stream(db.serial, START_CREATOR, title, StreamKey(START_CREATOR, now), true, now);
    db.streams := db.streams + [s];
    db.serial := db.serial + 1;
    r := Started(s.id, title, s.key, true);
  }

  /** `UPDATE streams SET is_live = FALSE WHERE id = $1`. */
  function Stopped(streams: seq<Stream>, id: Id): (r: seq<Stream>)
    ensures |r| == |streams|
  {
    seq(|streams|, i requires 0 <= i < |streams| =>
      if streams[i].id == id then streams[i].(isLive := false) else streams[i])
  }

  /** POST /api/streams/stop: `{ success: true }` whether or not a row
      matched. */
  method Stop(db: Db, id: Id) returns (success: bool)
    modifies db`streams
    ensures success
    ensures db.streams == Stopped(old(db.streams), id)
  {
    db.streams := Stopped(db.streams, id);
    success := true;
  }

  /** Stopping takes down only the stream with that id, changes nothing else
      about it, and stopping again changes nothing. */
  lemma StopStates(streams: seq<Stream>, id: Id)
    ensures var r := Stopped(streams, id);
      && (forall i :: 0 <= i < |r| ==>
            && (streams[i].id == id ==> !r[i].isLive && r[i].(isLive := streams[i].isLive) == streams[i])
            && (streams[i].id != id ==> r[i] == streams[i]))
      && Stopped(r, id) == r
  {
  }

  /** `SELECT id FROM users WHERE username = $1`: exact. */
  function CreatorNamed(users: seq<User>, username: string): (r: Option<User>)
    ensures r.Some? ==> r.value in users && r.value.username == username
    ensures r.None? <==> forall u :: u in users ==> u.username != username
  {
    FirstUser(users, (u: User) => u.username == username)
  }

  predicate NewerStream(a: Stream, b: Stream) {
    a.createdAt >= b.createdAt
  }

  /** The creator's streams with the live flag set. */
  function LiveOf(streams: seq<Stream>, creator: Id): seq<Stream> {
    Filter(streams, (s: Stream) => s.creator == creator && s.isLive)
  }

  /** `{ is_live: false }` or `{ is_live: true, id, title, stream_key }`. */
  datatype LiveInfo = NotLive | Live(id: Id, title: string, key: string)

  /** GET /api/streams/:username: the newest live stream by `created_at`. */
  function Lookup(users: seq<User>, streams: seq<Stream>, username: string): Reply<LiveInfo> {
    match CreatorNamed(users, username)
    case None => Err(404, "Creator not found")
    case Some(u) =>
      var live := Sort(LiveOf(streams, u.id), NewerStream);
      if live == [] then Ok(NotLive)
      else Ok(Live(live[0].id, live[0].title, live[0].key))
  }

  /** An unknown username is 404. A known creator is reported not live
      exactly when none of their streams is live; otherwise the reply names
      a live stream of theirs that no other live stream of theirs is newer
      than. */
  lemma LookupStates(users: seq<User>, streams: seq<Stream>, username: string)
    ensures Lookup(users, streams, username).Err? <==> CreatorNamed(users, username).None?
    ensures Lookup(users, streams, username).Err? ==> Lookup(users, streams, username) == Err(404, "Creator not found")
    ensures CreatorNamed(users, username).Some? ==>
      var c := CreatorNamed(users, username).value.id;
      var r := Lookup(users, streams, username).body;
      && (r == NotLive <==> forall s :: s in streams ==> !(s.creator == c && s.isLive))
      && (r.Live? ==> exists s :: s in streams && s.creator == c && s.isLive &&
                                  r == Live(s.id, s.title, s.key) &&
                                  forall t :: t in streams && t.creator == c && t.isLive ==> s.createdAt >= t.createdAt)
  {
    if CreatorNamed(users, username).Some? {
      var c := CreatorNamed(users, username).value.id;
      var mine := LiveOf(streams, c);
      LiveOfMembership(streams, c);
      if mine != [] {
        assert TotalPreorder(NewerStream);
        SortHead(mine, NewerStream);
      }
    }
  }

  /** The live list holds exactly the creator's live streams. */
  lemma LiveOfMembership(streams: seq<Stream>, creator: Id)
    ensures forall s :: s in LiveOf(streams, creator) <==> s in streams && s.creator == creator && s.isLive
  {
    forall s ensures s in LiveOf(streams, creator) <==> s in streams && s.creator == creator && s.isLive {
      FilterMembership(streams, (s: Stream) => s.creator == creator && s.isLive, s);
    }
  }
}
