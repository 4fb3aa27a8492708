/** backend/routes/messages.js: the mass message to every subscriber (built
    as SQL text with the message quoted inline), a single message, the inbox
    and marking a message read. */
module Messages {
  import opened Common
  import opened Seqs
  import opened Tables

  const QUOTE: char := '\''

  /** `message.replace(/'/g, "''")`. */
  function Escape(s: string): (r: string)
    ensures |r| >= |s|
  {
    if s == [] then []
    else (if s[0] == QUOTE then [QUOTE, QUOTE] else [s[0]]) + Escape(s[1..])
  }

  /** How the database reads the body of a quoted literal: each doubled
      quote stands for one quote. */
  function Unescape(t: string): string
    decreases |t|
  {
    if t == [] then []
    else if t[0] == QUOTE && |t| >= 2 && t[1] == QUOTE then [QUOTE] + Unescape(t[2..])
    else [t[0]] + Unescape(t[1..])
  }

  /** Every quote is one of a doubled pair, so the literal cannot end early. */
  predicate WellQuoted(t: string)
    decreases |t|
  {
    if t == [] then true
    else if t[0] == QUOTE then |t| >= 2 && t[1] == QUOTE && WellQuoted(t[2..])
    else WellQuoted(t[1..])
  }

  /** The escape has a clean round trip and leaves no unpaired quote. */
  lemma {:induction false} EscapeRoundTrip(s: string)
    ensures Unescape(Escape(s)) == s
    ensures WellQuoted(Escape(s))
  {
    if s != [] {
      EscapeRoundTrip(s[1..]);
      var head := if s[0] == QUOTE then [QUOTE, QUOTE] else [s[0]];
      var t := Escape(s);
      assert t == head + Escape(s[1..]);
      if s[0] == QUOTE {
        assert t[2..] == Escape(s[1..]);
      } else {
        assert t[1..] == Escape(s[1..]);
      }
      assert s == [s[0]] + s[1..];
    }
  }

  /** `SELECT subscriber_id FROM subscriptions WHERE creator_id = $1`. */
  function SubscribersOf(subscriptions: seq<Subscription>, creator: Id): (r: seq<Id>)
    ensures |r| <= |subscriptions|
  {
    if subscriptions == [] then []
    else (if subscriptions[0].creator == creator then [subscriptions[0].subscriber] else [])
         + SubscribersOf(subscriptions[1..], creator)
  }

  /** The rows of the one multi-row INSERT: one unread message per
      subscriber, ids handed out in order from `first`. */
  function FanOut(first: Id, sender: Id, recipients: seq<Id>, content: string, now: Millis): (r: seq<Message>)
    ensures |r| == |recipients|
    ensures forall i :: 0 <= i < |r| ==>
      && r[i].sender == sender && r[i].recipient == recipients[i]
      && r[i].content == content && !r[i].isRead
  {
    seq(|recipients|, i requires 0 <= i < |recipients| =>
      Message(first + i, sender, recipients[i], content, false, now))
  }

  /** One more recipient adds one more row, with the next id. */
  lemma FanOutSnoc(first: Id, sender: Id, recipients: seq<Id>, i: nat, content: string, now: Millis)
    requires i < |recipients|
    ensures FanOut(first, sender, recipients[..i + 1], content, now)
         == FanOut(first, sender, recipients[..i], content, now) + [Message(first + i, sender, recipients[i], content, false, now)]
  {
  }

  /** POST /api/messages/mass. No subscriber: 400 and no insert. A missing
      `message` makes `.replace` throw: 500. Otherwise one message per
      subscriber, whose content is the literal as the database reads it. */
  method MassMessage(db: Db, creator: Id, message: Option<string>, now: Millis) returns (r: Reply<string>)
    modifies db`messages, db`serial
    ensures SubscribersOf(db.subscriptions, creator) == [] ==>
      r == Err(400, "No subscribers to message") && db.messages == old(db.messages) && db.serial == old(db.serial)
    ensures SubscribersOf(db.subscriptions, creator) != [] && message.None? ==>
      r == Err(500, "Server error") && db.messages == old(db.messages) && db.serial == old(db.serial)
    ensures SubscribersOf(db.subscriptions, creator) != [] && message.Some? ==>
      && r == Ok("Mass DM sent successfully")
      && db.messages == old(db.messages) +
           FanOut(old(db.serial), creator, SubscribersOf(db.subscriptions, creator), message.value, now)
      && db.serial == old(db.serial) + |SubscribersOf(db.subscriptions, creator)|
  {
    var subs := SubscribersOf(db.subscriptions, creator);
    if subs == [] {
      return Err(400, "No subscribers to message");
    }
    if message.None? {
      return Err(500, "Server error");
    }
    var literal := Escape(message.value);
    var content := Unescape(literal);
    EscapeRoundTrip(message.value);
    InsertFanOut(db, creator, subs, content, now);
    r := Ok("Mass DM sent successfully");
  }

  /** The insert loop: one message per recipient, ids taken in order. */
  method InsertFanOut(db: Db, sender: Id, recipients: seq<Id>, content: string, now: Millis)
    modifies db`messages, db`serial
    ensures db.messages == old(db.messages) + FanOut(old(db.serial), sender, recipients, content, now)
    ensures db.serial == old(db.serial) + |recipients|
  {
    var first := db.serial;
    for i := 0 to |recipients|
      invariant db.messages == old(db.messages) + FanOut(first, sender, recipients[..i], content, now)
      invariant db.serial == first + i
    {
      FanOutSnoc(first, sender, recipients, i, content, now);
      db.messages := db.messages + [Message(db.serial, sender, recipients[i], content, false, now)];
      db.serial := db.serial + 1;
    }
    assert recipients[..|recipients|] == recipients;
  }

  /** POST /api/messages/send: one message from the caller. */
  method Send(db: Db, sender: Id, recipient: Id, message: string, now: Millis) returns (r: Reply<string>)
    modifies db`messages, db`serial
    ensures r == Ok("Message sent")
    ensures db.messages == old(db.messages) + [Message(old(db.serial), sender, recipient, message, false, now)]
    ensures db.serial == old(db.serial) + 1
  {
    db.messages := db.messages + [Message(db.serial, sender, recipient, message, false, now)];
    db.serial := db.serial + 1;
    r := Ok("Message sent");
  }

  /** One inbox row: the message with its sender's username. */
  datatype InboxRow = InboxRow(message: Message, senderUsername: string)

  /** Messages to `user` joined with their senders, in table order. */
  function Addressed(messages: seq<Message>, users: seq<User>, user: Id): seq<InboxRow> {
    if messages == [] then []
    else
      var m := messages[0];
      var sender := FindUser(users, m.sender);
      (if m.recipient == user && sender.Some? then [InboxRow(m, sender.value.username)] else [])
      + Addressed(messages[1..], users, user)
  }

  predicate NewerRow(a: InboxRow, b: InboxRow) {
    a.message.createdAt >= b.message.createdAt
  }

  /** GET /api/messages/inbox. */
  function Inbox(messages: seq<Message>, users: seq<User>, user: Id): seq<InboxRow> {
    Sort(Addressed(messages, users, user), NewerRow)
  }

  lemma {:induction false} AddressedStates(messages: seq<Message>, users: seq<User>, user: Id)
    ensures forall row :: row in Addressed(messages, users, user) ==>
      && row.message in messages && row.message.recipient == user
      && FindUser(users, row.message.sender).Some?
      && row.senderUsername == FindUser(users, row.message.sender).value.username
  {
    if messages != [] {
      AddressedStates(messages[1..], users, user);
    }
  }

  /** Every message to `user` whose sender exists is joined. */
  lemma {:induction false} AddressedComplete(messages: seq<Message>, users: seq<User>, user: Id)
    ensures forall m :: m in messages && m.recipient == user && FindUser(users, m.sender).Some? ==>
      InboxRow(m, FindUser(users, m.sender).value.username) in Addressed(messages, users, user)
  {
    if messages != [] {
      AddressedComplete(messages[1..], users, user);
      forall m | m in messages && m.recipient == user && FindUser(users, m.sender).Some?
        ensures InboxRow(m, FindUser(users, m.sender).value.username) in Addressed(messages, users, user)
      {
        if m != messages[0] {
          assert m in messages[1..];
        }
      }
    }
  }

  /** The inbox holds exactly the messages addressed to the caller whose
      sender exists, each with that sender's username, newest first. */
  lemma InboxStates(messages: seq<Message>, users: seq<User>, user: Id)
    ensures var r := Inbox(messages, users, user);
      && multiset(r) == multiset(Addressed(messages, users, user))
      && (forall i :: 0 <= i < |r| ==>
            && r[i].message in messages && r[i].message.recipient == user
            && FindUser(users, r[i].message.sender).Some?
            && r[i].senderUsername == FindUser(users, r[i].message.sender).value.username)
      && (forall m :: m in messages && m.recipient == user && FindUser(users, m.sender).Some? ==>
            InboxRow(m, FindUser(users, m.sender).value.username) in r)
      && (forall i, j :: 0 <= i < j < |r| ==> r[i].message.createdAt >= r[j].message.createdAt)
  {
    var a := Addressed(messages, users, user);
    AddressedStates(messages, users, user);
    AddressedComplete(messages, users, user);
    assert TotalPreorder(NewerRow);
    SortSorted(a, NewerRow);
    var r := Sort(a, NewerRow);
    forall i | 0 <= i < |r|
      ensures r[i] in a
    {
      assert r[i] in multiset(a);
    }
    forall m | m in messages && m.recipient == user && FindUser(users, m.sender).Some?
      ensures InboxRow(m, FindUser(users, m.sender).value.username) in r
    {
      assert InboxRow(m, FindUser(users, m.sender).value.username) in multiset(r);
    }
  }

  /** The message row the update matches: that id, addressed to the caller. */
  predicate Matches(m: Message, id: Id, user: Id) {
    m.id == id && m.recipient == user
  }

  function MarkRead(messages: seq<Message>, id: Id, user: Id): (r: seq<Message>)
    ensures |r| == |messages|
  {
    seq(|messages|, i requires 0 <= i < |messages| =>
      if Matches(messages[i], id, user) then messages[i].(isRead := true) else messages[i])
  }

  /** POST /api/messages/read: 400 when no row has that id and the caller as
      recipient, and nothing changes. */
  method Read(db: Db, user: Id, id: Id) returns (r: Reply<string>)
    modifies db`messages
    ensures (forall m :: m in old(db.messages) ==> !Matches(m, id, user)) ==>
      r == Err(400, "Message not found or not yours") && db.messages == old(db.messages)
    ensures (exists m :: m in old(db.messages) && Matches(m, id, user)) ==>
      r == Ok("Message marked as read") && db.messages == MarkRead(old(db.messages), id, user)
  {
    if forall m :: m in db.messages ==> !Matches(m, id, user) {
      return Err(400, "Message not found or not yours");
    }
    db.messages := MarkRead(db.messages, id, user);
    r := Ok("Message marked as read");
  }

  /** Only the caller's message with that id becomes read; a message to
      someone else is never touched. */
  lemma MarkReadStates(messages: seq<Message>, id: Id, user: Id)
    ensures var r := MarkRead(messages, id, user);
      forall i :: 0 <= i < |r| ==>
        && (Matches(messages[i], id, user) ==> r[i].isRead && r[i].(isRead := messages[i].isRead) == messages[i])
        && (!Matches(messages[i], id, user) ==> r[i] == messages[i])
  {
  }

  /** Marking when nothing matches changes nothing. */
  lemma MarkReadNoMatch(messages: seq<Message>, id: Id, user: Id)
    requires forall m :: m in messages ==> !Matches(m, id, user)
    ensures MarkRead(messages, id, user) == messages
  {
  }
}
