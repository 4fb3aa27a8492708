/** backend/routes/stripe.js: the checkout session's metadata and the
    payment gateway's webhook that records a confirmed purchase with a
    seven-day expiry. The gateway itself (session creation, signature
    checking) is an oracle: its verdicts arrive as parameters. */
module Stripe {
  import opened Common
  import opened Tables
  import Ledger

  /** The two text fields the checkout session carries to the webhook. */
  datatype Metadata = Metadata(userId: string, postId: string)

  /** POST /create-checkout-session: `userId.toString()` and
      `postId ? postId.toString() : ''`. */
  function CheckoutMetadata(caller: Id, postId: Option<Id>): (m: Metadata)
    ensures m.userId != "" && (m.postId == "" <==> postId.None?)
  {
    Metadata(NatStr(caller), if postId.Some? then NatStr(postId.value) else "")
  }

  const COMPLETED: string := "checkout.session.completed"

  /** A verified event: its type, the session's metadata and `amount_total`. */
  datatype Event = Event(kind: string, metadata: Metadata, amountTotal: int)

  /** What the webhook decides before it touches the database. */
  datatype Outcome =
    | BadSignature
    | MissingMetadata
    | Insert(row: Purchase)
    | Acknowledge

  const INT4_MIN: int := -0x8000_0000
  const INT4_MAX: int := 0x7FFF_FFFF

  /** The white space `int4in` skips around the number: C's `isspace`. */
  predicate PgSpace(c: char) {
    c == ' ' || c == '\t' || c == '\n' || c == '\r' || c == '\U{B}' || c == '\U{C}'
  }

  predicate AllPgSpace(s: string) {
    forall i :: 0 <= i < |s| ==> PgSpace(s[i])
  }

  function DropLeading(s: string): string {
    if s != [] && PgSpace(s[0]) then DropLeading(s[1..]) else s
  }

  function DropTrailing(s: string): string {
    if s != [] && PgSpace(s[|s| - 1]) then DropTrailing(s[..|s| - 1]) else s
  }

  /** The text with the white space around it removed. */
  function Trimmed(s: string): string {
    DropTrailing(DropLeading(s))
  }

  function AsInt(n: Option<nat>): Option<int> {
    if n.Some? then Some(n.value as int) else None
  }

  /** An optional sign followed by decimal digits, and nothing else. */
  function SignedDecimal(t: string): Option<int> {
    if t != [] && t[0] == '-' then
      var n := ParseNat(t[1..]);
      if n.Some? then Some(-(n.value as int)) else None
    else if t != [] && t[0] == '+' then AsInt(ParseNat(t[1..]))
    else AsInt(ParseNat(t))
  }

  /** How the database reads a text parameter bound to an `integer` column:
      surrounding white space, an optional sign, decimal digits, and a value
      that fits in 32 bits; anything else makes the statement fail. */
  function ParseInt4(s: string): (r: Option<int>)
    ensures r.Some? ==> INT4_MIN <= r.value <= INT4_MAX
  {
    var v := SignedDecimal(Trimmed(s));
    if v.Some? && INT4_MIN <= v.value <= INT4_MAX then v else None
  }

  /** An id parameter: the integer the column receives when it is positive.
      No row has an id below 1, so any other value makes the insert fail. */
  function ParseId(s: string): (r: Option<Id>)
    ensures r.Some? <==> ParseInt4(s).Some? && ParseInt4(s).value > 0
    ensures r.Some? ==> r.value <= INT4_MAX
  {
    var v := ParseInt4(s);
    if v.Some? && v.value > 0 then Some(v.value) else None
  }

  lemma {:induction false} DropLeadingSpace(ws: string, x: string)
    requires AllPgSpace(ws)
    ensures DropLeading(ws + x) == DropLeading(x)
  {
    if ws != [] {
      assert (ws + x)[0] == ws[0] && PgSpace(ws[0]);
      assert (ws + x)[1..] == ws[1..] + x;
      DropLeadingSpace(ws[1..], x);
    } else {
      assert ws + x == x;
    }
  }

  lemma {:induction false} DropTrailingSpace(x: string, ws: string)
    requires AllPgSpace(ws)
    ensures DropTrailing(x + ws) == DropTrailing(x)
  {
    if ws != [] {
      assert (x + ws)[|x + ws| - 1] == ws[|ws| - 1] && PgSpace(ws[|ws| - 1]);
      assert (x + ws)[..|x + ws| - 1] == x + ws[..|ws| - 1];
      DropTrailingSpace(x, ws[..|ws| - 1]);
    } else {
      assert x + ws == x;
    }
  }

  /** Trimming removes exactly the padding around text that neither starts
      nor ends in white space. */
  lemma TrimPadding(ws: string, core: string, ws': string)
    requires AllPgSpace(ws) && AllPgSpace(ws')
    requires core != [] && !PgSpace(core[0]) && !PgSpace(core[|core| - 1])
    ensures DropTrailing(DropLeading(ws + core + ws')) == core
  {
    assert ws + core + ws' == ws + (core + ws');
    DropLeadingSpace(ws, core + ws');
    assert (core + ws')[0] == core[0];
    DropTrailingSpace(core, ws');
  }

  /** The digits of a number are read as that number, with or without a
      leading `+`, and as its negation after a `-`. */
  lemma {:induction false} SignedDecimalOfNatStr(n: nat)
    ensures SignedDecimal(NatStr(n)) == Some(n)
    ensures SignedDecimal("+" + NatStr(n)) == Some(n)
    ensures SignedDecimal("-" + NatStr(n)) == Some(-(n as int))
  {
    var digits := NatStr(n);
    assert IsDigit(digits[0]);
    assert ("+" + digits)[1..] == digits;
    assert ("-" + digits)[1..] == digits;
    NatStrRoundTrip(n);
  }

  /** Text that is a sign or digits at both ends is read as it stands,
      whatever white space surrounds it. */
  lemma PaddedParse(ws: string, sign: string, n: nat, ws': string)
    requires AllPgSpace(ws) && AllPgSpace(ws')
    requires sign == "" || sign == "+" || sign == "-"
    ensures Trimmed(ws + sign + NatStr(n) + ws') == sign + NatStr(n)
  {
    var digits := NatStr(n);
    var core := sign + digits;
    assert IsDigit(digits[0]) && IsDigit(digits[|digits| - 1]);
    assert core[|core| - 1] == digits[|digits| - 1];
    assert core[0] == if sign == "" then digits[0] else sign[0];
    TrimPadding(ws, core, ws');
    assert ws + sign + digits + ws' == ws + core + ws';
  }

  /** White space around a number and a leading `+` do not change the id it
      names, and an id parses exactly when it fits in 32 bits. */
  lemma PaddedId(ws: string, sign: string, n: nat, ws': string)
    requires AllPgSpace(ws) && AllPgSpace(ws')
    requires sign == "" || sign == "+"
    ensures ParseId(ws + sign + NatStr(n) + ws') == if 0 < n <= INT4_MAX then Some(n) else None
  {
    PaddedParse(ws, sign, n, ws');
    SignedDecimalOfNatStr(n);
    assert sign == "" ==> sign + NatStr(n) == NatStr(n);
  }

  /** A negative number names no row. */
  lemma NegativeIdRefused(ws: string, n: nat, ws': string)
    requires AllPgSpace(ws) && AllPgSpace(ws')
    ensures ParseId(ws + "-" + NatStr(n) + ws') == None
  {
    PaddedParse(ws, "-", n, ws');
    SignedDecimalOfNatStr(n);
  }

  /** The row `INSERT ... VALUES ($1, $2, $3, NOW(), NOW() + interval '7 days')`
      writes, or nothing when an id does not parse (that insert fails and the
      failure is swallowed). */
  function Decide(signatureValid: bool, e: Event, now: Millis): Outcome {
    if !signatureValid then BadSignature
    else if e.kind != COMPLETED then Acknowledge
    else if e.metadata.userId == "" || e.metadata.postId == "" then MissingMetadata
    else
      var buyer := ParseId(e.metadata.userId);
      var post := ParseId(e.metadata.postId);
      if buyer.Some? && post.Some? then
        Insert(Purchase(buyer.value, post.value, e.amountTotal, now, Some(now + WEEK_MS)))
      else Acknowledge
  }

  /** POST /webhook. `insertFails` is the database rejecting the insert (an
      unknown post, say); the handler logs it and still acknowledges. */
  method Webhook(db: Db, signatureValid: bool, e: Event, insertFails: bool, now: Millis)
    returns (r: Reply<bool>)
    modifies db`purchases
    ensures Decide(signatureValid, e, now) == BadSignature ==>
      r == Err(400, "Webhook Error") && db.purchases == old(db.purchases)
    ensures Decide(signatureValid, e, now) == MissingMetadata ==>
      r == Err(400, "Missing metadata") && db.purchases == old(db.purchases)
    ensures Decide(signatureValid, e, now) == Acknowledge ==>
      r == Ok(true) && db.purchases == old(db.purchases)
    ensures Decide(signatureValid, e, now).Insert? ==>
      r == Ok(true) &&
      db.purchases == old(db.purchases) + (if insertFails then [] else [Decide(signatureValid, e, now).row])
  {
    match Decide(signatureValid, e, now)
    case BadSignature =>
      r := Err(400, "Webhook Error");
    case MissingMetadata =>
      r := Err(400, "Missing metadata");
    case Acknowledge =>
      r := Ok(true);
    case Insert(row) =>
      if !insertFails {
        db.purchases := db.purchases + [row];
      }
      r := Ok(true);
  }

  /** A checkout for a post, once completed, comes back to the webhook as a
      purchase of that post by the same caller, unlocked for seven days. */
  lemma CheckoutRoundTrip(caller: Id, post: Id, amount: int, now: Millis)
    ensures Decide(true, Event(COMPLETED, CheckoutMetadata(caller, Some(post)), amount), now)
         == if caller <= INT4_MAX && post <= INT4_MAX
            then Insert(Purchase(caller, post, amount, now, Some(now + WEEK_MS)))
            else Acknowledge
  {
    PaddedId("", "", caller, "");
    PaddedId("", "", post, "");
    assert "" + "" + NatStr(caller) + "" == NatStr(caller);
    assert "" + "" + NatStr(post) + "" == NatStr(post);
  }

  /** A checkout started without a post id is refused by the webhook: no
      purchase is ever recorded for it. */
  lemma CheckoutWithoutPostIsRefused(caller: Id, amount: int, now: Millis)
    ensures Decide(true, Event(COMPLETED, CheckoutMetadata(caller, None), amount), now) == MissingMetadata
  {
  }

  /** Only a verified completed checkout can insert, and the row it inserts
      expires exactly seven days after it was recorded. */
  lemma InsertOnlyWhenVerified(signatureValid: bool, e: Event, now: Millis)
    ensures Decide(signatureValid, e, now).Insert? ==>
      && signatureValid && e.kind == COMPLETED
      && e.metadata.userId != "" && e.metadata.postId != ""
      && Decide(signatureValid, e, now).row.at == now
      && Decide(signatureValid, e, now).row.expiresAt == Some(now + WEEK_MS)
    ensures !signatureValid <==> Decide(signatureValid, e, now) == BadSignature
  {
  }

  /** Right after a webhook purchase, both expiry rules treat it as unlocked:
      the listing's age rule and the `/mine` rule on `expires_at`; both close
      the window together one second after seven days. */
  lemma WebhookPurchaseUnlocked(row: Purchase, now: Millis)
    requires row.at == now && row.expiresAt == Some(now + WEEK_MS)
    ensures !Ledger.ExpiredByAge(row.at, now) && Ledger.Live(row.expiresAt.value, now)
    ensures Ledger.ExpiredByAge(row.at, now + WEEK_MS + SECOND_MS)
         && !Ledger.Live(row.expiresAt.value, now + WEEK_MS + SECOND_MS)
  {
  }
}
