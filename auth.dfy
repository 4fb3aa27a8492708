/** backend/routes/auth.js: signup, login, and the password-reset token
    lifecycle. Hashing, password comparison, token signing, random tokens
    and mail delivery are done by libraries the model cannot see; their
    results arrive as parameters. */
module Auth {
  import opened Common
  import opened Text
  import opened Seqs
  import opened Tables

  /** The lifetime of a reset token: one hour. */
  const RESET_TTL_MS: int := HOUR_MS

  /** The user fields a reply exposes. */
  datatype Account = Account(id: Id, username: string, email: Option<string>, role: Option<string>)

  function AccountOf(u: User): Account {
    Account(u.id, u.username, u.email, u.role)
  }

  /** `{ token, user }`. */
  datatype Session = Session(token: string, user: Account)

  /** `WHERE email = $1 OR username = $2`: exact matches. */
  predicate Taken(users: seq<User>, username: string, email: string) {
    exists u :: u in users && (u.email == Some(email) || u.username == username)
  }

  /** `role = 'subscriber'` when absent, then the role check. */
  function RoleOf(role: Option<string>): string {
    if role.None? then "subscriber" else role.value
  }

  predicate ValidRole(role: string) {
    role == "creator" || role == "subscriber"
  }

  /** POST /api/auth/signup. `hashed` is the bcrypt hash of the password and
      `token` the signed token for the new id. */
  method Signup(db: Db, username: string, email: string, role: Option<string>, hashed: string,
                token: string, now: Millis) returns (r: Reply<Session>)
    modifies db`users, db`serial
    ensures !ValidRole(RoleOf(role)) ==>
      r == Err(400, "Invalid role. Must be creator or subscriber") && db.users == old(db.users) && db.serial == old(db.serial)
    ensures ValidRole(RoleOf(role)) && Taken(old(db.users), username, email) ==>
      r == Err(400, "Email or username already exists") && db.users == old(db.users) && db.serial == old(db.serial)
    ensures ValidRole(RoleOf(role)) && !Taken(old(db.users), username, email) ==>
      var u := User(old(db.serial), username, Some(email), hashed, Some(RoleOf(role)), None, None, None, Some(now));
      && db.users == old(db.users) + [u]
      && db.serial == old(db.serial) + 1
      && r == Ok(Session(token, AccountOf(u)))
  {
    var rl := RoleOf(role);
    if !ValidRole(rl) {
      return Err(400, "Invalid role. Must be creator or subscriber");
    }
    if Taken(db.users, username, email) {
      return Err(400, "Email or username already exists");
    }
    var u := User(db.serial, username, Some(email), hashed, Some(rl), None, None, None, Some(now));
    db.users := db.users + [u];
    db.serial := db.serial + 1;
    r := Ok(Session(token, AccountOf(u)));
  }

  /** After a signup neither that email nor that username can sign up again. */
  lemma SignupTakesNameAndEmail(users: seq<User>, u: User, other: string)
    requires u in users && u.email.Some?
    ensures Taken(users, u.username, other) && Taken(users, other, u.email.value)
  {
  }

  /** `LOWER(email) = LOWER($1) OR LOWER(username) = LOWER($1)`. A NULL email
      matches nothing. */
  predicate Identifies(u: User, identifier: string) {
    (u.email.Some? && Lower(u.email.value) == Lower(identifier)) || Lower(u.username) == Lower(identifier)
  }

  function FindByIdentifier(users: seq<User>, identifier: string): (r: Option<User>)
    ensures r.Some? ==> r.value in users && Identifies(r.value, identifier)
    ensures r.None? <==> forall u :: u in users ==> !Identifies(u, identifier)
  {
    FirstUser(users, (u: User) => Identifies(u, identifier))
  }

  /** POST /api/auth/login. `matches(password, hash)` is bcrypt's comparison
      and `token` the token signed for the user found. */
  function Login(users: seq<User>, identifier: string, password: string,
                 matches: (string, string) -> bool, token: string): (r: Reply<Session>)
    ensures r.Ok? <==>
      FindByIdentifier(users, identifier).Some? && matches(password, FindByIdentifier(users, identifier).value.password)
    ensures r.Err? ==> r == Err(400, "Invalid credentials")
    ensures r.Ok? ==> r.body.user == AccountOf(FindByIdentifier(users, identifier).value) && r.body.token == token
  {
    match FindByIdentifier(users, identifier)
    case None => Err(400, "Invalid credentials")
    case Some(u) =>
      if !matches(password, u.password) then Err(400, "Invalid credentials")
      else Ok(Session(token, AccountOf(u)))
  }

  /** A user can log in by their email or their username, in any case, as
      long as no earlier row claims the same identifier. */
  lemma LoginByEitherName(users: seq<User>, i: nat, identifier: string, password: string,
                          matches: (string, string) -> bool, token: string)
    requires i < |users| && matches(password, users[i].password)
    requires Lower(identifier) == Lower(users[i].username) ||
             (users[i].email.Some? && Lower(identifier) == Lower(users[i].email.value))
    requires forall j :: 0 <= j < i ==> !Identifies(users[j], identifier)
    ensures Login(users, identifier, password, matches, token) == Ok(Session(token, AccountOf(users[i])))
  {
    FirstIdentified(users, identifier, i);
  }

  lemma {:induction false} FirstIdentified(users: seq<User>, identifier: string, i: nat)
    requires i < |users| && Identifies(users[i], identifier)
    requires forall j :: 0 <= j < i ==> !Identifies(users[j], identifier)
    ensures FindByIdentifier(users, identifier) == Some(users[i])
  {
    if i > 0 {
      FirstIdentified(users[1..], identifier, i - 1);
      assert FindByIdentifier(users[1..], identifier) == FirstUser(users[1..], (u: User) => Identifies(u, identifier));
    }
  }

  /** `SELECT id FROM users WHERE email = $1`: exact. */
  function UserWithEmail(users: seq<User>, email: string): (r: Option<User>)
    ensures r.Some? ==> r.value in users && r.value.email == Some(email)
    ensures r.None? <==> forall u :: u in users ==> u.email != Some(email)
  {
    FirstUser(users, (u: User) => u.email == Some(email))
  }

  /** POST /api/auth/forgot-password. `token` stands for the random hex
      token; `mailSent` is whether the mail transport accepted the message.
      The reset row is written before the mail is sent, so a mail failure
      answers 500 with the row already stored. */
  method Forgot(db: Db, email: string, token: string, mailSent: bool, now: Millis) returns (r: Reply<string>)
    modifies db`resets
    ensures UserWithEmail(db.users, email).None? ==>
      r == Err(400, "Email not found") && db.resets == old(db.resets)
    ensures UserWithEmail(db.users, email).Some? ==>
      && db.resets == old(db.resets) + [Reset(UserWithEmail(db.users, email).value.id, token, now + RESET_TTL_MS)]
      && r == (if mailSent then Ok("Password reset email sent") else Err(500, "Server error"))
  {
    var u := UserWithEmail(db.users, email);
    if u.None? {
      return Err(400, "Email not found");
    }
    db.resets := db.resets + [Reset(u.value.id, token, now + RESET_TTL_MS)];
    if !mailSent {
      return Err(500, "Server error");
    }
    r := Ok("Password reset email sent");
  }

  /** `WHERE token = $1 AND expires_at > NOW()`: the first such row. */
  predicate Redeemable(row: Reset, token: string, now: Millis) {
    row.token == token && row.expiresAt > now
  }

  function FindReset(resets: seq<Reset>, token: string, now: Millis): (r: Option<Reset>)
    ensures r.Some? ==> r.value in resets && Redeemable(r.value, token, now)
    ensures r.None? <==> forall row :: row in resets ==> !Redeemable(row, token, now)
  {
    if resets == [] then None
    else if Redeemable(resets[0], token, now) then Some(resets[0])
    else FindReset(resets[1..], token, now)
  }

  /** `UPDATE users SET password = $1 WHERE id = $2`. */
  function SetPassword(users: seq<User>, id: Id, hashed: string): (r: seq<User>)
    ensures |r| == |users|
    ensures forall i :: 0 <= i < |r| ==> r[i].id == users[i].id
  {
    seq(|users|, i requires 0 <= i < |users| =>
      if users[i].id == id then users[i].(password := hashed) else users[i])
  }

  /** `DELETE FROM password_resets WHERE user_id = $1`. */
  function ResetsWithout(resets: seq<Reset>, user: Id): seq<Reset> {
    Filter(resets, (row: Reset) => row.user != user)
  }

  /** POST /api/auth/reset-password. `hashed` is the hash of the new
      password. */
  method ResetPassword(db: Db, token: string, hashed: string, now: Millis) returns (r: Reply<string>)
    modifies db`users, db`resets
    ensures FindReset(old(db.resets), token, now).None? ==>
      r == Err(400, "Invalid or expired token") && db.users == old(db.users) && db.resets == old(db.resets)
    ensures FindReset(old(db.resets), token, now).Some? ==>
      var user := FindReset(old(db.resets), token, now).value.user;
      && r == Ok("Password reset successful")
      && db.users == SetPassword(old(db.users), user, hashed)
      && db.resets == ResetsWithout(old(db.resets), user)
  {
    var row := FindReset(db.resets, token, now);
    if row.None? {
      return Err(400, "Invalid or expired token");
    }
    db.users := SetPassword(db.users, row.value.user, hashed);
    db.resets := ResetsWithout(db.resets, row.value.user);
    r := Ok("Password reset successful");
  }

  /** A reset leaves no reset row of that user, so a token held only by that
      user cannot be redeemed again. */
  lemma ResetConsumesTokens(resets: seq<Reset>, token: string, now: Millis, later: Millis)
    requires FindReset(resets, token, now).Some?
    requires forall row :: row in resets && row.token == token ==> row.user == FindReset(resets, token, now).value.user
    ensures var user := FindReset(resets, token, now).value.user;
      && (forall row :: row in ResetsWithout(resets, user) ==> row.user != user)
      && FindReset(ResetsWithout(resets, user), token, later).None?
  {
    var user := FindReset(resets, token, now).value.user;
    forall row | row in ResetsWithout(resets, user)
      ensures row.user != user && row in resets
    {
      FilterMembership(resets, (row: Reset) => row.user != user, row);
    }
  }

  /** A fresh token from the forgot step redeems for its user strictly
      before one hour has passed, and not from the hour on. */
  lemma ForgotThenReset(resets: seq<Reset>, user: Id, token: string, issued: Millis, now: Millis)
    requires forall row :: row in resets ==> row.token != token
    ensures var table := resets + [Reset(user, token, issued + RESET_TTL_MS)];
      && (now < issued + HOUR_MS ==> FindReset(table, token, now) == Some(Reset(user, token, issued + RESET_TTL_MS)))
      && (now >= issued + HOUR_MS ==> FindReset(table, token, now).None?)
  {
    var row := Reset(user, token, issued + RESET_TTL_MS);
    var table := resets + [row];
    FindResetAppend(resets, row, token, now);
  }

  lemma {:induction false} FindResetAppend(resets: seq<Reset>, row: Reset, token: string, now: Millis)
    requires forall x :: x in resets ==> !Redeemable(x, token, now)
    ensures FindReset(resets + [row], token, now) == (if Redeemable(row, token, now) then Some(row) else None)
  {
    if resets == [] {
      assert resets + [row] == [row];
    } else {
      assert (resets + [row])[1..] == resets[1..] + [row];
      FindResetAppend(resets[1..], row, token, now);
    }
  }

  /** The reset changes only the password of that user's rows. */
  lemma SetPasswordStates(users: seq<User>, id: Id, hashed: string)
    ensures var r := SetPassword(users, id, hashed);
      forall i :: 0 <= i < |r| ==>
        (users[i].id == id ==> r[i] == users[i].(password := hashed)) &&
        (users[i].id != id ==> r[i] == users[i])
  {
  }
}
