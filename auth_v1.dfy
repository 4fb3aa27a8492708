/** backend/routes/auth_v1.1.js: the earlier auth routes. Signup takes no
    role, login is by exact email only, and the forgot step hands the token
    back in the reply instead of mailing it. The reset step is the same as in
    `Auth.ResetPassword`. */
module AuthV1 {
  import opened Common
  import opened Tables
  import Auth

  /** `{ id, username, email }`: no role in this version. */
  datatype AccountV1 = AccountV1(id: Id, username: string, email: Option<string>)

  datatype SessionV1 = SessionV1(token: string, user: AccountV1)

  /** POST /api/auth/signup: the uniqueness check only; the role column is
      left to the table's default, which is not part of this model (None). */
  method Signup(db: Db, username: string, email: string, hashed: string, token: string, now: Millis)
    returns (r: Reply<SessionV1>)
    modifies db`users, db`serial
    ensures Auth.Taken(old(db.users), username, email) ==>
      r == Err(400, "Email or username already exists") && db.users == old(db.users) && db.serial == old(db.serial)
    ensures !Auth.Taken(old(db.users), username, email) ==>
      && db.users == old(db.users) + [User(old(db.serial), username, Some(email), hashed, None, None, None, None, Some(now))]
      && db.serial == old(db.serial) + 1
      && r == Ok(SessionV1(token, AccountV1(old(db.serial), username, Some(email))))
  {
    if Auth.Taken(db.users, username, email) {
      return Err(400, "Email or username already exists");
    }
    var u := User(db.serial, username, Some(email), hashed, None, None, None, None, Some(now));
    db.users := db.users + [u];
    db.serial := db.serial + 1;
    r := Ok(SessionV1(token, AccountV1(u.id, username, Some(email))));
  }

  /** POST /api/auth/login: `WHERE email = $1`, exact and case-sensitive. */
  function Login(users: seq<User>, email: string, password: string,
                 matches: (string, string) -> bool, token: string): (r: Reply<SessionV1>)
    ensures r.Ok? <==>
      Auth.UserWithEmail(users, email).Some? && matches(password, Auth.UserWithEmail(users, email).value.password)
    ensures r.Err? ==> r == Err(400, "Invalid credentials")
    ensures r.Ok? ==> exists u :: u in users && u.email == Some(email) &&
                                  r.body.user == AccountV1(u.id, u.username, u.email)
    ensures r.Ok? ==>
      var u := Auth.UserWithEmail(users, email).value;
      r.body.user == AccountV1(u.id, u.username, u.email) && r.body.token == token
  {
    match Auth.UserWithEmail(users, email)
    case None => Err(400, "Invalid credentials")
    case Some(u) =>
      if !matches(password, u.password) then Err(400, "Invalid credentials")
      else Ok(SessionV1(token, AccountV1(u.id, u.username, u.email)))
  }

  /** A login this version accepts is accepted by the later version too,
      when no earlier row claims that email as an identifier: the later
      version only widens the lookup. */
  lemma LaterLoginAcceptsEarlierLogins(users: seq<User>, i: nat, password: string,
                                       matches: (string, string) -> bool, token: string)
    requires i < |users| && users[i].email.Some?
    requires forall j :: 0 <= j < i ==> !Auth.Identifies(users[j], users[i].email.value)
    requires Login(users, users[i].email.value, password, matches, token).Ok?
    ensures Auth.Login(users, users[i].email.value, password, matches, token).Ok?
  {
    var e := users[i].email.value;
    Auth.FirstIdentified(users, e, i);
    FirstWithEmail(users, e, i);
  }

  lemma {:induction false} FirstWithEmail(users: seq<User>, email: string, i: nat)
    requires i < |users| && users[i].email == Some(email)
    requires forall j :: 0 <= j < i ==> !Auth.Identifies(users[j], email)
    ensures Auth.UserWithEmail(users, email) == Some(users[i])
  {
    if i > 0 {
      assert !Auth.Identifies(users[0], email);
      FirstWithEmail(users[1..], email, i - 1);
      assert Auth.UserWithEmail(users[1..], email) == FirstUser(users[1..], (u: User) => u.email == Some(email));
    }
  }

  /** `{ message, token }`. */
  datatype ResetIssued = ResetIssued(message: string, token: string)

  /** POST /api/auth/forgot-password: the reset row as in the later version,
      and the token itself in the reply. */
  method Forgot(db: Db, email: string, token: string, now: Millis) returns (r: Reply<ResetIssued>)
    modifies db`resets
    ensures Auth.UserWithEmail(db.users, email).None? ==>
      r == Err(400, "Email not found") && db.resets == old(db.resets)
    ensures Auth.UserWithEmail(db.users, email).Some? ==>
      && db.resets == old(db.resets) + [Reset(Auth.UserWithEmail(db.users, email).value.id, token, now + HOUR_MS)]
      && r == Ok(ResetIssued("Reset token generated (for demo)", token))
  {
    var u := Auth.UserWithEmail(db.users, email);
    if u.None? {
      return Err(400, "Email not found");
    }
    db.resets := db.resets + [Reset(u.value.id, token, now + HOUR_MS)];
    r := Ok(ResetIssued("Reset token generated (for demo)", token));
  }
}
