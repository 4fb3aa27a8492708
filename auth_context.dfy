/** frontend/app/context/AuthContext.js: the client's session. The provider
    keeps the token and user in React state, mirrors the token in a ref that
    the fetch wrapper reads, and persists both in local storage. The fetch
    wrapper adds the bearer token to backend calls and logs out on a 401
    from the backend. */
module AuthContext {
  import opened Common
  import opened Text

  /** The one backend base the wrapper recognises. */
  const API_BASE: string := "http://localhost:5000/"

  /** A user object as the client handles it; every field may be absent. */
  datatype AuthUser = AuthUser(id: Option<nat>, username: Option<string>, email: Option<string>,
                               role: Option<string>)

  /** A user object from a server reply: the four fields and anything else
      the reply carries. */
  datatype UserData = UserData(id: Option<nat>, username: Option<string>, email: Option<string>,
                               role: Option<string>, extra: map<string, string>)

  /** `{ id, username, email, role }` picked from the reply. */
  function Normalised(d: UserData): (u: AuthUser)
    ensures u.id == d.id && u.username == d.username && u.email == d.email && u.role == d.role
  {
    AuthUser(d.id, d.username, d.email, d.role)
  }

  /** Nothing beyond the four fields reaches the session. */
  lemma NormalisedDropsExtras(a: UserData, b: UserData)
    requires a.(extra := b.extra) == b
    ensures Normalised(a) == Normalised(b)
  {
  }

  /** The stored `user` entry: JSON that parses to a user, or text that does
      not parse. */
  datatype StoredUser = Parsed(user: AuthUser) | Unparseable

  /** How the background profile request ended. */
  datatype ProfileReply = Unauthorized | NotOk | Profile(data: UserData) | NetworkError

  /** `if (!storedToken)`: absent or empty. */
  predicate HasText(s: Option<string>) {
    s.Some? && s.value != ""
  }

  /** `isBackendRequest`: `href` is the request URL resolved against the
      page origin, `None` when it does not parse. */
  predicate IsBackend(href: Option<string>) {
    href.Some? && IsPrefix(API_BASE, href.value)
  }

  /** The Authorization header the wrapper sends: the caller's own if set,
      else the current token for a backend URL, else none. */
  function Outgoing(authorization: Option<string>, token: Option<string>, href: Option<string>): (h: Option<string>)
    ensures authorization.Some? ==> h == authorization
    ensures authorization.None? ==> (h.Some? <==> HasText(token) && IsBackend(href))
    ensures h.Some? && authorization.None? ==> h.value == "Bearer " + token.value
  {
    if authorization.None? && HasText(token) && IsBackend(href) then Some("Bearer " + token.value)
    else authorization
  }

  class Session {
    var user: Option<AuthUser>
    var token: Option<string>
    var loading: bool
    /** `tokenRef.current`. */
    var tokenRef: Option<string>
    /** The `token` and `user` entries of local storage. */
    var storedToken: Option<string>
    var storedUser: Option<StoredUser>

    /** A fresh provider over whatever local storage holds. */
    constructor (storedToken: Option<string>, storedUser: Option<StoredUser>)
      ensures user.None? && token.None? && tokenRef.None? && loading
      ensures this.storedToken == storedToken && this.storedUser == storedUser
    {
      user, token, loading, tokenRef := None, None, true, None;
      this.storedToken, this.storedUser := storedToken, storedUser;
    }

    /** `persistAuth`: the user entry is written only for a user. */
    method Persist(jwt: string, u: Option<AuthUser>)
      modifies this`storedToken, this`storedUser
      ensures storedToken == Some(jwt)
      ensures storedUser == if u.Some? then Some(Parsed(u.value)) else old(storedUser)
    {
      storedToken := Some(jwt);
      if u.Some? {
        storedUser := Some(Parsed(u.value));
      }
    }

    /** `clearPersistedAuth`. */
    method ClearPersisted()
      modifies this`storedToken, this`storedUser
      ensures storedToken.None? && storedUser.None?
    {
      storedToken, storedUser := None, None;
    }

    /** `login(jwt, userData)`: the same normalised user in state and in
        storage, the same token in state, ref and storage. */
    method Login(jwt: string, data: UserData)
      modifies this
      ensures token == Some(jwt) && tokenRef == Some(jwt) && storedToken == Some(jwt)
      ensures user == Some(Normalised(data)) && storedUser == Some(Parsed(Normalised(data)))
      ensures loading == old(loading)
    {
      var u := Normalised(data);
      token := Some(jwt);
      tokenRef := Some(jwt);
      user := Some(u);
      Persist(jwt, Some(u));
    }

    /** `logout()`: state, ref and storage all cleared. */
    method Logout()
      modifies this
      ensures token.None? && tokenRef.None? && user.None?
      ensures storedToken.None? && storedUser.None?
      ensures loading == old(loading)
    {
      token := None;
      tokenRef := None;
      user := None;
      ClearPersisted();
    }

    /** The mount effect, with the profile request's outcome given. The
        request is assumed to settle before any other event. A stored user
        that parses is restored at once; one that does not is removed. */
    method Restore(reply: ProfileReply)
      modifies this
      ensures !loading
      ensures !HasText(old(storedToken)) ==>
        && token == old(token) && tokenRef == old(tokenRef) && storedToken == old(storedToken)
        && user == (if old(storedUser).Some? && old(storedUser).value.Parsed? then Some(old(storedUser).value.user) else old(user))
        && storedUser == (if old(storedUser) == Some(Unparseable) then None else old(storedUser))
      ensures HasText(old(storedToken)) && reply.Unauthorized? ==>
        // unlike logout, the ref keeps the rejected token
        && user.None? && token.None? && tokenRef == old(storedToken)
        && storedToken.None? && storedUser.None?
      ensures HasText(old(storedToken)) && (reply.NotOk? || reply.NetworkError?) ==>
        && token == old(storedToken) && tokenRef == old(storedToken) && storedToken == old(storedToken)
        && user == (if old(storedUser).Some? && old(storedUser).value.Parsed? then Some(old(storedUser).value.user) else old(user))
        && storedUser == (if old(storedUser) == Some(Unparseable) then None else old(storedUser))
      ensures HasText(old(storedToken)) && reply.Profile? ==>
        && token == old(storedToken) && tokenRef == old(storedToken) && storedToken == old(storedToken)
        && user == Some(Normalised(reply.data)) && storedUser == Some(Parsed(Normalised(reply.data)))
    {
      var saved := storedToken;
      if storedUser.Some? {
        match storedUser.value
        case Parsed(u) => user := Some(u);
        case Unparseable => storedUser := None;
      }
      if !HasText(saved) {
        loading := false;
        return;
      }
      token := saved;
      tokenRef := saved;
      match reply {
        case Unauthorized =>
          user := None;
          token := None;
          ClearPersisted();
        case NotOk =>
        case NetworkError =>
        case Profile(data) =>
          var u := Normalised(data);
          user := Some(u);
          Persist(saved.value, Some(u));
      }
      loading := false;
    }

    /** One call through the patched `fetch`. `authorization` is the header
        the caller set, `href` the resolved URL; `status` is the response's.
        Returns the Authorization header actually sent. */
    method Fetch(authorization: Option<string>, href: Option<string>, status: nat) returns (sent: Option<string>)
      modifies this
      ensures sent == Outgoing(authorization, old(tokenRef), href)
      ensures status == 401 && IsBackend(href) ==>
        token.None? && tokenRef.None? && user.None? && storedToken.None? && storedUser.None?
      ensures !(status == 401 && IsBackend(href)) ==>
        && token == old(token) && tokenRef == old(tokenRef) && user == old(user)
        && storedToken == old(storedToken) && storedUser == old(storedUser)
      ensures loading == old(loading)
    {
      sent := Outgoing(authorization, tokenRef, href);
      if status == 401 && IsBackend(href) {
        Logout();
      }
    }
  }

  /** After a 401 on restore, the stale token is still attached to the next
      backend call made without its own header. */
  lemma StaleRefStillSent(token: string, href: string)
    requires token != "" && IsPrefix(API_BASE, href)
    ensures Outgoing(None, Some(token), Some(href)) == Some("Bearer " + token)
  {
  }

  /** A URL that does not parse or lies outside the backend never gets the
      token, nor triggers a logout. */
  lemma OnlyBackendGetsToken(authorization: Option<string>, token: Option<string>, href: Option<string>)
    requires !IsBackend(href)
    ensures Outgoing(authorization, token, href) == authorization
  {
  }

  /** The browser window, as far as the patch is concerned. `installs`
      counts the wrappers put in place. */
  class Window {
    /** `__ONLYSKINS_FETCH_PATCHED__`, defined non-writable once set. */
    var patched: bool
    var installs: nat

    /** The patch is installed at most once, and exactly when the flag is set. */
    predicate Valid()
      reads this
    {
      installs <= 1 && (installs == 1 <==> patched)
    }

    constructor ()
      ensures Valid()
      ensures !patched && installs == 0
    {
      patched, installs := false, 0;
    }
  }

  /** The patch effect. On the server there is no window (`null`) and
      nothing happens; a window already patched is left alone. */
  method PatchFetch(w: Window?)
    requires w != null ==> w.Valid()
    modifies w
    ensures w != null ==> w.Valid() && w.patched && w.installs == 1
    ensures w != null ==> w.installs == old(w.installs) + (if old(w.patched) then 0 else 1)
  {
    if w == null {
      return;
    }
    if w.patched {
      return;
    }
    w.installs := w.installs + 1;
    w.patched := true;
  }
}
