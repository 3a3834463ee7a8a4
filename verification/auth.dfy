/** Login, registration, token refresh and logout
    (controllers/authController.js). Passwords go through the uninterpreted
    hasher; tokens are the symbolic terms of the `Tokens` module. */
module Auth {
  import opened Values
  import opened Models
  import opened Db
  import opened Tokens
  import opened Crypto
  import opened Http
  import Users

  /** The response of a successful login or registration: the body holds
      the minimal `{ id, email }` projection and an access token that opens
      the user's `UserInfo` for fifteen minutes; the `jwt` cookie holds a
      refresh token that opens only the email for seven days. Neither token
      is accepted under the other's secret. */
  function OpenSession(s: Store, id: Id, username: Option<string>, email: string, now: nat): (r: Step)
    ensures r.status == 200 && r.store == s
    ensures r.body.Session? && r.body.id == id && r.body.email == email
    ensures forall t: nat :: (Verify(r.body.accessToken, AccessSecret, t)
      == if t < now + AccessTtl then Some(UserInfo(Some(id), username, email)) else None)
    ensures forall t: nat :: Verify(r.body.accessToken, RefreshSecret, t).None?
    ensures r.cookie.SetCookie? && r.cookie.name == CookieName && r.cookie.flags == SessionFlags
    ensures forall t: nat :: (Verify(r.cookie.token, RefreshSecret, t)
      == if t < now + RefreshTtl then Some(EmailOnly(email)) else None)
    ensures forall t: nat :: Verify(r.cookie.token, AccessSecret, t).None?
  {
    var access := Sign(UserInfo(Some(id), username, email), AccessSecret, AccessTtl, now);
    var refresh := Sign(EmailOnly(email), RefreshSecret, RefreshTtl, now);
    Step(200, Session(access, id, email), SetCookie(CookieName, refresh, SessionFlags), s)
  }

  /** POST /auth. Missing or whitespace-only fields give 400 before any
      lookup. The lookup is by exact email (no collation). An unknown email
      and a wrong password get the same 401. The access token's `username`
      claim reads a path the User schema does not have, so it is absent. */
  ghost function Login(s: Store, p: Primitives, email: Field, password: Field, now: nat): (r: Step)
    ensures r.store == s
    ensures r.status == 400 <==> !Filled(password) || !Filled(email)
    ensures r.status in {400, 401} ==> r.body == Note && r.cookie == Keep
    ensures r.status == 401 ==> ((forall u :: u in s.users ==> s.users[u].email != email.value)
      || exists u :: u in s.users && s.users[u].email == email.value && !p.compare(password.value, s.users[u].password))
    ensures r.status !in {400, 401} ==> (r.status == 200
      && exists u :: (u in s.users && s.users[u].email == email.value
        && p.compare(password.value, s.users[u].password)
        && r == OpenSession(s, u, None, email.value, now)))
  {
    if !Filled(password) || !Filled(email) then Reply(400, Note, s)
    else
      match FindByEmail(s.users, email.value)
      case None => Reply(401, Note, s)
      case Some(u) =>
        var user := s.users[u];
        if !p.compare(password.value, user.password) then Reply(401, Note, s)
        else OpenSession(s, u, None, user.email, now)
  }

  /** POST /auth/register as written. Missing fields (no trimming) give 400
      and an email in use up to case gives 409. The document it creates
      carries `username`, a path the User schema does not declare, and no
      `name`, so `User.create` always fails validation and the handler ends in
      its 500 branch: no account is ever created. */
  ghost function Register(s: Store, fold: string -> string, p: Primitives,
                          username: Field, password: Field, email: Field,
                          newId: Id, salt: nat, now: nat): (r: Step)
    ensures r.store == s && r.cookie == Keep && r.body == Note
    ensures r.status == 400 <==> !Present(username) || !Present(password) || !Present(email)
    ensures r.status == 409 <==> (Present(username) && Present(password) && Present(email)
      && exists u :: u in s.users && fold(s.users[u].email) == fold(email.value))
    ensures r.status !in {400, 409} ==> r.status == 500
  {
    if !Present(username) || !Present(password) || !Present(email) then Reply(400, Note, s)
    else if FindByFold(s.users, fold, email.value).Some? then Reply(409, Note, s)
    else
      var address := email.value;
      var digest := p.hash(password.value, SaltRounds, salt);
      match CreateUser(s.users, newId, Draft(None, email, digest))
      case Err(_) => Reply(500, Note, s)
      case Ok(users) => OpenSession(s.(users := users), newId, username, address, now)
  }

  /** Registration as evidently intended: the record stores `username` as
      `name`, exactly as the account-creation handler does, and then a
      session opens for the new account. */
  ghost function RegisterFixed(s: Store, fold: string -> string, p: Primitives,
                               username: Field, password: Field, email: Field,
                               newId: Id, salt: nat, now: nat): (r: Step)
    ensures r.status == 400 <==> !Present(username) || !Present(password) || !Present(email)
    ensures r.status == 409 <==> (Present(username) && Present(password) && Present(email)
      && exists u :: u in s.users && fold(s.users[u].email) == fold(email.value))
    ensures r.status in {400, 409, 500} ==> r.store == s && r.cookie == Keep && r.body == Note
    ensures r.status !in {400, 409, 500} ==> (r.status == 200
      && newId !in s.users
      && r.store == s.(users := s.users[newId := User(username.value, email.value,
                                                    p.hash(password.value, SaltRounds, salt), None)])
      && r == OpenSession(r.store, newId, username, email.value, now))
  {
    if !Present(username) || !Present(password) || !Present(email) then Reply(400, Note, s)
    else if FindByFold(s.users, fold, email.value).Some? then Reply(409, Note, s)
    else
      var digest := p.hash(password.value, SaltRounds, salt);
      match CreateUser(s.users, newId, Draft(username, email, digest))
      case Err(_) => Reply(500, Note, s)
      case Ok(users) => OpenSession(s.(users := users), newId, username, email.value, now)
  }

  /** GET /auth/refresh. No cookie is a 401; a cookie that does not verify
      against the refresh secret (malformed, forged, signed with the access
      secret, or expired) is a 403. A verified payload's top-level email is
      looked up exactly; one that no stored user has is a 401. A payload
      without a top-level email makes the filter `{ email: undefined }`,
      which Mongoose treats as the empty filter: any stored user is found,
      and only an empty collection gives 401. On success a new access token
      for the found user's email is returned, with no `id` claim and no new
      cookie. */
  ghost function Refresh(s: Store, p: Primitives, cookie: Field, now: nat): (r: Step)
    ensures r.store == s && r.cookie == Keep
    ensures r.status in {401, 403} ==> r.body == Note
    ensures !Present(cookie) ==> r.status == 401
    ensures r.status == 403 <==> (Present(cookie)
      && (p.decode(cookie.value).None? || Verify(p.decode(cookie.value).value, RefreshSecret, now).None?))
    ensures r.status == 401 && Present(cookie) ==> (
      && p.decode(cookie.value).Some?
      && var claims := p.decode(cookie.value).value.claims;
      && (if claims.UserInfo? then s.users == map[]
          else forall u :: u in s.users ==> s.users[u].email != claims.email))
    ensures r.status !in {401, 403} ==> (r.status == 200
      && Present(cookie) && p.decode(cookie.value).Some?
      && var t := p.decode(cookie.value).value;
      && t.key == RefreshSecret && now < t.expiresAt
      && exists u :: (u in s.users
        && (t.claims.EmailOnly? ==> s.users[u].email == t.claims.email)
        && r.body == AccessOnly(Sign(UserInfo(None, None, s.users[u].email), AccessSecret, AccessTtl, now))))
  {
    if !Present(cookie) then Reply(401, Note, s)
    else
      match p.decode(cookie.value)
      case None => Reply(403, Note, s)
      case Some(t) =>
        match Verify(t, RefreshSecret, now)
        case None => Reply(403, Note, s)
        case Some(claims) =>
          var found := match TopEmail(claims)
            case Some(e) => FindByEmail(s.users, e)
            case None => AnyUser(s.users);
          match found
          case None => Reply(401, Note, s)
          case Some(u) =>
            var access := Sign(UserInfo(None, None, s.users[u].email), AccessSecret, AccessTtl, now);
            Reply(200, AccessOnly(access), s)
  }

  /** POST /auth/logout. Without a cookie: 204 and nothing else. With one:
      it is cleared with the flags it was set with (less `maxAge`). */
  function Logout(s: Store, cookie: Field): (r: Step)
    ensures r.store == s
    ensures r.status == 204 <==> !Present(cookie)
    ensures r.status == 204 ==> r.body == NoContent && r.cookie == Keep
    ensures r.status != 204 ==> (r.status == 200 && r.body == Note
      && r.cookie == ClearCookie(CookieName, ClearFlags))
    ensures r.cookie.ClearCookie? ==> (r.cookie.flags.httpOnly == SessionFlags.httpOnly
      && r.cookie.flags.secure == SessionFlags.secure && r.cookie.flags.sameSite == SessionFlags.sameSite)
  {
    if !Present(cookie) then Step(204, NoContent, Keep, s)
    else Step(200, Note, ClearCookie(CookieName, ClearFlags), s)
  }

  // ----- properties -----

  /** Every failed login with filled-in fields is the same 401 response,
      whether the email is unknown or the password is wrong. */
  lemma LoginFailuresIndistinguishable(s: Store, fold: string -> string, p: Primitives,
                                       email: string, password: string, now: nat)
    requires Valid(s, fold)
    requires Filled(Some(email)) && Filled(Some(password))
    ensures var r := Login(s, p, Some(email), Some(password), now);
      r.status == 200 || r == Step(401, Note, Keep, s)
    ensures (forall u :: u in s.users ==> s.users[u].email != email) ==>
      Login(s, p, Some(email), Some(password), now) == Step(401, Note, Keep, s)
    ensures (exists u :: u in s.users && s.users[u].email == email && !p.compare(password, s.users[u].password)) ==>
      Login(s, p, Some(email), Some(password), now) == Step(401, Note, Keep, s)
  {
  }

  /** Login matches emails exactly although registration compares them up
      to case: an account is refused under a case variant of its email, and
      that variant cannot be registered either. */
  lemma LoginIsCaseSensitive(s: Store, fold: string -> string, p: Primitives,
                             u: Id, variant: string, password: string,
                             newId: Id, salt: nat, now: nat)
    requires Valid(s, fold)
    requires u in s.users && fold(s.users[u].email) == fold(variant) && s.users[u].email != variant
    requires Filled(Some(variant)) && Filled(Some(password))
    ensures Login(s, p, Some(variant), Some(password), now).status == 401
    ensures RegisterFixed(s, fold, p, Some(s.users[u].name), Some(password), Some(variant), newId, salt, now).status == 409
  {
  }

  /** A refresh cookie issued at login, presented before it expires while
      the account still exists, yields a new access token for that email
      (without an `id` claim). */
  lemma RefreshAfterLogin(s: Store, p: Primitives, email: string, password: string,
                          loginAt: nat, later: Store, cookie: string, now: nat)
    requires Login(s, p, Some(email), Some(password), loginAt).status == 200
    requires cookie != ""
    requires p.decode(cookie) == Some(Login(s, p, Some(email), Some(password), loginAt).cookie.token)
    requires now < loginAt + RefreshTtl
    requires exists u :: u in later.users && later.users[u].email == email
    ensures Refresh(later, p, Some(cookie), now) ==
      Step(200, AccessOnly(Sign(UserInfo(None, None, email), AccessSecret, AccessTtl, now)), Keep, later)
  {
  }

  /** A successful login, and a successful registration, set the `jwt`
      cookie HTTP-only, secure, with `sameSite` 'None', for seven days. */
  lemma SessionCookieAttributes(s: Store, fold: string -> string, p: Primitives,
                                username: Field, email: Field, password: Field,
                                newId: Id, salt: nat, now: nat)
    ensures var r := Login(s, p, email, password, now);
      r.status == 200 ==> (r.cookie.SetCookie? && r.cookie.name == "jwt"
        && r.cookie.flags.httpOnly && r.cookie.flags.secure && r.cookie.flags.sameSite == NoRestriction
        && r.cookie.flags.maxAgeMs == Some(604800000))
    ensures var r := RegisterFixed(s, fold, p, username, password, email, newId, salt, now);
      r.status == 200 ==> (r.cookie.SetCookie? && r.cookie.name == "jwt"
        && r.cookie.flags.httpOnly && r.cookie.flags.secure && r.cookie.flags.sameSite == NoRestriction
        && r.cookie.flags.maxAgeMs == Some(604800000))
  {
  }

  /** A refresh cookie whose payload has no top-level email (an access
      payload signed with the refresh secret) is answered for whichever
      user the empty filter finds, as long as there is one. */
  lemma RefreshWithoutEmailFindsSomeUser(s: Store, p: Primitives, cookie: string, t: Token, now: nat)
    requires cookie != "" && p.decode(cookie) == Some(t)
    requires t.key == RefreshSecret && now < t.expiresAt && t.claims.UserInfo?
    ensures Refresh(s, p, Some(cookie), now).status == (if s.users == map[] then 401 else 200)
  {
  }

  /** A refresh cookie presented once its seven days are over is refused
      with 403, as is an access token presented as the cookie. */
  lemma RefreshRejectsStaleOrWrongKind(s: Store, p: Primitives, cookie: string, t: Token, now: nat)
    requires cookie != "" && p.decode(cookie) == Some(t)
    requires t.key == AccessSecret || now >= t.expiresAt
    ensures Refresh(s, p, Some(cookie), now).status == 403
  {
  }

  /** After logout the client holds no session cookie, whether or not it
      sent one; the store is unchanged either way. */
  lemma LogoutEndsSession(s: Store, jar: Field, encode: Token -> string)
    ensures !Present(ApplyCookie(jar, Logout(s, jar).cookie, encode))
    ensures Logout(s, jar).store == s
  {
  }

  /** The corrected registration changes the store exactly as account
      creation does. */
  lemma RegisterFixedCreatesLikeCreateNewUser(s: Store, fold: string -> string, p: Primitives,
                                              username: Field, password: Field, email: Field,
                                              newId: Id, salt: nat, now: nat)
    ensures RegisterFixed(s, fold, p, username, password, email, newId, salt, now).store
         == Users.CreateNewUser(s, fold, p, username, password, email, newId, salt).store
    ensures (RegisterFixed(s, fold, p, username, password, email, newId, salt, now).status == 200)
         == (Users.CreateNewUser(s, fold, p, username, password, email, newId, salt).status == 201)
  {
  }

  /** The registration as written fails on an input the corrected one
      accepts: a fresh account with every field present. */
  lemma RegisterAsWrittenNeverCreates(s: Store, fold: string -> string, p: Primitives,
                                      username: string, password: string, email: string,
                                      newId: Id, salt: nat, now: nat)
    requires username != "" && password != "" && email != "" && newId !in s.users
    requires forall u :: u in s.users ==> fold(s.users[u].email) != fold(email)
    ensures Register(s, fold, p, Some(username), Some(password), Some(email), newId, salt, now).status == 500
    ensures RegisterFixed(s, fold, p, Some(username), Some(password), Some(email), newId, salt, now).status == 200
  {
  }

  lemma RegisterFixedKeepsValid(s: Store, fold: string -> string, p: Primitives,
                                username: Field, password: Field, email: Field,
                                newId: Id, salt: nat, now: nat)
    requires Valid(s, fold)
    ensures Valid(RegisterFixed(s, fold, p, username, password, email, newId, salt, now).store, fold)
  {
  }
}
