/** The token service: the two kinds of JSON Web Token the handlers sign,
    their lifetimes, and the session cookie that carries the refresh token.
    Signing is uninterpreted: a token is the term recording what was signed,
    with which secret, and when it expires. */
module Tokens {
  import opened Values

  /** `expiresIn: '15m'`, in seconds. */
  const AccessTtl: nat := 15 * 60
  /** `expiresIn: '7d'`, in seconds. */
  const RefreshTtl: nat := 7 * 24 * 60 * 60
  /** The refresh cookie's name. */
  const CookieName: string := "jwt"
  /** The refresh cookie's `maxAge`, in milliseconds. */
  const CookieMaxAgeMs: nat := 7 * 24 * 60 * 60 * 1000

  /** ACCESS_TOKEN_SECRET and REFRESH_TOKEN_SECRET, two independent keys. */
  datatype Key = AccessSecret | RefreshSecret

  /** Token payloads. An access token carries a `UserInfo` object (a claim
      whose source value is `undefined` is `None`); a refresh token carries
      only the email. */
  datatype Claims =
    | UserInfo(id: Option<Id>, username: Option<string>, email: string)
    | EmailOnly(email: string)

  /** A signed token: its payload, the key that signed it, and its `iat` and
      `exp` timestamps in seconds. */
  datatype Token = Token(claims: Claims, key: Key, issuedAt: nat, expiresAt: nat)

  /** `jwt.sign(claims, key, { expiresIn: ttl })` at time `now`. */
  function Sign(claims: Claims, key: Key, ttl: nat, now: nat): Token {
    Token(claims, key, now, now + ttl)
  }

  /** `jwt.verify(token, key)` at time `now`: the payload, if `key` signed
      the token and it has not expired (`now >= exp` is expired). */
  function Verify(t: Token, key: Key, now: nat): (r: Option<Claims>)
    ensures r.Some? <==> t.key == key && now < t.expiresAt
    ensures r.Some? ==> r.value == t.claims
  {
    if t.key != key then None
    else if now >= t.expiresAt then None
    else Some(t.claims)
  }

  /** The email a verified payload exposes as `decoded.email`; an access
      payload has none at the top level. */
  function TopEmail(c: Claims): (r: Option<string>)
    ensures r.Some? <==> c.EmailOnly?
    ensures r.Some? ==> r.value == c.email
  {
    match c
    case EmailOnly(e) => Some(e)
    case UserInfo(_, _, _) => None
  }

  /** A token verifies with the key that signed it for exactly `ttl`
      seconds after issue, and never with the other key. */
  lemma SignedTokenLifetime(c: Claims, key: Key, ttl: nat, iat: nat, now: nat, other: Key)
    requires other != key
    ensures Verify(Sign(c, key, ttl, iat), key, now) == (if now < iat + ttl then Some(c) else None)
    ensures Verify(Sign(c, key, ttl, iat), other, now).None?
  {
  }

  /** An access token is usable for fifteen minutes from issue; a refresh
      token for seven days, which is also the cookie's lifetime. */
  lemma TokenAndCookieLifetimes(c: Claims, iat: nat)
    ensures Verify(Sign(c, AccessSecret, AccessTtl, iat), AccessSecret, iat + 899).Some?
    ensures Verify(Sign(c, AccessSecret, AccessTtl, iat), AccessSecret, iat + 900).None?
    ensures Verify(Sign(c, RefreshSecret, RefreshTtl, iat), RefreshSecret, iat + 604799).Some?
    ensures Verify(Sign(c, RefreshSecret, RefreshTtl, iat), RefreshSecret, iat + 604800).None?
    ensures CookieMaxAgeMs == RefreshTtl * 1000 == 604800000
  {
  }

  // ----- the session cookie -----

  /** The `sameSite` attribute; the source sends 'None'. */
  datatype SameSite = Strict | Lax | NoRestriction

  datatype CookieFlags = CookieFlags(httpOnly: bool, secure: bool, sameSite: SameSite, maxAgeMs: Option<nat>)

  /** The options the refresh cookie is set with. */
  const SessionFlags: CookieFlags := CookieFlags(true, true, NoRestriction, Some(CookieMaxAgeMs))
  /** The options `clearCookie` is called with on logout. */
  const ClearFlags: CookieFlags := CookieFlags(true, true, NoRestriction, None)

  /** What a response does to the client's `jwt` cookie. */
  datatype CookieOp =
    | Keep
    | SetCookie(name: string, token: Token, flags: CookieFlags)
    | ClearCookie(name: string, flags: CookieFlags)

  /** The client's `jwt` cookie after a response, where `encode` is the
      token's serialised form. */
  function ApplyCookie(jar: Field, op: CookieOp, encode: Token -> string): Field {
    match op
    case Keep => jar
    case SetCookie(name, t, _) => if name == CookieName then Some(encode(t)) else jar
    case ClearCookie(name, _) => if name == CookieName then None else jar
  }
}
