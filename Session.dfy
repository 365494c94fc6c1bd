/**
 * The session cookie set by `verifyOTP` and `googleLogin` and reset by `logout`
 * (backend/controllers/authController.js). The signed token is opaque here: it
 * carries the user id it was issued for.
 */
module Session {
  import opened Wrappers
  import opened UserSchema

  const CookieName := "token"

  /** `7 * 24 * 60 * 60 * 1000`: seven days in milliseconds. */
  const SessionMaxAge := 7 * 24 * 60 * 60 * 1000

  datatype SameSite = Strict | Lax | NoSameSite

  datatype CookieValue = Token(subject: UserId) | Blank

  datatype Cookie = Cookie(
    name: string,
    value: CookieValue,
    httpOnly: bool,
    secure: bool,
    sameSite: Option<SameSite>,
    maxAge: Option<nat>,     // milliseconds after it is set
    expires: Option<nat>)    // absolute time in milliseconds since the epoch

  /**
   * The session a browser holding `c`, received at time `setAt`, presents at time
   * `now`: a token is sent back until its max-age or expiry date has passed.
   */
  function Presented(c: Cookie, setAt: nat, now: nat): Option<UserId> {
    if && c.name == CookieName
       && c.value.Token?
       && setAt <= now
       && (c.maxAge.Some? ==> now < setAt + c.maxAge.value)
       && (c.expires.Some? ==> now < c.expires.value)
    then Some(c.value.subject)
    else None
  }

  /** The cookie options of a login: HTTP-only, same-site strict, secure only in production, and a session that lasts exactly seven days. */
  function SessionCookie(user: UserId, production: bool): (c: Cookie)
    ensures c.httpOnly && c.sameSite == Some(Strict) && c.secure == production
    ensures forall setAt: nat, now: nat ::
              Presented(c, setAt, now) == if setAt <= now < setAt + SessionMaxAge then Some(user) else None
  {
    Cookie(CookieName, Token(user), true, production, Some(Strict), Some(SessionMaxAge), None)
  }

  /** `logout`'s cookie: an empty, HTTP-only value that expired at the epoch, so no session is presented afterwards. */
  function LogoutCookie(): (c: Cookie)
    ensures c.name == CookieName && c.httpOnly
    ensures forall setAt: nat, now: nat :: Presented(c, setAt, now) == None
  {
    Cookie(CookieName, Blank, true, false, None, None, Some(0))
  }
}
