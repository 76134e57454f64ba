/**
 * JSON Web Tokens as src/utils/jwt.ts (and its compiled copy dist/utils/jwt.js)
 * uses them. Signing is not modelled cryptographically: a token records its
 * claims, the secret that signed it, and its issue and expiry times in whole
 * seconds, as `jsonwebtoken` writes `iat` and `exp`. Turning the compact
 * string form back into a token is the library's business and is passed in
 * as a `decode` function wherever a string is verified.
 */
module Jwt {
  import opened Common
  import Headers
  import UsersModel

  datatype Claims = Claims(id: nat, email: string)

  datatype Token = Token(claims: Claims, secret: string, issuedAt: int, expiresAt: int)

  /** What `jwt.verify` does: return the claims, or throw one of two kinds of error. */
  datatype VerifyResult = Valid(claims: Claims) | Expired | Invalid

  const OneDay: int := 24 * 60 * 60
  const SevenDays: int := 7 * OneDay

  /** `jwt.sign(claims, secret, { expiresIn })` at time `now` (milliseconds). */
  function Sign(claims: Claims, secret: string, now: nat, lifetime: int): Token
  {
    Token(claims, secret, now / 1000, now / 1000 + lifetime)
  }

  /** `generateAccessToken`: `{id, email}`, access secret, one day. */
  function GenerateAccessToken(u: UsersModel.User, accessSecret: string, now: nat): (t: Token)
    ensures t.claims == Claims(u.id, u.email) && t.secret == accessSecret
    ensures t.expiresAt - t.issuedAt == 86400
    ensures t.issuedAt * 1000 <= now < (t.issuedAt + 1) * 1000
  {
    Sign(Claims(u.id, u.email), accessSecret, now, OneDay)
  }

  /** `generateRefreshToken`: same claims, refresh secret, seven days. */
  function GenerateRefreshToken(u: UsersModel.User, refreshSecret: string, now: nat): (t: Token)
    ensures t.claims == Claims(u.id, u.email) && t.secret == refreshSecret
    ensures t.expiresAt - t.issuedAt == 604800
    ensures t.issuedAt * 1000 <= now < (t.issuedAt + 1) * 1000
  {
    Sign(Claims(u.id, u.email), refreshSecret, now, SevenDays)
  }

  /**
   * `jwt.verify(token, secret)` at time `now` (milliseconds). `None` is a
   * string that does not parse as a token. The signature is checked before the
   * expiry, and a token is expired once the current second reaches `exp`.
   */
  function Verify(t: Option<Token>, secret: string, now: nat): (r: VerifyResult)
    ensures r.Valid? <==> t.Some? && t.value.secret == secret && now / 1000 < t.value.expiresAt
    ensures r.Valid? ==> r.claims == t.value.claims
    ensures r.Expired? <==> t.Some? && t.value.secret == secret && now / 1000 >= t.value.expiresAt
  {
    match t
    case None => Invalid
    case Some(tok) =>
      if tok.secret != secret then Invalid
      else if now / 1000 >= tok.expiresAt then Expired
      else Valid(tok.claims)
  }

  /** `verifyToken`: every failure becomes the one error "Invalid token". */
  function VerifyToken(t: Option<Token>, secret: string, now: nat): (r: Result<Claims>)
    ensures r.Ok? <==> Verify(t, secret, now).Valid?
    ensures r.Ok? ==> r.value == t.value.claims
    ensures r.Err? ==> r.message == "Invalid token"
  {
    match Verify(t, secret, now)
    case Valid(c) => Ok(c)
    case _ => Err("Invalid token")
  }

  /** The outcome of a gate middleware: call `next()` with the claims, or answer. */
  datatype Gate = Proceed(claims: Claims) | Refuse(reply: Reply)

  /** `verifyAccessToken`: 401 without a token or with one that does not verify. */
  function VerifyAccessToken(cookie: string, authorization: string,
                             decode: string -> Option<Token>, accessSecret: string, now: nat): (g: Gate)
    ensures Headers.TokenFrom(cookie, authorization) == "" ==> g == Refuse(Reply(401, "No token provided"))
    ensures g.Proceed? <==> Headers.TokenFrom(cookie, authorization) != "" &&
                            Verify(decode(Headers.TokenFrom(cookie, authorization)), accessSecret, now).Valid?
    ensures g.Refuse? && Headers.TokenFrom(cookie, authorization) != "" ==> g.reply == Reply(401, "Invalid token")
  {
    var token := Headers.TokenFrom(cookie, authorization);
    if token == "" then Refuse(Reply(401, "No token provided"))
    else
      match Verify(decode(token), accessSecret, now)
      case Valid(c) => Proceed(c)
      case _ => Refuse(Reply(401, "Invalid token"))
  }

  /** An access token verifies, with exactly the user's id and email, until one day after the second it was issued in. */
  lemma AccessTokenLifetime(u: UsersModel.User, secret: string, issued: nat, now: nat)
    ensures var r := Verify(Some(GenerateAccessToken(u, secret, issued)), secret, now);
      (r == Valid(Claims(u.id, u.email)) <==> now / 1000 < issued / 1000 + 86400) &&
      (r.Expired? <==> now / 1000 >= issued / 1000 + 86400)
  {
  }

  /** A refresh token is never accepted where the access secret is expected, as long as the two secrets differ. */
  lemma RefreshTokenIsNotAccess(u: UsersModel.User, accessSecret: string, refreshSecret: string, issued: nat, now: nat)
    requires accessSecret != refreshSecret
    ensures Verify(Some(GenerateRefreshToken(u, refreshSecret, issued)), accessSecret, now) == Invalid
  {
  }

  /** Issued together, the refresh token is still valid whenever the access token is. */
  lemma RefreshOutlivesAccess(u: UsersModel.User, accessSecret: string, refreshSecret: string, issued: nat, now: nat)
    requires Verify(Some(GenerateAccessToken(u, accessSecret, issued)), accessSecret, now).Valid?
    ensures Verify(Some(GenerateRefreshToken(u, refreshSecret, issued)), refreshSecret, now).Valid?
  {
  }
}
