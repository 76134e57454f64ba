/**
 * The preamble most controller handlers repeat before doing their work: take
 * the token from the `accessToken` cookie or the `Authorization` header, and
 * read the caller's id out of it with `jwt.verify(token, JWT_SECRET)`. A
 * verification failure there is not caught separately: it lands in the
 * handler's general `catch`, which answers 500.
 */
module Session {
  import opened Common
  import Headers
  import Jwt

  /** What the server needs to check a token: `jsonwebtoken`'s decoding and the access secret. */
  datatype Keys = Keys(decode: string -> Option<Jwt.Token>, accessSecret: string)

  /** What the preamble learns about the caller. */
  datatype Identity = NoToken | BadToken | Caller(id: nat)

  function Identify(cookie: string, authorization: string, keys: Keys, now: nat): (who: Identity)
    ensures who == NoToken <==> Headers.TokenFrom(cookie, authorization) == ""
    ensures who.Caller? ==>
      var r := Jwt.Verify(keys.decode(Headers.TokenFrom(cookie, authorization)), keys.accessSecret, now);
      r.Valid? && who.id == r.claims.id
    ensures who == BadToken ==>
      !Jwt.Verify(keys.decode(Headers.TokenFrom(cookie, authorization)), keys.accessSecret, now).Valid?
  {
    var token := Headers.TokenFrom(cookie, authorization);
    if token == "" then NoToken
    else
      match Jwt.Verify(keys.decode(token), keys.accessSecret, now)
      case Valid(c) => Caller(c.id)
      case _ => BadToken
  }

  const InternalError: Reply := Reply(500, "Internal server error")

  /** Outcome of a handler's preamble: the caller's id, or the reply that ends the request. */
  datatype Access = Granted(id: nat) | Denied(reply: Reply)

  /**
   * The token part of the preamble, with the handler's own replies for a
   * missing token and for the `catch` that a failed verification lands in.
   */
  function Admit(who: Identity, noToken: Reply, failure: Reply): (a: Access)
    ensures who == NoToken ==> a == Denied(noToken)
    ensures who == BadToken ==> a == Denied(failure)
    ensures who.Caller? <==> a.Granted?
    ensures a.Granted? ==> a.id == who.id
  {
    match who
    case NoToken => Denied(noToken)
    case BadToken => Denied(failure)
    case Caller(id) => Granted(id)
  }
}
