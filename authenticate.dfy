/**
 * The `verifyToken` middleware of src/middlewares/authenticate.ts (compiled
 * copy dist/middlewares/authenticate.js): one decision on whether a token is
 * present and on what `jwt.verify` made of it.
 */
module Authenticate {
  import opened Common
  import Headers
  import Jwt

  /** `s.includes(p)`: does `p` occur in `s` at some position? */
  ghost predicate Includes(s: string, p: string)
  {
    exists i :: At(s, p, i)
  }

  /** `p` occurs in `s` starting at position `i`. */
  ghost predicate At(s: string, p: string, i: int)
  {
    0 <= i <= |s| - |p| && s[i..i + |p|] == p
  }

  /** `s.includes(p)`, computed by trying each position in turn. */
  function Occurs(s: string, p: string): (b: bool)
    ensures b <==> Includes(s, p)
  {
    if |s| < |p| then false
    else if s[..|p|] == p then assert At(s, p, 0); true
    else
      var b := Occurs(s[1..], p);
      assert b ==> Includes(s, p) by {
        if b {
          var i :| At(s[1..], p, i);
          assert s[i + 1..i + 1 + |p|] == p;
          assert At(s, p, i + 1);
        }
      }
      assert Includes(s, p) ==> b by {
        if Includes(s, p) {
          var i :| At(s, p, i);
          assert i != 0;
          assert s[1..][i - 1..i - 1 + |p|] == p;
          assert At(s[1..], p, i - 1);
        }
      }
      b
  }

  /** What the middleware does with the request. */
  function VerifyToken(cookie: string, authorization: string, url: string,
                       decode: string -> Option<Jwt.Token>, accessSecret: string, now: nat): (g: Jwt.Gate)
    ensures var token := Headers.TokenFrom(cookie, authorization);
      (token == "" ==> g == Jwt.Refuse(Reply(403, "Access token required"))) &&
      (g.Proceed? <==> token != "" && Jwt.Verify(decode(token), accessSecret, now).Valid?) &&
      (g.Proceed? ==> g.claims == decode(token).value.claims) &&
      (token != "" && Jwt.Verify(decode(token), accessSecret, now).Expired? ==>
         g == Jwt.Refuse(Reply(401, if Includes(url, "/refresh-token") then "Refresh token expired" else "Access token expired"))) &&
      (token != "" && Jwt.Verify(decode(token), accessSecret, now).Invalid? ==>
         g == Jwt.Refuse(Reply(401, "Refresh token expired")))
  {
    var token := Headers.TokenFrom(cookie, authorization);
    if token == "" then Jwt.Refuse(Reply(403, "Access token required"))
    else
      match Jwt.Verify(decode(token), accessSecret, now)
      case Valid(c) => Jwt.Proceed(c)
      case Expired =>
        if Occurs(url, "/refresh-token") then Jwt.Refuse(Reply(401, "Refresh token expired"))
        else Jwt.Refuse(Reply(401, "Access token expired"))
      case Invalid => Jwt.Refuse(Reply(401, "Refresh token expired"))
  }

  /** Every request either proceeds or is answered 401 or 403; 403 exactly when there is no token. */
  lemma GateStatuses(cookie: string, authorization: string, url: string,
                     decode: string -> Option<Jwt.Token>, secret: string, now: nat)
    ensures var g := VerifyToken(cookie, authorization, url, decode, secret, now);
      g.Refuse? ==> (g.reply.status == 403 <==> Headers.TokenFrom(cookie, authorization) == "") &&
                    g.reply.status in {401, 403}
  {
  }

  /** The cookie wins over the header: with a cookie set, the header is never consulted. */
  lemma CookieFirst(cookie: string, h1: string, h2: string, url: string,
                    decode: string -> Option<Jwt.Token>, secret: string, now: nat)
    requires cookie != ""
    ensures VerifyToken(cookie, h1, url, decode, secret, now) == VerifyToken(cookie, h2, url, decode, secret, now)
  {
  }

  /** A token that `generateAccessToken` produced, sent as a bearer header, lets the request through with that user's claims. */
  lemma FreshAccessTokenPasses(u: Jwt.UsersModel.User, token: string, url: string,
                               decode: string -> Option<Jwt.Token>, secret: string, issued: nat, now: nat)
    requires ' ' !in token && token != ""
    requires decode(token) == Some(Jwt.GenerateAccessToken(u, secret, issued))
    requires now / 1000 < issued / 1000 + 86400
    ensures VerifyToken("", "Bearer " + token, url, decode, secret, now) == Jwt.Proceed(Jwt.Claims(u.id, u.email))
  {
    Headers.BearerHeader("Bearer", token);
    assert "Bearer" + " " + token == "Bearer " + token;
  }
}
