/**
 * Where a request's bearer token comes from: the `accessToken` cookie if it
 * is set, else the second word of the `Authorization` header split on " ".
 * Both `verifyToken` in src/middlewares/authenticate.ts and `verifyAccessToken`
 * in src/utils/jwt.ts read it the same way.
 */
module Headers {

  /** JavaScript's `s.split(sep)` for a one-character separator. */
  function Split(s: string, sep: char): (parts: seq<string>)
    ensures |parts| >= 1
    ensures forall k :: 0 <= k < |parts| ==> sep !in parts[k]
    ensures Join(parts, sep) == s
  {
    if |s| == 0 then [""]
    else if s[0] == sep then [""] + Split(s[1..], sep)
    else
      var rest := Split(s[1..], sep);
      [[s[0]] + rest[0]] + rest[1..]
  }

  /** `parts.join(sep)`, the inverse of `Split`. */
  function Join(parts: seq<string>, sep: char): string
    requires |parts| >= 1
  {
    if |parts| == 1 then parts[0] else parts[0] + [sep] + Join(parts[1..], sep)
  }

  /** Splitting what was joined gives the pieces back, when no piece holds the separator. */
  lemma {:induction false} SplitJoin(parts: seq<string>, sep: char)
    requires |parts| >= 1
    requires forall k :: 0 <= k < |parts| ==> sep !in parts[k]
    ensures Split(Join(parts, sep), sep) == parts
  {
    if |parts| == 1 {
      SplitPiece(parts[0], sep);
    } else {
      SplitJoin(parts[1..], sep);
      SplitPrefix(parts[0], Join(parts[1..], sep), sep);
    }
  }

  /** A piece without the separator splits into itself. */
  lemma {:induction false} SplitPiece(p: string, sep: char)
    requires sep !in p
    ensures Split(p, sep) == [p]
  {
    if |p| > 0 {
      assert sep !in p[1..] by {
        forall k | 0 <= k < |p[1..]| ensures p[1..][k] != sep { assert p[1..][k] == p[k + 1]; }
      }
      SplitPiece(p[1..], sep);
    }
  }

  /** A separator-free word followed by the separator becomes its own first piece. */
  lemma {:induction false} SplitPrefix(p: string, rest: string, sep: char)
    requires sep !in p
    ensures Split(p + [sep] + rest, sep) == [p] + Split(rest, sep)
  {
    if |p| == 0 {
      assert p + [sep] + rest == [sep] + rest;
      assert ([sep] + rest)[1..] == rest;
    } else {
      assert (p + [sep] + rest)[0] == p[0];
      assert (p + [sep] + rest)[1..] == p[1..] + [sep] + rest;
      assert sep !in p[1..] by {
        forall k | 0 <= k < |p[1..]| ensures p[1..][k] != sep { assert p[1..][k] == p[k + 1]; }
      }
      SplitPrefix(p[1..], rest, sep);
      assert [p[0]] + p[1..] == p;
    }
  }

  /**
   * `authorization.split(" ")[1]`; an index past the end is `undefined`,
   * which the model writes as "".
   */
  function BearerToken(authorization: string): (token: string)
  {
    var words := Split(authorization, ' ');
    if |words| >= 2 then words[1] else ""
  }

  /** `req.cookies.accessToken || authorization?.split(" ")[1]`. */
  function TokenFrom(cookie: string, authorization: string): (token: string)
    ensures cookie != "" ==> token == cookie
    ensures cookie == "" ==> token == BearerToken(authorization)
  {
    if cookie != "" then cookie else BearerToken(authorization)
  }

  /** A `Bearer <token>` header yields the token when no cookie is set. */
  lemma BearerHeader(scheme: string, token: string)
    requires ' ' !in scheme && ' ' !in token
    ensures TokenFrom("", scheme + " " + token) == token
  {
    SplitJoin([scheme, token], ' ');
    assert Join([scheme, token], ' ') == scheme + " " + token by {
      assert [scheme, token][1..] == [token];
    }
  }

  /** A header without a space yields no token. */
  lemma NoSpaceNoToken(authorization: string)
    requires ' ' !in authorization
    ensures BearerToken(authorization) == ""
  {
    SplitPiece(authorization, ' ');
  }
}
