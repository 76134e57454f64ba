/**
 * Shared vocabulary of the Tresoly API model: optional values, the HTTP reply
 * every handler ends with, JavaScript truthiness of request strings, and the
 * password-hashing stand-in.
 *
 * A request field that is `undefined`, `null` or `""` is falsy in JavaScript
 * and every handler tests it with `!field`; the model represents all three by
 * the empty string.
 */
module Common {

  datatype Option<T> = None | Some(value: T)

  /** A value, or the message of the error thrown instead. */
  datatype Result<T> = Ok(value: T) | Err(message: string)

  /** The status code and message a handler sends back. */
  datatype Reply = Reply(status: int, message: string)
  {
    predicate Success() { 200 <= status < 300 }
  }

  /** `!!s` for a string coming from a request body, query or header. */
  predicate Truthy(s: string) { s != "" }

  /** `a || b` on strings: the request value when truthy, else the fallback. */
  function OrElse(a: string, b: string): string { if a != "" then a else b }

  /** `a || b` on string lists (an array is always truthy once supplied). */
  function OrElseList(a: Option<seq<string>>, b: Option<seq<string>>): Option<seq<string>>
  {
    if a.Some? then a else b
  }

  /**
   * Stand-in for bcrypt: an injective function whose values are never the
   * empty string and never the password itself.
   */
  function Hash(plain: string): (h: string)
    ensures h != "" && h != plain
    ensures |h| == |plain| + 4
  {
    "$2b$" + plain
  }

  /** `comparePassword(plain, stored)`: does `stored` hash `plain`? */
  predicate Compare(plain: string, stored: string)
  {
    stored == Hash(plain)
  }

  lemma HashInjective(p: string, q: string)
    requires Hash(p) == Hash(q)
    ensures p == q
  {
    assert p == Hash(p)[4..];
    assert q == Hash(q)[4..];
  }

  /**
   * A password is accepted exactly when it is the one that was hashed; the
   * schema's default password "" is never accepted.
   */
  lemma CompareExactly(plain: string, original: string)
    ensures Compare(plain, Hash(original)) <==> plain == original
    ensures !Compare(plain, "")
  {
    if Compare(plain, Hash(original)) {
      HashInjective(plain, original);
    }
  }

  /** The decimal numeral JavaScript writes for a non-negative integer. */
  function Decimal(n: nat): (s: string)
    ensures |s| >= 1 && forall j :: 0 <= j < |s| ==> '0' <= s[j] <= '9'
  {
    var d := ('0' as int + n % 10) as char;
    if n < 10 then [d] else Decimal(n / 10) + [d]
  }

  /**
   * Reads a document id from a route parameter. Ids are modelled as decimal
   * numerals; any other non-empty string is one Mongoose cannot cast.
   */
  function ParseId(s: string): (r: Option<nat>)
    ensures r.Some? ==> s != "" && forall j :: 0 <= j < |s| ==> '0' <= s[j] <= '9'
  {
    if |s| == 0 || !('0' <= s[|s| - 1] <= '9') then None
    else
      var d := (s[|s| - 1] - '0') as nat;
      if |s| == 1 then Some(d)
      else
        match ParseId(s[..|s| - 1])
        case None => None
        case Some(k) => Some(10 * k + d)
  }

  /** Reading back the numeral of an id gives the id. */
  lemma {:induction false} ParseDecimal(n: nat)
    ensures ParseId(Decimal(n)) == Some(n)
  {
    var s := Decimal(n);
    assert (s[|s| - 1] - '0') as nat == n % 10;
    if n >= 10 {
      ParseDecimal(n / 10);
      assert s[..|s| - 1] == Decimal(n / 10);
    }
  }
}
