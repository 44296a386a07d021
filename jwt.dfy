/**
 * JSON Web Tokens as github.com/golang-jwt/jwt/v5 handles them for this
 * service: HMAC-signed tokens over a map of claims. The signing and the
 * signature check are a library the model keeps abstract (`Jws`); the
 * registered-claim checks `ParseWithClaims` applies on top of it are
 * modelled.
 */
module Jwt {
  import opened Wrappers
  import opened Domain

  /** A claim as JSON decoding gives it back: a string, a number, or anything else. */
  datatype ClaimValue = Str(s: string) | Num(n: int) | Other

  type Claims = map<string, ClaimValue>

  /**
   * The signing library: `sign` is `SignedString` of an HS256 token carrying
   * the claims, under the key (None when the library refuses the key);
   * `decode` checks a token's signature under the key and reads its claims
   * back (None for a malformed token or a wrong key). The key functions
   * never look at the token's signing method, so any HMAC algorithm
   * (HS256, HS384, HS512) under the key decodes.
   */
  datatype Jws = Jws(sign: (Claims, string) -> Option<string>, decode: (string, string) -> Option<Claims>)

  /** A token signed under a key decodes, under that key, to the claims it was signed with. */
  ghost predicate Sound(lib: Jws)
  {
    forall c: Claims, key: string :: lib.sign(c, key).Some? ==> lib.decode(lib.sign(c, key).value, key) == Some(c)
  }

  /**
   * `jwt.ParseWithClaims(token, claims, keyFunc)` at time `now`: the
   * signature must check, and the registered claims it validates must hold —
   * `exp`, when present, a number later than now; `nbf`, when present, a
   * number not after now. (`iat` is not checked by this version.)
   */
  function ParseWithClaims(lib: Jws, token: string, key: string, now: Time): (r: Option<Claims>)
    ensures r.Some? ==> lib.decode(token, key) == r
    ensures r.Some? ==> "exp" in r.value ==> r.value["exp"].Num? && now < r.value["exp"].n
    ensures r.Some? ==> "nbf" in r.value ==> r.value["nbf"].Num? && r.value["nbf"].n <= now
  {
    var c := lib.decode(token, key);
    if c.None? then None
    else if "exp" in c.value && !(c.value["exp"].Num? && now < c.value["exp"].n) then None
    else if "nbf" in c.value && !(c.value["nbf"].Num? && c.value["nbf"].n <= now) then None
    else c
  }

  /** A signed token whose claims hold at `now` parses to those claims; one whose `exp` has passed does not parse. */
  lemma ParseSigned(lib: Jws, c: Claims, key: string, now: Time)
    requires Sound(lib) && lib.sign(c, key).Some?
    ensures var r := ParseWithClaims(lib, lib.sign(c, key).value, key, now);
            && (("exp" !in c || (c["exp"].Num? && now < c["exp"].n)) && "nbf" !in c ==> r == Some(c))
            && ("exp" in c && c["exp"].Num? && c["exp"].n <= now ==> r.None?)
  {
    assert lib.decode(lib.sign(c, key).value, key) == Some(c);
  }
}
