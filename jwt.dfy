/**
 * JSON Web Tokens (RFC 7519) as the login route issues them with
 * `jsonwebtoken.sign(claims, key, { expiresIn })`.
 *
 * Signing is foreign code and is modelled symbolically: a token is a free term
 * holding the claims, the key it was signed with, its issue time ("iat") and
 * its expiry ("exp"). `Verify` stands for `jsonwebtoken.verify`: it accepts a
 * token only under the key it was signed with and only before "exp".
 */
module JsonWebToken {

  import opened Wrappers

  /** The claims the login route puts into a token: `{ userId, username }`. */
  datatype Claims = Claims(userId: nat, username: string)

  datatype Token = Token(claims: Claims, key: string, issuedAt: nat, expiresAt: nat)

  /** `sign(claims, key, { expiresIn })` at time `now` (seconds). */
  function Sign(claims: Claims, key: string, now: nat, expiresIn: nat): (t: Token)
    ensures t.claims == claims && t.key == key
    ensures t.issuedAt == now && t.expiresAt - t.issuedAt == expiresIn
  {
    Token(claims, key, now, now + expiresIn)
  }

  /** `verify(token, key)` at time `now`: the claims, or nothing when the key is wrong or the token expired. */
  function Verify(t: Token, key: string, now: nat): (r: Option<Claims>)
    ensures r.Some? ==> r.value == t.claims && t.key == key && now < t.expiresAt
    ensures r.None? <==> t.key != key || t.expiresAt <= now
  {
    if t.key == key && now < t.expiresAt then Some(t.claims) else None
  }

  /** A token carries the claims it was signed with, until it expires, and only under its key. */
  lemma SignThenVerify(claims: Claims, key: string, now: nat, expiresIn: nat, later: nat)
    ensures Verify(Sign(claims, key, now, expiresIn), key, later)
            == if later < now + expiresIn then Some(claims) else None
  {
  }
}
