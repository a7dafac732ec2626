/**
 * The bcrypt password hashing library, as the vault uses it (`hashSync` at
 * registration, `compare`/`compareSync` at sign-in).
 *
 * The library is foreign code; it is modelled symbolically. A digest is a free
 * term that records the work factor, the salt drawn for it and the part of the
 * secret bcrypt actually hashes: only the first 72 bytes of a secret count, so
 * two secrets that agree on those accept each other's digest. Secrets are
 * strings of characters here, and the limit is counted in characters, which is
 * the byte count for ASCII secrets. Only `Compare` ever looks inside a digest.
 */
module Bcrypt {

  /** The number of leading bytes of a secret that bcrypt hashes. */
  const SignificantLength: nat := 72

  /** The part of a secret that bcrypt hashes. */
  function Significant(secret: string): (r: string)
    ensures |r| <= SignificantLength && r <= secret
    ensures |secret| <= SignificantLength ==> r == secret
    ensures |secret| > SignificantLength ==> |r| == SignificantLength
  {
    if |secret| <= SignificantLength then secret else secret[..SignificantLength]
  }

  /** A salted digest. The salt is the randomness `hashSync` draws on each call. */
  datatype Digest = Digest(cost: nat, salt: nat, hashed: string)

  /** `bcrypt.hashSync(secret, cost)` with the salt it drew. */
  function HashSync(secret: string, cost: nat, salt: nat): (d: Digest)
    ensures d.cost == cost && d.salt == salt
  {
    Digest(cost, salt, Significant(secret))
  }

  /** `bcrypt.compare(secret, digest)`: does the digest belong to this secret, as far as bcrypt looks? */
  predicate Compare(secret: string, d: Digest)
  {
    d.hashed == Significant(secret)
  }

  /** A secret always matches its own digest, whatever cost and salt were used. */
  lemma CompareHash(secret: string, cost: nat, salt: nat)
    ensures Compare(secret, HashSync(secret, cost, salt))
  {
  }

  /** Hashing is salted: two hashings of one secret differ, yet both verify. */
  lemma SaltedHashesDiffer(secret: string, cost: nat, salt1: nat, salt2: nat)
    requires salt1 != salt2
    ensures HashSync(secret, cost, salt1) != HashSync(secret, cost, salt2)
    ensures Compare(secret, HashSync(secret, cost, salt1)) && Compare(secret, HashSync(secret, cost, salt2))
  {
  }

  /**
   * A digest accepts another secret exactly when the two agree on the part
   * bcrypt hashes: a secret differing within its first 72 characters is
   * rejected, and one differing only after them is accepted.
   */
  lemma CompareOthers(secret: string, other: string, cost: nat, salt: nat)
    ensures Compare(other, HashSync(secret, cost, salt)) <==> Significant(other) == Significant(secret)
    ensures |secret| <= SignificantLength && |other| <= SignificantLength ==>
      (Compare(other, HashSync(secret, cost, salt)) <==> other == secret)
  {
  }

  /** Two secrets sharing their first 72 characters accept each other's digest, however they continue. */
  lemma {:induction false} LongSecretsCollide(prefix: string, tail1: string, tail2: string, cost: nat, salt: nat)
    requires |prefix| == SignificantLength
    ensures Compare(prefix + tail2, HashSync(prefix + tail1, cost, salt))
  {
    assert (prefix + tail1)[..SignificantLength] == prefix;
    assert (prefix + tail2)[..SignificantLength] == prefix;
  }
}
