/** The cryptographic collaborators of the server as symbolic terms.

    SHA-256 (`hashToken`), bcrypt and JWT signing are not computed: a digest,
    a password hash and a session token are values that remember what they were
    made from. The model only ever compares them for equality, so the single
    assumption it makes about the primitives is that they are injective
    (no collisions, no forgery). */
module Crypto {
  import opened Common

  /** `crypto.createHash('sha256').update(t).digest('hex')`. */
  datatype Digest = Sha256(preimage: string)

  function HashToken(token: string): (d: Digest)
    ensures d.preimage == token
  {
    Sha256(token)
  }

  /** Two tokens hash alike only when they are the same token. */
  lemma HashTokenInjective(a: string, b: string)
    ensures HashToken(a) == HashToken(b) <==> a == b
  {
  }

  /** `bcrypt.hash(plain, salt)` with a salt from `bcrypt.genSalt(12)`. */
  datatype PasswordHash = Bcrypt(plain: string, salt: nat)

  /** `bcrypt.compare(candidate, stored)`: true exactly for the hashed plaintext,
      whatever the salt. */
  predicate BcryptCompare(candidate: string, stored: PasswordHash) {
    candidate == stored.plain
  }

  /** Lifetime of a session token: `expiresIn: '7d'`. */
  const TokenLifetimeMs := 7 * 24 * 60 * 60 * 1000

  /** A signed JWT carrying the user id, its issue time and its expiry. */
  datatype SessionToken = Jwt(userId: Id, issuedAt: Millis, expiresAt: Millis)

  /** `jwt.sign({ id }, secret, { expiresIn })`. */
  function SignToken(id: Id, now: Millis): (t: SessionToken)
    ensures t.userId == id && t.expiresAt - t.issuedAt == TokenLifetimeMs && t.issuedAt == now
  {
    Jwt(id, now, now + TokenLifetimeMs)
  }

  /** What `jwt.verify` reports about a bearer string: a signed, unexpired token
      for an id, or one of the two failures it throws. */
  datatype TokenVerdict = Verified(id: Id) | Malformed | TokenExpired
}
