/** The single-use secrets of the account lifecycle: password-reset tokens
    (10 minutes) and e-mail verification tokens (24 hours).

    Only the SHA-256 digest of a secret and its expiry are stored on the user.
    A presented token is accepted when its digest matches and the expiry is
    still in the future (`{ $gt: Date.now() }`); accepting it clears both fields. */
module Secrets {
  import opened Common
  import opened Crypto

  const ResetTtlMs := 10 * 60 * 1000
  const VerificationTtlMs := 24 * 60 * 60 * 1000

  /** The pair of fields `xToken` / `xExpires` on a user document. */
  datatype SecretSlot = SecretSlot(digest: Option<Digest>, expires: Option<Millis>)

  /** Both fields unset, as after `user.xToken = undefined; user.xExpires = undefined`. */
  const Cleared := SecretSlot(None, None)

  /** Store the digest of a fresh secret with an expiry `ttl` from now. */
  function Issue(secret: string, now: Millis, ttl: nat): (r: SecretSlot)
    ensures forall t :: Accepts(r, t, now) <==> t == secret && ttl > 0
  {
    SecretSlot(Some(HashToken(secret)), Some(now + ttl))
  }

  /** The lookup `findOne({ xToken: hashToken(token), xExpires: { $gt: now } })`
      matches this slot. */
  predicate Accepts(slot: SecretSlot, token: string, now: Millis) {
    slot.digest == Some(HashToken(token)) && slot.expires.Some? && slot.expires.value > now
  }

  /** An issued slot accepts exactly its own secret, and only before its expiry. */
  lemma IssuedAcceptsOnlyItsSecret(secret: string, issuedAt: Millis, ttl: nat, token: string, now: Millis)
    ensures Accepts(Issue(secret, issuedAt, ttl), token, now) <==> token == secret && now < issuedAt + ttl
  {
    HashTokenInjective(secret, token);
  }

  /** Once consumed, a slot accepts no token at any time: the secret is single-use. */
  lemma ClearedAcceptsNothing(token: string, now: Millis)
    ensures !Accepts(Cleared, token, now)
  {
  }

  /** Issuing a new secret into a slot invalidates the one it held before. */
  lemma ReissueInvalidatesPrevious(previous: string, next: string, issuedAt: Millis, ttl: nat, now: Millis)
    requires previous != next
    ensures !Accepts(Issue(next, issuedAt, ttl), previous, now)
  {
    HashTokenInjective(previous, next);
  }

  /** A reset token presented ten minutes or more after it was issued is refused. */
  lemma ResetTokenExpires(secret: string, issuedAt: Millis, token: string, now: Millis)
    requires now >= issuedAt + ResetTtlMs
    ensures !Accepts(Issue(secret, issuedAt, ResetTtlMs), token, now)
  {
  }
}
