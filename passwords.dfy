/**
 * werkzeug's `generate_password_hash` / `check_password_hash`, reduced to
 * what the handlers rely on: checking a hash against a candidate succeeds
 * exactly when the candidate is the hashed secret.
 */
module Passwords {

  /** A stored pbkdf2 hash; the secret it was made from is kept only to define `Check`. */
  datatype Digest = Pbkdf2(secret: string)

  function Hash(secret: string): Digest {
    Pbkdf2(secret)
  }

  predicate Check(d: Digest, candidate: string) {
    d.secret == candidate
  }

  /** `check_password_hash(generate_password_hash(x), y)` holds iff x == y. */
  lemma CheckHash(x: string, y: string)
    ensures Check(Hash(x), y) <==> x == y
  {
  }
}
