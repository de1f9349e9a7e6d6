/**
  The password hasher (werkzeug's `generate_password_hash` / `check_password_hash`),
  kept abstract. A digest is a symbolic term: it records the salt the hasher drew
  and the password it was computed from, and nothing reads the password back out
  of it except `Check`, which stands for verification. The salt is the hasher's
  randomness and is supplied by the caller, so hashing the same password twice
  with different salts gives different digests.
*/
module Passwords {

  type Salt = nat

  datatype Digest = Digest(salt: Salt, secret: string)

  /** The digest stored in place of a password. */
  function Hash(salt: Salt, password: string): Digest
  {
    Digest(salt, password)
  }

  /** Verification of a password against a stored digest. */
  predicate Check(d: Digest, password: string)
  {
    d.secret == password
  }

  /** A digest verifies the password it was made from, whatever the salt. */
  lemma CheckAcceptsHashed(salt: Salt, password: string)
    ensures Check(Hash(salt, password), password)
  {
  }

  /** A digest rejects every other password (the model assumes no collisions). */
  lemma CheckRejectsOthers(salt: Salt, password: string, other: string)
    requires other != password
    ensures !Check(Hash(salt, password), other)
  {
  }
}
