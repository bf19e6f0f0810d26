/**
 * The library operations the service calls but does not implement: bcrypt,
 * the AES-256-CBC cipher keyed from the environment, `validator.isEmail`,
 * and RS256 signing and verification with the configured key pair. They are
 * passed in as one value so that nothing about them is taken for granted beyond what a
 * lemma states as a hypothesis.
 */
module Primitives {
  import opened Wrappers

  /** A user's identifier (the document's `id`). */
  type Id = nat

  /** The claims a token carries: only the user's id. */
  datatype Claims = Claims(id: Id)

  datatype Crypto = Crypto(
    /** `bcrypt.hash(data, rounds)`: the hash, or the library's error message. */
    hash: (string, nat) -> Result<string, string>,
    /** `bcrypt.compare(data, hash)`. */
    compare: (string, string) -> bool,
    /** The hex ciphertext that `createCipheriv('aes-256-cbc', key, iv)` yields. */
    encrypt: string -> string,
    /** Decryption of hex ciphertext, or the library's error message. */
    decrypt: string -> Result<string, string>,
    /** `validator.isEmail`. */
    isEmail: string -> bool,
    /** `jwt.sign(claims, privateKey, { algorithm: 'RS256', ... })`, or `None` when it throws. */
    sign: Claims -> Option<string>,
    /** `jwt.verify(token, publicKey)`: the claims, or `None` when it throws. */
    verify: string -> Option<Claims>)

  /** The bcrypt cost factor used when saving a user. */
  const SaltRounds: nat := 8

  predicate IsHexDigit(ch: char) {
    '0' <= ch <= '9' || 'a' <= ch <= 'f'
  }

  predicate IsHex(s: string) {
    forall i :: 0 <= i < |s| ==> IsHexDigit(s[i])
  }

  /** The cipher emits lower-case hex, as `cipher.update(..., 'hex')` does. */
  ghost predicate EmitsHex(c: Crypto) {
    forall s :: IsHex(c.encrypt(s))
  }

  /** Decryption undoes encryption (a property of AES with a fixed key and IV). */
  ghost predicate RoundTrips(c: Crypto) {
    forall s :: c.decrypt(c.encrypt(s)) == Success(s)
  }

  /** `bcrypt.compare` accepts a password against a hash of that same password. */
  ghost predicate HashMatches(c: Crypto) {
    forall p, h :: c.hash(p, SaltRounds) == Success(h) ==> c.compare(p, h)
  }
}
