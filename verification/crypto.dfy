/** The two cryptographic libraries the routes call, kept abstract: bcrypt's
    salted hash and compare, and the JSON Web Token (RFC 7519) signer and
    verifier keyed by the process-wide secret. Each is a pair of functions
    passed in by the caller; the contract predicates state what the rest of
    the model assumes about them. */
module Crypto {
  import opened Common

  /** The claims login puts into a token, copied from the user record. The
      id is the record's stored id text. */
  datatype Claims = Claims(id: string, username: string, role: string, email: string, fullName: string)

  /** Tokens are signed with `expiresIn: '24h'`, in seconds. */
  const TokenLifetime: int := 86400

  /** bcrypt: `hash(plaintext, salt)` and `compare(plaintext, digest)`. The
      salt stands for the random salt `bcrypt.hash(password, 10)` draws. */
  datatype Hasher = Hasher(hash: (string, nat) -> string, compare: (string, string) -> bool)

  /** A digest is never empty and always matches the password it was made from. */
  ghost predicate HasherContract(h: Hasher) {
    forall password, salt ::
      h.hash(password, salt) != "" && h.compare(password, h.hash(password, salt))
  }

  /** jsonwebtoken: `sign(claims, issuedAt)` and `verify(token, now)`, which
      yields the decoded claims or nothing (bad signature, malformed or
      expired token); times are in seconds. */
  datatype Signer = Signer(sign: (Claims, int) -> string, verify: (string, int) -> Option<Claims>)

  /** A signed token decodes to its claims until 24 hours after issue and is
      refused from then on; it is a non-empty text without spaces. */
  ghost predicate SignerContract(s: Signer) {
    && (forall c, issued, now :: now < issued + TokenLifetime ==> s.verify(s.sign(c, issued), now) == Some(c))
    && (forall c, issued, now :: issued + TokenLifetime <= now ==> s.verify(s.sign(c, issued), now) == None)
    && (forall c, issued :: s.sign(c, issued) != "" && ' ' !in s.sign(c, issued))
  }
}
