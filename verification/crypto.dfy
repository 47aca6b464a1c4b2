/** Symbolic stand-ins for bcrypt and jsonwebtoken: what a hash or a token
    identifies, not how it is computed. */
module Crypto {

  /** A bcrypt digest: the password it was made from and the cost factor. It is
      a different type from `string`, so a stored digest is never the plaintext. */
  datatype PasswordHash = Digest(cost: nat, preimage: string)

  /** `bcrypt.hash(password, cost)`. */
  function Hash(password: string, cost: nat): (h: PasswordHash)
    ensures Matches(password, h)
    ensures h.cost == cost
  {
    Digest(cost, password)
  }

  /** `bcrypt.compare(password, hash)`. */
  predicate Matches(password: string, h: PasswordHash)
  {
    h.preimage == password
  }

  /** The payload `{id, name, email}` that a session token carries. */
  datatype Claims = Claims(id: string, name: string, email: string)

  /** A signed token: its claims and its lifetime in seconds. */
  datatype Token = Token(claims: Claims, expiresIn: nat)

  /** `expiresIn: "1h"`. */
  const OneHour: nat := 3600

  /** `jwt.sign(claims, secret, {expiresIn: "1h"})`. */
  function Sign(claims: Claims): (t: Token)
    ensures t.claims == claims && t.expiresIn == OneHour
  {
    Token(claims, OneHour)
  }

  /** The four outcomes of `jwt.verify`: the decoded claims, a
      `TokenExpiredError`, a `JsonWebTokenError` (malformed token or bad
      signature), or any other exception. */
  datatype VerifyResult =
    | Verified(claims: Claims)
    | Expired
    | Malformed
    | OtherFailure
}
