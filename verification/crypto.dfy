/** The primitives the handlers call but whose internals are not modelled:
    bcrypt and the parsing half of `jwt.verify`. */
module Crypto {
  import opened Values
  import opened Models
  import opened Tokens

  /** `bcrypt.hash(password, 10)`: the cost factor. */
  const SaltRounds: nat := 10

  /** Uninterpreted primitives.
      - `hash(plaintext, rounds, salt)`: bcrypt; the random salt is an input.
      - `compare(plaintext, digest)`: `bcrypt.compare`.
      - `decode(cookie)`: reading a cookie string back as a signed token;
        `None` for anything malformed or with a bad signature. */
  datatype Primitives = Primitives(
    hash: (string, nat, nat) -> Digest,
    compare: (string, Digest) -> bool,
    decode: string -> Option<Token>)

  /** A hasher whose `compare` accepts the password a digest was made from. */
  ghost predicate Sound(p: Primitives) {
    forall pw: string, salt: nat :: p.compare(pw, p.hash(pw, SaltRounds, salt))
  }
}
