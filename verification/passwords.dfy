/** The Spring `PasswordEncoder` both services are given. Its hashing algorithm
    is not part of this model: an encoder is any pair of an `encode` function
    and a `matches` check, and the one property the services rely on is that a
    password matches its own encoding. */
module Passwords {

  type Hash = string

  datatype PasswordEncoder = PasswordEncoder(encode: string -> Hash, matches: (string, Hash) -> bool)

  /** `matches(p, encode(p))` holds for every password. */
  ghost predicate Sound(enc: PasswordEncoder)
  {
    forall p :: enc.matches(p, enc.encode(p))
  }
}
