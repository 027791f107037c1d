/** A stand-in for `bcryptjs`: `hash(password, rounds)` and
    `compare(password, hash)`.  A stored hash keeps its cost, its salt and
    a checksum of salt and password, as a bcrypt string does; the salt is
    random in the library and a parameter here. */
module Bcrypt {
  import Digest

  datatype Hashed = Hashed(cost: nat, salt: string, checksum: nat)

  /** `bcrypt.hash(password, cost)` with the salt it happened to draw. */
  function Hash(password: string, cost: nat, salt: string): Hashed {
    Hashed(cost, salt, Digest.Checksum(salt + password))
  }

  /** `bcrypt.compare(password, hashed)`. */
  predicate Compare(password: string, hashed: Hashed) {
    hashed.checksum == Digest.Checksum(hashed.salt + password)
  }

  /** A password matches its own hash, whatever the salt and cost. */
  lemma CompareHash(password: string, cost: nat, salt: string)
    ensures Compare(password, Hash(password, cost, salt))
  {
  }
}
