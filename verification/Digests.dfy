module Digests {
  /** SHA-256 without collisions: the digest of some bytes remembers them. */
  datatype Digest = Digest(of: string)
}
