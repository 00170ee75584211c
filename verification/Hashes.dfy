/** Block hashes as identifiers; the zero hash is that of no block. */
module Hashes {
  type Hash = nat

  const NO_HASH: Hash := 0
}
