/**
 * A streaming 64-bit hasher such as xxHash64, seen from outside: it is
 * created with a seed, accepts octets through `Write`, and `Finish` gives
 * the digest of everything written so far. The hash function itself is a
 * parameter of the model; only the octets fed to it are tracked.
 */
module Hashing {

  /** A seeded 64-bit hash of an octet string (the role xxHash64 plays). */
  type Digest64 = (bv64, seq<bv8>) -> bv64

  class Hasher {
    /** The hash function this hasher computes. */
    const hash: Digest64
    /** The seed it was created with. */
    const seed: bv64
    /** Every octet written so far, in order: the hasher's abstract state. */
    var fed: seq<bv8>

    /** `with_seed`: a fresh hasher that has seen nothing. */
    constructor WithSeed(hash: Digest64, seed: bv64)
      ensures this.hash == hash && this.seed == seed
      ensures fed == []
    {
      this.hash := hash;
      this.seed := seed;
      fed := [];
    }

    /** `Hasher::write`: feeds `bytes` after everything fed before. */
    method Write(bytes: seq<bv8>)
      modifies this
      ensures fed == old(fed) + bytes
    {
      fed := fed + bytes;
    }

    /** `Hasher::finish`: the digest of everything fed so far, however it was split. */
    function Finish(): bv64
      reads this
    {
      hash(seed, fed)
    }
  }
}
