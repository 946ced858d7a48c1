/**
 * Seed derivation of `set_seed_with_string`: the MD5 digest of the string,
 * read as a hexadecimal integer, reduced modulo 10^8. The digest itself is a
 * parameter; only the reduction is modelled.
 */
module Seeding {

  /** The modulus applied to the digest. */
  const SeedModulus: nat := 100_000_000

  /** numpy's legacy `np.random.seed` accepts integers in [0, 2^32). */
  const NumpySeedBound: nat := 0x1_0000_0000

  /**
   * The seed for `s`: below 10^8 whatever the digest, and congruent to the
   * digest modulo 10^8.
   */
  function SeedFromString(md5: string -> nat, s: string): (seed: nat)
    ensures seed < SeedModulus
    ensures (md5(s) - seed) % SeedModulus == 0
  {
    md5(s) % SeedModulus
  }

  /** Every derived seed is one that `np.random.seed` accepts. */
  lemma SeedAcceptedByNumpy(md5: string -> nat, s: string)
    ensures SeedFromString(md5, s) < NumpySeedBound
  {
  }
}
