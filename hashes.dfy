/**
 * Digests of hashlib. The hash functions themselves are external: the model takes them as
 * parameters and relies only on their being functions (deterministic) with fixed-length hex output.
 */
module Hashes {
  /** A SHA-256 hexdigest (FIPS 180-4): 64 characters. */
  type Hex64 = s: string | |s| == 64 witness seq(64, _ => '0')

  /** An MD5 hexdigest: 32 characters. */
  type Hex32 = s: string | |s| == 32 witness seq(32, _ => '0')

  type Sha256 = string -> Hex64
  type Md5 = string -> Hex32
}
