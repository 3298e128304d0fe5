/** Fixed-width hashes as byte strings: uint256 and the 20-byte Hash160 digest. */
module Hashes {
  import opened ScriptNumCodec

  type Hash256 = h: seq<Byte> | |h| == 32 witness ZeroHash256
  type Hash160 = h: seq<Byte> | |h| == 20 witness seq(20, _ => 0)

  /** uint256(0), the all-zero hash. */
  const ZeroHash256: seq<Byte> := seq(32, _ => 0)
}
