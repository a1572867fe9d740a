/** The functions of SHA-256 on 32-bit words (FIPS 180-2, section 4.1.2), and as they are computed in words
    that are 64 bits wide, of which only the low halves mean anything. */
module ShaWords {
  type Word32 = bv32
  type Wide = bv64

  /** The low half of a wide word */
  function Low(x: Wide): Word32 {
    (x & 0xFFFF_FFFF) as bv32
  }

  // ----- FIPS 180-2 -----

  function Rotr(x: Word32, n: Word32): Word32
    requires 0 < n < 32
  {
    (x >> n) | (x << (32 - n))
  }

  /** Addition modulo 2^32 */
  function Add(x: Word32, y: Word32): Word32 {
    x + y
  }

  function Xor3(x: Word32, y: Word32, z: Word32): Word32 {
    x ^ y ^ z
  }

  function Shr(x: Word32, n: Word32): Word32
    requires 0 < n < 32
  {
    x >> n
  }

  function Ch(x: Word32, y: Word32, z: Word32): Word32 {
    (x & y) ^ (!x & z)
  }

  function Maj(x: Word32, y: Word32, z: Word32): Word32 {
    (x & y) ^ (x & z) ^ (y & z)
  }

  /** The functions written with capital sigmas */
  function BigSigma0(x: Word32): Word32 {
    Xor3(Rotr(x, 2), Rotr(x, 13), Rotr(x, 22))
  }

  function BigSigma1(x: Word32): Word32 {
    Xor3(Rotr(x, 6), Rotr(x, 11), Rotr(x, 25))
  }

  /** The functions written with small sigmas */
  function SmallSigma0(x: Word32): Word32 {
    Xor3(Rotr(x, 7), Rotr(x, 18), Shr(x, 3))
  }

  function SmallSigma1(x: Word32): Word32 {
    Xor3(Rotr(x, 17), Rotr(x, 19), Shr(x, 10))
  }

  // ----- The macros -----

  function SHR(x: Wide, n: Wide): Wide
    requires 0 < n < 32
  {
    (x & 0xFFFF_FFFF) >> n
  }

  function ROTR(x: Wide, n: Wide): Wide
    requires 0 < n < 32
  {
    ((x & 0xFFFF_FFFF) >> n) | (x << (32 - n))
  }

  function XOR3(x: Wide, y: Wide, z: Wide): Wide {
    x ^ y ^ z
  }

  /** Addition of wide words: the low half of the sum is the sum of the low halves. */
  function Plus(x: Wide, y: Wide): (s: Wide)
    ensures (s & 0xFFFF_FFFF) as bv32 == Add((x & 0xFFFF_FFFF) as bv32, (y & 0xFFFF_FFFF) as bv32)
  {
    x + y
  }

  function S0(x: Wide): Wide { XOR3(ROTR(x, 7), ROTR(x, 18), SHR(x, 3)) }
  function S1(x: Wide): Wide { XOR3(ROTR(x, 17), ROTR(x, 19), SHR(x, 10)) }
  function S2(x: Wide): Wide { XOR3(ROTR(x, 2), ROTR(x, 13), ROTR(x, 22)) }
  function S3(x: Wide): Wide { XOR3(ROTR(x, 6), ROTR(x, 11), ROTR(x, 25)) }
  function F0(x: Wide, y: Wide, z: Wide): Wide { (x & y) | (z & (x | y)) }
  function F1(x: Wide, y: Wide, z: Wide): Wide { z ^ (x & (y ^ z)) }

  // ----- Low halves -----

  /** Addition does not let the high halves in. */
  lemma LowPlus(x: Wide, y: Wide)
    ensures Low(Plus(x, y)) == Add(Low(x), Low(y))
  {
    hide Plus, Add;
  }

  lemma LowXor3(x: Wide, y: Wide, z: Wide)
    ensures Low(XOR3(x, y, z)) == Xor3(Low(x), Low(y), Low(z))
  {}

  lemma LowRotr(x: Wide, n: Wide)
    requires 0 < n < 32
    ensures Low(ROTR(x, n)) == Rotr(Low(x), n as bv32)
  {}

  lemma LowShr(x: Wide, n: Wide)
    requires 0 < n < 32
    ensures Low(SHR(x, n)) == Shr(Low(x), n as bv32)
  {}

  lemma LowS0(x: Wide)
    ensures Low(S0(x)) == SmallSigma0(Low(x))
  {
    hide Low, ROTR, SHR, Rotr, Shr, XOR3, Xor3;
    LowRotr(x, 7); LowRotr(x, 18); LowShr(x, 3); LowXor3(ROTR(x, 7), ROTR(x, 18), SHR(x, 3));
  }

  lemma LowS1(x: Wide)
    ensures Low(S1(x)) == SmallSigma1(Low(x))
  {
    hide Low, ROTR, SHR, Rotr, Shr, XOR3, Xor3;
    LowRotr(x, 17); LowRotr(x, 19); LowShr(x, 10); LowXor3(ROTR(x, 17), ROTR(x, 19), SHR(x, 10));
  }

  lemma LowS2(x: Wide)
    ensures Low(S2(x)) == BigSigma0(Low(x))
  {
    hide Low, ROTR, SHR, Rotr, Shr, XOR3, Xor3;
    LowRotr(x, 2); LowRotr(x, 13); LowRotr(x, 22); LowXor3(ROTR(x, 2), ROTR(x, 13), ROTR(x, 22));
  }

  lemma LowS3(x: Wide)
    ensures Low(S3(x)) == BigSigma1(Low(x))
  {
    hide Low, ROTR, SHR, Rotr, Shr, XOR3, Xor3;
    LowRotr(x, 6); LowRotr(x, 11); LowRotr(x, 25); LowXor3(ROTR(x, 6), ROTR(x, 11), ROTR(x, 25));
  }

  /** F0 is Maj. */
  lemma LowF0(x: Wide, y: Wide, z: Wide)
    ensures Low(F0(x, y, z)) == Maj(Low(x), Low(y), Low(z))
  {}

  /** F1 is Ch. */
  lemma LowF1(x: Wide, y: Wide, z: Wide)
    ensures Low(F1(x, y, z)) == Ch(Low(x), Low(y), Low(z))
  {}

  // ----- Bytes -----

  /** Four bytes, most significant first */
  function Get32(b: seq<bv8>, i: nat): Word32
    requires i + 4 <= |b|
  {
    ((b[i] as bv32) << 24) | ((b[i + 1] as bv32) << 16) | ((b[i + 2] as bv32) << 8) | (b[i + 3] as bv32)
  }

  /** GET_UINT32 */
  function GetWide(b: seq<bv8>, i: nat): Wide
    requires i + 4 <= |b|
  {
    ((b[i] as bv64) << 24) | ((b[i + 1] as bv64) << 16) | ((b[i + 2] as bv64) << 8) | (b[i + 3] as bv64)
  }

  lemma LowGet(b: seq<bv8>, i: nat)
    requires i + 4 <= |b|
    ensures Low(GetWide(b, i)) == Get32(b, i)
  {}

  function Bytes32(x: Word32): (s: seq<bv8>)
    ensures |s| == 4
  {
    [((x >> 24) & 0xFF) as bv8, ((x >> 16) & 0xFF) as bv8, ((x >> 8) & 0xFF) as bv8, (x & 0xFF) as bv8]
  }

  /** PUT_UINT32 */
  function BytesWide(x: Wide): (s: seq<bv8>)
    ensures |s| == 4
  {
    [((x >> 24) & 0xFF) as bv8, ((x >> 16) & 0xFF) as bv8, ((x >> 8) & 0xFF) as bv8, (x & 0xFF) as bv8]
  }

  lemma LowBytes(x: Wide)
    ensures BytesWide(x) == Bytes32(Low(x))
  {}
}
