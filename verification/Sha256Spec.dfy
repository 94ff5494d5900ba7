/** SHA-256 as FIPS 180-2 defines it (sections 4.1.2, 4.2.2, 5 and 6.2). */
module Sha256Spec {

  // ---- functions on words (section 4.1.2) ---------------------------------------

  function Ch(x: bv32, y: bv32, z: bv32): bv32 {
    (x & y) ^ (!x & z)
  }

  function Maj(x: bv32, y: bv32, z: bv32): bv32 {
    (x & y) ^ (x & z) ^ (y & z)
  }

  function BigSigma0(x: bv32): bv32 {
    x.RotateRight(2) ^ x.RotateRight(13) ^ x.RotateRight(22)
  }

  function BigSigma1(x: bv32): bv32 {
    x.RotateRight(6) ^ x.RotateRight(11) ^ x.RotateRight(25)
  }

  function SmallSigma0(x: bv32): bv32 {
    x.RotateRight(7) ^ x.RotateRight(18) ^ (x >> 3)
  }

  function SmallSigma1(x: bv32): bv32 {
    x.RotateRight(17) ^ x.RotateRight(19) ^ (x >> 10)
  }

  function Plus(x: bv32, y: bv32): bv32 {
    x + y
  }

  /** The constants of section 4.2.2. */
  function K(t: nat): bv32
    requires t < 64
  {
    if t < 8 then
      [0x428A2F98, 0x71374491, 0xB5C0FBCF, 0xE9B5DBA5, 0x3956C25B, 0x59F111F1, 0x923F82A4, 0xAB1C5ED5][t]
    else if t < 16 then
      [0xD807AA98, 0x12835B01, 0x243185BE, 0x550C7DC3, 0x72BE5D74, 0x80DEB1FE, 0x9BDC06A7, 0xC19BF174][t - 8]
    else if t < 24 then
      [0xE49B69C1, 0xEFBE4786, 0x0FC19DC6, 0x240CA1CC, 0x2DE92C6F, 0x4A7484AA, 0x5CB0A9DC, 0x76F988DA][t - 16]
    else if t < 32 then
      [0x983E5152, 0xA831C66D, 0xB00327C8, 0xBF597FC7, 0xC6E00BF3, 0xD5A79147, 0x06CA6351, 0x14292967][t - 24]
    else if t < 40 then
      [0x27B70A85, 0x2E1B2138, 0x4D2C6DFC, 0x53380D13, 0x650A7354, 0x766A0ABB, 0x81C2C92E, 0x92722C85][t - 32]
    else if t < 48 then
      [0xA2BFE8A1, 0xA81A664B, 0xC24B8B70, 0xC76C51A3, 0xD192E819, 0xD6990624, 0xF40E3585, 0x106AA070][t - 40]
    else if t < 56 then
      [0x19A4C116, 0x1E376C08, 0x2748774C, 0x34B0BCB5, 0x391C0CB3, 0x4ED8AA4A, 0x5B9CCA4F, 0x682E6FF3][t - 48]
    else
      [0x748F82EE, 0x78A5636F, 0x84C87814, 0x8CC70208, 0x90BEFFFA, 0xA4506CEB, 0xBEF9A3F7, 0xC67178F2][t - 56]
  }

  // ---- the compression of a block (section 6.2.2) ---------------------------------

  /** The working variables, or a hash value. */
  datatype Hash = Hash(a: bv32, b: bv32, c: bv32, d: bv32, e: bv32, f: bv32, g: bv32, h: bv32)

  function BigEndian(b: seq<bv8>, i: nat): bv32
    requires i + 4 <= |b|
  {
    ((b[i] as bv32) << 24) | ((b[i + 1] as bv32) << 16) | ((b[i + 2] as bv32) << 8) | (b[i + 3] as bv32)
  }

  /** Word `t` of the message schedule. */
  function W(block: seq<bv8>, t: nat): bv32
    requires |block| == 64
  {
    if t < 16 then BigEndian(block, 4 * t)
    else Plus(Plus(Plus(SmallSigma1(W(block, t - 2)), W(block, t - 7)), SmallSigma0(W(block, t - 15))),
      W(block, t - 16))
  }

  function Temp1(r: Hash, k: bv32, w: bv32): bv32 {
    Plus(Plus(Plus(Plus(r.h, BigSigma1(r.e)), Ch(r.e, r.f, r.g)), k), w)
  }

  function Temp2(r: Hash): bv32 {
    Plus(BigSigma0(r.a), Maj(r.a, r.b, r.c))
  }

  function Round(r: Hash, k: bv32, w: bv32): Hash {
    Hash(Plus(Temp1(r, k, w), Temp2(r)), r.a, r.b, r.c, Plus(r.d, Temp1(r, k, w)), r.e, r.f, r.g)
  }

  function Rounds(r: Hash, block: seq<bv8>, n: nat): Hash
    requires |block| == 64 && n <= 64
  {
    if n == 0 then r else Round(Rounds(r, block, n - 1), K(n - 1), W(block, n - 1))
  }

  function AddHash(x: Hash, y: Hash): Hash {
    Hash(Plus(x.a, y.a), Plus(x.b, y.b), Plus(x.c, y.c), Plus(x.d, y.d),
         Plus(x.e, y.e), Plus(x.f, y.f), Plus(x.g, y.g), Plus(x.h, y.h))
  }

  function Compress(h: Hash, block: seq<bv8>): Hash
    requires |block| == 64
  {
    AddHash(h, Rounds(h, block, 64))
  }

  // ---- whole messages (sections 5.1.1, 5.3.2 and 6.2) --------------------------------

  const INITIAL: Hash := Hash(0x6A09E667, 0xBB67AE85, 0x3C6EF372, 0xA54FF53A, 0x510E527F, 0x9B05688C, 0x1F83D9AB,
    0x5BE0CD19)

  /** The hash value after all blocks of `m`. */
  function Blocks(m: seq<bv8>): Hash
    requires |m| % 64 == 0
  {
    if m == [] then INITIAL else Compress(Blocks(m[..|m| - 64]), m[|m| - 64..])
  }

  function Zeros(n: nat): (r: seq<bv8>)
    ensures |r| == n
  {
    seq(n, i => 0)
  }

  /** The zero bytes between the first padding byte and the length. */
  function PaddingZeros(length: nat): (k: nat)
    ensures k < 64 && (length + 1 + k) % 64 == 56
  {
    PaddingFits(length, length % 64);
    (119 - length % 64) % 64
  }

  lemma PaddingFits(length: nat, rest: nat)
    requires rest == length % 64
    ensures (length + 1 + (119 - rest) % 64) % 64 == 56
  {
  }

  /** A number in big-endian order, modulo 256 to the number of bytes. */
  function NumberBytes(n: nat, count: nat): (r: seq<bv8>)
    ensures |r| == count
  {
    if count == 0 then [] else NumberBytes(n / 256, count - 1) + [(n % 256) as bv8]
  }

  lemma PaddedLength(length: nat, k: nat)
    requires (length + 1 + k) % 64 == 56
    ensures (length + 1 + k + 8) % 64 == 0
  {
  }

  function Padded(m: seq<bv8>): (r: seq<bv8>)
    ensures |r| % 64 == 0
  {
    PaddedLength(|m|, PaddingZeros(|m|));
    m + [0x80] + Zeros(PaddingZeros(|m|)) + NumberBytes(8 * |m|, 8)
  }

  /** Byte `k` of a number, the lowest one first. */
  function ByteOf(n: nat, k: nat): (r: nat)
    ensures r < 256
  {
    if k == 0 then n % 256 else ByteOf(n / 256, k - 1)
  }

  lemma {:induction false} NumberBytesAre(n: nat, count: nat, k: nat)
    requires k < count
    ensures NumberBytes(n, count)[count - 1 - k] == ByteOf(n, k) as bv8
  {
    if k > 0 { NumberBytesAre(n / 256, count - 1, k - 1); }
  }

  /** The padding of a message: a byte with the top bit, then fewer than 64 zeros, then the length in bits modulo 2^64,
      highest byte first, up to a multiple of 64 bytes. */
  lemma PaddingIs(m: seq<bv8>)
    ensures var p := Padded(m);
            |p| % 64 == 0 && |m| + 9 <= |p| < |m| + 73 && p[..|m|] == m && p[|m|] == 0x80
            && (forall k :: |m| < k < |p| - 8 ==> p[k] == 0)
            && forall k :: 0 <= k < 8 ==> p[|p| - 1 - k] == ByteOf(8 * |m|, k) as bv8
  {
    forall k | 0 <= k < 8 ensures NumberBytes(8 * |m|, 8)[7 - k] == ByteOf(8 * |m|, k) as bv8 {
      NumberBytesAre(8 * |m|, 8, k);
    }
    hide NumberBytes;
    hide ByteOf;
  }

  function WordBytes(x: bv32): (r: seq<bv8>)
    ensures |r| == 4
  {
    [((x >> 24) & 0xFF) as bv8, ((x >> 16) & 0xFF) as bv8, ((x >> 8) & 0xFF) as bv8, (x & 0xFF) as bv8]
  }

  function HashBytes(h: Hash): (r: seq<bv8>)
    ensures |r| == 32
  {
    WordBytes(h.a) + WordBytes(h.b) + WordBytes(h.c) + WordBytes(h.d)
    + WordBytes(h.e) + WordBytes(h.f) + WordBytes(h.g) + WordBytes(h.h)
  }

  /** The message digest. */
  function Sha256(m: seq<bv8>): (r: seq<bv8>)
    ensures |r| == 32
  {
    HashBytes(Blocks(Padded(m)))
  }

  // ---- blocks one after the other --------------------------------------------------------

  lemma BlocksAppended(m: seq<bv8>, block: seq<bv8>)
    requires |m| % 64 == 0 && |block| == 64
    ensures Blocks(m + block) == Compress(Blocks(m), block)
  {
    var r := m + block;
    assert r[..|r| - 64] == m && r[|r| - 64..] == block;
  }
}
