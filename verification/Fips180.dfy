/** SHA-256 as FIPS 180-4 defines it, on 32-bit words and whole messages. */
module Fips180 {

  type Byte = bv8
  type Word = bv32

  // ------------------------------------------- functions, section 4.1.2

  /** Addition modulo 2^32. */
  function Add(x: Word, y: Word): Word {
    x + y
  }

  function Shr(x: Word, n: Word): Word
    requires n <= 32
  {
    x >> n
  }

  function Rotr(x: Word, n: Word): Word
    requires n <= 32
  {
    (x >> n) | (x << (32 - n))
  }

  function Ch(x: Word, y: Word, z: Word): Word {
    (x & y) ^ (!x & z)
  }

  function Maj(x: Word, y: Word, z: Word): Word {
    (x & y) ^ (x & z) ^ (y & z)
  }

  function BigSigma0(x: Word): Word {
    Rotr(x, 2) ^ Rotr(x, 13) ^ Rotr(x, 22)
  }

  function BigSigma1(x: Word): Word {
    Rotr(x, 6) ^ Rotr(x, 11) ^ Rotr(x, 25)
  }

  function SmallSigma0(x: Word): Word {
    Rotr(x, 7) ^ Rotr(x, 18) ^ Shr(x, 3)
  }

  function SmallSigma1(x: Word): Word {
    Rotr(x, 17) ^ Rotr(x, 19) ^ Shr(x, 10)
  }

  // ------------------------------------- constants, sections 4.2.2 and 5.3.3

  /** The round constants, eight in a row. */
  function ConstantRow(c: nat): (r: seq<Word>)
    requires c < 8
    ensures |r| == 8
  {
    if c == 0 then
      [0x428A_2F98, 0x7137_4491, 0xB5C0_FBCF, 0xE9B5_DBA5, 0x3956_C25B, 0x59F1_11F1, 0x923F_82A4, 0xAB1C_5ED5]
    else if c == 1 then
      [0xD807_AA98, 0x1283_5B01, 0x2431_85BE, 0x550C_7DC3, 0x72BE_5D74, 0x80DE_B1FE, 0x9BDC_06A7, 0xC19B_F174]
    else if c == 2 then
      [0xE49B_69C1, 0xEFBE_4786, 0x0FC1_9DC6, 0x240C_A1CC, 0x2DE9_2C6F, 0x4A74_84AA, 0x5CB0_A9DC, 0x76F9_88DA]
    else if c == 3 then
      [0x983E_5152, 0xA831_C66D, 0xB003_27C8, 0xBF59_7FC7, 0xC6E0_0BF3, 0xD5A7_9147, 0x06CA_6351, 0x1429_2967]
    else if c == 4 then
      [0x27B7_0A85, 0x2E1B_2138, 0x4D2C_6DFC, 0x5338_0D13, 0x650A_7354, 0x766A_0ABB, 0x81C2_C92E, 0x9272_2C85]
    else if c == 5 then
      [0xA2BF_E8A1, 0xA81A_664B, 0xC24B_8B70, 0xC76C_51A3, 0xD192_E819, 0xD699_0624, 0xF40E_3585, 0x106A_A070]
    else if c == 6 then
      [0x19A4_C116, 0x1E37_6C08, 0x2748_774C, 0x34B0_BCB5, 0x391C_0CB3, 0x4ED8_AA4A, 0x5B9C_CA4F, 0x682E_6FF3]
    else
      [0x748F_82EE, 0x78A5_636F, 0x84C8_7814, 0x8CC7_0208, 0x90BE_FFFA, 0xA450_6CEB, 0xBEF9_A3F7, 0xC671_78F2]
  }

  function K(t: nat): Word
    requires t < 64
  {
    ConstantRow(t / 8)[t % 8]
  }

  /** The primes up to 311, eight in a row. */
  function PrimeRow(c: nat): (r: seq<nat>)
    requires c < 8
    ensures |r| == 8
  {
    if c == 0 then [2, 3, 5, 7, 11, 13, 17, 19]
    else if c == 1 then [23, 29, 31, 37, 41, 43, 47, 53]
    else if c == 2 then [59, 61, 67, 71, 73, 79, 83, 89]
    else if c == 3 then [97, 101, 103, 107, 109, 113, 127, 131]
    else if c == 4 then [137, 139, 149, 151, 157, 163, 167, 173]
    else if c == 5 then [179, 181, 191, 193, 197, 199, 211, 223]
    else if c == 6 then [227, 229, 233, 239, 241, 251, 257, 263]
    else [269, 271, 277, 281, 283, 293, 307, 311]
  }

  function Prime(t: nat): nat
    requires t < 64
  {
    PrimeRow(t / 8)[t % 8]
  }

  const INITIAL := Hash(
    0x6A09_E667, 0xBB67_AE85, 0x3C6E_F372, 0xA54F_F53A,
    0x510E_527F, 0x9B05_688C, 0x1F83_D9AB, 0x5BE0_CD19)

  /** k is the first 32 bits of the fractional part of the cube root of p. */
  ghost predicate IsCubeRootFraction(k: Word, p: nat) {
    exists r: nat :: CubeRootBelow(r, p) && k as nat == r % 0x1_0000_0000
  }

  /** r is the cube root of p times 2^32, rounded down. */
  ghost predicate CubeRootBelow(r: nat, p: nat) {
    r * r * r <= p * 0x1_0000_0000 * 0x1_0000_0000 * 0x1_0000_0000 < (r + 1) * (r + 1) * (r + 1)
  }

  /** k is the first 32 bits of the fractional part of the square root of p. */
  ghost predicate IsSquareRootFraction(k: Word, p: nat) {
    exists r: nat :: SquareRootBelow(r, p) && k as nat == r % 0x1_0000_0000
  }

  /** r is the square root of p times 2^32, rounded down. */
  ghost predicate SquareRootBelow(r: nat, p: nat) {
    r * r <= p * 0x1_0000_0000 * 0x1_0000_0000 < (r + 1) * (r + 1)
  }

  // ------------------------------------------------ hash computation, 6.2.2

  /** Eight words: a hash value, or the working variables a .. h. */
  datatype Hash = Hash(a: Word, b: Word, c: Word, d: Word, e: Word, f: Word, g: Word, h: Word)

  /** Four bytes, most significant first. */
  function Pack(b0: Byte, b1: Byte, b2: Byte, b3: Byte): Word {
    ((b0 as Word) << 24) | ((b1 as Word) << 16) | ((b2 as Word) << 8) | (b3 as Word)
  }

  function WordAt(block: seq<Byte>, t: nat): Word
    requires |block| == 64 && t < 16
  {
    Pack(block[4 * t], block[4 * t + 1], block[4 * t + 2], block[4 * t + 3])
  }

  function Schedule(block: seq<Byte>, t: nat): Word
    requires |block| == 64 && t < 64
  {
    if t < 16 then WordAt(block, t)
    else NextWord(Schedule(block, t - 2), Schedule(block, t - 7), Schedule(block, t - 15), Schedule(block, t - 16))
  }

  function NextWord(w2: Word, w7: Word, w15: Word, w16: Word): Word {
    Add(Add(Add(SmallSigma1(w2), w7), SmallSigma0(w15)), w16)
  }

  function Temp1(e: Word, f: Word, g: Word, h: Word, k: Word, w: Word): Word {
    Add(Add(Add(Add(h, BigSigma1(e)), Ch(e, f, g)), k), w)
  }

  function Temp2(a: Word, b: Word, c: Word): Word {
    Add(BigSigma0(a), Maj(a, b, c))
  }

  function Round(v: Hash, k: Word, w: Word): Hash {
    var t1, t2 := Temp1(v.e, v.f, v.g, v.h, k, w), Temp2(v.a, v.b, v.c);
    Hash(Add(t1, t2), v.a, v.b, v.c, Add(v.d, t1), v.e, v.f, v.g)
  }

  function Rounds(v: Hash, block: seq<Byte>, t: nat): Hash
    requires |block| == 64 && t <= 64
  {
    if t == 0 then v else Round(Rounds(v, block, t - 1), K(t - 1), Schedule(block, t - 1))
  }

  function Plus(u: Hash, v: Hash): Hash {
    Hash(Add(u.a, v.a), Add(u.b, v.b), Add(u.c, v.c), Add(u.d, v.d),
         Add(u.e, v.e), Add(u.f, v.f), Add(u.g, v.g), Add(u.h, v.h))
  }

  function Compress(v: Hash, block: seq<Byte>): Hash
    requires |block| == 64
  {
    Plus(v, Rounds(v, block, 64))
  }

  /** The hash value after the first n blocks of m. */
  function Blocks(m: seq<Byte>, n: nat): Hash
    requires 64 * n <= |m|
  {
    if n == 0 then INITIAL else Compress(Blocks(m, n - 1), m[64 * (n - 1)..64 * n])
  }

  // --------------------------------------------------------- padding, 5.1.1

  predicate LeavesEight(length: nat, zeros: nat) {
    (length + 1 + zeros) % 64 == 56
  }

  /** How many zero bytes follow the 0x80. */
  function ZeroBytes(length: nat): (z: nat)
    ensures z < 64
  {
    (119 - length % 64) % 64
  }

  /** It is the smallest number that leaves eight bytes in the last block. */
  lemma ZeroBytesIsLeast(length: nat, zeros: nat)
    ensures LeavesEight(length, ZeroBytes(length))
    ensures LeavesEight(length, zeros) ==> ZeroBytes(length) <= zeros
  {
    var q, r := length / 64, length % 64;
    if r < 56 {
      assert length + 1 + ZeroBytes(length) == 64 * q + 56;
    } else {
      assert length + 1 + ZeroBytes(length) == 64 * (q + 1) + 56;
    }
  }

  function ByteOf(n: nat): Byte {
    (n % 256) as Byte
  }

  /** n as eight bytes, most significant first. */
  function LengthBytes(n: nat): (s: seq<Byte>)
    ensures |s| == 8
  {
    [ByteOf(n / 0x100_0000_0000_0000), ByteOf(n / 0x1_0000_0000_0000),
     ByteOf(n / 0x100_0000_0000), ByteOf(n / 0x1_0000_0000),
     ByteOf(n / 0x100_0000), ByteOf(n / 0x1_0000), ByteOf(n / 0x100), ByteOf(n)]
  }

  function Padding(length: nat): (s: seq<Byte>)
    ensures |s| == 9 + ZeroBytes(length)
  {
    [0x80] + seq(ZeroBytes(length), i => 0) + LengthBytes(8 * length)
  }

  function WordBytes(w: Word): (s: seq<Byte>)
    ensures |s| == 4
  {
    [((w >> 24) & 0xFF) as Byte, ((w >> 16) & 0xFF) as Byte, ((w >> 8) & 0xFF) as Byte, (w & 0xFF) as Byte]
  }

  function Bytes(v: Hash): (s: seq<Byte>)
    ensures |s| == 32
  {
    WordBytes(v.a) + WordBytes(v.b) + WordBytes(v.c) + WordBytes(v.d)
      + WordBytes(v.e) + WordBytes(v.f) + WordBytes(v.g) + WordBytes(v.h)
  }

  /** The message digest. */
  function Sha256(m: seq<Byte>): (digest: seq<Byte>)
    ensures |digest| == 32
  {
    var p := m + Padding(|m|);
    Bytes(Blocks(p, |p| / 64))
  }

  lemma SliceOfPrefix(m: seq<Byte>, x: seq<Byte>, lo: nat, hi: nat)
    requires lo <= hi <= |m|
    ensures (m + x)[lo..hi] == m[lo..hi]
  {}

  lemma {:induction false} BlocksOfPrefix(m: seq<Byte>, x: seq<Byte>, n: nat)
    requires 64 * n <= |m|
    ensures Blocks(m + x, n) == Blocks(m, n)
  {
    hide Compress;
    if n > 0 {
      BlocksOfPrefix(m, x, n - 1);
      SliceOfPrefix(m, x, 64 * (n - 1), 64 * n);
    }
  }
}
