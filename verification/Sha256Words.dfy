/** The SHA-256 code: 64-bit words whose upper halves are never cleared, updated in
    place, proved against the 32-bit standard. */
module Sha256Words {
  import opened Fips180

  /** `unsigned long int`: 64 bits. Only the lower 32 carry meaning. */
  type Long = bv64

  function Low(x: Long): Word {
    (x & 0xFFFF_FFFF) as Word
  }

  function Lows(a: Long, b: Long, c: Long, d: Long, e: Long, f: Long, g: Long, h: Long): Hash {
    Hash(Low(a), Low(b), Low(c), Low(d), Low(e), Low(f), Low(g), Low(h))
  }

  // --------------------------------------------------------------- macros

  // SHR, ROTR, S0 to S3, F0, F1, P and R of the source, after the functions of the
  // standard that they stand for.

  function LongShr(x: Long, n: Long): Long
    requires n <= 32
  {
    (x & 0xFFFF_FFFF) >> n
  }

  function LongRotr(x: Long, n: Long): Long
    requires n <= 32
  {
    LongShr(x, n) | (x << (32 - n))
  }

  function LongSmallSigma0(x: Long): Long {
    LongRotr(x, 7) ^ LongRotr(x, 18) ^ LongShr(x, 3)
  }

  function LongSmallSigma1(x: Long): Long {
    LongRotr(x, 17) ^ LongRotr(x, 19) ^ LongShr(x, 10)
  }

  function LongBigSigma0(x: Long): Long {
    LongRotr(x, 2) ^ LongRotr(x, 13) ^ LongRotr(x, 22)
  }

  function LongBigSigma1(x: Long): Long {
    LongRotr(x, 6) ^ LongRotr(x, 11) ^ LongRotr(x, 25)
  }

  function LongMaj(x: Long, y: Long, z: Long): Long {
    (x & y) | (z & (x | y))
  }

  function LongCh(x: Long, y: Long, z: Long): Long {
    z ^ (x & (y ^ z))
  }

  function GetUint32(b: seq<Byte>, i: nat): Long
    requires i + 3 < |b|
  {
    LongPack(b[i], b[i + 1], b[i + 2], b[i + 3])
  }

  function LongPack(b0: Byte, b1: Byte, b2: Byte, b3: Byte): Long {
    ((b0 as Long) << 24) | ((b1 as Long) << 16) | ((b2 as Long) << 8) | (b3 as Long)
  }

  function PutUint32(n: Long): (s: seq<Byte>)
    ensures |s| == 4
  {
    [((n >> 24) & 0xFF) as Byte, ((n >> 16) & 0xFF) as Byte, ((n >> 8) & 0xFF) as Byte, (n & 0xFF) as Byte]
  }

  /** `+` on the 64-bit type. */
  function LongAdd(x: Long, y: Long): Long {
    x + y
  }

  /** temp1 of the round macro. */
  function LongTemp1(e: Long, f: Long, g: Long, h: Long, k: Long, x: Long): Long {
    LongAdd(LongAdd(LongAdd(LongAdd(h, LongBigSigma1(e)), LongCh(e, f, g)), k), x)
  }

  /** temp2 of the round macro. */
  function LongTemp2(a: Long, b: Long, c: Long): Long {
    LongAdd(LongBigSigma0(a), LongMaj(a, b, c))
  }

  /** The round macro: the new values of the registers in roles d and h. */
  function LongRound(a: Long, b: Long, c: Long, d: Long, e: Long, f: Long, g: Long, h: Long, x: Long, k: Long)
    : (Long, Long)
  {
    var temp1 := LongTemp1(e, f, g, h, k, x);
    var temp2 := LongTemp2(a, b, c);
    (LongAdd(d, temp1), LongAdd(temp1, temp2))
  }

  /** The schedule macro: W[t] from W[t-2], W[t-7], W[t-15] and W[t-16]. */
  function LongNextWord(w2: Long, w7: Long, w15: Long, w16: Long): Long {
    LongAdd(LongAdd(LongAdd(LongSmallSigma1(w2), w7), LongSmallSigma0(w15)), w16)
  }

  // ------------------------------------------- macros against the standard

  // Each lemma below unfolds one definition at a time, so that every step is either
  // a question about bits alone or plain equational reasoning.

  lemma LowOfPlus(x: Long, y: Long)
    ensures Low(x + y) == ((x & 0xFFFF_FFFF) as Word) + ((y & 0xFFFF_FFFF) as Word)
  {}

  lemma LowOfSum(x: Long, y: Long)
    ensures Low(x + y) == Add((x & 0xFFFF_FFFF) as Word, (y & 0xFFFF_FFFF) as Word)
  {
    hide Low;
    LowOfPlus(x, y);
  }

  lemma LowOfSumAdds(x: Long, y: Long)
    ensures Low(x + y) == Add(Low(x), Low(y))
  {
    hide Add;
    LowOfSum(x, y);
  }

  /** Addition carries only upwards, so the upper halves never reach the lower. */
  lemma LowOfAdd(x: Long, y: Long)
    ensures Low(LongAdd(x, y)) == Add(Low(x), Low(y))
  {
    hide Low, Add;
    LowOfSumAdds(x, y);
  }

  lemma RotateBits2(x: Long)
    ensures Low(((x & 0xFFFF_FFFF) >> (2 as Long)) | (x << (30 as Long))) == Rotr(Low(x), 2)
  {}

  lemma Rotate2(x: Long)
    ensures Low(LongRotr(x, 2)) == Rotr(Low(x), 2)
  {
    hide Low, Rotr;
    RotateBits2(x);
  }

  lemma RotateBits6(x: Long)
    ensures Low(((x & 0xFFFF_FFFF) >> (6 as Long)) | (x << (26 as Long))) == Rotr(Low(x), 6)
  {}

  lemma Rotate6(x: Long)
    ensures Low(LongRotr(x, 6)) == Rotr(Low(x), 6)
  {
    hide Low, Rotr;
    RotateBits6(x);
  }

  lemma RotateBits7(x: Long)
    ensures Low(((x & 0xFFFF_FFFF) >> (7 as Long)) | (x << (25 as Long))) == Rotr(Low(x), 7)
  {}

  lemma Rotate7(x: Long)
    ensures Low(LongRotr(x, 7)) == Rotr(Low(x), 7)
  {
    hide Low, Rotr;
    RotateBits7(x);
  }

  lemma RotateBits11(x: Long)
    ensures Low(((x & 0xFFFF_FFFF) >> (11 as Long)) | (x << (21 as Long))) == Rotr(Low(x), 11)
  {}

  lemma Rotate11(x: Long)
    ensures Low(LongRotr(x, 11)) == Rotr(Low(x), 11)
  {
    hide Low, Rotr;
    RotateBits11(x);
  }

  lemma RotateBits13(x: Long)
    ensures Low(((x & 0xFFFF_FFFF) >> (13 as Long)) | (x << (19 as Long))) == Rotr(Low(x), 13)
  {}

  lemma Rotate13(x: Long)
    ensures Low(LongRotr(x, 13)) == Rotr(Low(x), 13)
  {
    hide Low, Rotr;
    RotateBits13(x);
  }

  lemma RotateBits17(x: Long)
    ensures Low(((x & 0xFFFF_FFFF) >> (17 as Long)) | (x << (15 as Long))) == Rotr(Low(x), 17)
  {}

  lemma Rotate17(x: Long)
    ensures Low(LongRotr(x, 17)) == Rotr(Low(x), 17)
  {
    hide Low, Rotr;
    RotateBits17(x);
  }

  lemma RotateBits18(x: Long)
    ensures Low(((x & 0xFFFF_FFFF) >> (18 as Long)) | (x << (14 as Long))) == Rotr(Low(x), 18)
  {}

  lemma Rotate18(x: Long)
    ensures Low(LongRotr(x, 18)) == Rotr(Low(x), 18)
  {
    hide Low, Rotr;
    RotateBits18(x);
  }

  lemma RotateBits19(x: Long)
    ensures Low(((x & 0xFFFF_FFFF) >> (19 as Long)) | (x << (13 as Long))) == Rotr(Low(x), 19)
  {}

  lemma Rotate19(x: Long)
    ensures Low(LongRotr(x, 19)) == Rotr(Low(x), 19)
  {
    hide Low, Rotr;
    RotateBits19(x);
  }

  lemma RotateBits22(x: Long)
    ensures Low(((x & 0xFFFF_FFFF) >> (22 as Long)) | (x << (10 as Long))) == Rotr(Low(x), 22)
  {}

  lemma Rotate22(x: Long)
    ensures Low(LongRotr(x, 22)) == Rotr(Low(x), 22)
  {
    hide Low, Rotr;
    RotateBits22(x);
  }

  lemma RotateBits25(x: Long)
    ensures Low(((x & 0xFFFF_FFFF) >> (25 as Long)) | (x << (7 as Long))) == Rotr(Low(x), 25)
  {}

  lemma Rotate25(x: Long)
    ensures Low(LongRotr(x, 25)) == Rotr(Low(x), 25)
  {
    hide Low, Rotr;
    RotateBits25(x);
  }

  lemma ShiftBits3(x: Long)
    ensures Low((x & 0xFFFF_FFFF) >> (3 as Long)) == Shr(Low(x), 3)
  {}

  lemma Shift3(x: Long)
    ensures Low(LongShr(x, 3)) == Shr(Low(x), 3)
  {
    hide Low, Shr;
    ShiftBits3(x);
  }

  lemma ShiftBits10(x: Long)
    ensures Low((x & 0xFFFF_FFFF) >> (10 as Long)) == Shr(Low(x), 10)
  {}

  lemma Shift10(x: Long)
    ensures Low(LongShr(x, 10)) == Shr(Low(x), 10)
  {
    hide Low, Shr;
    ShiftBits10(x);
  }

  lemma LowOfSmallSigma0(x: Long)
    ensures Low(LongSmallSigma0(x)) == SmallSigma0(Low(x))
  {
    hide LongRotr, Rotr, LongShr, Shr;
    Rotate7(x);
    Rotate18(x);
    Shift3(x);
  }

  lemma LowOfSmallSigma1(x: Long)
    ensures Low(LongSmallSigma1(x)) == SmallSigma1(Low(x))
  {
    hide LongRotr, Rotr, LongShr, Shr;
    Rotate17(x);
    Rotate19(x);
    Shift10(x);
  }

  lemma LowOfBigSigma0(x: Long)
    ensures Low(LongBigSigma0(x)) == BigSigma0(Low(x))
  {
    hide LongRotr, Rotr;
    Rotate2(x);
    Rotate13(x);
    Rotate22(x);
  }

  lemma LowOfBigSigma1(x: Long)
    ensures Low(LongBigSigma1(x)) == BigSigma1(Low(x))
  {
    hide LongRotr, Rotr;
    Rotate6(x);
    Rotate11(x);
    Rotate25(x);
  }

  /** The rewritten choice is the standard one. */
  lemma LowOfCh(x: Long, y: Long, z: Long)
    ensures Low(LongCh(x, y, z)) == Ch(Low(x), Low(y), Low(z))
  {}

  /** The rewritten majority is the standard one. */
  lemma LowOfMaj(x: Long, y: Long, z: Long)
    ensures Low(LongMaj(x, y, z)) == Maj(Low(x), Low(y), Low(z))
  {}

  lemma PackedBits(b0: Byte, b1: Byte, b2: Byte, b3: Byte)
    ensures Low(((b0 as Long) << 24) | ((b1 as Long) << 16) | ((b2 as Long) << 8) | (b3 as Long)) == Pack(b0, b1, b2, b3)
  {}

  lemma PackedBytes(b0: Byte, b1: Byte, b2: Byte, b3: Byte)
    ensures Low(LongPack(b0, b1, b2, b3)) == Pack(b0, b1, b2, b3)
  {
    hide Low, Pack;
    PackedBits(b0, b1, b2, b3);
  }

  lemma LowOfGet(b: seq<Byte>, t: nat)
    requires |b| == 64 && t < 16
    ensures Low(GetUint32(b, 4 * t)) == WordAt(b, t)
  {
    hide Low, LongPack, Pack;
    PackedBytes(b[4 * t], b[4 * t + 1], b[4 * t + 2], b[4 * t + 3]);
  }

  lemma LowOfPut(n: Long)
    ensures PutUint32(n) == WordBytes(Low(n))
  {}

  lemma LowOfTemp1(e: Long, f: Long, g: Long, h: Long, k: Long, x: Long)
    ensures Low(LongTemp1(e, f, g, h, k, x)) == Temp1(Low(e), Low(f), Low(g), Low(h), Low(k), Low(x))
  {
    hide Low, LongAdd, Add, LongBigSigma1, LongCh, BigSigma1, Ch;
    LowOfBigSigma1(e);
    LowOfCh(e, f, g);
    LowOfAdd(h, LongBigSigma1(e));
    LowOfAdd(LongAdd(h, LongBigSigma1(e)), LongCh(e, f, g));
    LowOfAdd(LongAdd(LongAdd(h, LongBigSigma1(e)), LongCh(e, f, g)), k);
    LowOfAdd(LongAdd(LongAdd(LongAdd(h, LongBigSigma1(e)), LongCh(e, f, g)), k), x);
  }

  lemma LowOfTemp2(a: Long, b: Long, c: Long)
    ensures Low(LongTemp2(a, b, c)) == Temp2(Low(a), Low(b), Low(c))
  {
    hide Low, LongAdd, Add, LongBigSigma0, LongMaj, BigSigma0, Maj;
    LowOfBigSigma0(a);
    LowOfMaj(a, b, c);
    LowOfAdd(LongBigSigma0(a), LongMaj(a, b, c));
  }

  lemma LowOfNextWord(w2: Long, w7: Long, w15: Long, w16: Long)
    ensures Low(LongNextWord(w2, w7, w15, w16)) == NextWord(Low(w2), Low(w7), Low(w15), Low(w16))
  {
    hide Low, LongAdd, Add, LongSmallSigma0, LongSmallSigma1, SmallSigma0, SmallSigma1;
    LowOfSmallSigma1(w2);
    LowOfSmallSigma0(w15);
    LowOfAdd(LongSmallSigma1(w2), w7);
    LowOfAdd(LongAdd(LongSmallSigma1(w2), w7), LongSmallSigma0(w15));
    LowOfAdd(LongAdd(LongAdd(LongSmallSigma1(w2), w7), LongSmallSigma0(w15)), w16);
  }

  /** One round macro, followed by the rotation of roles, is one standard round. */
  lemma LowOfRound(a: Long, b: Long, c: Long, d: Long, e: Long, f: Long, g: Long, h: Long, x: Long, k: Long)
    ensures var (d', h') := LongRound(a, b, c, d, e, f, g, h, x, k);
            Lows(h', a, b, c, d', e, f, g) == Round(Lows(a, b, c, d, e, f, g, h), Low(k), Low(x))
  {
    hide Low, LongAdd, Add, LongTemp1, LongTemp2, Temp1, Temp2;
    var temp1, temp2 := LongTemp1(e, f, g, h, k, x), LongTemp2(a, b, c);
    LowOfTemp1(e, f, g, h, k, x);
    LowOfTemp2(a, b, c);
    LowOfAdd(d, temp1);
    LowOfAdd(temp1, temp2);
  }

}

/** One block in 64 rounds, on registers that change roles. */
module Sha256Block {
  import opened Fips180
  import opened Sha256Words

  /** Entries 0 .. t-1 of W carry the message schedule. */
  ghost predicate Scheduled(w: seq<Long>, data: seq<Byte>, t: nat) {
    |w| == 64 && |data| == 64 && t <= 64 && forall i :: 0 <= i < t ==> Low(w[i]) == Schedule(data, i)
  }

  /** For t >= 16, extend the schedule by W[t]; smaller entries are in place. */
  method ScheduleWord(W: array<Long>, t: nat, ghost data: seq<Byte>)
    requires t < 64 && Scheduled(W[..], data, if t < 16 then 16 else t)
    modifies W
    ensures Scheduled(W[..], data, if t < 16 then 16 else t + 1)
  {
    hide Low, LongNextWord, NextWord, WordAt;
    if t >= 16 {
      LowOfNextWord(W[t - 2], W[t - 7], W[t - 15], W[t - 16]);
      W[t] := LongNextWord(W[t - 2], W[t - 7], W[t - 15], W[t - 16]);
    }
  }

  /** Extend the schedule if need be, then apply the round macro. The registers come
      in their current roles; the two that change go back. */
  method RoundAt(W: array<Long>, t: nat, a: Long, b: Long, c: Long, d: Long, e: Long, f: Long, g: Long, h: Long, k: Long,
                 ghost v: Hash, ghost data: seq<Byte>)
    returns (d': Long, h': Long)
    requires t < 64 && Scheduled(W[..], data, if t < 16 then 16 else t)
    requires Lows(a, b, c, d, e, f, g, h) == Rounds(v, data, t) && Low(k) == K(t)
    modifies W
    ensures Scheduled(W[..], data, if t + 1 < 16 then 16 else t + 1)
    ensures Lows(h', a, b, c, d', e, f, g) == Rounds(v, data, t + 1)
  {
    hide Low, Lows, LongRound, Round, K, Schedule;
    ScheduleWord(W, t, data);
    LowOfRound(a, b, c, d, e, f, g, h, W[t], k);
    var r := LongRound(a, b, c, d, e, f, g, h, W[t], k);
    d', h' := r.0, r.1;
  }

  /** Eight rounds bring every register back to its own role. */
  method EightRounds(W: array<Long>, t: nat,
                     a: Long, b: Long, c: Long, d: Long, e: Long, f: Long, g: Long, h: Long,
                     k0: Long, k1: Long, k2: Long, k3: Long, k4: Long, k5: Long, k6: Long, k7: Long,
                     ghost v: Hash, ghost data: seq<Byte>)
    returns (A: Long, B: Long, C: Long, D: Long, E: Long, F: Long, G: Long, H: Long)
    requires t <= 56 && Scheduled(W[..], data, if t < 16 then 16 else t)
    requires Lows(a, b, c, d, e, f, g, h) == Rounds(v, data, t)
    requires Low(k0) == K(t) && Low(k1) == K(t + 1) && Low(k2) == K(t + 2) && Low(k3) == K(t + 3)
    requires Low(k4) == K(t + 4) && Low(k5) == K(t + 5) && Low(k6) == K(t + 6) && Low(k7) == K(t + 7)
    modifies W
    ensures Scheduled(W[..], data, if t + 8 < 16 then 16 else t + 8)
    ensures Lows(A, B, C, D, E, F, G, H) == Rounds(v, data, t + 8)
  {
    hide Low, Lows, K, Rounds, Scheduled;
    A, B, C, D, E, F, G, H := a, b, c, d, e, f, g, h;
    D, H := RoundAt(W, t, A, B, C, D, E, F, G, H, k0, v, data);
    C, G := RoundAt(W, t + 1, H, A, B, C, D, E, F, G, k1, v, data);
    B, F := RoundAt(W, t + 2, G, H, A, B, C, D, E, F, k2, v, data);
    A, E := RoundAt(W, t + 3, F, G, H, A, B, C, D, E, k3, v, data);
    H, D := RoundAt(W, t + 4, E, F, G, H, A, B, C, D, k4, v, data);
    G, C := RoundAt(W, t + 5, D, E, F, G, H, A, B, C, k5, v, data);
    F, B := RoundAt(W, t + 6, C, D, E, F, G, H, A, B, k6, v, data);
    E, A := RoundAt(W, t + 7, B, C, D, E, F, G, H, A, k7, v, data);
  }

  /** Load words t .. t+3 of the block. */
  method LoadFour(W: array<Long>, t: nat, data: seq<Byte>)
    requires W.Length == 64 && t + 4 <= 16 && Scheduled(W[..], data, t)
    modifies W
    ensures Scheduled(W[..], data, t + 4)
  {
    hide Low, GetUint32, WordAt;
    LowOfGet(data, t);
    LowOfGet(data, t + 1);
    LowOfGet(data, t + 2);
    LowOfGet(data, t + 3);
    W[t] := GetUint32(data, 4 * t);
    W[t + 1] := GetUint32(data, 4 * (t + 1));
    W[t + 2] := GetUint32(data, 4 * (t + 2));
    W[t + 3] := GetUint32(data, 4 * (t + 3));
  }

  lemma Constants0()
    ensures Low(0x428A_2F98) == K(0)
    ensures Low(0x7137_4491) == K(1)
    ensures Low(0xB5C0_FBCF) == K(2)
    ensures Low(0xE9B5_DBA5) == K(3)
    ensures Low(0x3956_C25B) == K(4)
    ensures Low(0x59F1_11F1) == K(5)
    ensures Low(0x923F_82A4) == K(6)
    ensures Low(0xAB1C_5ED5) == K(7)
  {}

  lemma Constants8()
    ensures Low(0xD807_AA98) == K(8)
    ensures Low(0x1283_5B01) == K(9)
    ensures Low(0x2431_85BE) == K(10)
    ensures Low(0x550C_7DC3) == K(11)
    ensures Low(0x72BE_5D74) == K(12)
    ensures Low(0x80DE_B1FE) == K(13)
    ensures Low(0x9BDC_06A7) == K(14)
    ensures Low(0xC19B_F174) == K(15)
  {}

  lemma Constants16()
    ensures Low(0xE49B_69C1) == K(16)
    ensures Low(0xEFBE_4786) == K(17)
    ensures Low(0x0FC1_9DC6) == K(18)
    ensures Low(0x240C_A1CC) == K(19)
    ensures Low(0x2DE9_2C6F) == K(20)
    ensures Low(0x4A74_84AA) == K(21)
    ensures Low(0x5CB0_A9DC) == K(22)
    ensures Low(0x76F9_88DA) == K(23)
  {}

  lemma Constants24()
    ensures Low(0x983E_5152) == K(24)
    ensures Low(0xA831_C66D) == K(25)
    ensures Low(0xB003_27C8) == K(26)
    ensures Low(0xBF59_7FC7) == K(27)
    ensures Low(0xC6E0_0BF3) == K(28)
    ensures Low(0xD5A7_9147) == K(29)
    ensures Low(0x06CA_6351) == K(30)
    ensures Low(0x1429_2967) == K(31)
  {}

  lemma Constants32()
    ensures Low(0x27B7_0A85) == K(32)
    ensures Low(0x2E1B_2138) == K(33)
    ensures Low(0x4D2C_6DFC) == K(34)
    ensures Low(0x5338_0D13) == K(35)
    ensures Low(0x650A_7354) == K(36)
    ensures Low(0x766A_0ABB) == K(37)
    ensures Low(0x81C2_C92E) == K(38)
    ensures Low(0x9272_2C85) == K(39)
  {}

  lemma Constants40()
    ensures Low(0xA2BF_E8A1) == K(40)
    ensures Low(0xA81A_664B) == K(41)
    ensures Low(0xC24B_8B70) == K(42)
    ensures Low(0xC76C_51A3) == K(43)
    ensures Low(0xD192_E819) == K(44)
    ensures Low(0xD699_0624) == K(45)
    ensures Low(0xF40E_3585) == K(46)
    ensures Low(0x106A_A070) == K(47)
  {}

  lemma Constants48()
    ensures Low(0x19A4_C116) == K(48)
    ensures Low(0x1E37_6C08) == K(49)
    ensures Low(0x2748_774C) == K(50)
    ensures Low(0x34B0_BCB5) == K(51)
    ensures Low(0x391C_0CB3) == K(52)
    ensures Low(0x4ED8_AA4A) == K(53)
    ensures Low(0x5B9C_CA4F) == K(54)
    ensures Low(0x682E_6FF3) == K(55)
  {}

  lemma Constants56()
    ensures Low(0x748F_82EE) == K(56)
    ensures Low(0x78A5_636F) == K(57)
    ensures Low(0x84C8_7814) == K(58)
    ensures Low(0x8CC7_0208) == K(59)
    ensures Low(0x90BE_FFFA) == K(60)
    ensures Low(0xA450_6CEB) == K(61)
    ensures Low(0xBEF9_A3F7) == K(62)
    ensures Low(0xC671_78F2) == K(63)
  {}

  /** Rounds 0 .. 31, with the round constants as they stand in the code. */
  method FirstHalf(W: array<Long>, a: Long, b: Long, c: Long, d: Long, e: Long, f: Long, g: Long, h: Long,
                   ghost v: Hash, ghost data: seq<Byte>)
    returns (A: Long, B: Long, C: Long, D: Long, E: Long, F: Long, G: Long, H: Long)
    requires Scheduled(W[..], data, 16) && Lows(a, b, c, d, e, f, g, h) == Rounds(v, data, 0)
    modifies W
    ensures Scheduled(W[..], data, 32)
    ensures Lows(A, B, C, D, E, F, G, H) == Rounds(v, data, 32)
  {
    hide Rounds, Lows, Low, K, Scheduled;
    A, B, C, D, E, F, G, H := a, b, c, d, e, f, g, h;
    Constants0();
    A, B, C, D, E, F, G, H := EightRounds(W, 0, A, B, C, D, E, F, G, H,
      0x428A_2F98, 0x7137_4491, 0xB5C0_FBCF, 0xE9B5_DBA5,
      0x3956_C25B, 0x59F1_11F1, 0x923F_82A4, 0xAB1C_5ED5, v, data);
    Constants8();
    A, B, C, D, E, F, G, H := EightRounds(W, 8, A, B, C, D, E, F, G, H,
      0xD807_AA98, 0x1283_5B01, 0x2431_85BE, 0x550C_7DC3,
      0x72BE_5D74, 0x80DE_B1FE, 0x9BDC_06A7, 0xC19B_F174, v, data);
    Constants16();
    A, B, C, D, E, F, G, H := EightRounds(W, 16, A, B, C, D, E, F, G, H,
      0xE49B_69C1, 0xEFBE_4786, 0x0FC1_9DC6, 0x240C_A1CC,
      0x2DE9_2C6F, 0x4A74_84AA, 0x5CB0_A9DC, 0x76F9_88DA, v, data);
    Constants24();
    A, B, C, D, E, F, G, H := EightRounds(W, 24, A, B, C, D, E, F, G, H,
      0x983E_5152, 0xA831_C66D, 0xB003_27C8, 0xBF59_7FC7,
      0xC6E0_0BF3, 0xD5A7_9147, 0x06CA_6351, 0x1429_2967, v, data);
  }

  /** Rounds 32 .. 63. */
  method SecondHalf(W: array<Long>, a: Long, b: Long, c: Long, d: Long, e: Long, f: Long, g: Long, h: Long,
                    ghost v: Hash, ghost data: seq<Byte>)
    returns (A: Long, B: Long, C: Long, D: Long, E: Long, F: Long, G: Long, H: Long)
    requires Scheduled(W[..], data, 32) && Lows(a, b, c, d, e, f, g, h) == Rounds(v, data, 32)
    modifies W
    ensures Lows(A, B, C, D, E, F, G, H) == Rounds(v, data, 64)
  {
    hide Rounds, Lows, Low, K, Scheduled;
    A, B, C, D, E, F, G, H := a, b, c, d, e, f, g, h;
    Constants32();
    A, B, C, D, E, F, G, H := EightRounds(W, 32, A, B, C, D, E, F, G, H,
      0x27B7_0A85, 0x2E1B_2138, 0x4D2C_6DFC, 0x5338_0D13,
      0x650A_7354, 0x766A_0ABB, 0x81C2_C92E, 0x9272_2C85, v, data);
    Constants40();
    A, B, C, D, E, F, G, H := EightRounds(W, 40, A, B, C, D, E, F, G, H,
      0xA2BF_E8A1, 0xA81A_664B, 0xC24B_8B70, 0xC76C_51A3,
      0xD192_E819, 0xD699_0624, 0xF40E_3585, 0x106A_A070, v, data);
    Constants48();
    A, B, C, D, E, F, G, H := EightRounds(W, 48, A, B, C, D, E, F, G, H,
      0x19A4_C116, 0x1E37_6C08, 0x2748_774C, 0x34B0_BCB5,
      0x391C_0CB3, 0x4ED8_AA4A, 0x5B9C_CA4F, 0x682E_6FF3, v, data);
    Constants56();
    A, B, C, D, E, F, G, H := EightRounds(W, 56, A, B, C, D, E, F, G, H,
      0x748F_82EE, 0x78A5_636F, 0x84C8_7814, 0x8CC7_0208,
      0x90BE_FFFA, 0xA450_6CEB, 0xBEF9_A3F7, 0xC671_78F2, v, data);
  }

  /** Load the block, then run all 64 rounds. */
  method SixtyFourRounds(a: Long, b: Long, c: Long, d: Long, e: Long, f: Long, g: Long, h: Long, data: seq<Byte>)
    returns (A: Long, B: Long, C: Long, D: Long, E: Long, F: Long, G: Long, H: Long)
    requires |data| == 64
    ensures Lows(A, B, C, D, E, F, G, H) == Rounds(Lows(a, b, c, d, e, f, g, h), data, 64)
  {
    assert Rounds(Lows(a, b, c, d, e, f, g, h), data, 0) == Lows(a, b, c, d, e, f, g, h);
    hide Rounds, Lows;
    var W := new Long[64];
    ghost var v := Lows(a, b, c, d, e, f, g, h);
    LoadFour(W, 0, data);
    LoadFour(W, 4, data);
    LoadFour(W, 8, data);
    LoadFour(W, 12, data);
    A, B, C, D, E, F, G, H := FirstHalf(W, a, b, c, d, e, f, g, h, v, data);
    A, B, C, D, E, F, G, H := SecondHalf(W, A, B, C, D, E, F, G, H, v, data);
  }

  /** The hash value that eight state words stand for. */
  function StateHash(s: seq<Long>): Hash
    requires |s| == 8
  {
    Lows(s[0], s[1], s[2], s[3], s[4], s[5], s[6], s[7])
  }

  lemma StateHashIs(state: array<Long>)
    requires state.Length == 8
    ensures StateHash(state[..]) == Lows(state[0], state[1], state[2], state[3], state[4], state[5], state[6], state[7])
  {}

  lemma LowsOfSums(a: Long, b: Long, c: Long, d: Long, e: Long, f: Long, g: Long, h: Long,
                   A: Long, B: Long, C: Long, D: Long, E: Long, F: Long, G: Long, H: Long)
    ensures Lows(LongAdd(a, A), LongAdd(b, B), LongAdd(c, C), LongAdd(d, D),
                 LongAdd(e, E), LongAdd(f, F), LongAdd(g, G), LongAdd(h, H))
         == Plus(Lows(a, b, c, d, e, f, g, h), Lows(A, B, C, D, E, F, G, H))
  {
    hide Low, LongAdd, Add;
    LowOfAdd(a, A);
    LowOfAdd(b, B);
    LowOfAdd(c, C);
    LowOfAdd(d, D);
    LowOfAdd(e, E);
    LowOfAdd(f, F);
    LowOfAdd(g, G);
    LowOfAdd(h, H);
  }

  /** sha256_process on the eight state words: their lower halves move exactly as one
      step of the standard's compression, whatever the upper halves hold. */
  method Process(state: array<Long>, data: seq<Byte>)
    requires state.Length == 8 && |data| == 64
    modifies state
    ensures StateHash(state[..]) == Compress(StateHash(old(state[..])), data)
  {
    hide LongAdd, Rounds, Lows, StateHash;
    StateHashIs(state);
    var A, B, C, D, E, F, G, H :=
      SixtyFourRounds(state[0], state[1], state[2], state[3], state[4], state[5], state[6], state[7], data);
    LowsOfSums(state[0], state[1], state[2], state[3], state[4], state[5], state[6], state[7], A, B, C, D, E, F, G, H);
    hide Plus;
    state[0] := LongAdd(state[0], A);
    state[1] := LongAdd(state[1], B);
    state[2] := LongAdd(state[2], C);
    state[3] := LongAdd(state[3], D);
    state[4] := LongAdd(state[4], E);
    state[5] := LongAdd(state[5], F);
    state[6] := LongAdd(state[6], G);
    state[7] := LongAdd(state[7], H);
    StateHashIs(state);
  }
}
