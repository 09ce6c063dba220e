/** Where the constants of SHA-256 come from. */
module Sha256Constants {
  import opened Fips180

  // ------------------------------------------------------------------ primes

  ghost predicate IsPrime(p: nat) {
    p >= 2 && forall d :: 2 <= d < p ==> p % d != 0
  }

  predicate Passes(p: nat, d: nat)
    requires d > 0
  {
    p < d * d || p % d != 0
  }

  /** Trial division, enough below 19 * 19. */
  predicate Trial(p: nat) {
    Passes(p, 2) && Passes(p, 3) && Passes(p, 5) && Passes(p, 7) && Passes(p, 11) && Passes(p, 13) && Passes(p, 17)
  }

  lemma Fails2(c: nat)
    requires c >= 2
    ensures !Trial(2 * c)
  {
    assert !Passes(2 * c, 2);
  }

  lemma Fails3(c: nat)
    requires c >= 3
    ensures !Trial(3 * c)
  {
    assert !Passes(3 * c, 3);
  }

  lemma Fails5(c: nat)
    requires c >= 5
    ensures !Trial(5 * c)
  {
    assert !Passes(5 * c, 5);
  }

  lemma Fails7(c: nat)
    requires c >= 7
    ensures !Trial(7 * c)
  {
    assert !Passes(7 * c, 7);
  }

  lemma Fails11(c: nat)
    requires c >= 11
    ensures !Trial(11 * c)
  {
    assert !Passes(11 * c, 11);
  }

  lemma Fails13(c: nat)
    requires c >= 13
    ensures !Trial(13 * c)
  {
    assert !Passes(13 * c, 13);
  }

  lemma Fails17(c: nat)
    requires c >= 17
    ensures !Trial(17 * c)
  {
    assert !Passes(17 * c, 17);
  }

  lemma MultipleFails(e: nat, c: nat)
    requires e == 2 || e == 3 || e == 5 || e == 7 || e == 11 || e == 13 || e == 17
    requires c >= e
    ensures !Trial(e * c)
  {
    hide Trial;
    match e
    case 2 => Fails2(c);
    case 3 => Fails3(c);
    case 5 => Fails5(c);
    case 7 => Fails7(c);
    case 11 => Fails11(c);
    case 13 => Fails13(c);
    case 17 => Fails17(c);
  }

  lemma Regroup(e: nat, b: nat, a: nat)
    requires b > 0
    ensures (e * b) * a == e * (b * a) && b * a >= a
  {}

  lemma SmallFactorFails(p: nat, d: nat, a: nat)
    requires 2 <= d < 19 && d <= a && p == d * a
    ensures !Trial(p)
  {
    hide Trial;
    var e := if d % 2 == 0 then 2 else if d % 3 == 0 then 3 else if d % 5 == 0 then 5 else d;
    var b := d / e;
    assert d == e * b;
    Regroup(e, b, a);
    MultipleFails(e, b * a);
  }

  lemma FactorsOver18(d: nat, q: nat)
    requires d >= 19 && q >= 19
    ensures d * q >= 361
  {
    assert d * q == 19 * q + (d - 19) * q;
  }

  lemma FactorFails(p: nat, d: nat)
    requires p < 361 && 2 <= d < p && p % d == 0
    ensures !Trial(p)
  {
    var q := p / d;
    assert p == d * q == q * d;
    assert q != 0 && q != 1;
    if d >= 19 && q >= 19 {
      FactorsOver18(d, q);
    } else if d <= q {
      SmallFactorFails(p, d, q);
    } else {
      SmallFactorFails(p, q, d);
    }
  }

  lemma TrialDecides(p: nat)
    requires 2 <= p < 361
    ensures Trial(p) <==> IsPrime(p)
  {
    if !IsPrime(p) {
      var d :| 2 <= d < p && p % d == 0;
      FactorFails(p, d);
    }
  }

  lemma Twice(n: nat, q: nat)
    requires q == 2 * n
    ensures q % 2 == 0
  {}

  lemma Thrice(n: nat, q: nat)
    requires q == 3 * n
    ensures q % 3 == 0
  {}

  lemma MultipleByRemainder(k: nat, r: nat, q: nat)
    requires r < 6 && q == 6 * k + r
    ensures r == 0 || r == 2 || r == 4 ==> q % 2 == 0
    ensures r == 3 ==> q % 3 == 0
  {
    match r
    case 0 => Twice(3 * k, q);
    case 2 => Twice(3 * k + 1, q);
    case 3 => Thrice(2 * k + 1, q);
    case 4 => Twice(3 * k + 2, q);
    case _ =>
  }

  lemma Wheel(q: nat)
    requires q > 8 && Trial(q)
    ensures q == 6 * (q / 6) + 1 || q == 6 * (q / 6) + 5
  {
    assert Passes(q, 2) && Passes(q, 3);
    hide Trial;
    MultipleByRemainder(q / 6, q % 6, q);
  }

  lemma Passes0(q: nat)
    requires q in PrimeRow(0)
    ensures 2 <= q < 23 && Trial(q)
  {}

  lemma Complete0(q: nat)
    requires 2 <= q < 23 && Trial(q)
    ensures q in PrimeRow(0)
  {
    if q > 8 {
      Wheel(q);
    }
    assert q == 2 || q == 3 || q == 4 || q == 5 || q == 7
      || q == 11 || q == 13 || q == 17 || q == 19;
  }

  lemma Passes1(q: nat)
    requires q in PrimeRow(1)
    ensures 23 <= q < 59 && Trial(q)
  {}

  lemma Complete1(q: nat)
    requires 23 <= q < 59 && Trial(q)
    ensures q in PrimeRow(1)
  {
    Wheel(q);
    assert q == 23 || q == 25 || q == 29 || q == 31 || q == 35 || q == 37
      || q == 41 || q == 43 || q == 47 || q == 49 || q == 53 || q == 55;
  }

  lemma Passes2(q: nat)
    requires q in PrimeRow(2)
    ensures 59 <= q < 97 && Trial(q)
  {}

  lemma Complete2(q: nat)
    requires 59 <= q < 97 && Trial(q)
    ensures q in PrimeRow(2)
  {
    Wheel(q);
    assert q == 59 || q == 61 || q == 65 || q == 67 || q == 71 || q == 73 || q == 77
      || q == 79 || q == 83 || q == 85 || q == 89 || q == 91 || q == 95;
  }

  lemma Passes3(q: nat)
    requires q in PrimeRow(3)
    ensures 97 <= q < 137 && Trial(q)
  {}

  lemma Complete3(q: nat)
    requires 97 <= q < 137 && Trial(q)
    ensures q in PrimeRow(3)
  {
    Wheel(q);
    assert q == 97 || q == 101 || q == 103 || q == 107 || q == 109 || q == 113 || q == 115
      || q == 119 || q == 121 || q == 125 || q == 127 || q == 131 || q == 133;
  }

  lemma Passes4(q: nat)
    requires q in PrimeRow(4)
    ensures 137 <= q < 179 && Trial(q)
  {}

  lemma Complete4(q: nat)
    requires 137 <= q < 179 && Trial(q)
    ensures q in PrimeRow(4)
  {
    Wheel(q);
    assert q == 137 || q == 139 || q == 143 || q == 145 || q == 149 || q == 151 || q == 155
      || q == 157 || q == 161 || q == 163 || q == 167 || q == 169 || q == 173 || q == 175;
  }

  lemma Passes5(q: nat)
    requires q in PrimeRow(5)
    ensures 179 <= q < 227 && Trial(q)
  {}

  lemma Complete5(q: nat)
    requires 179 <= q < 227 && Trial(q)
    ensures q in PrimeRow(5)
  {
    Wheel(q);
    assert q == 179 || q == 181 || q == 185 || q == 187 || q == 191 || q == 193 || q == 197 || q == 199
      || q == 203 || q == 205 || q == 209 || q == 211 || q == 215 || q == 217 || q == 221 || q == 223;
  }

  lemma Passes6(q: nat)
    requires q in PrimeRow(6)
    ensures 227 <= q < 269 && Trial(q)
  {}

  lemma Complete6(q: nat)
    requires 227 <= q < 269 && Trial(q)
    ensures q in PrimeRow(6)
  {
    Wheel(q);
    assert q == 227 || q == 229 || q == 233 || q == 235 || q == 239 || q == 241 || q == 245
      || q == 247 || q == 251 || q == 253 || q == 257 || q == 259 || q == 263 || q == 265;
  }

  lemma Passes7(q: nat)
    requires q in PrimeRow(7)
    ensures 269 <= q < 312 && Trial(q)
  {}

  lemma Complete7(q: nat)
    requires 269 <= q < 312 && Trial(q)
    ensures q in PrimeRow(7)
  {
    Wheel(q);
    assert q == 269 || q == 271 || q == 275 || q == 277 || q == 281 || q == 283 || q == 287 || q == 289
      || q == 293 || q == 295 || q == 299 || q == 301 || q == 305 || q == 307 || q == 311;
  }

  /** The table is exactly the primes up to 311, in ascending order. */
  lemma FirstPrimes(q: nat)
    requires q <= 311
    ensures IsPrime(q) <==> exists t: nat :: t < 64 && Prime(t) == q
  {
    if q >= 2 {
      TrialDecides(q);
    }
    hide *;
    if q >= 2 && Trial(q) {
      var c := RowFound(q);
      InTable(q, c);
    }
    if t: nat :| t < 64 && Prime(t) == q {
      PrimeInRow(t);
      RowPasses(q, t / 8);
    }
  }

  lemma PrimeInRow(t: nat)
    requires t < 64
    ensures Prime(t) in PrimeRow(t / 8)
  {
    hide PrimeRow;
  }

  lemma InTable(q: nat, c: nat)
    requires c < 8 && q in PrimeRow(c)
    ensures exists t: nat :: t < 64 && Prime(t) == q
  {
    hide PrimeRow;
    var i :| 0 <= i < 8 && PrimeRow(c)[i] == q;
    assert (8 * c + i) / 8 == c && (8 * c + i) % 8 == i;
    assert Prime(8 * c + i) == q;
  }

  lemma RowPasses(q: nat, c: nat)
    requires c < 8 && q in PrimeRow(c)
    ensures 2 <= q <= 311 && Trial(q)
  {
    match c
    case 0 => Passes0(q);
    case 1 => Passes1(q);
    case 2 => Passes2(q);
    case 3 => Passes3(q);
    case 4 => Passes4(q);
    case 5 => Passes5(q);
    case 6 => Passes6(q);
    case 7 => Passes7(q);
  }

  lemma RowFound(q: nat) returns (c: nat)
    requires 2 <= q <= 311 && Trial(q)
    ensures c < 8 && q in PrimeRow(c)
  {
    if q < 23 {
      c := 0;
      Complete0(q);
    } else if q < 59 {
      c := 1;
      Complete1(q);
    } else if q < 97 {
      c := 2;
      Complete2(q);
    } else if q < 137 {
      c := 3;
      Complete3(q);
    } else if q < 179 {
      c := 4;
      Complete4(q);
    } else if q < 227 {
      c := 5;
      Complete5(q);
    } else if q < 269 {
      c := 6;
      Complete6(q);
    } else {
      c := 7;
      Complete7(q);
    }
  }

  lemma PrimesAscend(s: nat, t: nat)
    requires s < t < 64
    ensures Prime(s) < Prime(t)
  {
    if s + 1 < t {
      PrimesAscend(s, t - 1);
    }
    NextPrimeGreater(t - 1);
  }

  lemma NextPrimeGreater(t: nat)
    requires t < 63
    ensures Prime(t) < Prime(t + 1)
  {}

  // --------------------------------------------------------------- constants

  lemma CubeRoot(r: nat, k: Word, p: nat)
    requires CubeRootBelow(r, p) && k as nat == r % 0x1_0000_0000
    ensures IsCubeRootFraction(k, p)
  {}

  lemma CubeRoots0(i: nat)
    requires i < 8
    ensures IsCubeRootFraction(ConstantRow(0)[i], PrimeRow(0)[i])
  {
    hide IsCubeRootFraction;
    CubeRoot(0x1_428A_2F98, 0x428A_2F98, 2);
    CubeRoot(0x1_7137_4491, 0x7137_4491, 3);
    CubeRoot(0x1_B5C0_FBCF, 0xB5C0_FBCF, 5);
    CubeRoot(0x1_E9B5_DBA5, 0xE9B5_DBA5, 7);
    CubeRoot(0x2_3956_C25B, 0x3956_C25B, 11);
    CubeRoot(0x2_59F1_11F1, 0x59F1_11F1, 13);
    CubeRoot(0x2_923F_82A4, 0x923F_82A4, 17);
    CubeRoot(0x2_AB1C_5ED5, 0xAB1C_5ED5, 19);
  }

  lemma CubeRoots1(i: nat)
    requires i < 8
    ensures IsCubeRootFraction(ConstantRow(1)[i], PrimeRow(1)[i])
  {
    hide IsCubeRootFraction;
    CubeRoot(0x2_D807_AA98, 0xD807_AA98, 23);
    CubeRoot(0x3_1283_5B01, 0x1283_5B01, 29);
    CubeRoot(0x3_2431_85BE, 0x2431_85BE, 31);
    CubeRoot(0x3_550C_7DC3, 0x550C_7DC3, 37);
    CubeRoot(0x3_72BE_5D74, 0x72BE_5D74, 41);
    CubeRoot(0x3_80DE_B1FE, 0x80DE_B1FE, 43);
    CubeRoot(0x3_9BDC_06A7, 0x9BDC_06A7, 47);
    CubeRoot(0x3_C19B_F174, 0xC19B_F174, 53);
  }

  lemma CubeRoots2(i: nat)
    requires i < 8
    ensures IsCubeRootFraction(ConstantRow(2)[i], PrimeRow(2)[i])
  {
    hide IsCubeRootFraction;
    CubeRoot(0x3_E49B_69C1, 0xE49B_69C1, 59);
    CubeRoot(0x3_EFBE_4786, 0xEFBE_4786, 61);
    CubeRoot(0x4_0FC1_9DC6, 0x0FC1_9DC6, 67);
    CubeRoot(0x4_240C_A1CC, 0x240C_A1CC, 71);
    CubeRoot(0x4_2DE9_2C6F, 0x2DE9_2C6F, 73);
    CubeRoot(0x4_4A74_84AA, 0x4A74_84AA, 79);
    CubeRoot(0x4_5CB0_A9DC, 0x5CB0_A9DC, 83);
    CubeRoot(0x4_76F9_88DA, 0x76F9_88DA, 89);
  }

  lemma CubeRoots3(i: nat)
    requires i < 8
    ensures IsCubeRootFraction(ConstantRow(3)[i], PrimeRow(3)[i])
  {
    hide IsCubeRootFraction;
    CubeRoot(0x4_983E_5152, 0x983E_5152, 97);
    CubeRoot(0x4_A831_C66D, 0xA831_C66D, 101);
    CubeRoot(0x4_B003_27C8, 0xB003_27C8, 103);
    CubeRoot(0x4_BF59_7FC7, 0xBF59_7FC7, 107);
    CubeRoot(0x4_C6E0_0BF3, 0xC6E0_0BF3, 109);
    CubeRoot(0x4_D5A7_9147, 0xD5A7_9147, 113);
    CubeRoot(0x5_06CA_6351, 0x06CA_6351, 127);
    CubeRoot(0x5_1429_2967, 0x1429_2967, 131);
  }

  lemma CubeRoots4(i: nat)
    requires i < 8
    ensures IsCubeRootFraction(ConstantRow(4)[i], PrimeRow(4)[i])
  {
    hide IsCubeRootFraction;
    CubeRoot(0x5_27B7_0A85, 0x27B7_0A85, 137);
    CubeRoot(0x5_2E1B_2138, 0x2E1B_2138, 139);
    CubeRoot(0x5_4D2C_6DFC, 0x4D2C_6DFC, 149);
    CubeRoot(0x5_5338_0D13, 0x5338_0D13, 151);
    CubeRoot(0x5_650A_7354, 0x650A_7354, 157);
    CubeRoot(0x5_766A_0ABB, 0x766A_0ABB, 163);
    CubeRoot(0x5_81C2_C92E, 0x81C2_C92E, 167);
    CubeRoot(0x5_9272_2C85, 0x9272_2C85, 173);
  }

  lemma CubeRoots5(i: nat)
    requires i < 8
    ensures IsCubeRootFraction(ConstantRow(5)[i], PrimeRow(5)[i])
  {
    hide IsCubeRootFraction;
    CubeRoot(0x5_A2BF_E8A1, 0xA2BF_E8A1, 179);
    CubeRoot(0x5_A81A_664B, 0xA81A_664B, 181);
    CubeRoot(0x5_C24B_8B70, 0xC24B_8B70, 191);
    CubeRoot(0x5_C76C_51A3, 0xC76C_51A3, 193);
    CubeRoot(0x5_D192_E819, 0xD192_E819, 197);
    CubeRoot(0x5_D699_0624, 0xD699_0624, 199);
    CubeRoot(0x5_F40E_3585, 0xF40E_3585, 211);
    CubeRoot(0x6_106A_A070, 0x106A_A070, 223);
  }

  lemma CubeRoots6(i: nat)
    requires i < 8
    ensures IsCubeRootFraction(ConstantRow(6)[i], PrimeRow(6)[i])
  {
    hide IsCubeRootFraction;
    CubeRoot(0x6_19A4_C116, 0x19A4_C116, 227);
    CubeRoot(0x6_1E37_6C08, 0x1E37_6C08, 229);
    CubeRoot(0x6_2748_774C, 0x2748_774C, 233);
    CubeRoot(0x6_34B0_BCB5, 0x34B0_BCB5, 239);
    CubeRoot(0x6_391C_0CB3, 0x391C_0CB3, 241);
    CubeRoot(0x6_4ED8_AA4A, 0x4ED8_AA4A, 251);
    CubeRoot(0x6_5B9C_CA4F, 0x5B9C_CA4F, 257);
    CubeRoot(0x6_682E_6FF3, 0x682E_6FF3, 263);
  }

  lemma CubeRoots7(i: nat)
    requires i < 8
    ensures IsCubeRootFraction(ConstantRow(7)[i], PrimeRow(7)[i])
  {
    hide IsCubeRootFraction;
    CubeRoot(0x6_748F_82EE, 0x748F_82EE, 269);
    CubeRoot(0x6_78A5_636F, 0x78A5_636F, 271);
    CubeRoot(0x6_84C8_7814, 0x84C8_7814, 277);
    CubeRoot(0x6_8CC7_0208, 0x8CC7_0208, 281);
    CubeRoot(0x6_90BE_FFFA, 0x90BE_FFFA, 283);
    CubeRoot(0x6_A450_6CEB, 0xA450_6CEB, 293);
    CubeRoot(0x6_BEF9_A3F7, 0xBEF9_A3F7, 307);
    CubeRoot(0x6_C671_78F2, 0xC671_78F2, 311);
  }

  /** Round constant t is the first 32 bits of the fractional part of the cube root of
      prime t. */
  lemma RoundConstants(t: nat)
    requires t < 64
    ensures IsCubeRootFraction(K(t), Prime(t))
  {
    hide IsCubeRootFraction, ConstantRow, PrimeRow;
    var i := t % 8;
    match t / 8
    case 0 => CubeRoots0(i);
    case 1 => CubeRoots1(i);
    case 2 => CubeRoots2(i);
    case 3 => CubeRoots3(i);
    case 4 => CubeRoots4(i);
    case 5 => CubeRoots5(i);
    case 6 => CubeRoots6(i);
    case 7 => CubeRoots7(i);
  }

  lemma SquareRoot(r: nat, k: Word, p: nat)
    requires SquareRootBelow(r, p) && k as nat == r % 0x1_0000_0000
    ensures IsSquareRootFraction(k, p)
  {}

  /** The initial hash value holds the first 32 bits of the fractional parts of the
      square roots of the first eight primes. */
  lemma InitialHashValue()
    ensures IsSquareRootFraction(INITIAL.a, 2) && IsSquareRootFraction(INITIAL.b, 3)
    ensures IsSquareRootFraction(INITIAL.c, 5) && IsSquareRootFraction(INITIAL.d, 7)
    ensures IsSquareRootFraction(INITIAL.e, 11) && IsSquareRootFraction(INITIAL.f, 13)
    ensures IsSquareRootFraction(INITIAL.g, 17) && IsSquareRootFraction(INITIAL.h, 19)
  {
    hide IsSquareRootFraction;
    SquareRoot(0x1_6A09_E667, 0x6A09_E667, 2);
    SquareRoot(0x1_BB67_AE85, 0xBB67_AE85, 3);
    SquareRoot(0x2_3C6E_F372, 0x3C6E_F372, 5);
    SquareRoot(0x2_A54F_F53A, 0xA54F_F53A, 7);
    SquareRoot(0x3_510E_527F, 0x510E_527F, 11);
    SquareRoot(0x3_9B05_688C, 0x9B05_688C, 13);
    SquareRoot(0x4_1F83_D9AB, 0x1F83_D9AB, 17);
    SquareRoot(0x4_5BE0_CD19, 0x5BE0_CD19, 19);
  }
}
