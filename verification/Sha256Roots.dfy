/** Where the constants of SHA-256 come from: the roots of the first primes (sections 4.2.2 and 5.3.2 of FIPS 180-2). */
module Sha256Roots {
  import opened Sha256Spec

  // ---- primes --------------------------------------------------------------------------

  ghost predicate Prime(p: nat) {
    p >= 2 && forall d :: 2 <= d < p ==> p % d != 0
  }

  /** Prime `t`, counted from 0. */
  ghost predicate PrimeNumber(t: nat, p: nat) {
    if t == 0 then p == 2 && Prime(p) else exists q: nat :: PrimeNumber(t - 1, q) && Next(q, p)
  }

  ghost predicate Next(q: nat, p: nat) {
    q < p && Prime(p) && forall m: nat :: q < m < p ==> !Prime(m)
  }

  predicate Divides(p: nat, m: nat)
    requires p > 0
  {
    p < m && m % p == 0
  }

  predicate SmallFactor(m: nat) {
    Divides(2, m) || Divides(3, m) || Divides(5, m) || Divides(7, m) || Divides(11, m) || Divides(13, m) ||
      Divides(17, m)
  }

  /** Below 19 * 19 a number that is not prime has a prime factor below 19. */
  lemma SmallFactorIs(m: nat)
    requires 2 <= m < 361
    ensures Prime(m) <==> !SmallFactor(m)
  {
    if d: nat :| 2 <= d < m && m % d == 0 {
      var e := m / d;
      assert m == d * e && e >= 2;
      var f := if d < e then d else e;
      assert f * f <= d * e by { Squares(d, e, f); }
      assert f < 19 by { if f >= 19 { Squares(f, f, 19); } }
      assert m == f * (if d < e then e else d);
      FactorBelow19(m, f, if d < e then e else d);
    }
  }

  lemma Squares(d: nat, e: nat, f: nat)
    requires f <= d && f <= e
    ensures f * f <= d * e
  {
    assert f * f <= d * f <= d * e;
  }

  lemma FactorBelow19(m: nat, f: nat, g: nat)
    requires m == f * g && 2 <= f < 19 && f <= g
    ensures SmallFactor(m)
  {
    hide SmallFactor;
    if f == 2 || f == 3 || f == 5 || f == 7 || f == 11 || f == 13 || f == 17 { Multiple(m, f, g); }
    else if f == 9 || f == 15 { Multiple(m, 3, (f / 3) * g); }
    else { Multiple(m, 2, (f / 2) * g); }
  }

  lemma Multiple(m: nat, p: nat, h: nat)
    requires p == 2 || p == 3 || p == 5 || p == 7 || p == 11 || p == 13 || p == 17
    requires m == p * h && h >= 2
    ensures SmallFactor(m)
  {
    if p == 2 { Two(h); } else if p == 3 { Three(h); } else if p == 5 { Five(h); } else if p == 7 { Seven(h); }
    else if p == 11 { Eleven(h); } else if p == 13 { Thirteen(h); } else { Seventeen(h); }
    assert Divides(p, m);
    hide Divides;
  }

  lemma Two(h: nat)
    ensures (2 * h) % 2 == 0
  {
  }

  lemma Three(h: nat)
    ensures (3 * h) % 3 == 0
  {
  }

  lemma Five(h: nat)
    ensures (5 * h) % 5 == 0
  {
  }

  lemma Seven(h: nat)
    ensures (7 * h) % 7 == 0
  {
  }

  lemma Eleven(h: nat)
    ensures (11 * h) % 11 == 0
  {
  }

  lemma Thirteen(h: nat)
    ensures (13 * h) % 13 == 0
  {
  }

  lemma Seventeen(h: nat)
    ensures (17 * h) % 17 == 0
  {
  }

  /** No number between `m` and `p` is prime. */
  predicate Gap(m: nat, p: nat)
    decreases p - m
  {
    m + 1 >= p || (SmallFactor(m + 1) && Gap(m + 1, p))
  }

  lemma {:induction false} GapIs(m: nat, p: nat)
    requires 2 <= m && p < 361 && Gap(m, p)
    ensures forall k: nat :: m < k < p ==> !Prime(k)
    decreases p - m
  {
    hide Prime;
    if m + 1 < p {
      SmallFactorIs(m + 1);
      GapIs(m + 1, p);
    }
  }

  lemma NextPrime(t: nat, q: nat, p: nat)
    requires PrimeNumber(t, q) && 2 <= q < p < 361 && Gap(q, p) && !SmallFactor(p)
    ensures PrimeNumber(t + 1, p)
  {
    hide Prime;
    GapIs(q, p);
    SmallFactorIs(p);
    assert Next(q, p) && PrimeNumber((t + 1) - 1, q);
  }

  // ---- roots -----------------------------------------------------------------------------

  /** The first 32 bits of the fractional part of the cube root of `p` are `k`. */
  ghost predicate CubeRoot(p: nat, k: nat) {
    exists n: nat :: CubeAbove(p, n * 0x1_0000_0000 + k)
  }

  /** `x` is the cube root of `p`, times 2^32 and cut off. */
  predicate CubeAbove(p: nat, x: nat) {
    x * x * x <= p * 0x1_0000_0000_0000_0000_0000_0000 < (x + 1) * (x + 1) * (x + 1)
  }

  ghost predicate SquareRoot(p: nat, k: nat) {
    exists n: nat :: SquareAbove(p, n * 0x1_0000_0000 + k)
  }

  predicate SquareAbove(p: nat, x: nat) {
    x * x <= p * 0x1_0000_0000_0000_0000 < (x + 1) * (x + 1)
  }

  /** Constant `t` comes from prime `t`. */
  ghost predicate FromCubeRoot(t: nat)
    requires t < 64
  {
    exists p :: PrimeNumber(t, p) && CubeRoot(p, K(t) as nat)
  }

  lemma RootIs(t: nat, p: nat, n: nat, k: nat)
    requires t < 64 && PrimeNumber(t, p) && K(t) as nat == k && CubeAbove(p, n * 0x1_0000_0000 + k)
    ensures FromCubeRoot(t)
  {
  }

  lemma Primes0()
    ensures PrimeNumber(0, 2)
  {
    SmallFactorIs(2);
  }

  lemma Primes3()
    ensures PrimeNumber(0, 2) && PrimeNumber(1, 3) && PrimeNumber(2, 5) && PrimeNumber(3, 7)
  {
    hide PrimeNumber;
    Primes0();
    NextPrime(0, 2, 3);
    NextPrime(1, 3, 5);
    NextPrime(2, 5, 7);
  }

  lemma Primes7()
    ensures PrimeNumber(4, 11) && PrimeNumber(5, 13) && PrimeNumber(6, 17) && PrimeNumber(7, 19)
  {
    hide PrimeNumber;
    Primes3();
    NextPrime(3, 7, 11);
    NextPrime(4, 11, 13);
    NextPrime(5, 13, 17);
    NextPrime(6, 17, 19);
  }

  lemma Primes11()
    ensures PrimeNumber(8, 23) && PrimeNumber(9, 29) && PrimeNumber(10, 31) && PrimeNumber(11, 37)
  {
    hide PrimeNumber;
    Primes7();
    NextPrime(7, 19, 23);
    NextPrime(8, 23, 29);
    NextPrime(9, 29, 31);
    NextPrime(10, 31, 37);
  }

  lemma Primes15()
    ensures PrimeNumber(12, 41) && PrimeNumber(13, 43) && PrimeNumber(14, 47) && PrimeNumber(15, 53)
  {
    hide PrimeNumber;
    Primes11();
    NextPrime(11, 37, 41);
    NextPrime(12, 41, 43);
    NextPrime(13, 43, 47);
    NextPrime(14, 47, 53);
  }

  lemma Primes19()
    ensures PrimeNumber(16, 59) && PrimeNumber(17, 61) && PrimeNumber(18, 67) && PrimeNumber(19, 71)
  {
    hide PrimeNumber;
    Primes15();
    NextPrime(15, 53, 59);
    NextPrime(16, 59, 61);
    NextPrime(17, 61, 67);
    NextPrime(18, 67, 71);
  }

  lemma Primes23()
    ensures PrimeNumber(20, 73) && PrimeNumber(21, 79) && PrimeNumber(22, 83) && PrimeNumber(23, 89)
  {
    hide PrimeNumber;
    Primes19();
    NextPrime(19, 71, 73);
    NextPrime(20, 73, 79);
    NextPrime(21, 79, 83);
    NextPrime(22, 83, 89);
  }

  lemma Primes27()
    ensures PrimeNumber(24, 97) && PrimeNumber(25, 101) && PrimeNumber(26, 103) && PrimeNumber(27, 107)
  {
    hide PrimeNumber;
    Primes23();
    NextPrime(23, 89, 97);
    NextPrime(24, 97, 101);
    NextPrime(25, 101, 103);
    NextPrime(26, 103, 107);
  }

  lemma Primes31()
    ensures PrimeNumber(28, 109) && PrimeNumber(29, 113) && PrimeNumber(30, 127) && PrimeNumber(31, 131)
  {
    hide PrimeNumber;
    Primes27();
    NextPrime(27, 107, 109);
    NextPrime(28, 109, 113);
    NextPrime(29, 113, 127);
    NextPrime(30, 127, 131);
  }

  lemma Primes35()
    ensures PrimeNumber(32, 137) && PrimeNumber(33, 139) && PrimeNumber(34, 149) && PrimeNumber(35, 151)
  {
    hide PrimeNumber;
    Primes31();
    NextPrime(31, 131, 137);
    NextPrime(32, 137, 139);
    NextPrime(33, 139, 149);
    NextPrime(34, 149, 151);
  }

  lemma Primes39()
    ensures PrimeNumber(36, 157) && PrimeNumber(37, 163) && PrimeNumber(38, 167) && PrimeNumber(39, 173)
  {
    hide PrimeNumber;
    Primes35();
    NextPrime(35, 151, 157);
    NextPrime(36, 157, 163);
    NextPrime(37, 163, 167);
    NextPrime(38, 167, 173);
  }

  lemma Primes43()
    ensures PrimeNumber(40, 179) && PrimeNumber(41, 181) && PrimeNumber(42, 191) && PrimeNumber(43, 193)
  {
    hide PrimeNumber;
    Primes39();
    NextPrime(39, 173, 179);
    NextPrime(40, 179, 181);
    NextPrime(41, 181, 191);
    NextPrime(42, 191, 193);
  }

  lemma Primes47()
    ensures PrimeNumber(44, 197) && PrimeNumber(45, 199) && PrimeNumber(46, 211) && PrimeNumber(47, 223)
  {
    hide PrimeNumber;
    Primes43();
    NextPrime(43, 193, 197);
    NextPrime(44, 197, 199);
    NextPrime(45, 199, 211);
    NextPrime(46, 211, 223);
  }

  lemma Primes51()
    ensures PrimeNumber(48, 227) && PrimeNumber(49, 229) && PrimeNumber(50, 233) && PrimeNumber(51, 239)
  {
    hide PrimeNumber;
    Primes47();
    NextPrime(47, 223, 227);
    NextPrime(48, 227, 229);
    NextPrime(49, 229, 233);
    NextPrime(50, 233, 239);
  }

  lemma Primes55()
    ensures PrimeNumber(52, 241) && PrimeNumber(53, 251) && PrimeNumber(54, 257) && PrimeNumber(55, 263)
  {
    hide PrimeNumber;
    Primes51();
    NextPrime(51, 239, 241);
    NextPrime(52, 241, 251);
    NextPrime(53, 251, 257);
    NextPrime(54, 257, 263);
  }

  lemma Primes59()
    ensures PrimeNumber(56, 269) && PrimeNumber(57, 271) && PrimeNumber(58, 277) && PrimeNumber(59, 281)
  {
    hide PrimeNumber;
    Primes55();
    NextPrime(55, 263, 269);
    NextPrime(56, 269, 271);
    NextPrime(57, 271, 277);
    NextPrime(58, 277, 281);
  }

  lemma Primes63()
    ensures PrimeNumber(60, 283) && PrimeNumber(61, 293) && PrimeNumber(62, 307) && PrimeNumber(63, 311)
  {
    hide PrimeNumber;
    Primes59();
    NextPrime(59, 281, 283);
    NextPrime(60, 283, 293);
    NextPrime(61, 293, 307);
    NextPrime(62, 307, 311);
  }

  lemma Roots0(t: nat)
    requires 0 <= t < 8
    ensures FromCubeRoot(t)
  {
    hide PrimeNumber;
    hide FromCubeRoot;
    Primes3();
    Primes7();
    if t == 0 { RootIs(0, 2, 1, 0x428A2F98); }
    else if t == 1 { RootIs(1, 3, 1, 0x71374491); }
    else if t == 2 { RootIs(2, 5, 1, 0xB5C0FBCF); }
    else if t == 3 { RootIs(3, 7, 1, 0xE9B5DBA5); }
    else if t == 4 { RootIs(4, 11, 2, 0x3956C25B); }
    else if t == 5 { RootIs(5, 13, 2, 0x59F111F1); }
    else if t == 6 { RootIs(6, 17, 2, 0x923F82A4); }
    else { RootIs(7, 19, 2, 0xAB1C5ED5); }
  }

  lemma Roots8(t: nat)
    requires 8 <= t < 16
    ensures FromCubeRoot(t)
  {
    hide PrimeNumber;
    hide FromCubeRoot;
    Primes11();
    Primes15();
    if t == 8 { RootIs(8, 23, 2, 0xD807AA98); }
    else if t == 9 { RootIs(9, 29, 3, 0x12835B01); }
    else if t == 10 { RootIs(10, 31, 3, 0x243185BE); }
    else if t == 11 { RootIs(11, 37, 3, 0x550C7DC3); }
    else if t == 12 { RootIs(12, 41, 3, 0x72BE5D74); }
    else if t == 13 { RootIs(13, 43, 3, 0x80DEB1FE); }
    else if t == 14 { RootIs(14, 47, 3, 0x9BDC06A7); }
    else { RootIs(15, 53, 3, 0xC19BF174); }
  }

  lemma Roots16(t: nat)
    requires 16 <= t < 24
    ensures FromCubeRoot(t)
  {
    hide PrimeNumber;
    hide FromCubeRoot;
    Primes19();
    Primes23();
    if t == 16 { RootIs(16, 59, 3, 0xE49B69C1); }
    else if t == 17 { RootIs(17, 61, 3, 0xEFBE4786); }
    else if t == 18 { RootIs(18, 67, 4, 0x0FC19DC6); }
    else if t == 19 { RootIs(19, 71, 4, 0x240CA1CC); }
    else if t == 20 { RootIs(20, 73, 4, 0x2DE92C6F); }
    else if t == 21 { RootIs(21, 79, 4, 0x4A7484AA); }
    else if t == 22 { RootIs(22, 83, 4, 0x5CB0A9DC); }
    else { RootIs(23, 89, 4, 0x76F988DA); }
  }

  lemma Roots24(t: nat)
    requires 24 <= t < 32
    ensures FromCubeRoot(t)
  {
    hide PrimeNumber;
    hide FromCubeRoot;
    Primes27();
    Primes31();
    if t == 24 { RootIs(24, 97, 4, 0x983E5152); }
    else if t == 25 { RootIs(25, 101, 4, 0xA831C66D); }
    else if t == 26 { RootIs(26, 103, 4, 0xB00327C8); }
    else if t == 27 { RootIs(27, 107, 4, 0xBF597FC7); }
    else if t == 28 { RootIs(28, 109, 4, 0xC6E00BF3); }
    else if t == 29 { RootIs(29, 113, 4, 0xD5A79147); }
    else if t == 30 { RootIs(30, 127, 5, 0x06CA6351); }
    else { RootIs(31, 131, 5, 0x14292967); }
  }

  lemma Roots32(t: nat)
    requires 32 <= t < 40
    ensures FromCubeRoot(t)
  {
    hide PrimeNumber;
    hide FromCubeRoot;
    Primes35();
    Primes39();
    if t == 32 { RootIs(32, 137, 5, 0x27B70A85); }
    else if t == 33 { RootIs(33, 139, 5, 0x2E1B2138); }
    else if t == 34 { RootIs(34, 149, 5, 0x4D2C6DFC); }
    else if t == 35 { RootIs(35, 151, 5, 0x53380D13); }
    else if t == 36 { RootIs(36, 157, 5, 0x650A7354); }
    else if t == 37 { RootIs(37, 163, 5, 0x766A0ABB); }
    else if t == 38 { RootIs(38, 167, 5, 0x81C2C92E); }
    else { RootIs(39, 173, 5, 0x92722C85); }
  }

  lemma Roots40(t: nat)
    requires 40 <= t < 48
    ensures FromCubeRoot(t)
  {
    hide PrimeNumber;
    hide FromCubeRoot;
    Primes43();
    Primes47();
    if t == 40 { RootIs(40, 179, 5, 0xA2BFE8A1); }
    else if t == 41 { RootIs(41, 181, 5, 0xA81A664B); }
    else if t == 42 { RootIs(42, 191, 5, 0xC24B8B70); }
    else if t == 43 { RootIs(43, 193, 5, 0xC76C51A3); }
    else if t == 44 { RootIs(44, 197, 5, 0xD192E819); }
    else if t == 45 { RootIs(45, 199, 5, 0xD6990624); }
    else if t == 46 { RootIs(46, 211, 5, 0xF40E3585); }
    else { RootIs(47, 223, 6, 0x106AA070); }
  }

  lemma Roots48(t: nat)
    requires 48 <= t < 56
    ensures FromCubeRoot(t)
  {
    hide PrimeNumber;
    hide FromCubeRoot;
    Primes51();
    Primes55();
    if t == 48 { RootIs(48, 227, 6, 0x19A4C116); }
    else if t == 49 { RootIs(49, 229, 6, 0x1E376C08); }
    else if t == 50 { RootIs(50, 233, 6, 0x2748774C); }
    else if t == 51 { RootIs(51, 239, 6, 0x34B0BCB5); }
    else if t == 52 { RootIs(52, 241, 6, 0x391C0CB3); }
    else if t == 53 { RootIs(53, 251, 6, 0x4ED8AA4A); }
    else if t == 54 { RootIs(54, 257, 6, 0x5B9CCA4F); }
    else { RootIs(55, 263, 6, 0x682E6FF3); }
  }

  lemma Roots56(t: nat)
    requires 56 <= t < 64
    ensures FromCubeRoot(t)
  {
    hide PrimeNumber;
    hide FromCubeRoot;
    Primes59();
    Primes63();
    if t == 56 { RootIs(56, 269, 6, 0x748F82EE); }
    else if t == 57 { RootIs(57, 271, 6, 0x78A5636F); }
    else if t == 58 { RootIs(58, 277, 6, 0x84C87814); }
    else if t == 59 { RootIs(59, 281, 6, 0x8CC70208); }
    else if t == 60 { RootIs(60, 283, 6, 0x90BEFFFA); }
    else if t == 61 { RootIs(61, 293, 6, 0xA4506CEB); }
    else if t == 62 { RootIs(62, 307, 6, 0xBEF9A3F7); }
    else { RootIs(63, 311, 6, 0xC67178F2); }
  }

  /** Every constant of the rounds is the fraction of the cube root of its prime. */
  lemma ConstantIs(t: nat)
    requires t < 64
    ensures FromCubeRoot(t)
  {
    hide FromCubeRoot;
    if t < 8 { Roots0(t); }
    else if t < 16 { Roots8(t); }
    else if t < 24 { Roots16(t); }
    else if t < 32 { Roots24(t); }
    else if t < 40 { Roots32(t); }
    else if t < 48 { Roots40(t); }
    else if t < 56 { Roots48(t); }
    else { Roots56(t); }
  }

  /** Every word of the initial hash value is the fraction of the square root of its prime. */
  lemma InitialIs()
    ensures PrimeNumber(0, 2) && SquareRoot(2, INITIAL.a as nat)
    ensures PrimeNumber(1, 3) && SquareRoot(3, INITIAL.b as nat)
    ensures PrimeNumber(2, 5) && SquareRoot(5, INITIAL.c as nat)
    ensures PrimeNumber(3, 7) && SquareRoot(7, INITIAL.d as nat)
    ensures PrimeNumber(4, 11) && SquareRoot(11, INITIAL.e as nat)
    ensures PrimeNumber(5, 13) && SquareRoot(13, INITIAL.f as nat)
    ensures PrimeNumber(6, 17) && SquareRoot(17, INITIAL.g as nat)
    ensures PrimeNumber(7, 19) && SquareRoot(19, INITIAL.h as nat)
  {
    hide PrimeNumber;
    Primes3();
    Primes7();
    assert SquareAbove(2, 1 * 0x1_0000_0000 + 0x6A09E667);
    assert SquareAbove(3, 1 * 0x1_0000_0000 + 0xBB67AE85);
    assert SquareAbove(5, 2 * 0x1_0000_0000 + 0x3C6EF372);
    assert SquareAbove(7, 2 * 0x1_0000_0000 + 0xA54FF53A);
    assert SquareAbove(11, 3 * 0x1_0000_0000 + 0x510E527F);
    assert SquareAbove(13, 3 * 0x1_0000_0000 + 0x9B05688C);
    assert SquareAbove(17, 4 * 0x1_0000_0000 + 0x1F83D9AB);
    assert SquareAbove(19, 4 * 0x1_0000_0000 + 0x5BE0CD19);
  }
}
