/** The field GF(2^8) of section 4 of FIPS-197, as far as the S-box needs it. */
module Field {

  /** Addition in the field (section 4.1). */
  function Add(a: bv8, b: bv8): bv8 {
    a ^ b
  }

  /** Multiplication by x (section 4.2.1), in a form that is visibly linear. */
  function Xtime(b: bv8): bv8 {
    (b << 1) ^ (b >> 7) ^ ((b >> 7) << 1) ^ ((b >> 7) << 3) ^ ((b >> 7) << 4)
  }

  /** The XTIME macro (security/aes.c:63). */
  function XtimeMacro(b: bv8): bv8 {
    (b << 1) ^ (if b & 0x80 != 0 then 0x1B else 0)
  }

  lemma XtimeIs(b: bv8)
    ensures XtimeMacro(b) == Xtime(b)
  {
  }

  function Bit(a: bv8, mask: bv8, b: bv8): bv8 {
    if a & mask != 0 then b else 0
  }

  /** Multiplication in the field (section 4.2). */
  function Mul(a: bv8, b: bv8): bv8 {
    var b1 := Xtime(b);
    var b2 := Xtime(b1);
    var b3 := Xtime(b2);
    var b4 := Xtime(b3);
    var b5 := Xtime(b4);
    var b6 := Xtime(b5);
    var b7 := Xtime(b6);
    Sum(Bit(a, 0x01, b), Bit(a, 0x02, b1), Bit(a, 0x04, b2), Bit(a, 0x08, b3),
        Bit(a, 0x10, b4), Bit(a, 0x20, b5), Bit(a, 0x40, b6), Bit(a, 0x80, b7))
  }

  function Sum(a: bv8, b: bv8, c: bv8, d: bv8, e: bv8, f: bv8, g: bv8, h: bv8): bv8 {
    Add(a, Add(b, Add(c, Add(d, Add(e, Add(f, Add(g, h)))))))
  }

  // ---- linearity -----------------------------------------------------------

  lemma XtimeLinear(a: bv8, b: bv8)
    ensures Xtime(Add(a, b)) == Add(Xtime(a), Xtime(b))
  {
  }

  /** Multiplication by the generator x + 1. */
  function Step(b: bv8): bv8 {
    Add(b, Xtime(b))
  }

  lemma StepLinear(a: bv8, b: bv8)
    ensures Step(Add(a, b)) == Add(Step(a), Step(b))
  {
    hide Xtime;
    hide Add;
    XtimeLinear(a, b);
    Exchange(a, b, Xtime(a), Xtime(b));
  }

  lemma AddAssociative(a: bv8, b: bv8, c: bv8)
    ensures Add(Add(a, b), c) == Add(a, Add(b, c))
  {
  }

  lemma AddCommutative(a: bv8, b: bv8)
    ensures Add(a, b) == Add(b, a)
  {
  }

  lemma Exchange(a: bv8, b: bv8, x: bv8, y: bv8)
    ensures Add(Add(a, b), Add(x, y)) == Add(Add(a, x), Add(b, y))
  {
    hide Add;
    AddAssociative(a, b, Add(x, y));
    AddAssociative(b, x, y);
    AddCommutative(b, x);
    AddAssociative(x, b, y);
    AddAssociative(a, x, Add(b, y));
  }

  lemma StepInjective(a: bv8, b: bv8)
    requires Step(a) == Step(b)
    ensures a == b
  {
  }

  lemma XtimeStep(b: bv8)
    ensures Xtime(Step(b)) == Step(Xtime(b))
  {
  }

  lemma BitStep(a: bv8, mask: bv8, b: bv8)
    ensures Bit(a, mask, Step(b)) == Step(Bit(a, mask, b))
  {
    assert Step(0) == 0;
  }

  lemma MulStep(a: bv8, b: bv8)
    ensures Mul(a, Step(b)) == Step(Mul(a, b))
  {
    hide Step;
    hide Xtime;
    hide Bit;
    hide Sum;
    var b1 := Xtime(b);
    var b2 := Xtime(b1);
    var b3 := Xtime(b2);
    var b4 := Xtime(b3);
    var b5 := Xtime(b4);
    var b6 := Xtime(b5);
    var b7 := Xtime(b6);
    XtimeStep(b); XtimeStep(b1); XtimeStep(b2); XtimeStep(b3); XtimeStep(b4); XtimeStep(b5); XtimeStep(b6);
    BitStep(a, 0x01, b); BitStep(a, 0x02, b1); BitStep(a, 0x04, b2); BitStep(a, 0x08, b3);
    BitStep(a, 0x10, b4); BitStep(a, 0x20, b5); BitStep(a, 0x40, b6); BitStep(a, 0x80, b7);
    StepSum(Bit(a, 0x01, b), Bit(a, 0x02, b1), Bit(a, 0x04, b2), Bit(a, 0x08, b3),
            Bit(a, 0x10, b4), Bit(a, 0x20, b5), Bit(a, 0x40, b6), Bit(a, 0x80, b7));
  }

  lemma StepSum(a: bv8, b: bv8, c: bv8, d: bv8, e: bv8, f: bv8, g: bv8, h: bv8)
    ensures Step(Sum(a, b, c, d, e, f, g, h))
         == Sum(Step(a), Step(b), Step(c), Step(d), Step(e), Step(f), Step(g), Step(h))
  {
    hide Step;
    hide Add;
    StepLinear(g, h);
    StepLinear(f, Add(g, h));
    StepLinear(e, Add(f, Add(g, h)));
    StepLinear(d, Add(e, Add(f, Add(g, h))));
    StepLinear(c, Add(d, Add(e, Add(f, Add(g, h)))));
    StepLinear(b, Add(c, Add(d, Add(e, Add(f, Add(g, h))))));
    StepLinear(a, Add(b, Add(c, Add(d, Add(e, Add(f, Add(g, h)))))));
  }

  /** Multiplication distributes over addition. */
  lemma MulLinear(a: bv8, x: bv8, y: bv8)
    ensures Mul(a, Add(x, y)) == Add(Mul(a, x), Mul(a, y))
  {
    hide Xtime;
    hide Bit;
    hide Sum;
    hide Add;
    var x1, y1 := Xtime(x), Xtime(y);
    var x2, y2 := Xtime(x1), Xtime(y1);
    var x3, y3 := Xtime(x2), Xtime(y2);
    var x4, y4 := Xtime(x3), Xtime(y3);
    var x5, y5 := Xtime(x4), Xtime(y4);
    var x6, y6 := Xtime(x5), Xtime(y5);
    var x7, y7 := Xtime(x6), Xtime(y6);
    XtimeLinear(x, y); XtimeLinear(x1, y1); XtimeLinear(x2, y2); XtimeLinear(x3, y3);
    XtimeLinear(x4, y4); XtimeLinear(x5, y5); XtimeLinear(x6, y6);
    BitLinear(a, 0x01, x, y); BitLinear(a, 0x02, x1, y1); BitLinear(a, 0x04, x2, y2); BitLinear(a, 0x08, x3, y3);
    BitLinear(a, 0x10, x4, y4); BitLinear(a, 0x20, x5, y5); BitLinear(a, 0x40, x6, y6); BitLinear(a, 0x80, x7, y7);
    SumLinear(Bit(a, 0x01, x), Bit(a, 0x02, x1), Bit(a, 0x04, x2), Bit(a, 0x08, x3),
              Bit(a, 0x10, x4), Bit(a, 0x20, x5), Bit(a, 0x40, x6), Bit(a, 0x80, x7),
              Bit(a, 0x01, y), Bit(a, 0x02, y1), Bit(a, 0x04, y2), Bit(a, 0x08, y3),
              Bit(a, 0x10, y4), Bit(a, 0x20, y5), Bit(a, 0x40, y6), Bit(a, 0x80, y7));
  }

  lemma BitLinear(a: bv8, mask: bv8, x: bv8, y: bv8)
    ensures Bit(a, mask, Add(x, y)) == Add(Bit(a, mask, x), Bit(a, mask, y))
  {
  }

  lemma SumLinear(a: bv8, b: bv8, c: bv8, d: bv8, e: bv8, f: bv8, g: bv8, h: bv8,
                  p: bv8, q: bv8, r: bv8, s: bv8, t: bv8, u: bv8, v: bv8, w: bv8)
    ensures Sum(Add(a, p), Add(b, q), Add(c, r), Add(d, s), Add(e, t), Add(f, u), Add(g, v), Add(h, w))
         == Add(Sum(a, b, c, d, e, f, g, h), Sum(p, q, r, s, t, u, v, w))
  {
    hide Add;
    var a6, p6 := Add(g, h), Add(v, w);
    var a5, p5 := Add(f, a6), Add(u, p6);
    var a4, p4 := Add(e, a5), Add(t, p5);
    var a3, p3 := Add(d, a4), Add(s, p4);
    var a2, p2 := Add(c, a3), Add(r, p3);
    var a1, p1 := Add(b, a2), Add(q, p2);
    Exchange(g, v, h, w);
    Exchange(f, u, a6, p6);
    Exchange(e, t, a5, p5);
    Exchange(d, s, a4, p4);
    Exchange(c, r, a3, p3);
    Exchange(b, q, a2, p2);
    Exchange(a, p, a1, p1);
  }

  lemma MulOne(a: bv8)
    ensures Mul(a, 1) == a
  {
    assert Xtime(0x01) == 0x02 && Xtime(0x02) == 0x04 && Xtime(0x04) == 0x08 && Xtime(0x08) == 0x10;
    assert Xtime(0x10) == 0x20 && Xtime(0x20) == 0x40 && Xtime(0x40) == 0x80;
    Bits(a);
  }

  lemma Bits(a: bv8)
    ensures Sum(Bit(a, 0x01, 0x01), Bit(a, 0x02, 0x02), Bit(a, 0x04, 0x04), Bit(a, 0x08, 0x08),
                Bit(a, 0x10, 0x10), Bit(a, 0x20, 0x20), Bit(a, 0x40, 0x40), Bit(a, 0x80, 0x80)) == a
  {
  }

  lemma MulZero(a: bv8)
    ensures Mul(a, 0) == 0 && Mul(0, a) == 0
  {
    assert Xtime(0) == 0;
  }

  /** A product of two constants, from the multiples of the second by the powers of x. */
  lemma MulIs(a: bv8, b: bv8, b1: bv8, b2: bv8, b3: bv8, b4: bv8, b5: bv8, b6: bv8, b7: bv8, r: bv8)
    requires Xtime(b) == b1 && Xtime(b1) == b2 && Xtime(b2) == b3 && Xtime(b3) == b4
    requires Xtime(b4) == b5 && Xtime(b5) == b6 && Xtime(b6) == b7
    requires Sum(Bit(a, 0x01, b), Bit(a, 0x02, b1), Bit(a, 0x04, b2), Bit(a, 0x08, b3),
                 Bit(a, 0x10, b4), Bit(a, 0x20, b5), Bit(a, 0x40, b6), Bit(a, 0x80, b7)) == r
    ensures Mul(a, b) == r
  {
    hide Xtime;
    hide Bit;
    hide Sum;
  }

  // ---- powers of the generator --------------------------------------------

  function Power(n: nat): bv8 {
    if n == 0 then 1 else Step(Power(n - 1))
  }

  function Steps(n: nat, b: bv8): bv8 {
    if n == 0 then b else Step(Steps(n - 1, b))
  }

  lemma {:induction false} MulPower(a: bv8, n: nat)
    ensures Mul(a, Power(n)) == Steps(n, a)
  {
    hide Mul;
    hide Step;
    if n == 0 {
      MulOne(a);
    } else {
      MulPower(a, n - 1);
      MulStep(a, Power(n - 1));
    }
  }

  lemma {:induction false} StepsPower(n: nat, m: nat)
    ensures Steps(n, Power(m)) == Power(n + m)
  {
    hide Step;
    if n > 0 { StepsPower(n - 1, m); }
  }

  /** Powers multiply by adding exponents. */
  lemma MulPowers(n: nat, m: nat)
    ensures Mul(Power(n), Power(m)) == Power(n + m)
  {
    hide Mul;
    hide Step;
    MulPower(Power(n), m);
    StepsPower(m, n);
  }

  lemma {:induction false} StepsInjective(n: nat, a: bv8, b: bv8)
    requires Steps(n, a) == Steps(n, b)
    ensures a == b
  {
    hide Step;
    if n > 0 {
      StepInjective(Steps(n - 1, a), Steps(n - 1, b));
      StepsInjective(n - 1, a, b);
    }
  }

  // ---- the order of the generator ------------------------------------------

  lemma SmallPowers()
    ensures Power(1) == 0x03 && Power(2) == 0x05 && Power(3) == 0x0F && Power(4) == 0x11 && Power(5) == 0x33
  {
    assert Step(0x01) == 0x03 && Step(0x03) == 0x05 && Step(0x05) == 0x0F && Step(0x0F) == 0x11 && Step(0x11) == 0x33;
  }

  lemma Powers15To17()
    ensures Power(15) == 0x35 && Power(16) == 0x5F && Power(17) == 0xE1
  {
    hide Mul;
    hide Step;
    SmallPowers();
    MulPowers(5, 5);
    MulPowers(10, 5);
    Products5();
    assert Power(16) == Step(Power(15)) && Power(17) == Step(Power(16));
    Steps15();
  }

  lemma Steps15()
    ensures Step(0x35) == 0x5F && Step(0x5F) == 0xE1
  {
  }

  lemma Products5()
    ensures Mul(0x33, 0x33) == 0x72 && Mul(0x72, 0x33) == 0x35
  {
    hide Mul;
    MulIs(0x33, 0x33, 0x66, 0xCC, 0x83, 0x1D, 0x3A, 0x74, 0xE8, 0x72);
    MulIs(0x72, 0x33, 0x66, 0xCC, 0x83, 0x1D, 0x3A, 0x74, 0xE8, 0x35);
  }

  lemma LargePowers()
    ensures Power(51) != 1 && Power(85) != 1 && Power(255) == 1
  {
    hide Mul;
    hide Step;
    hide Power;
    Powers15To17();
    MulPowers(17, 17);
    MulPowers(34, 17);
    MulPowers(34, 34);
    MulPowers(68, 17);
    MulPowers(85, 85);
    MulPowers(170, 85);
    Product34();
    Product51();
    Product68();
    Product85();
    Product170();
    Product255();
  }

  lemma Product34()
    ensures Mul(0xE1, 0xE1) == 0x5C
  {
    hide Mul;
    MulIs(0xE1, 0xE1, 0xD9, 0xA9, 0x49, 0x92, 0x3F, 0x7E, 0xFC, 0x5C);
  }

  lemma Product51()
    ensures Mul(0x5C, 0xE1) == 0x0C
  {
    hide Mul;
    MulIs(0x5C, 0xE1, 0xD9, 0xA9, 0x49, 0x92, 0x3F, 0x7E, 0xFC, 0x0C);
  }

  lemma Product68()
    ensures Mul(0x5C, 0x5C) == 0xE0
  {
    hide Mul;
    MulIs(0x5C, 0x5C, 0xB8, 0x6B, 0xD6, 0xB7, 0x75, 0xEA, 0xCF, 0xE0);
  }

  lemma Product85()
    ensures Mul(0xE0, 0xE1) == 0xBD
  {
    hide Mul;
    MulIs(0xE0, 0xE1, 0xD9, 0xA9, 0x49, 0x92, 0x3F, 0x7E, 0xFC, 0xBD);
  }

  lemma Product170()
    ensures Mul(0xBD, 0xBD) == 0xBC
  {
    hide Mul;
    MulIs(0xBD, 0xBD, 0x61, 0xC2, 0x9F, 0x25, 0x4A, 0x94, 0x33, 0xBC);
  }

  lemma Product255()
    ensures Mul(0xBC, 0xBD) == 0x01
  {
    hide Mul;
    MulIs(0xBC, 0xBD, 0x61, 0xC2, 0x9F, 0x25, 0x4A, 0x94, 0x33, 0x01);
  }

  lemma {:induction false} PowerMultiple(m: nat, q: nat)
    requires Power(m) == 1
    ensures Power(m * q) == 1
  {
    hide Mul;
    hide Power;
    if q == 0 {
      assert Power(0) == 1 by { PowerZero(); }
    } else {
      PowerMultiple(m, q - 1);
      assert m * q == m + m * (q - 1);
      MulPowers(m, m * (q - 1));
      MulOne(1);
    }
  }

  lemma PowerZero()
    ensures Power(0) == 1
  {
  }

  lemma Divisors(m: nat, q: nat)
    requires m * q == 255 && m < 255
    ensures m == 1 || m == 3 || m == 5 || m == 15 || m == 17 || m == 51 || m == 85
  {
    if m > 15 { assert 255 == m * q >= 16 * q; }
  }

  /** The generator has order 255. */
  lemma {:induction false} NoShortCycle(m: nat)
    requires 0 < m < 255
    ensures Power(m) != 1
  {
    hide Mul;
    hide Power;
    if Power(m) == 1 {
      var q, r := 255 / m, 255 % m;
      PowerMultiple(m, q);
      MulPowers(r, m * q);
      LargePowers();
      MulOne(Power(r));
      if r > 0 {
        NoShortCycle(r);
      } else {
        Divisors(m, q);
        SmallPowers();
        Powers15To17();
      }
    }
  }

  lemma StepNonZero(b: bv8)
    requires b != 0
    ensures Step(b) != 0
  {
    assert Step(0) == 0;
    if Step(b) == 0 { StepInjective(b, 0); }
  }

  lemma {:induction false} PowerNonZero(n: nat)
    ensures Power(n) != 0
  {
    if n > 0 {
      PowerNonZero(n - 1);
      StepNonZero(Power(n - 1));
    }
  }

  lemma PowersDiffer(i: nat, j: nat)
    requires i < j < 255
    ensures Power(i) != Power(j)
  {
    hide Step;
    hide Power;
    PowerZero();
    StepsPower(i, 0);
    StepsPower(i, j - i);
    NoShortCycle(j - i);
    if Power(i) == Power(j) { StepsInjective(i, 1, Power(j - i)); }
  }

  // ---- every non-zero byte is a power ---------------------------------------

  ghost function FirstBytes(n: nat): (r: set<bv8>)
    requires n <= 256
    ensures forall b: bv8 :: b as int < n ==> b in r
    ensures |r| <= n
  {
    if n == 0 then {} else FirstBytes(n - 1) + {(n - 1) as bv8}
  }

  ghost function FirstPowers(n: nat): set<bv8> {
    if n == 0 then {} else FirstPowers(n - 1) + {Power(n - 1)}
  }

  lemma {:induction false} FirstPowersAre(n: nat, b: bv8) returns (k: nat)
    requires b in FirstPowers(n)
    ensures k < n && Power(k) == b
  {
    hide Power;
    if b == Power(n - 1) {
      k := n - 1;
    } else {
      k := FirstPowersAre(n - 1, b);
    }
  }

  lemma {:induction false} FirstPowersSize(n: nat)
    requires n <= 255
    ensures |FirstPowers(n)| == n
  {
    hide Power;
    if n > 0 {
      FirstPowersSize(n - 1);
      if Power(n - 1) in FirstPowers(n - 1) {
        var k := FirstPowersAre(n - 1, Power(n - 1));
        PowersDiffer(k, n - 1);
      }
    }
  }

  lemma SubsetSize<T>(a: set<T>, b: set<T>)
    requires a <= b
    ensures |a| <= |b|
  {
    assert b == a + (b - a);
  }

  lemma HasLog(b: bv8)
    requires b != 0
    ensures exists n: nat :: n < 255 && Power(n) == b
  {
    hide Power;
    hide FirstBytes;
    hide FirstPowers;
    var powers := FirstPowers(255);
    FirstPowersSize(255);
    if 0 in powers {
      var k := FirstPowersAre(255, 0);
      PowerNonZero(k);
    }
    if b in powers {
      var k := FirstPowersAre(255, b);
    } else {
      assert |powers + {b}| == 256;
      assert |powers + {b} + {0}| == 257;
      SubsetSize(powers + {b} + {0}, FirstBytes(256));
    }
  }

  // ---- inverses ---------------------------------------------------------------

  /** The inverse of section 4.2, with zero for zero. */
  ghost function Inverse(b: bv8): (r: bv8)
    ensures b == 0 ==> r == 0
    ensures b != 0 ==> Mul(b, r) == 1
  {
    if b == 0 then 0
    else
      HasInverse(b);
      var r :| Mul(b, r) == 1;
      r
  }

  lemma InversePowers(n: nat)
    requires n <= 255
    ensures Mul(Power(n), Power(255 - n)) == 1
  {
    hide Mul;
    hide Power;
    MulPowers(n, 255 - n);
    LargePowers();
  }

  lemma HasInverse(b: bv8)
    requires b != 0
    ensures exists r :: Mul(b, r) == 1
  {
    hide Mul;
    hide Power;
    HasLog(b);
    var n: nat :| n < 255 && Power(n) == b;
    InversePowers(n);
  }

  lemma MulInjective(b: bv8, x: bv8, y: bv8)
    requires b != 0 && Mul(b, x) == Mul(b, y) && x != 0 && y != 0
    ensures x == y
  {
    hide Mul;
    hide Power;
    HasLog(b);
    HasLog(x);
    HasLog(y);
    var n: nat :| n < 255 && Power(n) == b;
    var i: nat :| i < 255 && Power(i) == x;
    var j: nat :| j < 255 && Power(j) == y;
    MulPowers(n, i);
    MulPowers(n, j);
    StepsPower(n, i);
    StepsPower(n, j);
    StepsInjective(n, x, y);
  }

  lemma InverseIs(b: bv8, r: bv8)
    requires Mul(b, r) == 1
    ensures Inverse(b) == r
  {
    hide Mul;
    MulZero(b);
    MulZero(r);
    MulInjective(b, Inverse(b), r);
  }

  lemma MulCommutative(a: bv8, b: bv8)
    ensures Mul(a, b) == Mul(b, a)
  {
    hide Mul;
    hide Power;
    MulZero(a);
    MulZero(b);
    if a != 0 && b != 0 {
      HasLog(a);
      HasLog(b);
      var i: nat :| i < 255 && Power(i) == a;
      var j: nat :| j < 255 && Power(j) == b;
      MulPowers(i, j);
      MulPowers(j, i);
    }
  }

  lemma InverseTwice(b: bv8)
    ensures Inverse(Inverse(b)) == b
  {
    hide Mul;
    if b != 0 {
      MulCommutative(b, Inverse(b));
      InverseIs(Inverse(b), b);
    }
  }

  // ---- the laws of the field ---------------------------------------------------------

  lemma MulAssociative(a: bv8, b: bv8, c: bv8)
    ensures Mul(a, Mul(b, c)) == Mul(Mul(a, b), c)
  {
    hide Mul;
    hide Power;
    MulZero(a);
    MulZero(b);
    MulZero(c);
    MulZero(Mul(a, b));
    MulZero(Mul(b, c));
    if a != 0 && b != 0 && c != 0 {
      HasLog(a);
      HasLog(b);
      HasLog(c);
      var i: nat :| i < 255 && Power(i) == a;
      var j: nat :| j < 255 && Power(j) == b;
      var k: nat :| k < 255 && Power(k) == c;
      MulPowers(i, j);
      MulPowers(j, k);
      MulPowers(i + j, k);
      MulPowers(i, j + k);
    }
  }

  lemma MulDistributes(a: bv8, b: bv8, x: bv8)
    ensures Mul(Add(a, b), x) == Add(Mul(a, x), Mul(b, x))
  {
    hide Mul;
    hide Add;
    MulCommutative(Add(a, b), x);
    MulCommutative(a, x);
    MulCommutative(b, x);
    MulLinear(x, a, b);
  }

  lemma OneMul(x: bv8)
    ensures Mul(1, x) == x
  {
    hide Mul;
    MulCommutative(1, x);
    MulOne(x);
  }

  lemma MulTwoThree(x: bv8)
    ensures Mul(0x02, x) == Xtime(x) && Mul(0x03, x) == Add(x, Xtime(x))
  {
    hide Mul;
    hide Xtime;
    MulTwo(x);
    assert Add(0x01, 0x02) == 0x03;
    MulDistributes(0x01, 0x02, x);
    OneMul(x);
  }

  lemma MulTwo(x: bv8)
    ensures Mul(0x02, x) == Xtime(x)
  {
    hide Xtime;
    hide Sum;
    SecondOnly(Xtime(x));
  }

  lemma SecondOnly(b: bv8)
    ensures Sum(0, b, 0, 0, 0, 0, 0, 0) == b
  {
  }
}
