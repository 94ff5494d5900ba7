/** What the number texts mean that `parse_number` of lib/cJSON.c hands to `strtod`. Numbers are stated by
    whole numbers and multiplication alone, texts by their parts. */
module JsonNumber {
  import opened Bytes
  import opened JsonValue
  import opened JsonText
  import opened JsonGrammar
  import opened JsonRoundTrip

  predicate AllDigits(s: seq<byte>) {
    forall i :: 0 <= i < |s| ==> 48 <= s[i] <= 57
  }

  /** The whole number that digits write. */
  function Decimal(s: seq<byte>): nat
    requires AllDigits(s)
  {
    if s == [] then 0 else 10 * Decimal(s[..|s| - 1]) + (s[|s| - 1] - 48)
  }

  datatype Sign = NoSign | PlusSign | MinusSign

  datatype Exponent = NoExponent | Exponent(mark: byte, sign: Sign, digits: seq<byte>)

  /** The parts of a number text: sign, digits, point, digits, exponent. */
  datatype Spelling = Spelling(sign: Sign, whole: seq<byte>, dot: bool, fraction: seq<byte>, exponent: Exponent)

  function SignText(sign: Sign): seq<byte> {
    match sign
    case NoSign => []
    case PlusSign => [43]
    case MinusSign => [45]
  }

  function ExponentText(e: Exponent): seq<byte> {
    match e
    case NoExponent => []
    case Exponent(mark, sign, digits) => [mark] + SignText(sign) + digits
  }

  function SpellingText(p: Spelling): seq<byte> {
    SignText(p.sign) + p.whole + (if p.dot then [46] else []) + p.fraction + ExponentText(p.exponent)
  }

  predicate WellSpelled(p: Spelling) {
    AllDigits(p.whole) && AllDigits(p.fraction) && |p.whole| + |p.fraction| > 0 && (!p.dot ==> p.fraction == []) &&
    match p.exponent
    case NoExponent => true
    case Exponent(mark, _, digits) => (mark == 101 || mark == 69) && AllDigits(digits) && digits != []
  }

  /** The number without point and exponent. */
  function Signed(p: Spelling): real
    requires WellSpelled(p)
  {
    var m := Decimal(p.whole + p.fraction) as real;
    if p.sign == MinusSign then -m else m
  }

  /** `v` is the number that `p` spells: shifted to the left by the fraction digits, it is the signed number that
      the digits on both sides of the point write together, shifted by the exponent. */
  predicate Means(p: Spelling, v: real)
    requires WellSpelled(p)
  {
    var f := |p.fraction|;
    match p.exponent
    case NoExponent => v * IntPow10(f) as real == Signed(p)
    case Exponent(_, MinusSign, digits) => v * IntPow10(f + Decimal(digits)) as real == Signed(p)
    case Exponent(_, _, digits) => v * IntPow10(f) as real == Signed(p) * IntPow10(Decimal(digits)) as real
  }

  // ---- digits and powers ----------------------------------------------

  lemma {:induction false} DigitsEndIs(t: seq<byte>, i: nat, j: nat)
    requires i <= j <= |t| && AllDigits(t[i..j]) && (j < |t| ==> !IsDigit(t[j]))
    ensures DigitsEnd(t, i) == j
    decreases j - i
  {
    if i < j {
      assert t[i] == t[i..j][0];
      assert t[i + 1..j] == t[i..j][1..];
      DigitsEndIs(t, i + 1, j);
    }
  }

  lemma Shifted(a: nat, n: nat, c: nat, d: int)
    ensures 10 * (a * IntPow10(n) + c) + d == a * IntPow10(n + 1) + (10 * c + d)
  {
  }

  lemma {:induction false} DecimalJoin(a: seq<byte>, b: seq<byte>)
    requires AllDigits(a) && AllDigits(b)
    ensures AllDigits(a + b) && Decimal(a + b) == Decimal(a) * IntPow10(|b|) + Decimal(b)
    decreases |b|
  {
    if b == [] {
      assert a + b == a;
    } else {
      var c := b[..|b| - 1];
      DecimalJoin(a, c);
      assert (a + b)[..|a + b| - 1] == a + c;
      hide IntPow10;
      Shifted(Decimal(a), |c|, Decimal(c), b[|c|] - 48);
    }
  }

  lemma {:induction false} ReadDigitsIs(t: seq<byte>, i: nat, j: nat, acc: nat)
    requires i <= j <= |t| && AllDigits(t[i..j])
    requires forall k :: i <= k < j ==> IsDigit(t[k])
    ensures ReadDigits(t, i, j, acc) == acc * IntPow10(j - i) + Decimal(t[i..j])
    decreases j - i
  {
    if i < j {
      assert t[i..j][..j - i - 1] == t[i..j - 1];
      assert t[i..j][j - i - 1] == t[j - 1];
      ReadDigitsIs(t, i, j - 1, acc);
      Shifted(acc, j - 1 - i, Decimal(t[i..j - 1]), t[j - 1] - 48);
      hide IntPow10;
    }
  }

  lemma ReadFromZero(t: seq<byte>, i: nat, j: nat)
    requires i <= j <= |t| && AllDigits(t[i..j])
    requires forall k :: i <= k < j ==> IsDigit(t[k])
    ensures ReadDigits(t, i, j, 0) == Decimal(t[i..j])
  {
    ReadDigitsIs(t, i, j, 0);
    assert 0 * IntPow10(j - i) == 0;
  }

  lemma {:induction false} Pow10Is(n: int)
    requires n >= 0
    ensures Pow10(n) == IntPow10(n) as real && Pow10(-n) * IntPow10(n) as real == 1.0
  {
    if n > 0 {
      Pow10Is(n - 1);
      var a, p := IntPow10(n - 1) as real, Pow10(1 - n);
      assert Pow10(-n) == p / 10.0;
      assert IntPow10(n) as real == 10.0 * a;
      assert p / 10.0 * (10.0 * a) == p * a;
    }
  }

  lemma {:induction false} Pow10Shift(e: int, f: nat)
    ensures Pow10(e - f) * IntPow10(f) as real == Pow10(e)
  {
    if f > 0 {
      Pow10Shift(e, f - 1);
      var d := e - f;
      assert Pow10(d) * 10.0 == Pow10(d + 1);
      var a := IntPow10(f - 1) as real;
      assert IntPow10(f) as real == 10.0 * a;
      assert Pow10(d) * (10.0 * a) == Pow10(d) * 10.0 * a;
    }
  }

  /** The digits that the printer writes spell the number, without a leading zero. */
  lemma {:induction false} DigitsSpell(n: nat)
    ensures AllDigits(Digits(n)) && Decimal(Digits(n)) == n
    ensures |Digits(n)| > 1 ==> Digits(n)[0] != 48
  {
    if n < 10 {
      assert Decimal([]) == 0;
      assert [48 + n][..0] == [];
    } else {
      DigitsSpell(n / 10);
      var d := Digits(n / 10);
      assert Digits(n)[..|Digits(n)| - 1] == d;
      if |d| == 1 { assert d[..0] == []; assert Decimal(d) == d[0] - 48; }
    }
  }

  // ---- strtod ---------------------------------------------------------

  function SignAt(t: seq<byte>, i: nat): Sign {
    if i < |t| && t[i] == 43 then PlusSign else if i < |t| && t[i] == 45 then MinusSign else NoSign
  }

  /** The parts that `Strtod` finds. */
  function ExponentAt(t: seq<byte>, i: nat): Exponent
    requires i <= |t|
  {
    var (_, used) := ReadExponent(t, i);
    if used == i then NoExponent
    else
      var sign := SignAt(t, i + 1);
      Exponent(t[i], sign, t[i + 1 + |SignText(sign)|..used])
  }

  function SpellingAt(t: seq<byte>): Spelling
    requires Strtod(t).1 > 0
  {
    var sign := SignAt(t, 0);
    var first := |SignText(sign)|;
    var whole := DigitsEnd(t, first);
    var dot := whole < |t| && t[whole] == 46;
    var end := if dot then DigitsEnd(t, whole + 1) else whole;
    Spelling(sign, t[first..whole], dot, if dot then t[whole + 1..end] else [], ExponentAt(t, end))
  }

  predicate ExponentHolds(e: Exponent, x: int) {
    match e
    case NoExponent => x == 0
    case Exponent(mark, sign, digits) =>
      (mark == 101 || mark == 69) && AllDigits(digits) && digits != []
      && (if sign == MinusSign then -x else x) == Decimal(digits)
  }

  lemma DigitsBetween(t: seq<byte>, i: nat, j: nat)
    requires i <= j <= |t| && forall k :: i <= k < j ==> IsDigit(t[k])
    ensures AllDigits(t[i..j])
  {
    forall k | 0 <= k < |t[i..j]| ensures 48 <= t[i..j][k] <= 57 { assert t[i..j][k] == t[i + k]; }
  }

  lemma SignTextIs(t: seq<byte>, i: nat)
    ensures var n := |SignText(SignAt(t, i))|;
            n == (if IsSign(t, i) then 1 else 0) && (i <= |t| ==> i + n <= |t| && t[i..i + n] == SignText(SignAt(t, i)))
  {
  }

  lemma FourPieces(t: seq<byte>, i: nat, c: nat, used: nat)
    requires i < c <= used <= |t|
    ensures t[i..used] == [t[i]] + t[i + 1..c] + t[c..used]
  {
  }

  /** The exponent at `i` ends at `used`, and its digits start at `c`. */
  lemma ExponentShape(t: seq<byte>, i: nat, c: nat)
    requires i <= |t| && ReadExponent(t, i).1 > i && c == if IsSign(t, i + 1) then i + 2 else i + 1
    ensures var (x, used) := ReadExponent(t, i);
            i < c < used <= |t| && (t[i] == 101 || t[i] == 69) && AllDigits(t[c..used])
            && (if IsSign(t, i + 1) && t[i + 1] == 45 then -x else x) == Decimal(t[c..used])
  {
    var (x, used) := ReadExponent(t, i);
    DigitsBetween(t, c, used);
    ReadFromZero(t, c, used);
    hide Decimal;
    hide ReadDigits;
    hide AllDigits;
  }

  lemma ExponentFound(t: seq<byte>, i: nat)
    requires i <= |t|
    ensures var (x, used) := ReadExponent(t, i);
            ExponentHolds(ExponentAt(t, i), x) && t[i..used] == ExponentText(ExponentAt(t, i))
  {
    if ReadExponent(t, i).1 > i {
      var c := if IsSign(t, i + 1) then i + 2 else i + 1;
      ExponentShape(t, i, c);
      hide ReadExponent;
      hide Decimal;
      hide AllDigits;
      SignTextIs(t, i + 1);
      FourPieces(t, i, c, ReadExponent(t, i).1);
      hide SignText;
    }
  }

  lemma Cancelled(v: real, s: real, a: real, b: real, e: real)
    requires v == s * a && a * b == e
    ensures v * b == s * e
  {
    assert s * a * b == s * (a * b);
  }

  lemma SmallMeans(p: Spelling, v: real, n: int)
    requires WellSpelled(p) && p.exponent.Exponent? && p.exponent.sign == MinusSign
    requires n == |p.fraction| + Decimal(p.exponent.digits) && v == Signed(p) * Pow10(-n)
    ensures Means(p, v)
  {
    hide Signed;
    hide Decimal;
    Pow10Is(n);
    hide Pow10;
    hide IntPow10;
    Cancelled(v, Signed(p), Pow10(-n), IntPow10(n) as real, 1.0);
  }

  lemma PlainMeans(p: Spelling, v: real, f: nat)
    requires WellSpelled(p) && p.exponent == NoExponent && f == |p.fraction| && v == Signed(p) * Pow10(0 - f)
    ensures Means(p, v)
  {
    hide Signed;
    Pow10Shift(0, f);
    assert Pow10(0) == 1.0;
    hide Pow10;
    hide IntPow10;
    Cancelled(v, Signed(p), Pow10(0 - f), IntPow10(f) as real, 1.0);
  }

  lemma LargeMeans(p: Spelling, v: real, x: int, f: nat)
    requires WellSpelled(p) && p.exponent.Exponent? && p.exponent.sign != MinusSign
    requires x == Decimal(p.exponent.digits) && f == |p.fraction| && v == Signed(p) * Pow10(x - f)
    ensures Means(p, v)
  {
    hide Signed;
    hide Decimal;
    hide AllDigits;
    hide Pow10;
    hide IntPow10;
    Pow10Shift(x, f);
    Pow10Is(x);
    Cancelled(v, Signed(p), Pow10(x - f), IntPow10(f) as real, Pow10(x));
  }

  /** The product that `Strtod` computes has the meaning. */
  lemma ProductMeans(p: Spelling, x: int, v: real)
    requires WellSpelled(p) && ExponentHolds(p.exponent, x) && v == Scale(Signed(p), x - |p.fraction|)
    ensures Means(p, v)
  {
    hide Signed;
    hide Decimal;
    hide Pow10;
    hide Means;
    if p.exponent.Exponent? && p.exponent.sign == MinusSign {
      assert x - |p.fraction| == -(|p.fraction| + Decimal(p.exponent.digits));
      SmallMeans(p, v, |p.fraction| - x);
    } else if p.exponent.Exponent? {
      LargeMeans(p, v, x, |p.fraction|);
    } else {
      PlainMeans(p, v, |p.fraction|);
    }
  }

  lemma MantissaFound(t: seq<byte>, first: nat, whole: nat, dot: bool, end: nat)
    requires first <= whole <= |t| && AllDigits(t[first..whole])
    requires dot ==> whole + 1 <= end <= |t| && AllDigits(t[whole + 1..end])
    requires forall k :: first <= k < whole ==> IsDigit(t[k])
    requires dot ==> forall k :: whole + 1 <= k < end ==> IsDigit(t[k])
    ensures var w := ReadDigits(t, first, whole, 0);
            var digits := t[first..whole] + if dot then t[whole + 1..end] else [];
            AllDigits(digits) && Decimal(digits) == if dot then ReadDigits(t, whole + 1, end, w) else w
  {
    hide IntPow10;
    ReadFromZero(t, first, whole);
    if dot {
      ReadDigitsIs(t, whole + 1, end, Decimal(t[first..whole]));
      DecimalJoin(t[first..whole], t[whole + 1..end]);
    } else {
      assert t[first..whole] + [] == t[first..whole];
    }
  }

  /** The signed number in front of the exponent. */
  lemma SignedFound(t: seq<byte>)
    requires Strtod(t).1 > 0
    ensures var p := SpellingAt(t);
            var end := |SignText(p.sign)| + |p.whole| + (if p.dot then 1 else 0) + |p.fraction|;
            AllDigits(p.whole) && AllDigits(p.fraction) && |p.whole| + |p.fraction| > 0
            && (!p.dot ==> p.fraction == []) && end <= |t| && p.exponent == ExponentAt(t, end)
            && var (x, used) := ReadExponent(t, end);
            var m := Decimal(p.whole + p.fraction) as real;
            Strtod(t) == (Scale(if p.sign == MinusSign then -m else m, x - |p.fraction|), used)
  {
    hide IntPow10;
    hide Pow10;
    hide Scale;
    hide ReadExponent;
    hide ExponentAt;
    hide ReadDigits;
    hide Decimal;
    var p := SpellingAt(t);
    var first := |SignText(p.sign)|;
    assert first == if IsSign(t, 0) then 1 else 0;
    var whole := DigitsEnd(t, first);
    var end := if p.dot then DigitsEnd(t, whole + 1) else whole;
    assert p.whole == t[first..whole] && (p.dot ==> p.fraction == t[whole + 1..end]);
    DigitsBetween(t, first, whole);
    if p.dot { DigitsBetween(t, whole + 1, end); }
    MantissaFound(t, first, whole, p.dot, end);
    hide AllDigits;
    assert p.sign == MinusSign <==> first == 1 && t[0] == MINUS;
    assert p.exponent == ExponentAt(t, end);
    assert |p.fraction| == if p.dot then end - (whole + 1) else 0;
    assert end == first + |p.whole| + (if p.dot then 1 else 0) + |p.fraction|;
    var (x, used) := ReadExponent(t, end);
    assert Strtod(t).1 == used;
    var m := Decimal(p.whole + p.fraction) as real;
    var signed := if p.sign == MinusSign then -m else m;
    assert Strtod(t).0 == Scale(signed, x - |p.fraction|);
  }

  lemma MantissaText(t: seq<byte>)
    requires Strtod(t).1 > 0
    ensures var p := SpellingAt(t);
            var text := SignText(p.sign) + p.whole + (if p.dot then [46] else []) + p.fraction;
            text <= t
  {
    hide ReadExponent;
    hide ExponentAt;
    hide Pow10;
    hide Scale;
    hide ReadDigits;
    var p := SpellingAt(t);
    var first := |SignText(p.sign)|;
    assert SignText(p.sign) == t[..first];
    var whole := first + |p.whole|;
    assert t[..whole] == t[..first] + t[first..whole];
    if p.dot {
      var end := whole + 1 + |p.fraction|;
      assert t[..end] == t[..whole] + [46] + t[whole + 1..end];
    }
  }

  lemma PartsFound(t: seq<byte>)
    requires Strtod(t).1 > 0
    ensures WellSpelled(SpellingAt(t)) && SpellingText(SpellingAt(t)) == t[..Strtod(t).1]
  {
    hide IntPow10;
    hide Scale;
    hide Strtod;
    hide SpellingAt;
    hide ReadExponent;
    hide ExponentAt;
    hide DigitsEnd;
    hide Decimal;
    SignedFound(t);
    MantissaText(t);
    var p := SpellingAt(t);
    var text := SignText(p.sign) + p.whole + (if p.dot then [46] else []) + p.fraction;
    ExponentFound(t, |text|);
    assert t[..Strtod(t).1] == text + t[|text|..Strtod(t).1];
  }

  /** What `strtod` uses of a text is a number text, and the value is its meaning. */
  lemma StrtodSound(t: seq<byte>)
    requires Strtod(t).1 > 0
    ensures var (v, used) := Strtod(t);
            WellSpelled(SpellingAt(t)) && SpellingText(SpellingAt(t)) == t[..used] && Means(SpellingAt(t), v)
  {
    hide IntPow10;
    hide Scale;
    hide Strtod;
    hide SpellingAt;
    hide ReadExponent;
    hide ExponentAt;
    hide Means;
    hide DigitsEnd;
    hide Decimal;
    hide SpellingText;
    hide AllDigits;
    hide WellSpelled;
    SignedFound(t);
    PartsFound(t);
    var p := SpellingAt(t);
    var end := |SignText(p.sign)| + |p.whole| + (if p.dot then 1 else 0) + |p.fraction|;
    ExponentFound(t, end);
    ProductMeans(p, ReadExponent(t, end).0, Strtod(t).0);
  }

  // ---- the longest spelling -------------------------------------------

  lemma {:induction false} DigitsEndBehind(t: seq<byte>, i: nat, j: nat)
    requires i <= j <= |t| && AllDigits(t[i..j])
    ensures DigitsEnd(t, i) >= j
    decreases j - i
  {
    if i < j {
      assert t[i] == t[i..j][0];
      assert t[i + 1..j] == t[i..j][1..];
      DigitsEndBehind(t, i + 1, j);
    }
  }

  function MantissaEnd(p: Spelling): nat {
    |SignText(p.sign)| + |p.whole| + (if p.dot then 1 else 0) + |p.fraction|
  }

  lemma PartsAt(t: seq<byte>, p: Spelling)
    requires SpellingText(p) <= t
    ensures var a := |SignText(p.sign)|;
            var b := a + |p.whole|;
            var c := if p.dot then b + 1 else b;
            var d := MantissaEnd(p);
            |SpellingText(p)| == d + |ExponentText(p.exponent)| && d == c + |p.fraction|
            && t[..a] == SignText(p.sign) && t[a..b] == p.whole && (p.dot ==> t[b] == 46)
            && t[c..d] == p.fraction && t[d..|SpellingText(p)|] == ExponentText(p.exponent)
  {
    hide SignText;
    hide ExponentText;
    var a, b, d := SignText(p.sign), p.whole, p.fraction;
    var c: seq<byte> := if p.dot then [46] else [];
    Piece(t, a + b + c + d, ExponentText(p.exponent));
    Piece(t, a + b + c, d);
    Piece(t, a + b, c);
    Piece(t, a, b);
    Piece(t, [], a);
    assert [] + a == a;
    assert p.dot ==> t[|a + b|] == t[|a + b|..|a + b| + |c|][0];
  }

  lemma Piece(t: seq<byte>, x: seq<byte>, y: seq<byte>)
    requires x + y <= t
    ensures x <= t && |x| + |y| <= |t| && t[|x|..|x| + |y|] == y
  {
    assert t[..|x + y|] == x + y;
    assert t[|x|..|x| + |y|] == t[..|x + y|][|x|..];
  }

  lemma ExponentParts(t: seq<byte>, d: nat, e: Exponent)
    requires d + |ExponentText(e)| <= |t| && t[d..d + |ExponentText(e)|] == ExponentText(e)
    requires e.Exponent? && (e.mark == 101 || e.mark == 69) && AllDigits(e.digits) && e.digits != []
    ensures var n, c := d + |ExponentText(e)|, d + 1 + |SignText(e.sign)|;
            c < n && t[d] == e.mark && t[c..n] == e.digits && SignAt(t, d + 1) == e.sign && IsDigit(t[c])
            && c == if IsSign(t, d + 1) then d + 2 else d + 1
  {
    var n := d + |ExponentText(e)|;
    var text := t[d..n];
    var c := d + 1 + |SignText(e.sign)|;
    assert t[d] == text[0];
    assert t[c] == text[c - d] == e.digits[0];
    assert e.sign != NoSign ==> t[d + 1] == text[1];
    assert t[c..n] == text[c - d..] == e.digits;
  }

  lemma ExponentBehind(t: seq<byte>, d: nat, e: Exponent)
    requires d + |ExponentText(e)| <= |t| && t[d..d + |ExponentText(e)|] == ExponentText(e)
    requires e.Exponent? && (e.mark == 101 || e.mark == 69) && AllDigits(e.digits) && e.digits != []
    ensures !IsDigit(t[d]) && t[d] != 46
    ensures ReadExponent(t, d).1 >= d + |ExponentText(e)|
    ensures d + |ExponentText(e)| == |t| ==> ExponentAt(t, d) == e
  {
    ExponentParts(t, d, e);
    DigitsEndBehind(t, d + 1 + |SignText(e.sign)|, d + |ExponentText(e)|);
    hide ExponentText;
    hide AllDigits;
    hide DigitsEnd;
    hide ReadDigits;
  }

  lemma SignCut(t: seq<byte>, p: Spelling)
    requires WellSpelled(p) && SpellingText(p) <= t
    ensures SignAt(t, 0) == p.sign
  {
    PartsAt(t, p);
    hide SpellingText;
    hide ExponentText;
    var a := |SignText(p.sign)|;
    if p.sign != NoSign {
      assert t[0] == t[..a][0];
    } else if |p.whole| > 0 {
      assert t[0] == t[a..a + |p.whole|][0];
    }
  }

  lemma BehindWhole(t: seq<byte>, p: Spelling)
    requires WellSpelled(p) && SpellingText(p) <= t && (p.dot || p.exponent.Exponent?)
    ensures var b := |SignText(p.sign)| + |p.whole|;
            b < |t| && !IsDigit(t[b])
  {
    hide ReadExponent;
    hide ExponentAt;
    hide SignText;
    PartsAt(t, p);
    hide SpellingText;
    if !p.dot { ExponentBehind(t, MantissaEnd(p), p.exponent); }
    hide ExponentText;
  }

  /** Where the digits in front of the point end in a text that starts with a spelling. */
  lemma WholeCut(t: seq<byte>, p: Spelling)
    requires WellSpelled(p) && SpellingText(p) <= t
    ensures var a := |SignText(p.sign)|;
            var b := a + |p.whole|;
            b <= |SpellingText(p)|
            && b <= DigitsEnd(t, a) && (p.dot || p.exponent.Exponent? || b == |t| ==> DigitsEnd(t, a) == b)
  {
    hide SignText;
    hide ExponentText;
    PartsAt(t, p);
    var a := |SignText(p.sign)|;
    var b := a + |p.whole|;
    assert AllDigits(t[a..b]);
    DigitsEndBehind(t, a, b);
    if p.dot || p.exponent.Exponent? { BehindWhole(t, p); }
    hide SpellingText;
    hide AllDigits;
    if p.dot || p.exponent.Exponent? || b == |t| { DigitsEndIs(t, a, b); }
  }

  /** Where the digits behind the point end. */
  lemma FractionCut(t: seq<byte>, p: Spelling)
    requires WellSpelled(p) && SpellingText(p) <= t
    ensures var c := |SignText(p.sign)| + |p.whole| + 1;
            var d := MantissaEnd(p);
            d <= |SpellingText(p)|
            && (p.dot ==> t[c - 1] == 46 && d <= DigitsEnd(t, c))
            && (p.dot && (p.exponent.Exponent? || d == |t|) ==> DigitsEnd(t, c) == d)
            && (p.exponent.Exponent? ==> d < |t| && t[d] != 46)
  {
    hide ReadExponent;
    hide ExponentAt;
    PartsAt(t, p);
    hide SpellingText;
    var c := |SignText(p.sign)| + |p.whole| + 1;
    var d := MantissaEnd(p);
    if p.exponent.Exponent? { ExponentBehind(t, d, p.exponent); }
    hide ExponentText;
    hide SignText;
    if p.dot {
      DigitsEndBehind(t, c, d);
      if p.exponent.Exponent? || d == |t| { DigitsEndIs(t, c, d); }
    }
  }

  /** `strtod` uses at least every well-spelled number that the text starts with. */
  lemma StrtodLongest(t: seq<byte>, p: Spelling)
    requires WellSpelled(p) && SpellingText(p) <= t
    ensures Strtod(t).1 >= |SpellingText(p)| > 0
  {
    hide ReadExponent;
    hide ReadDigits;
    hide Scale;
    hide SpellingText;
    hide DigitsEnd;
    PartsAt(t, p);
    SignCut(t, p);
    WholeCut(t, p);
    FractionCut(t, p);
    if p.exponent.Exponent? { ExponentBehind(t, MantissaEnd(p), p.exponent); }
  }

  /** Where the parts of a number end when it is the whole text. */
  lemma ExactCuts(t: seq<byte>, p: Spelling)
    requires WellSpelled(p) && t == SpellingText(p)
    ensures var a := |SignText(p.sign)|;
            var b := a + |p.whole|;
            SignAt(t, 0) == p.sign && DigitsEnd(t, a) == b <= |t| && (b < |t| && t[b] == 46 <==> p.dot)
            && (p.dot ==> DigitsEnd(t, b + 1) == MantissaEnd(p)) && MantissaEnd(p) <= |t|
            && ExponentAt(t, MantissaEnd(p)) == p.exponent
  {
    hide ReadExponent;
    hide ExponentAt;
    hide SpellingText;
    hide DigitsEnd;
    PartsAt(t, p);
    SignCut(t, p);
    WholeCut(t, p);
    FractionCut(t, p);
    if p.exponent.Exponent? {
      ExponentBehind(t, MantissaEnd(p), p.exponent);
    } else {
      NothingBehind(t);
    }
  }

  /** There is one way to cut a text into the parts of a number. */
  lemma SpellingFound(p: Spelling)
    requires WellSpelled(p)
    ensures Strtod(SpellingText(p)).1 == |SpellingText(p)| > 0
    ensures SpellingAt(SpellingText(p)) == p
  {
    hide Strtod;
    hide SpellingText;
    hide DigitsEnd;
    hide ExponentAt;
    var t := SpellingText(p);
    StrtodLongest(t, p);
    PartsAt(t, p);
    ExactCuts(t, p);
    hide WellSpelled;
    hide ExponentText;
    hide SignAt;
  }

  lemma NothingBehind(t: seq<byte>)
    ensures ExponentAt(t, |t|) == NoExponent
  {
  }

  // ---- parse_number ---------------------------------------------------

  lemma SpellingBytes(p: Spelling)
    requires WellSpelled(p)
    ensures forall i :: 0 <= i < |SpellingText(p)| ==> IsNumberByte(SpellingText(p)[i])
  {
    assert forall i :: 0 <= i < |p.whole| ==> IsNumberByte(p.whole[i]);
    assert forall i :: 0 <= i < |p.fraction| ==> IsNumberByte(p.fraction[i]);
    var e := ExponentText(p.exponent);
    assert forall i :: 0 <= i < |e| ==> IsNumberByte(e[i]);
    hide ExponentText;
    hide AllDigits;
    hide WellSpelled;
  }

  /** The text of `p` stands at `off`, and is short enough for the buffer of `parse_number`. */
  predicate SpelledAt(s: seq<byte>, off: nat, p: Spelling) {
    WellSpelled(p) && |SpellingText(p)| <= 63 && At(s, off, SpellingText(p))
  }

  lemma {:induction false} NumberEndBehind(s: seq<byte>, off: nat, n: nat, end: nat)
    requires off + n <= end <= |s| && end - off <= 63
    requires forall i :: off + n <= i < end ==> IsNumberByte(s[i])
    ensures NumberEnd(s, off, n) >= end
    decreases 63 - n
  {
    if off + n < end { NumberEndBehind(s, off, n + 1, end); }
  }

  lemma PrefixAt(s: seq<byte>, off: nat, end: nat, n: nat)
    requires off + n <= end <= |s|
    ensures s[off..end][..n] == s[off..off + n]
  {
    forall k | 0 <= k < n ensures s[off..end][..n][k] == s[off..off + n][k] {}
  }

  /** What `parse_number` reads is a number text and its meaning, and no longer number text is there; it fails only
      where no number text is. */
  lemma ParseNumberMeans(s: seq<byte>, off: nat)
    requires Terminated(s) && off < |s|
    ensures var r := ParseNumber(s, off);
            r.Parsed? ==>
              r.value.Number? &&
              exists p :: SpelledAt(s, off, p) && r.off == off + |SpellingText(p)| && Means(p, r.value.n)
    ensures forall p :: SpelledAt(s, off, p) ==>
                          ParseNumber(s, off).Parsed? && off + |SpellingText(p)| <= ParseNumber(s, off).off
  {
    hide Strtod;
    hide Means;
    hide SpellingAt;
    hide SpellingText;
    hide WellSpelled;
    hide Terminated;
    var end := NumberEnd(s, off, 0);
    var t := s[off..end];
    var (v, used) := Strtod(t);
    if used > 0 {
      StrtodSound(t);
      var p := SpellingAt(t);
      PrefixAt(s, off, end, used);
      assert SpelledAt(s, off, p);
    }
    forall p | SpelledAt(s, off, p)
      ensures ParseNumber(s, off).Parsed? && off + |SpellingText(p)| <= ParseNumber(s, off).off
    {
      var n := |SpellingText(p)|;
      SpellingBytes(p);
      assert SpellingText(p) == s[off..off + n];
      forall i | off <= i < off + n ensures IsNumberByte(s[i]) { assert s[i] == SpellingText(p)[i - off]; }
      NumberEndBehind(s, off, 0, off + n);
      PrefixAt(s, off, end, n);
      StrtodLongest(t, p);
    }
  }

  /** Every number text of at most 63 bytes that no number byte follows parses to its meaning. */
  lemma ParseNumberSpelled(s: seq<byte>, off: nat, p: Spelling)
    requires Terminated(s) && SpelledAt(s, off, p)
    requires off + |SpellingText(p)| < |s| && !IsNumberByte(s[off + |SpellingText(p)|])
    ensures var r := ParseNumber(s, off);
            r.Parsed? && r.value.Number? && r.off == off + |SpellingText(p)| && Means(p, r.value.n)
  {
    hide Strtod;
    hide Means;
    hide SpellingAt;
    hide SpellingText;
    hide WellSpelled;
    hide Terminated;
    var t := SpellingText(p);
    var end := off + |t|;
    SpellingBytes(p);
    assert t == s[off..end];
    forall i | off <= i < end ensures IsNumberByte(s[i]) { assert s[i] == t[i - off]; }
    NumberEndAt(s, off, 0, end);
    SpellingFound(p);
    StrtodSound(t);
  }

  /** A spelling means one number. */
  lemma OneMeaning(p: Spelling, v: real, w: real)
    requires WellSpelled(p) && Means(p, v) && Means(p, w)
    ensures v == w
  {
    hide Signed;
    hide Decimal;
    hide IntPow10;
    var f := |p.fraction|;
    Positive(f);
    if p.exponent.Exponent? && p.exponent.sign == MinusSign {
      Positive(f + Decimal(p.exponent.digits));
      SameProduct(v, w, IntPow10(f + Decimal(p.exponent.digits)) as real, Signed(p));
    } else if p.exponent.Exponent? {
      SameProduct(v, w, IntPow10(f) as real, Signed(p) * IntPow10(Decimal(p.exponent.digits)) as real);
    } else {
      SameProduct(v, w, IntPow10(f) as real, Signed(p));
    }
  }

  lemma SameProduct(v: real, w: real, a: real, b: real)
    requires v * a == b && w * a == b && a > 0.0
    ensures v == w
  {
    assert (v - w) * a == 0.0;
  }

  lemma {:induction false} Positive(n: nat)
    ensures IntPow10(n) > 0
  {
    if n > 0 { Positive(n - 1); }
  }

  /** Nothing is skipped in front of a text that starts with a number, and nothing but the terminator behind it. */
  lemma NothingSkipped(text: CString, s: seq<byte>)
    requires |text| > 0 && StartsNumber(text[0]) && s == text + [0]
    ensures Terminated(s) && At(s, 0, text) && s[|text|] == 0
    ensures SkipBom(s) == 0 && Skip(s, 0) == 0 && Skip(s, |text|) == |text|
  {
    assert s[..|s| - 1] == text;
    if 4 < |s| { assert s[..3][0] == s[0]; }
    assert SkipTo(s, 0) == 0;
    assert SkipTo(s, |text|) == |text| + 1;
  }

  /** A number text that is the whole text. */
  lemma ParseSpelled(text: CString, p: Spelling, requireEnd: bool)
    requires WellSpelled(p) && |SpellingText(p)| <= 63 && text == SpellingText(p) && StartsNumber(text[0])
    ensures var r := Parse(text, requireEnd);
            r.Parsed? && r.value.Number? && r.off == |text| && Means(p, r.value.n)
  {
    assert |text| > 0;
    hide SpellingText;
    hide WellSpelled;
    hide Means;
    hide Skip;
    hide SkipBom;
    hide At;
    hide Terminated;
    hide ParseNumber;
    hide NoNul;
    var s := text + [0];
    NothingSkipped(text, s);
    NotKeyword(s, 0);
    ParseNumberSpelled(s, 0, p);
  }

  lemma DecimalOne(d: byte)
    requires 48 <= d <= 57
    ensures AllDigits([d]) && Decimal([d]) == d - 48
  {
    assert [d][..0] == [];
  }

  lemma DecimalTwo(c: byte, d: byte)
    requires 48 <= c <= 57 && 48 <= d <= 57
    ensures AllDigits([c, d]) && Decimal([c, d]) == 10 * (c - 48) + (d - 48)
  {
    DecimalOne(c);
    assert [c, d][..1] == [c];
  }

  /** The texts 1.5 and 15e-1 are the same number. */
  lemma WithPoint(text: CString)
    requires text == [49, 46, 53]
    ensures Parse(text, true) == Parsed(Number(1.5), 3)
  {
    hide Parse;
    DecimalTwo(49, 53);
    assert IntPow10(1) == 10 * IntPow10(0);
    var p := Spelling(NoSign, [49], true, [53], NoExponent);
    assert text == SpellingText(p) && p.whole + p.fraction == [49, 53];
    ParseSpelled(text, p, true);
    hide SpellingText;
    hide Decimal;
  }

  lemma WithExponent(text: CString)
    requires text == [49, 53, 101, 45, 49]
    ensures Parse(text, true) == Parsed(Number(1.5), 5)
  {
    hide Parse;
    DecimalOne(49);
    DecimalTwo(49, 53);
    assert IntPow10(1) == 10 * IntPow10(0);
    var p := Spelling(NoSign, [49, 53], false, [], Exponent(101, MinusSign, [49]));
    assert text == SpellingText(p) && p.whole + p.fraction == [49, 53];
    ParseSpelled(text, p, true);
    hide SpellingText;
    hide Decimal;
  }
}
