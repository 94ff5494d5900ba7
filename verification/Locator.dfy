/** Maidenhead locators (src/locator.c:134-153, 452-589), over reals: rounding of `double` is not modelled. */
module Locator {
  import opened Options

  const MAX_LOCATOR_PAIRS := 6
  const MIN_LOCATOR_PAIRS := 1

  /** `loc_char_range` (line 134). */
  function Range(pair: nat): (r: int)
    requires pair < MAX_LOCATOR_PAIRS
    ensures r >= 10
  {
    [18, 10, 24, 10, 24, 10][pair]
  }

  /** Into how many parts `pairs` pairs divide a half circle. */
  function Divisions(pairs: nat): (r: int)
    requires pairs <= MAX_LOCATOR_PAIRS
    ensures r > 0
  {
    if pairs == 0 then 1 else Divisions(pairs - 1) * Range(pairs - 1)
  }

  /** The size of a square in degrees of latitude. */
  function Square(pairs: nat): (r: real)
    requires pairs <= MAX_LOCATOR_PAIRS
    ensures r > 0.0
  {
    180.0 / Divisions(pairs) as real
  }

  lemma SquareStep(pair: nat)
    requires pair < MAX_LOCATOR_PAIRS
    ensures Square(pair) == Times(Range(pair) as real, Square(pair + 1))
  {
    var d, r := Divisions(pair) as real, Range(pair) as real;
    assert (Divisions(pair) * Range(pair)) as real == d * r;
    Cancel(d, r);
  }

  lemma Cancel(d: real, r: real)
    requires d > 0.0 && r > 0.0
    ensures r * (180.0 / (d * r)) == 180.0 / d
  {
    var x, y := 180.0 / (d * r), 180.0 / d;
    assert x * (d * r) == 180.0 && y * d == 180.0;
    assert (r * x - y) * d == 0.0;
  }

  // ---- characters ------------------------------------------------------------------

  predicate IsUpper(c: char) {
    'A' <= c <= 'Z'
  }

  /** The value of a digit or a letter (lines 490-492). */
  function DigitOf(c: char, pair: nat): int
    requires pair < MAX_LOCATOR_PAIRS
  {
    c as int - (if Range(pair) == 10 then '0' as int else if IsUpper(c) then 'A' as int else 'a' as int)
  }

  predicate InRange(d: int, pair: nat)
    requires pair < MAX_LOCATOR_PAIRS
  {
    0 <= d < Range(pair)
  }

  /** Lines 581-582; values outside the range of digits stay inside the range of characters. */
  function CharOf(d: int, pair: nat): char
    requires pair < MAX_LOCATOR_PAIRS && -Range(pair) < d < Range(pair)
  {
    (d + (if Range(pair) == 10 then '0' as int else 'A' as int)) as char
  }

  function Upper(c: char): char {
    if 'a' <= c <= 'z' then (c as int - 32) as char else c
  }

  lemma UpperDigit(c: char, pair: nat)
    requires pair < MAX_LOCATOR_PAIRS && InRange(DigitOf(c, pair), pair)
    ensures CharOf(DigitOf(c, pair), pair) == Upper(c)
  {
  }

  /** The characters of a pair: '0', 'A' and 'a' are the digit 0, the next character is one more, and the pairs take
      turns between letters and digits. */
  lemma CharactersAre(pair: nat, c: char)
    requires pair < MAX_LOCATOR_PAIRS
    ensures pair % 2 == 1 ==> DigitOf('0', pair) == 0 && CharOf(0, pair) == '0'
    ensures pair % 2 == 0 ==> DigitOf('A', pair) == DigitOf('a', pair) == 0 && CharOf(0, pair) == 'A'
    ensures pair % 2 == 1 && '0' <= c < '9' ==> DigitOf((c as int + 1) as char, pair) == DigitOf(c, pair) + 1
    ensures pair % 2 == 0 && ('A' <= c < 'Z' || 'a' <= c < 'z') ==>
              DigitOf((c as int + 1) as char, pair) == DigitOf(c, pair) + 1
    ensures forall d :: 0 <= d < Range(pair) - 1 ==> CharOf(d + 1, pair) as int == CharOf(d, pair) as int + 1
  {
  }

  /** The accepted characters of a pair. */
  lemma AcceptedAre(pair: nat, c: char)
    requires pair < MAX_LOCATOR_PAIRS
    ensures InRange(DigitOf(c, pair), pair) <==>
            if pair % 2 == 1 then '0' <= c <= '9'
            else if pair == 0 then 'A' <= c <= 'R' || 'a' <= c <= 'r'
            else 'A' <= c <= 'X' || 'a' <= c <= 'x'
  {
  }

  // ---- from digits to degrees ----------------------------------------------------------

  /** Digits from pair 0 on. */
  predicate Digits(ds: seq<int>) {
    |ds| <= MAX_LOCATOR_PAIRS && forall k :: 0 <= k < |ds| ==> InRange(ds[k], k)
  }

  /** `d` squares. */
  function Squares(d: int, pairs: nat): real
    requires pairs <= MAX_LOCATOR_PAIRS
  {
    Times(d as real, Square(pairs))
  }

  /** The digits from pair `k` on, in degrees. */
  function Tail(ds: seq<int>, k: nat): real
    requires k <= |ds| <= MAX_LOCATOR_PAIRS
    decreases |ds| - k
  {
    if k == |ds| then 0.0 else Squares(ds[k], k + 1) + Tail(ds, k + 1)
  }

  /** The middle of the square, as an ordinate from -90 on. */
  function Centre(ds: seq<int>): real
    requires |ds| <= MAX_LOCATOR_PAIRS
  {
    -90.0 + Tail(ds, 0) + 90.0 / Divisions(|ds|) as real
  }

  /** The digits of the longitude or of the latitude of a locator. */
  function DigitsOf(s: string, pairs: nat, xOrY: nat): (r: seq<int>)
    requires pairs <= MAX_LOCATOR_PAIRS && 2 * pairs <= |s| && xOrY < 2
    ensures |r| == pairs
  {
    seq(pairs, p requires 0 <= p < pairs => DigitOf(s[p * 2 + xOrY], p))
  }

  /** How many pairs of a locator count. */
  function Pairs(s: string): nat {
    if |s| / 2 > MAX_LOCATOR_PAIRS then MAX_LOCATOR_PAIRS else |s| / 2
  }

  predicate IsLocator(s: string) {
    Pairs(s) >= MIN_LOCATOR_PAIRS && Digits(DigitsOf(s, Pairs(s), 0)) && Digits(DigitsOf(s, Pairs(s), 1))
  }

  /** At most six pairs count, and there has to be one. */
  lemma PairsAre(s: string)
    ensures Pairs(s) == if |s| >= 12 then 6 else |s| / 2
    ensures IsLocator(s) ==> |s| >= 2
  {
  }

  /** The first character of a pair is for the longitude, the second one for the latitude. */
  lemma DigitsAre(s: string, pairs: nat, p: nat)
    requires p < pairs <= MAX_LOCATOR_PAIRS && 2 * pairs <= |s|
    ensures DigitsOf(s, pairs, 0)[p] == DigitOf(s[2 * p], p) && DigitsOf(s, pairs, 1)[p] == DigitOf(s[2 * p + 1], p)
  {
  }

  lemma {:induction false} TailAppended(ds: seq<int>, d: int, k: nat)
    requires k <= |ds| < MAX_LOCATOR_PAIRS
    ensures Tail(ds + [d], k) == Tail(ds, k) + Squares(d, |ds| + 1)
    decreases |ds| - k
  {
    hide Squares;
    if k == |ds| {
      assert Tail(ds + [d], k + 1) == 0.0;
    } else {
      TailAppended(ds, d, k + 1);
    }
  }

  /** One pass of the outer loop (lines 481-508); no result for a character out of range. */
  method Ordinate(locator: string, paircount: nat, xOrY: nat) returns (r: Option<real>)
    requires 1 <= paircount <= MAX_LOCATOR_PAIRS && 2 * paircount <= |locator| && xOrY < 2
    ensures var ds := DigitsOf(locator, paircount, xOrY);
      r == if Digits(ds) then Some(Centre(ds)) else None
  {
    hide Squares;
    hide Range;
    hide Tail;
    hide DigitOf;
    NoDigits();
    ghost var ds := DigitsOf(locator, paircount, xOrY);
    var ordinate, divisions, pair := -90.0, 1, 0;
    while pair < paircount
      invariant 0 <= pair <= paircount && divisions == Divisions(pair)
      invariant Digits(ds[..pair]) && ordinate == -90.0 + Tail(ds[..pair], 0)
    {
      var locvalue := DigitOf(locator[pair * 2 + xOrY], pair);
      if locvalue < 0 || locvalue >= Range(pair) {
        assert !InRange(ds[pair], pair);
        return None;
      }
      divisions := divisions * Range(pair);
      TailAppended(ds[..pair], locvalue, 0);
      assert ds[pair] == locvalue && ds[..pair + 1] == ds[..pair] + [locvalue];
      Share(locvalue, pair + 1);
      ordinate := ordinate + locvalue as real * 180.0 / divisions as real;
      pair := pair + 1;
    }
    assert ds[..pair] == ds;
    ordinate := ordinate + 90.0 / divisions as real;
    return Some(ordinate);
  }

  lemma NoDigits()
    ensures Tail([], 0) == 0.0
  {
  }

  lemma Share(d: int, pairs: nat)
    requires pairs <= MAX_LOCATOR_PAIRS
    ensures d as real * 180.0 / Divisions(pairs) as real == Squares(d, pairs)
  {
    hide Divisions;
    ShareOf(d as real, Divisions(pairs) as real);
  }

  lemma ShareOf(x: real, d: real)
    requires d > 0.0
    ensures x * 180.0 / d == x * (180.0 / d)
  {
  }

  /** `locator2longlat` (lines 452-514). */
  method Locator2Longlat(locator: string) returns (r: Option<(real, real)>)
    ensures var n := Pairs(locator);
      r == if IsLocator(locator)
           then Some((Centre(DigitsOf(locator, n, 0)) * 2.0, Centre(DigitsOf(locator, n, 1)))) else None
  {
    var paircount := |locator| / 2;
    if paircount > MAX_LOCATOR_PAIRS {
      paircount := MAX_LOCATOR_PAIRS;
    } else if paircount < MIN_LOCATOR_PAIRS {
      return None;
    }
    var x := Ordinate(locator, paircount, 0);
    if x == None {
      return None;
    }
    var y := Ordinate(locator, paircount, 1);
    if y == None {
      return None;
    }
    return Some((x.value * 2.0, y.value));
  }

  // ---- from degrees to digits -------------------------------------------------------------

  /** A conversion to `int`, which truncates toward zero. */
  function Trunc(r: real): int {
    if r >= 0.0 then r.Floor else -((-r).Floor)
  }

  function Fmod(x: real, m: real): real
    requires m > 0.0
  {
    x - m * Trunc(x / m) as real
  }

  /** The remainder has the sign of `x`, is smaller than `m`, and differs from `x` by a multiple of `m`. */
  lemma FmodIs(x: real, m: real) returns (k: int)
    requires m > 0.0
    ensures var r := Fmod(x, m); x == r + m * k as real && -m < r < m
    ensures (x >= 0.0 ==> Fmod(x, m) >= 0.0) && (x <= 0.0 ==> Fmod(x, m) <= 0.0)
  {
    hide Times;
    k := Trunc(x / m);
    Ratio(x, m);
    TimesIs(k as real, m);
  }

  predicate Within(o: real, pairs: nat)
    requires pairs <= MAX_LOCATOR_PAIRS
  {
    -Square(pairs) < o < Square(pairs)
  }

  /** The next digit of an ordinate, and what is left of it. */
  function NextDigit(o: real, pair: nat): int
    requires pair < MAX_LOCATOR_PAIRS
  {
    Trunc(o / Square(pair + 1))
  }

  function Rest(o: real, pair: nat): real
    requires pair < MAX_LOCATOR_PAIRS
  {
    o - Squares(NextDigit(o, pair), pair + 1)
  }

  /** The digits of pairs `k` to `n - 1`. */
  function Extract(o: real, k: nat, n: nat): (r: seq<int>)
    requires k <= n <= MAX_LOCATOR_PAIRS
    ensures |r| == n - k
    decreases n - k
  {
    if k == n then [] else [NextDigit(o, k)] + Extract(Rest(o, k), k + 1, n)
  }

  lemma TruncIs(r: real, n: int)
    ensures 0.0 <= r ==> (Trunc(r) == n <==> n as real <= r < n as real + 1.0)
    ensures r <= 0.0 ==> (Trunc(r) == n <==> n as real - 1.0 < r <= n as real)
  {
  }

  function Times(a: real, b: real): real {
    a * b
  }

  lemma TimesPlus(a: real, b: real, s: real)
    ensures Times(a + b, s) == Times(a, s) + Times(b, s)
  {
  }

  lemma TimesBounds(e: real, s: real)
    requires s > 0.0
    ensures 0.0 <= e < 1.0 ==> 0.0 <= Times(e, s) < s
    ensures -1.0 < e <= 0.0 ==> -s < Times(e, s) <= 0.0
  {
    hide Times;
    TimesOne(s);
    TimesSign(e, s);
    TimesPlus(e, 1.0 - e, s);
    TimesSign(1.0 - e, s);
    TimesPlus(-1.0 - e, e, s);
    TimesSign(-1.0 - e, s);
  }

  lemma TimesOne(s: real)
    ensures Times(1.0, s) == s && Times(-1.0, s) == -s && Times(0.0, s) == 0.0
  {
  }

  lemma TimesSign(r: real, s: real)
    requires s > 0.0
    ensures (Times(r, s) >= 0.0 <==> r >= 0.0) && (Times(r, s) <= 0.0 <==> r <= 0.0)
  {
  }

  lemma TimesQuotient(o: real, s: real)
    requires s > 0.0
    ensures Times(o / s, s) == o
  {
  }

  /** What is left after taking off as many whole `s` as fit. */
  lemma Ratio(o: real, s: real)
    requires s > 0.0
    ensures var q := Trunc(o / s); var rest := o - Times(q as real, s);
      (o >= 0.0 ==> q >= 0 && 0.0 <= rest < s) && (o <= 0.0 ==> q <= 0 && -s < rest <= 0.0)
  {
    hide Times;
    var r, q := o / s, Trunc(o / s) as real;
    TimesQuotient(o, s);
    TimesSign(r, s);
    TruncIs(r, Trunc(r));
    TimesPlus(r - q, q, s);
    TimesBounds(r - q, s);
  }

  /** The sign stays, the rest is smaller than a square, and the digit is in range. */
  lemma DigitBounds(o: real, pair: nat)
    requires pair < MAX_LOCATOR_PAIRS && Within(o, pair)
    ensures Within(Rest(o, pair), pair + 1) && -Range(pair) < NextDigit(o, pair) < Range(pair)
    ensures o >= 0.0 ==> Rest(o, pair) >= 0.0 && InRange(NextDigit(o, pair), pair)
  {
    hide Range;
    hide Divisions;
    hide Square;
    hide Times;
    Ratio(o, Square(pair + 1));
    SquareStep(pair);
    Fewer(NextDigit(o, pair), Range(pair), Square(pair + 1), o);
  }

  lemma Fewer(q: int, r: int, s: real, o: real)
    requires s > 0.0 && r > 0 && -Times(r as real, s) < o < Times(r as real, s)
    requires (q >= 0 && Times(q as real, s) <= o) || (q <= 0 && o <= Times(q as real, s))
    ensures -r < q < r
  {
    hide Times;
    TimesPlus(q as real - r as real, r as real, s);
    TimesSign(q as real - r as real, s);
    TimesPlus(q as real + r as real, -(r as real), s);
    TimesSign(q as real + r as real, s);
    TimesPlus(r as real, -(r as real), s);
    TimesOne(s);
  }

  // ---- digits taken out and put back ---------------------------------------------------------

  lemma DigitIs(d: int, rest: real, pair: nat)
    requires pair < MAX_LOCATOR_PAIRS && InRange(d, pair) && 0.0 <= rest < Square(pair + 1)
    ensures var o := Squares(d, pair + 1) + rest;
      NextDigit(o, pair) == d && Rest(o, pair) == rest && 0.0 <= o < Square(pair)
  {
    hide Times;
    hide Range;
    hide Square;
    var s := Square(pair + 1);
    var o := Squares(d, pair + 1) + rest;
    var r := o / s;
    TimesQuotient(o, s);
    TimesPlus(r - d as real, d as real, s);
    TimesSign(r - d as real, s);
    TimesPlus(r - d as real - 1.0, 1.0, s);
    TimesOne(s);
    TimesSign(r - d as real - 1.0, s);
    TruncIs(r, d);
    SquareStep(pair);
    TimesSign(d as real, s);
    TimesPlus(Range(pair) as real - d as real - 1.0, d as real + 1.0, s);
    TimesPlus(d as real, 1.0, s);
    TimesSign(Range(pair) as real - d as real - 1.0, s);
  }

  lemma {:induction false} ExtractTail(ds: seq<int>, k: nat, e: real)
    requires Digits(ds) && k <= |ds| && 0.0 <= e < Square(|ds|)
    ensures Extract(Tail(ds, k) + e, k, |ds|) == ds[k..] && 0.0 <= Tail(ds, k) + e < Square(k)
    decreases |ds| - k
  {
    hide Square;
    hide Squares;
    hide NextDigit;
    hide Rest;
    if k < |ds| {
      ExtractTail(ds, k + 1, e);
      DigitIs(ds[k], Tail(ds, k + 1) + e, k);
    }
  }

  /** Digits from pair `k` on, in degrees. */
  function Sum(ds: seq<int>, k: nat): real
    requires k + |ds| <= MAX_LOCATOR_PAIRS
  {
    if ds == [] then 0.0 else Squares(ds[0], k + 1) + Sum(ds[1..], k + 1)
  }

  lemma {:induction false} TailIsSum(ds: seq<int>, k: nat)
    requires k <= |ds| <= MAX_LOCATOR_PAIRS
    ensures Tail(ds, k) == Sum(ds[k..], k)
    decreases |ds| - k
  {
    hide Squares;
    if k < |ds| {
      TailIsSum(ds, k + 1);
      assert ds[k..][1..] == ds[k + 1..];
    }
  }

  /** All digits are in range, and less than a square is left. */
  lemma {:induction false} ExtractBounds(o: real, k: nat, n: nat)
    requires k <= n <= MAX_LOCATOR_PAIRS && Within(o, k)
    ensures var ds := Extract(o, k, n);
      (forall j :: 0 <= j < |ds| ==> -Range(k + j) < ds[j] < Range(k + j)) && Within(o - Sum(ds, k), n) &&
      (o >= 0.0 ==> o - Sum(ds, k) >= 0.0 && forall j :: 0 <= j < |ds| ==> InRange(ds[j], k + j))
    decreases n - k
  {
    hide Square;
    hide Squares;
    hide NextDigit;
    hide Range;
    if k < n {
      DigitBounds(o, k);
      ExtractBounds(Rest(o, k), k + 1, n);
      var ds, more := Extract(o, k, n), Extract(Rest(o, k), k + 1, n);
      assert ds[1..] == more;
      FirstInBounds(NextDigit(o, k), more, k);
    }
  }

  lemma FirstInBounds(d: int, more: seq<int>, k: nat)
    requires k + 1 + |more| <= MAX_LOCATOR_PAIRS && -Range(k) < d < Range(k)
    requires forall j :: 0 <= j < |more| ==> -Range(k + 1 + j) < more[j] < Range(k + 1 + j)
    ensures var ds := [d] + more;
      (forall j :: 0 <= j < |ds| ==> -Range(k + j) < ds[j] < Range(k + j)) &&
      (InRange(d, k) && (forall j :: 0 <= j < |more| ==> InRange(more[j], k + 1 + j)) ==>
         forall j :: 0 <= j < |ds| ==> InRange(ds[j], k + j))
  {
    hide Range;
    var ds := [d] + more;
    forall j | 0 <= j < |ds|
      ensures -Range(k + j) < ds[j] < Range(k + j)
      ensures InRange(d, k) && (forall i :: 0 <= i < |more| ==> InRange(more[i], k + 1 + i)) ==> InRange(ds[j], k + j)
    {
      if j > 0 { assert ds[j] == more[j - 1] && k + j == k + 1 + (j - 1); }
    }
  }

  // ---- the ordinate --------------------------------------------------------------------------

  /** 1e-6, against rounding errors, and 270 + 1e-6 (line 572) */
  const GUARD := 0.000001
  const SHIFT := 270.000001

  /** An ordinate from 0 on, modulo a half circle. */
  function Shifted(ordinate: real): real {
    Fmod(ordinate + SHIFT, 180.0)
  }

  lemma ShiftedIsSmall(ordinate: real)
    ensures -180.0 < Shifted(ordinate) < 180.0 && Within(Shifted(ordinate), 0)
  {
    var x := ordinate + SHIFT;
    Ratio(x, 180.0);
    assert Divisions(0) == 1;
    assert Times(Trunc(x / 180.0) as real, 180.0) == 180.0 * Trunc(x / 180.0) as real;
  }

  /** From the south pole to just below the north pole, it is the distance from the south pole and the guard. */
  lemma ShiftedIs(ordinate: real)
    requires -90.0 <= ordinate < 90.0 - GUARD
    ensures Shifted(ordinate) == ordinate + 90.0 + GUARD
  {
    var x := ordinate + SHIFT;
    var r := x / 180.0;
    assert 1.0 <= r < 2.0;
    TruncIs(r, 1);
  }

  /** With the guard of 1e-6 as a number. */
  lemma DistanceIs(ordinate: real)
    requires -90.0 <= ordinate < 89.999999
    ensures Shifted(ordinate) == ordinate + 90.000001
  {
    ShiftedIs(ordinate);
    hide Shifted;
  }

  lemma SquareIsLarge(n: nat)
    requires n <= MAX_LOCATOR_PAIRS
    ensures Square(n) > 2.0 * GUARD
  {
    DivisionsAre();
    assert Divisions(n) <= 10368000;
    Share180(Divisions(n) as real);
  }

  lemma DivisionsAre()
    ensures Divisions(0) == 1 && Divisions(1) == 18 && Divisions(2) == 180 && Divisions(3) == 4320
    ensures Divisions(4) == 43200 && Divisions(5) == 1036800 && Divisions(6) == 10368000
  {
    assert Divisions(1) == 1 * 18;
    assert Divisions(2) == 18 * 10;
    assert Divisions(3) == 180 * 24;
    assert Divisions(4) == 4320 * 10;
    assert Divisions(5) == 43200 * 24;
    assert Divisions(6) == 1036800 * 10;
  }

  /** The centre of a square in degrees, digit by digit, for each number of pairs. */
  lemma CentreIs(ds: seq<int>)
    requires 1 <= |ds| <= MAX_LOCATOR_PAIRS
    ensures var c := Centre(ds) + 90.0;
      var d := ds + [0, 0, 0, 0, 0];
      match |ds|
      case 1 => c == 10.0 * d[0] as real + 5.0
      case 2 => c == 10.0 * d[0] as real + d[1] as real + 0.5
      case 3 => c == 10.0 * d[0] as real + d[1] as real + (d[2] as real + 0.5) / 24.0
      case 4 => c == 10.0 * d[0] as real + d[1] as real + d[2] as real / 24.0 + (d[3] as real + 0.5) / 240.0
      case 5 => c == 10.0 * d[0] as real + d[1] as real + d[2] as real / 24.0 + d[3] as real / 240.0
                     + (d[4] as real + 0.5) / 5760.0
      case _ => c == 10.0 * d[0] as real + d[1] as real + d[2] as real / 24.0 + d[3] as real / 240.0
                     + d[4] as real / 5760.0 + (d[5] as real + 0.5) / 57600.0
  {
    DivisionsAre();
    SquaresAre();
    hide Divisions;
    hide Square;
    forall k | 0 <= k < |ds| ensures Tail(ds, k) == Squares(ds[k], k + 1) + Tail(ds, k + 1) {}
    assert Tail(ds, |ds|) == 0.0;
    hide Tail;
  }

  lemma SquaresAre()
    ensures Square(1) == 10.0 && Square(2) == 1.0 && Square(3) == 1.0 / 24.0 && Square(4) == 1.0 / 240.0
    ensures Square(5) == 1.0 / 5760.0 && Square(6) == 1.0 / 57600.0
  {
    DivisionsAre();
    hide Divisions;
  }

  lemma Share180(d: real)
    requires 0.0 < d <= 10368000.0
    ensures 180.0 / d > 0.000002
  {
    var q := 180.0 / d;
    assert q * d == 180.0;
    if q <= 0.000002 {
      AtMost(q, d);
    }
  }

  lemma AtMost(q: real, d: real)
    requires q <= 0.000002 && 0.0 < d <= 10368000.0
    ensures q * d < 180.0
  {
    assert q * d <= 0.000002 * d;
  }

  lemma HalfSquare(n: nat)
    requires n <= MAX_LOCATOR_PAIRS
    ensures 90.0 / Divisions(n) as real == Square(n) / 2.0
  {
    hide Divisions;
    Half(Divisions(n) as real);
  }

  lemma Half(d: real)
    requires d > 0.0
    ensures 90.0 / d == (180.0 / d) / 2.0
  {
    var x, y := 90.0 / d, 180.0 / d;
    assert x * d == 90.0 && y * d == 180.0;
    assert (x + x - y) * d == 0.0;
  }

  /** The centre of a square is in that square. */
  lemma CentreIsInside(ds: seq<int>)
    requires Digits(ds)
    ensures -90.0 <= Centre(ds) < 90.0 - GUARD && Extract(Shifted(Centre(ds)), 0, |ds|) == ds
  {
    hide Square;
    hide Divisions;
    hide Extract;
    hide Shifted;
    HalfSquare(|ds|);
    SquareIsLarge(|ds|);
    ExtractTail(ds, 0, Square(|ds|) / 2.0 + GUARD);
    ExtractTail(ds, 0, 0.0);
    Square0();
    ShiftedIs(Centre(ds));
  }

  lemma Square0()
    ensures Square(0) == 180.0
  {
  }

  // ---- from longitude and latitude to a locator ---------------------------------------------------

  /** The digits that are generated for an ordinate. */
  function Generated(ordinate: real, n: nat): (r: seq<int>)
    requires n <= MAX_LOCATOR_PAIRS
    ensures |r| == n && forall k :: 0 <= k < n ==> -Range(k) < r[k] < Range(k)
  {
    ShiftedIsSmall(ordinate);
    ExtractBounds(Shifted(ordinate), 0, n);
    Extract(Shifted(ordinate), 0, n)
  }

  /** The locator of `n` pairs, from the digits of the longitude and the latitude. */
  function Text(xs: seq<int>, ys: seq<int>): (r: string)
    requires |xs| == |ys| <= MAX_LOCATOR_PAIRS
    requires forall k :: 0 <= k < |xs| ==> -Range(k) < xs[k] < Range(k) && -Range(k) < ys[k] < Range(k)
    ensures |r| == 2 * |xs|
  {
    seq(2 * |xs|, i requires 0 <= i < 2 * |xs| => CharOf(if i % 2 == 0 then xs[i / 2] else ys[i / 2], i / 2))
  }

  /** The digits of the longitude come first in each pair. */
  lemma TextIs(xs: seq<int>, ys: seq<int>, p: nat)
    requires p < |xs| == |ys| <= MAX_LOCATOR_PAIRS
    requires forall k :: 0 <= k < |xs| ==> -Range(k) < xs[k] < Range(k) && -Range(k) < ys[k] < Range(k)
    ensures Text(xs, ys)[2 * p] == CharOf(xs[p], p) && Text(xs, ys)[2 * p + 1] == CharOf(ys[p], p)
  {
    hide Range;
    hide CharOf;
  }

  /** Lines 576-580. */
  method TakeDigit(ordinate: real, pair: nat, divisions0: int) returns (divisions: int, locvalue: int, rest: real)
    requires pair < MAX_LOCATOR_PAIRS && divisions0 == Divisions(pair)
    ensures divisions == Divisions(pair + 1) && locvalue == NextDigit(ordinate, pair) && rest == Rest(ordinate, pair)
  {
    hide Range;
    hide NextDigit;
    hide Rest;
    divisions := divisions0 * Range(pair);
    var squareSize := 180.0 / divisions as real;
    locvalue := Trunc(ordinate / squareSize);
    NextIs(ordinate, pair);
    rest := ordinate - squareSize * locvalue as real;
  }

  /** One pass of the outer loop (lines 566-584). */
  method PutDigits(ordinate0: real, xOrY: nat, locator: array<char>, pairCount: nat)
    requires pairCount <= MAX_LOCATOR_PAIRS && 2 * pairCount <= locator.Length && xOrY < 2
    modifies locator
    ensures forall i :: 0 <= i < 2 * pairCount && i % 2 == xOrY ==>
            locator[i] == CharOf(Generated(ordinate0, pairCount)[i / 2], i / 2)
    ensures forall i :: 0 <= i < locator.Length && (i % 2 != xOrY || i >= 2 * pairCount) ==>
            locator[i] == old(locator[i])
  {
    hide Range;
    hide Divisions;
    hide Square;
    hide NextDigit;
    hide Rest;
    hide CharOf;
    hide Shifted;
    hide Fmod;
    NoDivisions();
    ghost var ds := Generated(ordinate0, pairCount);
    var ordinate := Fmod(ordinate0 + SHIFT, 180.0);
    var divisions, pair := 1, 0;
    ShiftedOf(ordinate0);
    assert ds[0..] == ds;
    while pair < pairCount
      invariant 0 <= pair <= pairCount && divisions == Divisions(pair)
      invariant Extract(ordinate, pair, pairCount) == ds[pair..]
      invariant forall i :: 0 <= i < 2 * pair && i % 2 == xOrY ==> locator[i] == CharOf(ds[i / 2], i / 2)
      invariant forall i :: 0 <= i < locator.Length && (i % 2 != xOrY || i >= 2 * pair) ==>
                locator[i] == old(locator[i])
    {
      var locvalue;
      divisions, locvalue, ordinate := TakeDigit(ordinate, pair, divisions);
      assert locvalue == ds[pair] && ds[pair..][1..] == ds[pair + 1..];
      locator[pair * 2 + xOrY] := CharOf(locvalue, pair);
      pair := pair + 1;
    }
  }

  lemma NoDivisions()
    ensures Divisions(0) == 1
  {
  }

  lemma ShiftedOf(ordinate: real)
    ensures Shifted(ordinate) == Fmod(ordinate + SHIFT, 180.0)
  {
  }

  lemma NextIs(o: real, pair: nat)
    requires pair < MAX_LOCATOR_PAIRS
    ensures var square := 180.0 / (Divisions(pair) * Range(pair)) as real;
      NextDigit(o, pair) == Trunc(o / square) && Rest(o, pair) == o - square * Trunc(o / square) as real
  {
    hide Times;
    hide Square;
    hide Range;
    SquareOf(pair);
    TimesIs(Trunc(o / Square(pair + 1)) as real, Square(pair + 1));
  }

  lemma SquareOf(pair: nat)
    requires pair < MAX_LOCATOR_PAIRS
    ensures Square(pair + 1) == 180.0 / (Divisions(pair) * Range(pair)) as real
  {
  }

  lemma TimesIs(a: real, b: real)
    ensures Times(a, b) == b * a
  {
  }

  /** `longlat2locator` (lines 546-589). */
  method Longlat2Locator(longitude: real, latitude: real, locator: array<char>, pairCount: int) returns (ok: bool)
    requires MIN_LOCATOR_PAIRS <= pairCount <= MAX_LOCATOR_PAIRS ==> locator.Length > 2 * pairCount
    modifies locator
    ensures ok == (MIN_LOCATOR_PAIRS <= pairCount <= MAX_LOCATOR_PAIRS)
    ensures !ok ==> locator[..] == old(locator[..])
    ensures ok ==>
            locator[..2 * pairCount] == Text(Generated(longitude / 2.0, pairCount), Generated(latitude, pairCount))
    ensures ok ==> locator[2 * pairCount] == '\0' && locator[2 * pairCount + 1..] == old(locator[2 * pairCount + 1..])
  {
    hide Generated;
    hide CharOf;
    if pairCount < MIN_LOCATOR_PAIRS || pairCount > MAX_LOCATOR_PAIRS {
      return false;
    }
    PutDigits(longitude / 2.0, 0, locator, pairCount);
    PutDigits(latitude, 1, locator, pairCount);
    locator[pairCount * 2] := '\0';
    ghost var text := Text(Generated(longitude / 2.0, pairCount), Generated(latitude, pairCount));
    assert locator[..2 * pairCount] == text;
    return true;
  }

  // ---- there and back ---------------------------------------------------------------------------

  function UpperText(s: string): (r: string)
    ensures |r| == |s|
  {
    seq(|s|, i requires 0 <= i < |s| => Upper(s[i]))
  }

  /** For every locator of one to six pairs, converting the centre of its square back gives the locator in
      upper case. */
  lemma LocatorRoundTrip(s: string)
    requires IsLocator(s)
    ensures var n := Pairs(s);
      var longitude, latitude := Centre(DigitsOf(s, n, 0)) * 2.0, Centre(DigitsOf(s, n, 1));
      Text(Generated(longitude / 2.0, n), Generated(latitude, n)) == UpperText(s[..2 * n])
  {
    hide Centre;
    hide CharOf;
    hide DigitOf;
    hide Extract;
    hide Shifted;
    var n := Pairs(s);
    var xs, ys := DigitsOf(s, n, 0), DigitsOf(s, n, 1);
    CentreIsInside(xs);
    CentreIsInside(ys);
    assert Centre(xs) * 2.0 / 2.0 == Centre(xs);
    assert Generated(Centre(xs), n) == xs && Generated(Centre(ys), n) == ys;
    forall i | 0 <= i < 2 * n ensures Text(xs, ys)[i] == UpperText(s[..2 * n])[i] {
      assert i == i / 2 * 2 + i % 2;
      UpperDigit(s[i], i / 2);
    }
  }

  /** For every ordinate from -90 to just below 90, the digits are in range, and the centre of their square is no
      further away than half a square and the guard. */
  lemma CentreIsNear(ordinate: real, n: nat)
    requires -90.0 <= ordinate < 90.0 - GUARD && n <= MAX_LOCATOR_PAIRS
    ensures var ds := Generated(ordinate, n);
      Digits(ds) && -(Square(n) / 2.0 + GUARD) <= Centre(ds) - ordinate <= Square(n) / 2.0 + GUARD
  {
    hide Square;
    hide Divisions;
    hide Extract;
    hide Shifted;
    hide Range;
    ShiftedIsSmall(ordinate);
    ShiftedIs(ordinate);
    ExtractBounds(Shifted(ordinate), 0, n);
    var ds := Generated(ordinate, n);
    TailIsSum(ds, 0);
    assert ds[0..] == ds;
    HalfSquare(n);
  }
}
