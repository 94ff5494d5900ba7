/** Piecewise-linear calibration (src/cal.c:41-184), over reals: the rounding of `float` is not modelled. */
module Calibration {

  /** One point of a calibration table. */
  datatype Plot = Plot(raw: int, val: real)
  datatype IntPlot = IntPlot(raw: int, val: int)

  function Reals(t: seq<IntPlot>): (r: seq<Plot>)
    ensures |r| == |t|
  {
    seq(|t|, i requires 0 <= i < |t| => Plot(t[i].raw, t[i].val as real))
  }

  /** The first point from `i` on that is above `x`. */
  function First(t: seq<Plot>, x: int, i: nat): (k: nat)
    requires i <= |t|
    ensures i <= k <= |t|
    decreases |t| - i
  {
    if i == |t| || x < t[i].raw then i else First(t, x, i + 1)
  }

  lemma FirstIs(t: seq<Plot>, x: int, i: nat)
    requires i <= |t|
    ensures var k := First(t, x, i); (k < |t| ==> x < t[k].raw) && forall j :: i <= j < k ==> t[j].raw <= x
    decreases |t| - i
  {
  }

  /** The line through points `i - 1` and `i`, with a guard against division by zero. */
  function Line(t: seq<Plot>, i: nat, x: int): real
    requires 0 < i < |t|
  {
    if t[i].raw == t[i - 1].raw then t[i].val
    else t[i].val - ((t[i].raw - x) as real * (t[i].val - t[i - 1].val)) / (t[i].raw - t[i - 1].raw) as real
  }

  /** The calibrated value. */
  function Value(t: seq<Plot>, x: int): real {
    var i := First(t, x, 0);
    if t == [] then x as real else if i == 0 then t[0].val else if i == |t| then t[i - 1].val else Line(t, i, x)
  }

  // ---- the code ------------------------------------------------------------------

  /** `rig_raw2val_float` (lines 140-184). */
  method Raw2ValFloat(rawval: int, table: array<Plot>) returns (r: real)
    ensures r == Value(table[..], rawval)
  {
    if table.Length == 0 {
      return rawval as real;
    }
    ghost var t := table[..];
    var i := 0;
    while i < table.Length
      invariant 0 <= i <= table.Length && First(t, rawval, i) == First(t, rawval, 0)
    {
      if rawval < table[i].raw {
        break;
      }
      i := i + 1;
    }
    if i == 0 {
      return table[0].val;
    }
    if i >= table.Length {
      return table[i - 1].val;
    }
    if table[i].raw == table[i - 1].raw {
      return table[i].val;
    }
    var interpolation := ((table[i].raw - rawval) as real * (table[i].val - table[i - 1].val))
                         / (table[i].raw - table[i - 1].raw) as real;
    return table[i].val - interpolation;
  }

  /** `rig_raw2val` (lines 61-117) with floating point. */
  method Raw2Val(rawval: int, table: array<IntPlot>) returns (r: real)
    ensures r == Value(Reals(table[..]), rawval)
  {
    if table.Length == 0 {
      return rawval as real;
    }
    ghost var t := Reals(table[..]);
    var i := 0;
    while i < table.Length
      invariant 0 <= i <= table.Length && First(t, rawval, i) == First(t, rawval, 0)
    {
      if rawval < table[i].raw {
        break;
      }
      i := i + 1;
    }
    if i == 0 {
      return table[0].val as real;
    }
    if i >= table.Length {
      return table[i - 1].val as real;
    }
    if table[i].raw == table[i - 1].raw {
      return table[i].val as real;
    }
    var interpolation := ((table[i].raw - rawval) as real * (table[i].val - table[i - 1].val) as real)
                         / (table[i].raw - table[i - 1].raw) as real;
    return table[i].val as real - interpolation;
  }

  /** The `/` of C, which truncates toward zero. */
  function Quotient(n: int, d: int): int
    requires d > 0
  {
    if n >= 0 then n / d else -((-n) / d)
  }

  function IntLine(t: seq<IntPlot>, i: nat, x: int): int
    requires 0 < i < |t| && t[i - 1].raw <= t[i].raw
  {
    if t[i].raw == t[i - 1].raw then t[i].val
    else t[i].val - Quotient((t[i].raw - x) * (t[i].val - t[i - 1].val), t[i].raw - t[i - 1].raw)
  }

  lemma PointsAround(t: seq<IntPlot>, x: int)
    ensures var i := First(Reals(t), x, 0); 0 < i < |t| ==> t[i - 1].raw <= x < t[i].raw
  {
    FirstIs(Reals(t), x, 0);
    var i := First(Reals(t), x, 0);
    assert 0 < i < |t| ==> Reals(t)[i - 1].raw <= x < Reals(t)[i].raw;
  }

  /** The calibrated value without floating point. */
  function IntValue(t: seq<IntPlot>, x: int): int {
    var i := First(Reals(t), x, 0);
    FirstIs(Reals(t), x, 0);
    PointsAround(t, x);
    if t == [] then x else if i == 0 then t[0].val else if i == |t| then t[i - 1].val else IntLine(t, i, x)
  }

  /** `rig_raw2val` (lines 61-117) with WANT_CHEAP_WNO_FP. */
  method Raw2ValCheap(rawval: int, table: array<IntPlot>) returns (r: int)
    ensures r == IntValue(table[..], rawval)
  {
    if table.Length == 0 {
      return rawval;
    }
    ghost var t := Reals(table[..]);
    var i := 0;
    while i < table.Length
      invariant 0 <= i <= table.Length && First(t, rawval, i) == First(t, rawval, 0)
    {
      if rawval < table[i].raw {
        break;
      }
      i := i + 1;
    }
    if i == 0 {
      return table[0].val;
    }
    if i >= table.Length {
      return table[i - 1].val;
    }
    if table[i].raw == table[i - 1].raw {
      return table[i].val;
    }
    PointsAround(table[..], rawval);
    var interpolation := Quotient((table[i].raw - rawval) * (table[i].val - table[i - 1].val),
      table[i].raw - table[i - 1].raw);
    return table[i].val - interpolation;
  }

  // ---- what it means ----------------------------------------------------------------

  /** The guard against equal raw values is never needed, whatever the table. */
  lemma GuardUnreachable(t: seq<Plot>, x: int)
    ensures var i := First(t, x, 0); 0 < i < |t| ==> t[i - 1].raw <= x < t[i].raw
  {
    FirstIs(t, x, 0);
  }

  /** The points that decide about `x`: point `i` is the first one above it. */
  predicate FirstAbove(t: seq<Plot>, x: int, i: nat) {
    i < |t| && x < t[i].raw && forall j :: 0 <= j < i ==> t[j].raw <= x
  }

  lemma FirstAboveIs(t: seq<Plot>, x: int, i: nat)
    requires FirstAbove(t, x, i)
    ensures First(t, x, 0) == i
  {
    FirstIs(t, x, 0);
  }

  /** For every table: below the first point it is that point's value, above all points the last one's, and in between
      the value is on the straight line through the first point above and the one before it. */
  lemma OnTheLine(t: seq<Plot>, x: int, i: nat)
    requires FirstAbove(t, x, i)
    ensures i == 0 ==> Value(t, x) == t[0].val
    ensures i > 0 ==> (Value(t, x) - t[i - 1].val) * (t[i].raw - t[i - 1].raw) as real
                      == (x - t[i - 1].raw) as real * (t[i].val - t[i - 1].val)
  {
    FirstAboveIs(t, x, i);
    if i > 0 {
      LineIs(t[i].raw as real, t[i - 1].raw as real, x as real, t[i].val, t[i - 1].val);
    }
  }

  lemma LineIs(r: real, q: real, x: real, v: real, u: real)
    requires q < r
    ensures (v - ((r - x) * (v - u)) / (r - q) - u) * (r - q) == (x - q) * (v - u)
  {
    var d, w := r - q, v - u;
    var f := ((r - x) * w) / d;
    assert f * d == (r - x) * w;
    assert (w - f) * d == w * d - f * d;
    assert w * d - (r - x) * w == (x - q) * w;
  }

  lemma OutsideTheLine(t: seq<Plot>, x: int)
    requires forall j :: 0 <= j < |t| ==> t[j].raw <= x
    ensures Value(t, x) == if t == [] then x as real else t[|t| - 1].val
  {
    FirstIs(t, x, 0);
  }

  /** Neither raw values nor calibrated values fall. */
  predicate Rising(t: seq<Plot>) {
    forall i, j :: 0 <= i <= j < |t| ==> t[i].raw <= t[j].raw && t[i].val <= t[j].val
  }

  lemma FractionBounds(a: real, d: real, v: real)
    requires 0.0 <= a <= d && 0.0 < d && 0.0 <= v
    ensures 0.0 <= (a * v) / d <= v
  {
    assert 0.0 <= a * v <= d * v;
    assert (d * v) / d == v;
    FractionRises(a * v, d * v, d);
    FractionRises(0.0, a * v, d);
  }

  lemma FractionRises(a: real, b: real, d: real)
    requires a <= b && 0.0 < d
    ensures a / d <= b / d
  {
    assert b / d - a / d == (b - a) / d;
  }

  /** Between two points, the value is between theirs, and at the lower point it is that point's. */
  lemma LineBracketed(t: seq<Plot>, i: nat, x: int)
    requires 0 < i < |t| && t[i - 1].raw <= x < t[i].raw && t[i - 1].val <= t[i].val
    ensures t[i - 1].val <= Line(t, i, x) <= t[i].val
    ensures x == t[i - 1].raw ==> Line(t, i, x) == t[i - 1].val
  {
    var a, d, v := (t[i].raw - x) as real, (t[i].raw - t[i - 1].raw) as real, t[i].val - t[i - 1].val;
    FractionBounds(a, d, v);
    if a == d {
      assert (d * v) / d == v;
    }
  }

  lemma LineRises(t: seq<Plot>, i: nat, x: int, y: int)
    requires 0 < i < |t| && t[i - 1].raw <= x <= y < t[i].raw && t[i - 1].val <= t[i].val
    ensures Line(t, i, x) <= Line(t, i, y)
  {
    var a, b, d, v := (t[i].raw - x) as real, (t[i].raw - y) as real, (t[i].raw - t[i - 1].raw) as real,
      t[i].val - t[i - 1].val;
    assert b * v <= a * v;
    FractionRises(b * v, a * v, d);
  }

  /** The value stays between those of the points around it, or at the first or last point. */
  lemma ValueBracketed(t: seq<Plot>, x: int)
    requires Rising(t) && t != []
    ensures var i := First(t, x, 0);
      (if i == 0 then Value(t, x) == t[0].val
       else if i == |t| then Value(t, x) == t[|t| - 1].val
       else t[i - 1].val <= Value(t, x) <= t[i].val && (x == t[i - 1].raw ==> Value(t, x) == t[i - 1].val))
  {
    var i := First(t, x, 0);
    FirstIs(t, x, 0);
    if 0 < i < |t| {
      LineBracketed(t, i, x);
    }
  }

  lemma FirstRises(t: seq<Plot>, x: int, y: int)
    requires x <= y
    ensures First(t, x, 0) <= First(t, y, 0)
  {
    FirstIs(t, x, 0);
    FirstIs(t, y, 0);
  }

  /** A larger raw value never gives a smaller calibrated one. */
  lemma ValueRises(t: seq<Plot>, x: int, y: int)
    requires Rising(t) && x <= y
    ensures Value(t, x) <= Value(t, y)
  {
    hide Line;
    if t != [] {
      var i, j := First(t, x, 0), First(t, y, 0);
      FirstRises(t, x, y);
      FirstIs(t, x, 0);
      FirstIs(t, y, 0);
      ValueBracketed(t, x);
      ValueBracketed(t, y);
      if i == j && 0 < i < |t| {
        LineRises(t, i, x, y);
      }
    }
  }

  // ---- without floating point ----------------------------------------------------------

  lemma QuotientIs(n: int, d: int)
    requires d > 0
    ensures var q := Quotient(n, d); n - d < d * q < n + d && (n >= 0 ==> d * q <= n) && (n <= 0 ==> d * q >= n)
  {
    if n >= 0 {
      assert n == d * (n / d) + n % d;
    } else {
      assert -n == d * ((-n) / d) + (-n) % d;
    }
  }

  lemma CloseQuotient(n: int, d: int, q: int)
    requires d > 0 && n - d < d * q < n + d
    ensures -1.0 < n as real / d as real - q as real < 1.0
  {
    Product(d, q);
    CloseFraction(n as real, d as real, q as real, (d * q) as real);
  }

  lemma CloseFraction(n: real, d: real, q: real, p: real)
    requires 0.0 < d && p == d * q && n - d < p < n + d
    ensures -1.0 < n / d - q < 1.0
  {
    var e := n / d - q;
    assert e * d == n - p by { Distribute(n / d, q, d); }
    Small(e, d);
  }

  lemma Distribute(r: real, q: real, d: real)
    ensures (r - q) * d == r * d - d * q
  {
  }

  lemma Small(e: real, d: real)
    requires 0.0 < d && -d < e * d < d
    ensures -1.0 < e < 1.0
  {
    assert e >= 1.0 ==> e * d >= d;
    assert e <= -1.0 ==> e * d <= -d;
  }

  /** Where the integer variant interpolates, what it takes off the value of the point above is the exact fraction,
      cut toward zero. */
  lemma IntOnTheLine(t: seq<IntPlot>, x: int, i: nat)
    requires FirstAbove(Reals(t), x, i)
    ensures i == 0 ==> IntValue(t, x) == t[0].val
    ensures i > 0 ==>
      var n, d, e := (t[i].raw - x) * (t[i].val - t[i - 1].val), t[i].raw - t[i - 1].raw, t[i].val - IntValue(t, x);
      if n >= 0 then 0 <= n - d * e < d else -d < n - d * e <= 0
  {
    FirstAboveIs(Reals(t), x, i);
    PointsAround(t, x);
    if i > 0 {
      QuotientIs((t[i].raw - x) * (t[i].val - t[i - 1].val), t[i].raw - t[i - 1].raw);
    }
    hide First;
    hide Reals;
    hide Quotient;
  }

  lemma IntOutsideTheLine(t: seq<IntPlot>, x: int)
    requires forall j :: 0 <= j < |t| ==> t[j].raw <= x
    ensures IntValue(t, x) == if t == [] then x else t[|t| - 1].val
  {
    FirstIs(Reals(t), x, 0);
  }

  /** For every table, the integer variant is less than one away from the real one. */
  lemma IntValueIsClose(t: seq<IntPlot>, x: int)
    ensures -1.0 < Value(Reals(t), x) - IntValue(t, x) as real < 1.0
  {
    hide First;
    var i := First(Reals(t), x, 0);
    PointsAround(t, x);
    if 0 < i < |t| {
      LinesAreClose(t, i, x);
    }
  }

  lemma LinesAreClose(t: seq<IntPlot>, i: nat, x: int)
    requires 0 < i < |t| && t[i - 1].raw < t[i].raw
    ensures -1.0 < Line(Reals(t), i, x) - IntLine(t, i, x) as real < 1.0
  {
    hide Quotient;
    hide Reals;
    var n, d := (t[i].raw - x) * (t[i].val - t[i - 1].val), t[i].raw - t[i - 1].raw;
    RealsAt(t, i);
    RealsAt(t, i - 1);
    QuotientIs(n, d);
    CloseQuotient(n, d, Quotient(n, d));
    Product(t[i].raw - x, t[i].val - t[i - 1].val);
    assert t[i].val as real - t[i - 1].val as real == (t[i].val - t[i - 1].val) as real;
    assert Line(Reals(t), i, x) == t[i].val as real - n as real / d as real;
  }

  lemma RealsAt(t: seq<IntPlot>, i: nat)
    requires i < |t|
    ensures Reals(t)[i] == Plot(t[i].raw, t[i].val as real)
  {
  }

  lemma Product(a: int, b: int)
    ensures (a * b) as real == a as real * b as real
  {
  }

  predicate IntRising(t: seq<IntPlot>) {
    forall i, j :: 0 <= i <= j < |t| ==> t[i].raw <= t[j].raw && t[i].val <= t[j].val
  }

  lemma QuotientRises(m: int, n: int, d: int)
    requires 0 <= m <= n && d > 0
    ensures 0 <= Quotient(m, d) <= Quotient(n, d)
  {
    DivisionIs(m, d);
    DivisionIs(n, d);
    if m / d > n / d {
      Above(m / d, n / d, d);
    }
  }

  lemma DivisionIs(n: int, d: int)
    requires 0 <= n && 0 < d
    ensures d * (n / d) <= n < d * (n / d) + d && n / d >= 0
  {
    assert n == d * (n / d) + n % d;
  }

  lemma Above(p: int, q: int, d: int)
    requires p > q && d > 0
    ensures d * p >= d * q + d
  {
    var e := p - q - 1;
    assert d * p == d * (q + 1 + e) == d * q + d + d * e;
    assert d * e >= 0;
  }

  lemma Scaled(a: int, d: int, v: int)
    requires 0 <= a <= d && 0 < d && 0 <= v
    ensures 0 <= a * v <= d * v && Quotient(d * v, d) == v
  {
    var n := d * v;
    var q := n / d;
    assert n == d * q + n % d;
    Monotone(a, d, v);
    if v > q {
      Above(v, q, d);
    } else if v < q {
      Above(q, v, d);
    }
  }

  lemma Monotone(a: int, d: int, v: int)
    requires 0 <= a <= d && 0 <= v
    ensures 0 <= a * v <= d * v
  {
  }

  lemma IntLineBracketed(t: seq<IntPlot>, i: nat, x: int)
    requires 0 < i < |t| && t[i - 1].raw <= x < t[i].raw && t[i - 1].val <= t[i].val
    ensures t[i - 1].val <= IntLine(t, i, x) <= t[i].val
  {
    hide Quotient;
    var a, d, v := t[i].raw - x, t[i].raw - t[i - 1].raw, t[i].val - t[i - 1].val;
    Scaled(a, d, v);
    QuotientRises(a * v, d * v, d);
  }

  lemma IntLineRises(t: seq<IntPlot>, i: nat, x: int, y: int)
    requires 0 < i < |t| && t[i - 1].raw <= x <= y < t[i].raw && t[i - 1].val <= t[i].val
    ensures IntLine(t, i, x) <= IntLine(t, i, y)
  {
    var a, b, d, v := t[i].raw - x, t[i].raw - y, t[i].raw - t[i - 1].raw, t[i].val - t[i - 1].val;
    assert 0 <= b * v <= a * v;
    QuotientRises(b * v, a * v, d);
  }

  /** The integer variant does not fall either. */
  lemma IntValueRises(t: seq<IntPlot>, x: int, y: int)
    requires IntRising(t) && x <= y
    ensures IntValue(t, x) <= IntValue(t, y)
  {
    hide IntLine;
    if t != [] {
      var i, j := First(Reals(t), x, 0), First(Reals(t), y, 0);
      FirstRises(Reals(t), x, y);
      PointsAround(t, x);
      PointsAround(t, y);
      if 0 < i < |t| { IntLineBracketed(t, i, x); }
      if 0 < j < |t| { IntLineBracketed(t, j, y); }
      if i == j && 0 < i < |t| { IntLineRises(t, i, x, y); }
    }
  }
}
