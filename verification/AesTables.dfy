/** The tables of security/aes.c, filled in by `aes_gen_tables` (lines 36-137). */
module AesTables {
  import opened Field
  import opened AesSpec

  // ---- words in registers ----------------------------------------------------

  /** A word as a 32-bit number, as GET_UINT32 reads it. */
  function Pack(w: Word): bv32 {
    ((w.a as bv32) << 24) | ((w.b as bv32) << 16) | ((w.c as bv32) << 8) | (w.d as bv32)
  }

  function Byte3(x: bv32): bv8 { ((x >> 24) & 0xFF) as bv8 }
  function Byte2(x: bv32): bv8 { ((x >> 16) & 0xFF) as bv8 }
  function Byte1(x: bv32): bv8 { ((x >> 8) & 0xFF) as bv8 }
  function Byte0(x: bv32): bv8 { (x & 0xFF) as bv8 }

  lemma Unpacked(w: Word)
    ensures Byte3(Pack(w)) == w.a && Byte2(Pack(w)) == w.b && Byte1(Pack(w)) == w.c && Byte0(Pack(w)) == w.d
  {
  }

  function Xor32(x: bv32, y: bv32): bv32 {
    x ^ y
  }

  lemma PackXor(x: Word, y: Word)
    ensures Pack(Xor(x, y)) == Xor32(Pack(x), Pack(y))
  {
    PackXorRaw(x.a, x.b, x.c, x.d, y.a, y.b, y.c, y.d);
  }

  lemma PackXorRaw(a: bv8, b: bv8, c: bv8, d: bv8, p: bv8, q: bv8, r: bv8, s: bv8)
    ensures (((a ^ p) as bv32) << 24) | (((b ^ q) as bv32) << 16) | (((c ^ r) as bv32) << 8) | ((d ^ s) as bv32)
         == (((a as bv32) << 24) | ((b as bv32) << 16) | ((c as bv32) << 8) | (d as bv32))
          ^ (((p as bv32) << 24) | ((q as bv32) << 16) | ((r as bv32) << 8) | (s as bv32))
  {
  }

  /** The ROTR8 macro. */
  function Rotr8(x: bv32): bv32 {
    (x << 24) | (x >> 8)
  }

  /** A column whose rows move down by one. */
  function Turn(w: Word): Word {
    Word(w.d, w.a, w.b, w.c)
  }

  lemma TurnIsRotr8(w: Word)
    ensures Pack(Turn(w)) == Rotr8(Pack(w))
  {
  }

  // ---- bytes as indices --------------------------------------------------------

  function IndexOf(b: bv8): (i: int)
    ensures 0 <= i < 256
  {
    b as int
  }

  function ByteOf(i: int): (b: bv8)
    requires 0 <= i < 256
    ensures IndexOf(b) == i
  {
    var b := i as bv8;
    IndexRaw(i);
    b
  }

  lemma IndexRaw(i: int)
    requires 0 <= i < 256
    ensures (i as bv8) as int == i
  {
    HasByte(i);
    var b: bv8 :| IndexOf(b) == i;
    ByteCode(b);
  }

  lemma ByteCode(b: bv8)
    ensures (b as int) as bv8 == b
  {
  }

  lemma Successor(b: bv8)
    requires b != 255
    ensures (b + 1) as int == b as int + 1
  {
  }

  lemma {:induction false} HasByte(i: int)
    requires 0 <= i < 256
    ensures exists b: bv8 :: IndexOf(b) == i
  {
    if i == 0 {
      assert IndexOf(0) == 0;
    } else {
      HasByte(i - 1);
      var b: bv8 :| IndexOf(b) == i - 1;
      assert (255 as bv8) as int == 255;
      Successor(b);
      assert IndexOf(b + 1) == i;
    }
  }

  lemma ByteIndex(b: bv8)
    ensures ByteOf(IndexOf(b)) == b
  {
  }

  // ---- logarithms (lines 73-79) --------------------------------------------------

  /** The powers of the generator, and for every non-zero byte an exponent. The exponent of 1 is 255. */
  ghost predicate Logarithms(pow: seq<bv8>, log: seq<bv8>) {
    |pow| == 256 && |log| == 256 &&
    (forall n :: 0 <= n < 256 ==> pow[n] == Power(n)) &&
    (forall b :: b != 0 ==> Power(IndexOf(log[IndexOf(b)])) == b)
  }

  /** All powers below `n` have a logarithm. */
  ghost predicate LogsBelow(log: seq<bv8>, n: nat) {
    |log| == 256 &&
    forall k: nat :: k < n ==> Power(IndexOf(log[IndexOf(Power(k))])) == Power(k)
  }

  lemma LogAdded(log: seq<bv8>, n: nat)
    requires LogsBelow(log, n) && n < 256
    ensures LogsBelow(log[IndexOf(Power(n)) := ByteOf(n)], n + 1)
  {
    hide Power;
    hide IndexOf;
    hide ByteOf;
    var r := log[IndexOf(Power(n)) := ByteOf(n)];
    forall k: nat | k < n + 1 ensures Power(IndexOf(r[IndexOf(Power(k))])) == Power(k) {
      OneLog(log, n, k);
    }
  }

  lemma OneLog(log: seq<bv8>, n: nat, k: nat)
    requires |log| == 256 && n < 256 && k <= n
    requires k < n ==> Power(IndexOf(log[IndexOf(Power(k))])) == Power(k)
    ensures var r := log[IndexOf(Power(n)) := ByteOf(n)]; Power(IndexOf(r[IndexOf(Power(k))])) == Power(k)
  {
    hide Power;
    hide IndexOf;
    hide ByteOf;
    ByteIndex(Power(k));
    ByteIndex(Power(n));
  }

  lemma AllLogs(log: seq<bv8>)
    requires LogsBelow(log, 256)
    ensures forall b :: b != 0 ==> Power(IndexOf(log[IndexOf(b)])) == b
  {
    hide Power;
    hide IndexOf;
    forall b | b != 0 ensures Power(IndexOf(log[IndexOf(b)])) == b {
      HasLog(b);
    }
  }

  method FillLogarithms(pow: array<bv8>, log: array<bv8>)
    requires pow.Length == 256 && log.Length == 256 && pow != log
    modifies pow, log
    ensures Logarithms(pow[..], log[..])
  {
    hide Power;
    hide IndexOf;
    hide ByteOf;
    hide LogsBelow;
    hide XtimeMacro;
    hide Xtime;
    var i, x: bv8 := 0, 1;
    PowerZero();
    NoLogs(log[..]);
    while i < 256
      invariant 0 <= i <= 256 && x == Power(i)
      invariant forall n :: 0 <= n < i ==> pow[n] == Power(n)
      invariant LogsBelow(log[..], i)
    {
      LogAdded(log[..], i);
      pow[i] := x;
      ghost var was := log[..];
      log[IndexOf(x)] := ByteOf(i);
      assert log[..] == was[IndexOf(x) := ByteOf(i)];
      XtimeIs(x);
      NextPower(i);
      x := x ^ XtimeMacro(x);
      i := i + 1;
    }
    AllLogs(log[..]);
  }

  lemma NoLogs(log: seq<bv8>)
    requires |log| == 256
    ensures LogsBelow(log, 0)
  {
  }

  lemma NextPower(n: nat)
    ensures Power(n + 1) == Power(n) ^ Xtime(Power(n))
  {
    hide Xtime;
  }

  // ---- lookups ----------------------------------------------------------------------

  lemma PowerPeriod(n: nat)
    requires n <= 510
    ensures Power(n % 255) == Power(n)
  {
    hide Power;
    hide Mul;
    LargePowers();
    if n >= 255 {
      var m := n - 255;
      MulPowers(m, 255);
      MulOne(Power(m));
      if m == 255 {
        PowerZero();
      }
    }
  }

  /** The MUL macro (line 64). */
  method MulMacro(pow: array<bv8>, log: array<bv8>, x: bv8, y: bv8) returns (r: bv8)
    requires Logarithms(pow[..], log[..])
    ensures r == Mul(x, y)
  {
    hide Power;
    hide IndexOf;
    hide Mul;
    MulZero(x);
    MulZero(y);
    if x != 0 && y != 0 {
      var n, m := IndexOf(log[IndexOf(x)]), IndexOf(log[IndexOf(y)]);
      assert log[..][IndexOf(x)] == log[IndexOf(x)] && log[..][IndexOf(y)] == log[IndexOf(y)];
      assert pow[..][(n + m) % 255] == pow[(n + m) % 255];
      MulPowers(n, m);
      PowerPeriod(n + m);
      r := pow[(n + m) % 255];
    } else {
      r := 0;
    }
  }

  lemma InverseByLogarithm(pow: seq<bv8>, log: seq<bv8>, b: bv8)
    requires Logarithms(pow, log) && b != 0
    ensures pow[255 - IndexOf(log[IndexOf(b)])] == Inverse(b)
  {
    hide Power;
    hide IndexOf;
    hide Mul;
    var n := IndexOf(log[IndexOf(b)]);
    InversePowers(n);
    InverseIs(b, Power(255 - n));
  }

  // ---- the S-boxes (lines 88-105) -----------------------------------------------------

  ghost predicate SBoxTable(fsb: seq<bv32>) {
    |fsb| == 256 && forall b :: fsb[IndexOf(b)] == SBox(b) as bv32
  }

  ghost predicate InverseSBoxTable(rsb: seq<bv32>) {
    |rsb| == 256 && forall b :: rsb[IndexOf(b)] == InverseSBox(b) as bv32
  }

  /** Both tables are right for the first `n` bytes. */
  ghost predicate SBoxesBelow(fsb: seq<bv32>, rsb: seq<bv32>, n: int) {
    |fsb| == 256 && |rsb| == 256 &&
    (forall b :: IndexOf(b) < n ==> fsb[IndexOf(b)] == SBox(b) as bv32) &&
    (forall b :: IndexOf(b) < n ==> rsb[IndexOf(SBox(b))] == b as bv32)
  }

  method AffineSteps(b: bv8) returns (x: bv8)
    ensures x == Affine(b)
  {
    x := b;
    var y := x;
    y := (y << 1) | (y >> 7);
    x := x ^ y;
    y := (y << 1) | (y >> 7);
    x := x ^ y;
    y := (y << 1) | (y >> 7);
    x := x ^ y;
    y := (y << 1) | (y >> 7);
    x := x ^ (y ^ 0x63);
  }

  lemma SBoxInjective(a: bv8, b: bv8)
    requires SBox(a) == SBox(b)
    ensures a == b
  {
    hide SBox;
    hide InverseSBox;
    SBoxUndone(a);
    SBoxUndone(b);
  }

  lemma SBoxesAdded(fsb: seq<bv32>, rsb: seq<bv32>, n: int)
    requires SBoxesBelow(fsb, rsb, n) && 0 <= n < 256
    ensures SBoxesBelow(fsb[n := SBox(ByteOf(n)) as bv32], rsb[IndexOf(SBox(ByteOf(n))) := ByteOf(n) as bv32], n + 1)
  {
    hide SBox;
    hide IndexOf;
    hide ByteOf;
    var x := ByteOf(n);
    forall b | IndexOf(b) < n + 1 ensures IndexOf(b) == n ==> b == x {
      ByteIndex(b);
    }
    forall b | IndexOf(b) < n + 1 && b != x ensures IndexOf(SBox(b)) != IndexOf(SBox(x)) {
      ByteIndex(SBox(b));
      ByteIndex(SBox(x));
      if SBox(b) == SBox(x) { SBoxInjective(b, x); }
    }
  }

  lemma AllSBoxes(fsb: seq<bv32>, rsb: seq<bv32>)
    requires SBoxesBelow(fsb, rsb, 256)
    ensures SBoxTable(fsb) && InverseSBoxTable(rsb)
  {
    hide SBox;
    hide InverseSBox;
    hide IndexOf;
    forall b ensures rsb[IndexOf(b)] == InverseSBox(b) as bv32 {
      SBoxUndone(b);
      assert IndexOf(InverseSBox(b)) < 256;
    }
  }

  lemma ZeroByte()
    ensures ByteOf(0) == 0 && IndexOf(0x63) == 0x63 && SBox(0) == 0x63
  {
    assert Inverse(0) == 0;
  }

  lemma NoSBoxes(fsb: seq<bv32>, rsb: seq<bv32>)
    requires |fsb| == 256 && |rsb| == 256
    ensures SBoxesBelow(fsb, rsb, 0)
  {
  }

  method FillSBoxes(pow: array<bv8>, log: array<bv8>, FSb: array<bv32>, RSb: array<bv32>)
    requires Logarithms(pow[..], log[..]) && FSb.Length == 256 && RSb.Length == 256 && FSb != RSb
    modifies FSb, RSb
    ensures SBoxTable(FSb[..]) && InverseSBoxTable(RSb[..])
  {
    hide SBox;
    hide Inverse;
    hide Affine;
    hide IndexOf;
    hide ByteOf;
    hide SBoxesBelow;
    hide SBoxTable;
    hide InverseSBoxTable;
    ZeroByte();
    NoSBoxes(FSb[..], RSb[..]);
    SBoxesAdded(FSb[..], RSb[..], 0);
    ghost var fsb, rsb := FSb[..], RSb[..];
    FSb[0x00] := 0x63;
    RSb[0x63] := 0x00;
    assert FSb[..] == fsb[0 := 0x63] && RSb[..] == rsb[0x63 := 0];
    var i := 1;
    while i < 256
      invariant 1 <= i <= 256 && Logarithms(pow[..], log[..])
      invariant SBoxesBelow(FSb[..], RSb[..], i)
    {
      fsb, rsb := FSb[..], RSb[..];
      SBoxesAdded(fsb, rsb, i);
      var x := NextSBox(pow, log, i);
      FSb[i] := x as bv32;
      RSb[IndexOf(x)] := ByteOf(i) as bv32;
      assert FSb[..] == fsb[i := x as bv32] && RSb[..] == rsb[IndexOf(x) := ByteOf(i) as bv32];
      i := i + 1;
    }
    AllSBoxes(FSb[..], RSb[..]);
  }

  lemma NonZeroByte(i: int)
    requires 1 <= i < 256
    ensures ByteOf(i) != 0
  {
    assert IndexOf(ByteOf(i)) == i && IndexOf(0) == 0;
  }

  /** Lines 95-101: the inverse from the logarithms, then the affine map. */
  method NextSBox(pow: array<bv8>, log: array<bv8>, i: int) returns (x: bv8)
    requires Logarithms(pow[..], log[..]) && 1 <= i < 256
    ensures x == SBox(ByteOf(i))
  {
    hide Affine;
    hide Inverse;
    hide IndexOf;
    hide ByteOf;
    NonZeroByte(i);
    InverseByLogarithm(pow[..], log[..], ByteOf(i));
    assert log[..][i] == log[i];
    assert pow[..][255 - IndexOf(log[i])] == pow[255 - IndexOf(log[i])];
    x := AffineSteps(pow[255 - IndexOf(log[i])]);
  }

  // ---- round constants (lines 81-86) ---------------------------------------------------

  ghost predicate RconTable(rcon: seq<bv32>) {
    |rcon| == 10 && forall i :: 0 <= i < 10 ==> rcon[i] == Pack(Rcon(i + 1))
  }

  lemma RconPack(i: nat)
    requires i >= 1
    ensures Pack(Rcon(i)) == (RconByte(i) as bv32) << 24
  {
    TopByte(RconByte(i));
  }

  lemma TopByte(x: bv8)
    ensures Pack(Word(x, 0, 0, 0)) == (x as bv32) << 24
  {
  }

  method FillRcon(RCON: array<bv32>)
    requires RCON.Length == 10
    modifies RCON
    ensures RconTable(RCON[..])
  {
    hide Pack;
    hide Xtime;
    hide XtimeMacro;
    var i, x: bv8 := 0, 1;
    while i < 10
      invariant 0 <= i <= 10 && x == RconByte(i + 1)
      invariant forall k :: 0 <= k < i ==> RCON[k] == Pack(Rcon(k + 1))
    {
      RCON[i] := (x as bv32) << 24;
      RconPack(i + 1);
      XtimeIs(x);
      x := XtimeMacro(x);
      i := i + 1;
    }
  }

  // ---- forward and reverse tables (lines 107-136) ----------------------------------------

  /** What a byte of the first row contributes to a column: SubBytes and MixColumns at once. */
  ghost function ForwardWord(b: bv8): Word {
    Word(Mul(0x02, SBox(b)), SBox(b), SBox(b), Mul(0x03, SBox(b)))
  }

  /** What a byte of the first row contributes to a column under InvMixColumns. */
  function InverseWord(b: bv8): Word {
    Word(Mul(0x0E, b), Mul(0x09, b), Mul(0x0D, b), Mul(0x0B, b))
  }

  ghost function ReverseWord(b: bv8): Word {
    InverseWord(InverseSBox(b))
  }

  /** Entry `i` of four tables, one for each row. */
  ghost predicate Turned(t0: seq<bv32>, t1: seq<bv32>, t2: seq<bv32>, t3: seq<bv32>, i: int, w: Word)
    requires 0 <= i < |t0| && |t0| == |t1| == |t2| == |t3|
  {
    t0[i] == Pack(w) && t1[i] == Pack(Turn(w)) && t2[i] == Pack(Turn(Turn(w))) && t3[i] == Pack(Turn(Turn(Turn(w))))
  }

  /** Four tables that are right for the first `n` bytes. */
  ghost predicate TablesBelow(t0: seq<bv32>, t1: seq<bv32>, t2: seq<bv32>, t3: seq<bv32>, word: bv8 -> Word, n: int) {
    |t0| == 256 && |t1| == 256 && |t2| == 256 && |t3| == 256 &&
    forall b: bv8 :: IndexOf(b) < n ==> Turned(t0, t1, t2, t3, IndexOf(b), word(b))
  }

  lemma TablesAdded(t0: seq<bv32>, t1: seq<bv32>, t2: seq<bv32>, t3: seq<bv32>, word: bv8 -> Word, n: int, x: bv32)
    requires TablesBelow(t0, t1, t2, t3, word, n) && 0 <= n < 256 && x == Pack(word(ByteOf(n)))
    ensures TablesBelow(t0[n := x], t1[n := Rotr8(x)], t2[n := Rotr8(Rotr8(x))], t3[n := Rotr8(Rotr8(Rotr8(x)))],
            word, n + 1)
  {
    hide Pack;
    hide Turn;
    hide Rotr8;
    hide IndexOf;
    hide ByteOf;
    var w := word(ByteOf(n));
    TurnIsRotr8(w);
    TurnIsRotr8(Turn(w));
    TurnIsRotr8(Turn(Turn(w)));
    var r0, r1, r2, r3 := t0[n := x], t1[n := Rotr8(x)], t2[n := Rotr8(Rotr8(x))], t3[n := Rotr8(Rotr8(Rotr8(x)))];
    forall b: bv8 | IndexOf(b) < n + 1 ensures Turned(r0, r1, r2, r3, IndexOf(b), word(b)) {
      ByteIndex(b);
    }
  }

  lemma ForwardEntry(x: bv8)
    ensures var y := XtimeMacro(x);
      Pack(Word(Mul(0x02, x), x, x, Mul(0x03, x)))
      == ((x ^ y) as bv32) ^ ((x as bv32) << 8) ^ ((x as bv32) << 16) ^ ((y as bv32) << 24)
  {
    hide Xtime;
    hide Mul;
    hide XtimeMacro;
    MulTwoThree(x);
    XtimeIs(x);
    PackSum(Xtime(x), x, x, x ^ Xtime(x));
  }

  lemma PackSum(a: bv8, b: bv8, c: bv8, d: bv8)
    ensures Pack(Word(a, b, c, d)) == (d as bv32) ^ ((c as bv32) << 8) ^ ((b as bv32) << 16) ^ ((a as bv32) << 24)
  {
  }

  // ---- the global tables ------------------------------------------------------------------

  /** Four tables that belong together, such as FT0 to FT3. */
  class Four {
    const t0: array<bv32>
    const t1: array<bv32>
    const t2: array<bv32>
    const t3: array<bv32>

    constructor ()
      ensures Shape() && fresh(Arrays())
    {
      t0 := new bv32[256];
      t1 := new bv32[256];
      t2 := new bv32[256];
      t3 := new bv32[256];
    }

    ghost predicate Shape() {
      t0.Length == t1.Length == t2.Length == t3.Length == 256 &&
      t0 != t1 && t0 != t2 && t0 != t3 && t1 != t2 && t1 != t3 && t2 != t3
    }

    ghost function Arrays(): set<object> {
      {t0, t1, t2, t3}
    }

    /** The tables hold the word of each of the first `n` bytes, turned for their row. */
    ghost predicate Below(word: bv8 -> Word, n: int)
      reads t0, t1, t2, t3
    {
      TablesBelow(t0[..], t1[..], t2[..], t3[..], word, n)
    }

    ghost predicate Filled(word: bv8 -> Word)
      reads t0, t1, t2, t3
    {
      Below(word, 256)
    }

    /** The entries for byte `b`. */
    lemma At(word: bv8 -> Word, b: bv8)
      requires Shape() && Filled(word)
      ensures t0[IndexOf(b)] == Pack(word(b))
      ensures t1[IndexOf(b)] == Pack(Turn(word(b)))
      ensures t2[IndexOf(b)] == Pack(Turn(Turn(word(b))))
      ensures t3[IndexOf(b)] == Pack(Turn(Turn(Turn(word(b)))))
    {
      hide Pack;
      hide Turn;
      hide IndexOf;
      assert Turned(t0[..], t1[..], t2[..], t3[..], IndexOf(b), word(b));
    }

    lemma NothingBelow(word: bv8 -> Word)
      requires Shape()
      ensures Below(word, 0)
    {
    }

    method Put(i: int, x0: bv32, x1: bv32, x2: bv32, x3: bv32, ghost word: bv8 -> Word)
      requires Shape() && 0 <= i < 256 && Below(word, i) && x0 == Pack(word(ByteOf(i)))
      requires x1 == Rotr8(x0) && x2 == Rotr8(x1) && x3 == Rotr8(x2)
      modifies Arrays()
      ensures Below(word, i + 1)
    {
      hide Rotr8;
      hide TablesBelow;
      hide Pack;
      hide ByteOf;
      TablesAdded(t0[..], t1[..], t2[..], t3[..], word, i, x0);
      t0[i] := x0;
      t1[i] := x1;
      t2[i] := x2;
      t3[i] := x3;
      assert t0[..] == old(t0[..])[i := x0];
      assert t1[..] == old(t1[..])[i := x1];
      assert t2[..] == old(t2[..])[i := x2];
      assert t3[..] == old(t3[..])[i := x3];
    }

    /** Entry `i` of the tables: each is the previous one turned by a byte (lines 118-122 and 131-135). */
    method Set(i: int, x: bv32, ghost word: bv8 -> Word)
      requires Shape() && 0 <= i < 256 && Below(word, i) && x == Pack(word(ByteOf(i)))
      modifies Arrays()
      ensures Below(word, i + 1)
    {
      hide Rotr8;
      hide TablesBelow;
      hide Pack;
      hide ByteOf;
      var x1 := Rotr8(x);
      var x2 := Rotr8(x1);
      var x3 := Rotr8(x2);
      Put(i, x, x1, x2, x3, word);
    }
  }

  class Tables {
    const FSb: array<bv32>
    const RSb: array<bv32>
    const RCON: array<bv32>
    const FT: Four
    const RT: Four
    const KT: Four
    var doInit: bool
    var ktInit: bool

    constructor ()
      ensures Valid() && fresh(All())
    {
      hide Four.Shape;
      FSb := new bv32[256];
      RSb := new bv32[256];
      RCON := new bv32[10];
      FT := new Four();
      RT := new Four();
      KT := new Four();
      doInit, ktInit := true, true;
    }

    ghost predicate Shape() {
      FSb.Length == RSb.Length == 256 && RCON.Length == 10 && FSb != RSb && FSb != RCON && RSb != RCON &&
      FT.Shape() && RT.Shape() && KT.Shape() &&
      FT.Arrays() !! RT.Arrays() && FT.Arrays() !! KT.Arrays() && RT.Arrays() !! KT.Arrays() &&
      {FSb, RSb, RCON} !! FT.Arrays() + RT.Arrays() + KT.Arrays()
    }

    ghost function All(): set<object> {
      {FSb, RSb, RCON} + FT.Arrays() + RT.Arrays() + KT.Arrays()
    }

    /** The tables that `aes_gen_tables` fills are those of FIPS-197. */
    ghost predicate Generated()
      reads FSb, RSb, RCON, FT.t0, FT.t1, FT.t2, FT.t3, RT.t0, RT.t1, RT.t2, RT.t3
    {
      SBoxTable(FSb[..]) && InverseSBoxTable(RSb[..]) && RconTable(RCON[..]) &&
      FT.Filled(ForwardWord) && RT.Filled(ReverseWord)
    }

    /** Tables that have been filled stay right. */
    ghost predicate Valid()
      reads this, FSb, RSb, RCON, FT.t0, FT.t1, FT.t2, FT.t3, RT.t0, RT.t1, RT.t2, RT.t3, KT.t0, KT.t1, KT.t2, KT.t3
    {
      Shape() && (!doInit ==> Generated()) && (!ktInit ==> KT.Filled(InverseWord))
    }

    /** `aes_gen_tables` (lines 66-137). */
    method GenTables()
      requires Shape()
      modifies FSb, RSb, RCON, FT.Arrays(), RT.Arrays()
      ensures Generated()
    {
      hide SBoxTable;
      hide InverseSBoxTable;
      hide RconTable;
      hide Logarithms;
      hide Four.Filled;
      hide Four.Shape;
      var pow := new bv8[256];
      var log := new bv8[256];
      FillLogarithms(pow, log);
      FillRcon(RCON);
      FillSBoxes(pow, log, FSb, RSb);
      FillColumns(pow, log);
    }

    /** Lines 107-136. */
    method FillColumns(pow: array<bv8>, log: array<bv8>)
      requires Shape() && Logarithms(pow[..], log[..])
      requires SBoxTable(FSb[..]) && InverseSBoxTable(RSb[..])
      modifies FT.Arrays(), RT.Arrays()
      ensures FT.Filled(ForwardWord) && RT.Filled(ReverseWord)
    {
      hide SBoxTable;
      hide InverseSBoxTable;
      hide Logarithms;
      hide Four.Below;
      hide Four.Shape;
      FT.NothingBelow(ForwardWord);
      RT.NothingBelow(ReverseWord);
      var i := 0;
      while i < 256
        invariant 0 <= i <= 256 && Logarithms(pow[..], log[..])
        invariant SBoxTable(FSb[..]) && InverseSBoxTable(RSb[..])
        invariant FT.Below(ForwardWord, i) && RT.Below(ReverseWord, i)
      {
        FillForward(i);
        FillReverse(pow, log, i);
        i := i + 1;
      }
    }

    /** Lines 111-122. */
    method FillForward(i: int)
      requires Shape() && 0 <= i < 256 && SBoxTable(FSb[..]) && FT.Below(ForwardWord, i)
      modifies FT.Arrays()
      ensures FT.Below(ForwardWord, i + 1)
    {
      hide Four.Below;
      hide Four.Shape;
      hide XtimeMacro;
      hide Pack;
      hide Mul;
      hide SBox;
      hide SBoxTable;
      hide ByteOf;
      SBoxLookup(FSb[..], i);
      var x := (FSb[i] & 0xFF) as bv8;
      var y := XtimeMacro(x);
      ForwardEntry(x);
      FT.Set(i, ((x ^ y) as bv32) ^ ((x as bv32) << 8) ^ ((x as bv32) << 16) ^ ((y as bv32) << 24), ForwardWord);
    }

    /** Lines 124-135. */
    method FillReverse(pow: array<bv8>, log: array<bv8>, i: int)
      requires Shape() && 0 <= i < 256 && Logarithms(pow[..], log[..])
      requires InverseSBoxTable(RSb[..]) && RT.Below(ReverseWord, i)
      modifies RT.Arrays()
      ensures RT.Below(ReverseWord, i + 1)
    {
      hide Four.Below;
      hide Four.Shape;
      hide Pack;
      hide Mul;
      hide Logarithms;
      hide InverseSBox;
      hide InverseSBoxTable;
      hide ByteOf;
      ReverseLookup(RSb[..], i);
      var y := (RSb[i] & 0xFF) as bv8;
      var b := MulMacro(pow, log, 0x0B, y);
      var d := MulMacro(pow, log, 0x0D, y);
      var n := MulMacro(pow, log, 0x09, y);
      var e := MulMacro(pow, log, 0x0E, y);
      PackSum(e, n, d, b);
      RT.Set(i, (b as bv32) ^ ((d as bv32) << 8) ^ ((n as bv32) << 16) ^ ((e as bv32) << 24), ReverseWord);
    }

    /** The KT tables (lines 537-548). */
    method FillKeyTables()
      requires Shape() && Generated()
      modifies KT.Arrays()
      ensures Generated() && KT.Filled(InverseWord)
    {
      hide SBoxTable;
      hide InverseSBoxTable;
      hide RconTable;
      hide Four.Below;
      hide Four.Shape;
      hide Generated;
      KT.NothingBelow(InverseWord);
      var i := 0;
      while i < 256
        invariant 0 <= i <= 256 && Generated() && KT.Below(InverseWord, i)
      {
        FillKeyTable(i);
        i := i + 1;
      }
    }

    method FillKeyTable(i: int)
      requires Shape() && Generated() && 0 <= i < 256 && KT.Below(InverseWord, i)
      modifies KT.Arrays()
      ensures Generated() && KT.Below(InverseWord, i + 1)
    {
      hide SBoxTable;
      hide InverseSBoxTable;
      hide RconTable;
      hide Four.Below;
      hide Four.Filled;
      hide Pack;
      hide Turn;
      hide Rotr8;
      hide ByteOf;
      hide IndexOf;
      hide SBox;
      hide InverseWord;
      SBoxLookup(FSb[..], i);
      var j := IndexOf((FSb[i] & 0xFF) as bv8);
      ghost var b, w := SBox(ByteOf(i)), InverseWord(ByteOf(i));
      SBoxUndone(ByteOf(i));
      RT.At(ReverseWord, b);
      TurnIsRotr8(w);
      TurnIsRotr8(Turn(w));
      TurnIsRotr8(Turn(Turn(w)));
      KT.Put(i, RT.t0[j], RT.t1[j], RT.t2[j], RT.t3[j], InverseWord);
    }
  }

  lemma LowByte(b: bv8)
    ensures ((b as bv32) & 0xFF) as bv8 == b
  {
  }

  lemma SBoxLookup(fsb: seq<bv32>, i: int)
    requires SBoxTable(fsb) && 0 <= i < 256
    ensures fsb[i] == SBox(ByteOf(i)) as bv32 && (fsb[i] & 0xFF) as bv8 == SBox(ByteOf(i))
  {
    hide SBox;
    hide ByteOf;
    hide IndexOf;
    assert IndexOf(ByteOf(i)) == i;
    LowByte(SBox(ByteOf(i)));
  }

  lemma ReverseLookup(rsb: seq<bv32>, i: int)
    requires InverseSBoxTable(rsb) && 0 <= i < 256
    ensures rsb[i] == InverseSBox(ByteOf(i)) as bv32 && (rsb[i] & 0xFF) as bv8 == InverseSBox(ByteOf(i))
  {
    hide InverseSBox;
    hide ByteOf;
    hide IndexOf;
    assert IndexOf(ByteOf(i)) == i;
    LowByte(InverseSBox(ByteOf(i)));
  }
}
