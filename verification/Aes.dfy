/** The key schedule and the rounds of security/aes.c (lines 410-424 and 594-770), against FIPS-197. */
module Aes {
  import opened Field
  import opened AesSpec
  import opened AesTables

  // ---- blocks -------------------------------------------------------------------

  function StateOf(b: seq<bv8>): State
    requires |b| == 16
  {
    State(Word(b[0], b[1], b[2], b[3]), Word(b[4], b[5], b[6], b[7]),
          Word(b[8], b[9], b[10], b[11]), Word(b[12], b[13], b[14], b[15]))
  }

  function BytesOf(s: State): (r: seq<bv8>)
    ensures |r| == 16
  {
    [s.w0.a, s.w0.b, s.w0.c, s.w0.d, s.w1.a, s.w1.b, s.w1.c, s.w1.d,
     s.w2.a, s.w2.b, s.w2.c, s.w2.d, s.w3.a, s.w3.b, s.w3.c, s.w3.d]
  }

  lemma BlocksAreStates(b: seq<bv8>, s: State)
    requires |b| == 16
    ensures BytesOf(StateOf(b)) == b && StateOf(BytesOf(s)) == s
  {
  }

  /** The registers X0 to X3, or Y0 to Y3. */
  datatype Registers = Registers(x0: bv32, x1: bv32, x2: bv32, x3: bv32)

  ghost predicate Hold(x: Registers, s: State) {
    x.x0 == Pack(s.w0) && x.x1 == Pack(s.w1) && x.x2 == Pack(s.w2) && x.x3 == Pack(s.w3)
  }

  /** A word array holds the round keys. */
  ghost predicate HoldKeys(words: seq<bv32>, k: seq<State>) {
    |words| >= 4 * |k| &&
    forall i :: 0 <= i < |k| ==>
      Hold(Registers(words[4 * i], words[4 * i + 1], words[4 * i + 2], words[4 * i + 3]), k[i])
  }

  // ---- a column -------------------------------------------------------------------

  function Xor5(k: bv32, a: bv32, b: bv32, c: bv32, d: bv32): bv32 {
    Xor32(Xor32(Xor32(Xor32(k, a), b), c), d)
  }

  lemma Xor5Pack(k: Word, a: Word, b: Word, c: Word, d: Word)
    ensures Xor5(Pack(k), Pack(a), Pack(b), Pack(c), Pack(d)) == Pack(Xor(Xor(Xor(Xor(a, b), c), d), k))
  {
    hide Pack;
    hide Xor;
    hide Xor32;
    hide Xor5;
    PackXor(a, b);
    PackXor(Xor(a, b), c);
    PackXor(Xor(Xor(a, b), c), d);
    PackXor(Xor(Xor(Xor(a, b), c), d), k);
    Xor5Last(Pack(k), Pack(a), Pack(b), Pack(c), Pack(d));
  }

  lemma Xor32Laws(x: bv32, y: bv32, z: bv32)
    ensures Xor32(x, y) == Xor32(y, x) && Xor32(Xor32(x, y), z) == Xor32(x, Xor32(y, z))
  {
  }

  lemma Xor5Last(k: bv32, a: bv32, b: bv32, c: bv32, d: bv32)
    ensures Xor5(k, a, b, c, d) == Xor32(Xor32(Xor32(Xor32(a, b), c), d), k)
  {
    hide Xor32;
    var ab := Xor32(a, b);
    var abc := Xor32(ab, c);
    Xor32Laws(k, a, b);
    Xor32Laws(k, ab, c);
    Xor32Laws(k, abc, d);
    Xor32Laws(k, Xor32(abc, d), 0);
  }

  lemma ForwardColumn(a: bv8, b: bv8, c: bv8, d: bv8)
    ensures MixColumn(SubWord(Word(a, b, c, d)))
         == Xor(Xor(Xor(ForwardWord(a), Turn(ForwardWord(b))), Turn(Turn(ForwardWord(c)))),
           Turn(Turn(Turn(ForwardWord(d)))))
  {
    hide Mul;
    hide Add;
    hide SBox;
  }

  lemma InverseColumn(a: bv8, b: bv8, c: bv8, d: bv8)
    ensures InverseMixColumn(Word(a, b, c, d))
         == Xor(Xor(Xor(InverseWord(a), Turn(InverseWord(b))), Turn(Turn(InverseWord(c)))),
           Turn(Turn(Turn(InverseWord(d)))))
  {
    hide Mul;
    hide Add;
  }

  // ---- words of a round --------------------------------------------------------------

  /** One word of AES_FROUND (lines 605-628). */
  function FroundWord(t: Tables, rk: bv32, y0: bv32, y1: bv32, y2: bv32, y3: bv32): bv32
    requires t.Shape()
    reads t.FT.t0, t.FT.t1, t.FT.t2, t.FT.t3
  {
    Xor5(rk, t.FT.t0[IndexOf(Byte3(y0))], t.FT.t1[IndexOf(Byte2(y1))],
              t.FT.t2[IndexOf(Byte1(y2))], t.FT.t3[IndexOf(Byte0(y3))])
  }

  lemma ForwardRoundWord(t: Tables, rk: bv32, y0: bv32, y1: bv32, y2: bv32, y3: bv32, k: Word,
    w0: Word, w1: Word, w2: Word, w3: Word)
    requires t.Shape() && t.Generated() && rk == Pack(k)
    requires y0 == Pack(w0) && y1 == Pack(w1) && y2 == Pack(w2) && y3 == Pack(w3)
    ensures FroundWord(t, rk, y0, y1, y2, y3) == Pack(Xor(MixColumn(SubWord(Word(w0.a, w1.b, w2.c, w3.d))), k))
  {
    hide Pack;
    hide Xor;
    hide Xor5;
    hide IndexOf;
    hide Byte0;
    hide Byte1;
    hide Byte2;
    hide Byte3;
    hide Turn;
    hide SBoxTable;
    hide InverseSBoxTable;
    hide RconTable;
    hide Four.Filled;
    hide MixColumn;
    hide SubWord;
    hide ForwardWord;
    Unpacked(w0);
    Unpacked(w1);
    Unpacked(w2);
    Unpacked(w3);
    t.FT.At(ForwardWord, w0.a);
    t.FT.At(ForwardWord, w1.b);
    t.FT.At(ForwardWord, w2.c);
    t.FT.At(ForwardWord, w3.d);
    ForwardColumn(w0.a, w1.b, w2.c, w3.d);
    Xor5Pack(k, ForwardWord(w0.a), Turn(ForwardWord(w1.b)), Turn(Turn(ForwardWord(w2.c))),
      Turn(Turn(Turn(ForwardWord(w3.d)))));
  }

  /** One word of AES_RROUND (lines 695-718). */
  function RroundWord(t: Tables, rk: bv32, y0: bv32, y1: bv32, y2: bv32, y3: bv32): bv32
    requires t.Shape()
    reads t.RT.t0, t.RT.t1, t.RT.t2, t.RT.t3
  {
    Xor5(rk, t.RT.t0[IndexOf(Byte3(y0))], t.RT.t1[IndexOf(Byte2(y1))],
              t.RT.t2[IndexOf(Byte1(y2))], t.RT.t3[IndexOf(Byte0(y3))])
  }

  lemma ReverseRoundWord(t: Tables, rk: bv32, y0: bv32, y1: bv32, y2: bv32, y3: bv32, k: Word,
    w0: Word, w1: Word, w2: Word, w3: Word)
    requires t.Shape() && t.Generated() && rk == Pack(k)
    requires y0 == Pack(w0) && y1 == Pack(w1) && y2 == Pack(w2) && y3 == Pack(w3)
    ensures RroundWord(t, rk, y0, y1, y2, y3)
            == Pack(Xor(InverseMixColumn(InverseSubWord(Word(w0.a, w1.b, w2.c, w3.d))), k))
  {
    hide Pack;
    hide Xor;
    hide Xor5;
    hide IndexOf;
    hide Byte0;
    hide Byte1;
    hide Byte2;
    hide Byte3;
    hide Turn;
    hide SBoxTable;
    hide InverseSBoxTable;
    hide RconTable;
    hide Four.Filled;
    hide InverseMixColumn;
    hide InverseSBox;
    hide InverseWord;
    Unpacked(w0);
    Unpacked(w1);
    Unpacked(w2);
    Unpacked(w3);
    t.RT.At(ReverseWord, w0.a);
    t.RT.At(ReverseWord, w1.b);
    t.RT.At(ReverseWord, w2.c);
    t.RT.At(ReverseWord, w3.d);
    InverseColumn(InverseSBox(w0.a), InverseSBox(w1.b), InverseSBox(w2.c), InverseSBox(w3.d));
    Xor5Pack(k, ReverseWord(w0.a), Turn(ReverseWord(w1.b)), Turn(Turn(ReverseWord(w2.c))),
      Turn(Turn(Turn(ReverseWord(w3.d)))));
  }

  /** A byte of a table in its place in the word. */
  function Placed(x: bv32, n: nat): bv32
    requires n < 4
  {
    if n == 3 then x << 24 else if n == 2 then x << 16 else if n == 1 then x << 8 else x
  }

  function Wide(b: bv8): bv32 {
    b as bv32
  }

  /** Four table bytes put together with a key, as in the last rounds. */
  lemma JoinPack(k: Word, a: bv8, b: bv8, c: bv8, d: bv8)
    ensures Xor5(Pack(k), Placed(Wide(a), 3), Placed(Wide(b), 2), Placed(Wide(c), 1), Placed(Wide(d), 0))
         == Pack(Xor(Word(a, b, c, d), k))
  {
    hide Pack;
    hide Xor;
    hide Xor5;
    hide Xor32;
    hide Placed;
    hide Wide;
    PackXor(Word(a, b, c, d), k);
    JoinRaw(a, b, c, d);
    Xor5Last(Pack(k), Placed(Wide(a), 3), Placed(Wide(b), 2), Placed(Wide(c), 1), Placed(Wide(d), 0));
  }

  lemma JoinRaw(a: bv8, b: bv8, c: bv8, d: bv8)
    ensures Xor32(Xor32(Xor32(Placed(Wide(a), 3), Placed(Wide(b), 2)), Placed(Wide(c), 1)), Placed(Wide(d), 0))
         == Pack(Word(a, b, c, d))
  {
  }

  /** One word of the last round of encryption (lines 656-674). */
  function FlastWord(t: Tables, rk: bv32, y0: bv32, y1: bv32, y2: bv32, y3: bv32): bv32
    requires t.Shape()
    reads t.FSb
  {
    Xor5(rk, Placed(t.FSb[IndexOf(Byte3(y0))], 3), Placed(t.FSb[IndexOf(Byte2(y1))], 2),
              Placed(t.FSb[IndexOf(Byte1(y2))], 1), Placed(t.FSb[IndexOf(Byte0(y3))], 0))
  }

  lemma LastForwardWord(t: Tables, rk: bv32, y0: bv32, y1: bv32, y2: bv32, y3: bv32, k: Word,
    w0: Word, w1: Word, w2: Word, w3: Word)
    requires t.Shape() && t.Generated() && rk == Pack(k)
    requires y0 == Pack(w0) && y1 == Pack(w1) && y2 == Pack(w2) && y3 == Pack(w3)
    ensures FlastWord(t, rk, y0, y1, y2, y3) == Pack(Xor(SubWord(Word(w0.a, w1.b, w2.c, w3.d)), k))
  {
    hide Pack;
    hide Xor;
    hide Xor5;
    hide IndexOf;
    hide Byte0;
    hide Byte1;
    hide Byte2;
    hide Byte3;
    hide Turn;
    hide SBoxTable;
    hide InverseSBoxTable;
    hide RconTable;
    hide Four.Filled;
    hide Placed;
    hide Wide;
    hide SBox;
    Unpacked(w0);
    Unpacked(w1);
    Unpacked(w2);
    Unpacked(w3);
    SBoxAt(t.FSb[..], w0.a);
    SBoxAt(t.FSb[..], w1.b);
    SBoxAt(t.FSb[..], w2.c);
    SBoxAt(t.FSb[..], w3.d);
    JoinPack(k, SBox(w0.a), SBox(w1.b), SBox(w2.c), SBox(w3.d));
  }

  lemma SBoxAt(fsb: seq<bv32>, b: bv8)
    requires SBoxTable(fsb)
    ensures fsb[IndexOf(b)] == Wide(SBox(b))
  {
  }

  /** One word of the last round of decryption (lines 746-764). */
  function RlastWord(t: Tables, rk: bv32, y0: bv32, y1: bv32, y2: bv32, y3: bv32): bv32
    requires t.Shape()
    reads t.RSb
  {
    Xor5(rk, Placed(t.RSb[IndexOf(Byte3(y0))], 3), Placed(t.RSb[IndexOf(Byte2(y1))], 2),
              Placed(t.RSb[IndexOf(Byte1(y2))], 1), Placed(t.RSb[IndexOf(Byte0(y3))], 0))
  }

  lemma LastReverseWord(t: Tables, rk: bv32, y0: bv32, y1: bv32, y2: bv32, y3: bv32, k: Word,
    w0: Word, w1: Word, w2: Word, w3: Word)
    requires t.Shape() && t.Generated() && rk == Pack(k)
    requires y0 == Pack(w0) && y1 == Pack(w1) && y2 == Pack(w2) && y3 == Pack(w3)
    ensures RlastWord(t, rk, y0, y1, y2, y3) == Pack(Xor(InverseSubWord(Word(w0.a, w1.b, w2.c, w3.d)), k))
  {
    hide Pack;
    hide Xor;
    hide Xor5;
    hide IndexOf;
    hide Byte0;
    hide Byte1;
    hide Byte2;
    hide Byte3;
    hide Turn;
    hide SBoxTable;
    hide InverseSBoxTable;
    hide RconTable;
    hide Four.Filled;
    hide Placed;
    hide Wide;
    hide InverseSBox;
    Unpacked(w0);
    Unpacked(w1);
    Unpacked(w2);
    Unpacked(w3);
    ReverseAt(t.RSb[..], w0.a);
    ReverseAt(t.RSb[..], w1.b);
    ReverseAt(t.RSb[..], w2.c);
    ReverseAt(t.RSb[..], w3.d);
    JoinPack(k, InverseSBox(w0.a), InverseSBox(w1.b), InverseSBox(w2.c), InverseSBox(w3.d));
  }

  lemma ReverseAt(rsb: seq<bv32>, b: bv8)
    requires InverseSBoxTable(rsb)
    ensures rsb[IndexOf(b)] == Wide(InverseSBox(b))
  {
  }

  // ---- rounds ---------------------------------------------------------------------

  /** AES_FROUND (lines 605-628), without the step of RK. */
  function Fround(t: Tables, RK: array<bv32>, rk: nat, y: Registers): Registers
    requires t.Shape() && rk + 4 <= RK.Length
    reads RK, t.FT.t0, t.FT.t1, t.FT.t2, t.FT.t3
  {
    Registers(FroundWord(t, RK[rk], y.x0, y.x1, y.x2, y.x3),
              FroundWord(t, RK[rk + 1], y.x1, y.x2, y.x3, y.x0),
              FroundWord(t, RK[rk + 2], y.x2, y.x3, y.x0, y.x1),
              FroundWord(t, RK[rk + 3], y.x3, y.x0, y.x1, y.x2))
  }

  lemma ForwardRound(t: Tables, RK: array<bv32>, rk: nat, y: Registers, s: State, k: State)
    requires t.Shape() && t.Generated() && Hold(y, s)
    requires rk + 4 <= RK.Length && Hold(Registers(RK[rk], RK[rk + 1], RK[rk + 2], RK[rk + 3]), k)
    ensures Hold(Fround(t, RK, rk, y), AddRoundKey(MixColumns(ShiftRows(SubBytes(s))), k))
  {
    hide Pack;
    hide Xor;
    hide SBox;
    hide InverseSBox;
    hide MixColumn;
    hide InverseMixColumn;
    hide Tables.Generated;
    hide Tables.Shape;
    hide FroundWord;
    hide RroundWord;
    hide FlastWord;
    hide RlastWord;
    ForwardRoundWord(t, RK[rk], y.x0, y.x1, y.x2, y.x3, k.w0, s.w0, s.w1, s.w2, s.w3);
    ForwardRoundWord(t, RK[rk + 1], y.x1, y.x2, y.x3, y.x0, k.w1, s.w1, s.w2, s.w3, s.w0);
    ForwardRoundWord(t, RK[rk + 2], y.x2, y.x3, y.x0, y.x1, k.w2, s.w2, s.w3, s.w0, s.w1);
    ForwardRoundWord(t, RK[rk + 3], y.x3, y.x0, y.x1, y.x2, k.w3, s.w3, s.w0, s.w1, s.w2);
  }

  /** The last round of encryption (lines 656-674). */
  function Flast(t: Tables, RK: array<bv32>, rk: nat, y: Registers): Registers
    requires t.Shape() && rk + 4 <= RK.Length
    reads RK, t.FSb
  {
    Registers(FlastWord(t, RK[rk], y.x0, y.x1, y.x2, y.x3),
              FlastWord(t, RK[rk + 1], y.x1, y.x2, y.x3, y.x0),
              FlastWord(t, RK[rk + 2], y.x2, y.x3, y.x0, y.x1),
              FlastWord(t, RK[rk + 3], y.x3, y.x0, y.x1, y.x2))
  }

  lemma LastForwardRound(t: Tables, RK: array<bv32>, rk: nat, y: Registers, s: State, k: State)
    requires t.Shape() && t.Generated() && Hold(y, s)
    requires rk + 4 <= RK.Length && Hold(Registers(RK[rk], RK[rk + 1], RK[rk + 2], RK[rk + 3]), k)
    ensures Hold(Flast(t, RK, rk, y), AddRoundKey(ShiftRows(SubBytes(s)), k))
  {
    hide Pack;
    hide Xor;
    hide SBox;
    hide InverseSBox;
    hide MixColumn;
    hide InverseMixColumn;
    hide Tables.Generated;
    hide Tables.Shape;
    hide FroundWord;
    hide RroundWord;
    hide FlastWord;
    hide RlastWord;
    LastForwardWord(t, RK[rk], y.x0, y.x1, y.x2, y.x3, k.w0, s.w0, s.w1, s.w2, s.w3);
    LastForwardWord(t, RK[rk + 1], y.x1, y.x2, y.x3, y.x0, k.w1, s.w1, s.w2, s.w3, s.w0);
    LastForwardWord(t, RK[rk + 2], y.x2, y.x3, y.x0, y.x1, k.w2, s.w2, s.w3, s.w0, s.w1);
    LastForwardWord(t, RK[rk + 3], y.x3, y.x0, y.x1, y.x2, k.w3, s.w3, s.w0, s.w1, s.w2);
  }

  /** AES_RROUND (lines 695-718), without the step of RK. */
  function Rround(t: Tables, RK: array<bv32>, rk: nat, y: Registers): Registers
    requires t.Shape() && rk + 4 <= RK.Length
    reads RK, t.RT.t0, t.RT.t1, t.RT.t2, t.RT.t3
  {
    Registers(RroundWord(t, RK[rk], y.x0, y.x3, y.x2, y.x1),
              RroundWord(t, RK[rk + 1], y.x1, y.x0, y.x3, y.x2),
              RroundWord(t, RK[rk + 2], y.x2, y.x1, y.x0, y.x3),
              RroundWord(t, RK[rk + 3], y.x3, y.x2, y.x1, y.x0))
  }

  lemma ReverseRound(t: Tables, RK: array<bv32>, rk: nat, y: Registers, s: State, k: State)
    requires t.Shape() && t.Generated() && Hold(y, s)
    requires rk + 4 <= RK.Length && Hold(Registers(RK[rk], RK[rk + 1], RK[rk + 2], RK[rk + 3]), k)
    ensures Hold(Rround(t, RK, rk, y), AddRoundKey(InverseMixColumns(InverseShiftRows(InverseSubBytes(s))), k))
  {
    hide Pack;
    hide Xor;
    hide SBox;
    hide InverseSBox;
    hide MixColumn;
    hide InverseMixColumn;
    hide Tables.Generated;
    hide Tables.Shape;
    hide FroundWord;
    hide RroundWord;
    hide FlastWord;
    hide RlastWord;
    ReverseRoundWord(t, RK[rk], y.x0, y.x3, y.x2, y.x1, k.w0, s.w0, s.w3, s.w2, s.w1);
    ReverseRoundWord(t, RK[rk + 1], y.x1, y.x0, y.x3, y.x2, k.w1, s.w1, s.w0, s.w3, s.w2);
    ReverseRoundWord(t, RK[rk + 2], y.x2, y.x1, y.x0, y.x3, k.w2, s.w2, s.w1, s.w0, s.w3);
    ReverseRoundWord(t, RK[rk + 3], y.x3, y.x2, y.x1, y.x0, k.w3, s.w3, s.w2, s.w1, s.w0);
  }

  /** The last round of decryption (lines 746-764). */
  function Rlast(t: Tables, RK: array<bv32>, rk: nat, y: Registers): Registers
    requires t.Shape() && rk + 4 <= RK.Length
    reads RK, t.RSb
  {
    Registers(RlastWord(t, RK[rk], y.x0, y.x3, y.x2, y.x1),
              RlastWord(t, RK[rk + 1], y.x1, y.x0, y.x3, y.x2),
              RlastWord(t, RK[rk + 2], y.x2, y.x1, y.x0, y.x3),
              RlastWord(t, RK[rk + 3], y.x3, y.x2, y.x1, y.x0))
  }

  lemma LastReverseRound(t: Tables, RK: array<bv32>, rk: nat, y: Registers, s: State, k: State)
    requires t.Shape() && t.Generated() && Hold(y, s)
    requires rk + 4 <= RK.Length && Hold(Registers(RK[rk], RK[rk + 1], RK[rk + 2], RK[rk + 3]), k)
    ensures Hold(Rlast(t, RK, rk, y), AddRoundKey(InverseShiftRows(InverseSubBytes(s)), k))
  {
    hide Pack;
    hide Xor;
    hide SBox;
    hide InverseSBox;
    hide MixColumn;
    hide InverseMixColumn;
    hide Tables.Generated;
    hide Tables.Shape;
    hide FroundWord;
    hide RroundWord;
    hide FlastWord;
    hide RlastWord;
    LastReverseWord(t, RK[rk], y.x0, y.x3, y.x2, y.x1, k.w0, s.w0, s.w3, s.w2, s.w1);
    LastReverseWord(t, RK[rk + 1], y.x1, y.x0, y.x3, y.x2, k.w1, s.w1, s.w0, s.w3, s.w2);
    LastReverseWord(t, RK[rk + 2], y.x2, y.x1, y.x0, y.x3, k.w2, s.w2, s.w1, s.w0, s.w3);
    LastReverseWord(t, RK[rk + 3], y.x3, y.x2, y.x1, y.x0, k.w3, s.w3, s.w2, s.w1, s.w0);
  }

  // ---- whole blocks (lines 410-424 and 594-770) ---------------------------------------

  /** GET_UINT32 (lines 410-416). */
  method GetUint32(b: array<bv8>, i: nat) returns (n: bv32)
    requires i + 4 <= b.Length
    ensures n == Pack(Word(b[i], b[i + 1], b[i + 2], b[i + 3]))
  {
    n := ((b[i] as bv32) << 24) | ((b[i + 1] as bv32) << 16) | ((b[i + 2] as bv32) << 8) | (b[i + 3] as bv32);
  }

  /** PUT_UINT32 (lines 418-424). */
  method PutUint32(n: bv32, b: array<bv8>, i: nat, ghost w: Word)
    requires i + 4 <= b.Length && n == Pack(w)
    modifies b
    ensures b[i] == w.a && b[i + 1] == w.b && b[i + 2] == w.c && b[i + 3] == w.d
    ensures forall j :: 0 <= j < b.Length && !(i <= j < i + 4) ==> b[j] == old(b[j])
  {
    hide Pack;
    hide Byte0;
    hide Byte1;
    hide Byte2;
    hide Byte3;
    Unpacked(w);
    b[i] := Byte3(n);
    b[i + 1] := Byte2(n);
    b[i + 2] := Byte1(n);
    b[i + 3] := Byte0(n);
  }

  /** Loading a block and adding the first round key. */
  method Load(input: array<bv8>, RK: array<bv32>, ghost k: State) returns (x: Registers)
    requires input.Length >= 16 && RK.Length >= 4 && Hold(Registers(RK[0], RK[1], RK[2], RK[3]), k)
    ensures Hold(x, AddRoundKey(StateOf(input[..16]), k))
  {
    hide Pack;
    hide Xor;
    hide Xor32;
    ghost var s := StateOf(input[..16]);
    var x0 := GetUint32(input, 0);
    var x1 := GetUint32(input, 4);
    var x2 := GetUint32(input, 8);
    var x3 := GetUint32(input, 12);
    PackXor(s.w0, k.w0);
    PackXor(s.w1, k.w1);
    PackXor(s.w2, k.w2);
    PackXor(s.w3, k.w3);
    x := Registers(Xor32(x0, RK[0]), Xor32(x1, RK[1]), Xor32(x2, RK[2]), Xor32(x3, RK[3]));
  }

  method Store(x: Registers, output: array<bv8>, ghost s: State)
    requires output.Length >= 16 && Hold(x, s)
    modifies output
    ensures output[..] == BytesOf(s) + old(output[16..])
  {
    hide Pack;
    ghost var rest := output[16..];
    PutUint32(x.x0, output, 0, s.w0);
    PutUint32(x.x1, output, 4, s.w1);
    PutUint32(x.x2, output, 8, s.w2);
    PutUint32(x.x3, output, 12, s.w3);
    BytesAre(output[..16], s);
    assert output[16..] == rest;
    assert output[..] == output[..16] + output[16..];
  }

  lemma BytesAre(b: seq<bv8>, s: State)
    requires |b| == 16
    requires b[0] == s.w0.a && b[1] == s.w0.b && b[2] == s.w0.c && b[3] == s.w0.d
    requires b[4] == s.w1.a && b[5] == s.w1.b && b[6] == s.w1.c && b[7] == s.w1.d
    requires b[8] == s.w2.a && b[9] == s.w2.b && b[10] == s.w2.c && b[11] == s.w2.d
    requires b[12] == s.w3.a && b[13] == s.w3.b && b[14] == s.w3.c && b[15] == s.w3.d
    ensures b == BytesOf(s)
  {
  }

  lemma KeyHeld(RK: array<bv32>, k: seq<State>, n: nat)
    requires HoldKeys(RK[..], k) && n < |k|
    ensures 4 * n + 4 <= RK.Length && Hold(Registers(RK[4 * n], RK[4 * n + 1], RK[4 * n + 2], RK[4 * n + 3]), k[n])
  {
    hide Hold;
    var words := RK[..];
    assert Hold(Registers(words[4 * n], words[4 * n + 1], words[4 * n + 2], words[4 * n + 3]), k[n]);
  }

  lemma ForwardRoundAt(t: Tables, RK: array<bv32>, y: Registers, n: nat, input: State, k: seq<State>)
    requires t.Shape() && t.Generated() && HoldKeys(RK[..], k) && 0 < n < |k| && Hold(y, Rounds(input, k, n - 1))
    ensures 4 * n + 4 <= RK.Length && Hold(Fround(t, RK, 4 * n, y), Rounds(input, k, n))
  {
    hide Hold;
    hide HoldKeys;
    hide Fround;
    hide Flast;
    hide Rround;
    hide Rlast;
    hide InverseRounds;
    hide AddRoundKey;
    hide SubBytes;
    hide InverseSubBytes;
    hide ShiftRows;
    hide InverseShiftRows;
    hide MixColumns;
    hide InverseMixColumns;
    hide Tables.Generated;
    hide Tables.Shape;
    KeyHeld(RK, k, n);
    ForwardRound(t, RK, 4 * n, y, Rounds(input, k, n - 1), k[n]);
  }

  lemma ReverseRoundAt(t: Tables, RK: array<bv32>, y: Registers, n: nat, input: State, k: seq<State>)
    requires t.Shape() && t.Generated() && HoldKeys(RK[..], k) && 0 < n < |k| && Hold(y, InverseRounds(input, k, n - 1))
    ensures 4 * n + 4 <= RK.Length && Hold(Rround(t, RK, 4 * n, y), InverseRounds(input, k, n))
  {
    hide Hold;
    hide HoldKeys;
    hide Fround;
    hide Flast;
    hide Rround;
    hide Rlast;
    hide Rounds;
    hide AddRoundKey;
    hide SubBytes;
    hide InverseSubBytes;
    hide ShiftRows;
    hide InverseShiftRows;
    hide MixColumns;
    hide InverseMixColumns;
    hide Tables.Generated;
    hide Tables.Shape;
    KeyHeld(RK, k, n);
    ReverseRound(t, RK, 4 * n, y, InverseRounds(input, k, n - 1), k[n]);
  }

  /** `aes_context` (security/aes.h:12-18). */
  class Context {
    const erk: array<bv32>
    const drk: array<bv32>
    var nr: int

    constructor ()
      ensures Shape() && fresh(erk) && fresh(drk)
    {
      erk := new bv32[64];
      drk := new bv32[64];
      nr := 0;
    }

    ghost predicate Shape() {
      erk.Length == drk.Length == 64 && erk != drk
    }
  }

  lemma RoundsStart(s: State, k: seq<State>)
    requires |k| > 0
    ensures Rounds(s, k, 0) == AddRoundKey(s, k[0])
  {
  }

  lemma InverseRoundsStart(s: State, k: seq<State>)
    requires |k| > 0
    ensures InverseRounds(s, k, 0) == AddRoundKey(s, k[0])
  {
  }

  lemma CipherShape(s: State, k: seq<State>)
    requires |k| >= 2
    ensures Cipher(s, k) == AddRoundKey(ShiftRows(SubBytes(Rounds(s, k, |k| - 2))), k[|k| - 1])
  {
  }

  lemma InverseCipherShape(s: State, k: seq<State>)
    requires |k| >= 2
    ensures InverseCipher(s, k) == AddRoundKey(InverseShiftRows(InverseSubBytes(InverseRounds(s, k, |k| - 2))),
            k[|k| - 1])
  {
  }

  /** The nine rounds that every key size has (lines 630-638). */
  method ForwardRounds(t: Tables, RK: array<bv32>, x0: Registers, ghost s: State, ghost k: seq<State>)
    returns (y: Registers)
    requires t.Shape() && t.Generated() && |k| > 9 && HoldKeys(RK[..], k) && Hold(x0, Rounds(s, k, 0))
    ensures Hold(y, Rounds(s, k, 9))
  {
    hide Hold;
    hide HoldKeys;
    hide Fround;
    hide Flast;
    hide Rround;
    hide Rlast;
    hide Rounds;
    hide InverseRounds;
    hide AddRoundKey;
    hide SubBytes;
    hide InverseSubBytes;
    hide ShiftRows;
    hide InverseShiftRows;
    hide MixColumns;
    hide InverseMixColumns;
    hide Tables.Generated;
    hide Tables.Shape;
    var x, rk := x0, 0;
    ForwardRoundAt(t, RK, x, 1, s, k);
    rk := rk + 4; y := Fround(t, RK, rk, x);
    ForwardRoundAt(t, RK, y, 2, s, k);
    rk := rk + 4; x := Fround(t, RK, rk, y);
    ForwardRoundAt(t, RK, x, 3, s, k);
    rk := rk + 4; y := Fround(t, RK, rk, x);
    ForwardRoundAt(t, RK, y, 4, s, k);
    rk := rk + 4; x := Fround(t, RK, rk, y);
    ForwardRoundAt(t, RK, x, 5, s, k);
    rk := rk + 4; y := Fround(t, RK, rk, x);
    ForwardRoundAt(t, RK, y, 6, s, k);
    rk := rk + 4; x := Fround(t, RK, rk, y);
    ForwardRoundAt(t, RK, x, 7, s, k);
    rk := rk + 4; y := Fround(t, RK, rk, x);
    ForwardRoundAt(t, RK, y, 8, s, k);
    rk := rk + 4; x := Fround(t, RK, rk, y);
    ForwardRoundAt(t, RK, x, 9, s, k);
    rk := rk + 4; y := Fround(t, RK, rk, x);
  }

  /** `aes_encrypt` (lines 594-680). */
  method Encrypt(ctx: Context, t: Tables, input: array<bv8>, output: array<bv8>, ghost k: seq<State>)
    requires t.Shape() && t.Generated() && input.Length >= 16 && output.Length >= 16
    requires |k| == ctx.nr + 1 && (ctx.nr == 10 || ctx.nr == 12 || ctx.nr == 14) && HoldKeys(ctx.erk[..], k)
    modifies output
    ensures output[..] == BytesOf(Cipher(StateOf(old(input[..16])), k)) + old(output[16..])
  {
    hide Hold;
    hide HoldKeys;
    hide Fround;
    hide Flast;
    hide Rround;
    hide Rlast;
    hide Rounds;
    hide InverseRounds;
    hide AddRoundKey;
    hide SubBytes;
    hide InverseSubBytes;
    hide ShiftRows;
    hide InverseShiftRows;
    hide MixColumns;
    hide InverseMixColumns;
    hide Tables.Generated;
    hide Tables.Shape;
    var RK := ctx.erk;
    ghost var s := StateOf(input[..16]);
    KeyHeld(RK, k, 0);
    RoundsStart(s, k);
    var x := Load(input, RK, k[0]);
    var y := ForwardRounds(t, RK, x, s, k);
    var rk := 36;
    if ctx.nr > 10 {
      ForwardRoundAt(t, RK, y, 10, s, k);
      rk := rk + 4; x := Fround(t, RK, rk, y);
      ForwardRoundAt(t, RK, x, 11, s, k);
      rk := rk + 4; y := Fround(t, RK, rk, x);
    }
    if ctx.nr > 12 {
      ForwardRoundAt(t, RK, y, 12, s, k);
      rk := rk + 4; x := Fround(t, RK, rk, y);
      ForwardRoundAt(t, RK, x, 13, s, k);
      rk := rk + 4; y := Fround(t, RK, rk, x);
    }
    KeyHeld(RK, k, ctx.nr);
    CipherShape(s, k);
    LastForwardRound(t, RK, 4 * ctx.nr, y, Rounds(s, k, ctx.nr - 1), k[ctx.nr]);
    rk := rk + 4;
    x := Flast(t, RK, rk, y);
    Store(x, output, Cipher(s, k));
  }

  /** The nine rounds that every key size has (lines 720-728). */
  method ReverseRounds(t: Tables, RK: array<bv32>, x0: Registers, ghost s: State, ghost k: seq<State>)
    returns (y: Registers)
    requires t.Shape() && t.Generated() && |k| > 9 && HoldKeys(RK[..], k) && Hold(x0, InverseRounds(s, k, 0))
    ensures Hold(y, InverseRounds(s, k, 9))
  {
    hide Hold;
    hide HoldKeys;
    hide Fround;
    hide Flast;
    hide Rround;
    hide Rlast;
    hide Rounds;
    hide InverseRounds;
    hide AddRoundKey;
    hide SubBytes;
    hide InverseSubBytes;
    hide ShiftRows;
    hide InverseShiftRows;
    hide MixColumns;
    hide InverseMixColumns;
    hide Tables.Generated;
    hide Tables.Shape;
    var x, rk := x0, 0;
    ReverseRoundAt(t, RK, x, 1, s, k);
    rk := rk + 4; y := Rround(t, RK, rk, x);
    ReverseRoundAt(t, RK, y, 2, s, k);
    rk := rk + 4; x := Rround(t, RK, rk, y);
    ReverseRoundAt(t, RK, x, 3, s, k);
    rk := rk + 4; y := Rround(t, RK, rk, x);
    ReverseRoundAt(t, RK, y, 4, s, k);
    rk := rk + 4; x := Rround(t, RK, rk, y);
    ReverseRoundAt(t, RK, x, 5, s, k);
    rk := rk + 4; y := Rround(t, RK, rk, x);
    ReverseRoundAt(t, RK, y, 6, s, k);
    rk := rk + 4; x := Rround(t, RK, rk, y);
    ReverseRoundAt(t, RK, x, 7, s, k);
    rk := rk + 4; y := Rround(t, RK, rk, x);
    ReverseRoundAt(t, RK, y, 8, s, k);
    rk := rk + 4; x := Rround(t, RK, rk, y);
    ReverseRoundAt(t, RK, x, 9, s, k);
    rk := rk + 4; y := Rround(t, RK, rk, x);
  }

  /** `aes_decrypt` (lines 684-770). */
  method Decrypt(ctx: Context, t: Tables, input: array<bv8>, output: array<bv8>, ghost k: seq<State>)
    requires t.Shape() && t.Generated() && input.Length >= 16 && output.Length >= 16
    requires |k| == ctx.nr + 1 && (ctx.nr == 10 || ctx.nr == 12 || ctx.nr == 14) && HoldKeys(ctx.drk[..], k)
    modifies output
    ensures output[..] == BytesOf(InverseCipher(StateOf(old(input[..16])), k)) + old(output[16..])
  {
    hide Hold;
    hide HoldKeys;
    hide Fround;
    hide Flast;
    hide Rround;
    hide Rlast;
    hide Rounds;
    hide InverseRounds;
    hide AddRoundKey;
    hide SubBytes;
    hide InverseSubBytes;
    hide ShiftRows;
    hide InverseShiftRows;
    hide MixColumns;
    hide InverseMixColumns;
    hide Tables.Generated;
    hide Tables.Shape;
    var RK := ctx.drk;
    ghost var s := StateOf(input[..16]);
    KeyHeld(RK, k, 0);
    InverseRoundsStart(s, k);
    var x := Load(input, RK, k[0]);
    var y := ReverseRounds(t, RK, x, s, k);
    var rk := 36;
    if ctx.nr > 10 {
      ReverseRoundAt(t, RK, y, 10, s, k);
      rk := rk + 4; x := Rround(t, RK, rk, y);
      ReverseRoundAt(t, RK, x, 11, s, k);
      rk := rk + 4; y := Rround(t, RK, rk, x);
    }
    if ctx.nr > 12 {
      ReverseRoundAt(t, RK, y, 12, s, k);
      rk := rk + 4; x := Rround(t, RK, rk, y);
      ReverseRoundAt(t, RK, x, 13, s, k);
      rk := rk + 4; y := Rround(t, RK, rk, x);
    }
    KeyHeld(RK, k, ctx.nr);
    InverseCipherShape(s, k);
    LastReverseRound(t, RK, 4 * ctx.nr, y, InverseRounds(s, k, ctx.nr - 1), k[ctx.nr]);
    rk := rk + 4;
    x := Rlast(t, RK, rk, y);
    Store(x, output, InverseCipher(s, k));
  }
}
