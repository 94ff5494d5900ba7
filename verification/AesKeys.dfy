/** `aes_set_key` (security/aes.c:437-590), against the key expansion of FIPS-197. */
module AesKeys {
  import opened Field
  import opened AesSpec
  import opened AesTables
  import opened Aes

  function KeyWords(key: seq<bv8>, nk: nat): (r: seq<Word>)
    requires 4 * nk <= |key|
    ensures |r| == nk
  {
    seq(nk, i requires 0 <= i < nk => Word(key[4 * i], key[4 * i + 1], key[4 * i + 2], key[4 * i + 3]))
  }

  /** The first `n` words of the expanded key. */
  ghost predicate Expanded(words: seq<bv32>, key: seq<Word>, n: nat)
    requires KeyLength(|key|)
  {
    n <= |words| && forall i :: 0 <= i < n ==> words[i] == Pack(ExpandedWord(key, i))
  }

  lemma XorRegrouped(x: Word, y: Word, z: Word)
    ensures Xor(y, Xor(x, z)) == Xor(x, Xor(y, z))
  {
    hide Add;
    AddRegrouped(x.a, y.a, z.a);
    AddRegrouped(x.b, y.b, z.b);
    AddRegrouped(x.c, y.c, z.c);
    AddRegrouped(x.d, y.d, z.d);
  }

  lemma AddRegrouped(x: bv8, y: bv8, z: bv8)
    ensures Add(y, Add(x, z)) == Add(x, Add(y, z))
  {
    hide Add;
    AddAssociative(x, y, z);
    AddAssociative(y, x, z);
    AddCommutative(x, y);
  }

  lemma XorCommutative(x: Word, y: Word)
    ensures Xor(x, y) == Xor(y, x)
  {
    hide Add;
    AddCommutative(x.a, y.a);
    AddCommutative(x.b, y.b);
    AddCommutative(x.c, y.c);
    AddCommutative(x.d, y.d);
  }

  /** Word `n` of the expanded key, from the word |key| places before and the last one. */
  lemma NextWord(key: seq<Word>, n: nat)
    requires KeyLength(|key|) && n >= |key|
    ensures ExpandedWord(key, n) == Xor(ExpandedWord(key, n - |key|), Temp(key, n, ExpandedWord(key, n - 1)))
  {
  }

  // ---- the assignments in the loops -------------------------------------------------

  /** For example `RK[5] = RK[1] ^ RK[4]`. */
  method ChainWord(RK: array<bv32>, to: nat, from: nat, last: nat, ghost key: seq<Word>)
    requires KeyLength(|key|) && to < RK.Length && from == to - |key| >= 0 && last == to - 1
    requires to % |key| != 0 && !(|key| > 6 && to % |key| == 4) && Expanded(RK[..], key, to)
    modifies RK
    ensures Expanded(RK[..], key, to + 1)
  {
    hide ExpandedWord;
    hide Pack;
    hide Xor;
    hide Xor32;
    NextWord(key, to);
    PackXor(ExpandedWord(key, from), ExpandedWord(key, last));
    RK[to] := Xor32(RK[from], RK[last]);
  }

  /** The first assignment of each loop: the last word is rotated and goes through the S-box. */
  method RotatedWord(t: Tables, RK: array<bv32>, i: nat, to: nat, from: nat, last: nat, ghost key: seq<Word>)
    requires t.Shape() && t.Generated() && RK !in t.All() && i < 10
    requires KeyLength(|key|) && to < RK.Length && from == to - |key| >= 0 && last == to - 1
    requires to == |key| * (i + 1) && Expanded(RK[..], key, to)
    modifies RK
    ensures t.Generated() && Expanded(RK[..], key, to + 1)
  {
    hide ExpandedWord;
    hide Pack;
    hide Xor;
    hide Xor32;
    hide Xor5;
    hide Tables.Shape;
    hide Tables.Generated;
    hide RotatedSum;
    hide Rcon;
    ghost var w := ExpandedWord(key, last);
    NextWord(key, to);
    QuotientIs(|key|, i + 1);
    SumIsRotated(t, i, RK[from], RK[last], ExpandedWord(key, from), w);
    XorRegrouped(ExpandedWord(key, from), SubWord(RotWord(w)), Rcon(i + 1));
    assert RK[from] == Pack(ExpandedWord(key, from));
    RK[to] := RotatedSum(t, i, RK[from], RK[last]);
  }

  lemma QuotientIs(nk: nat, i: nat)
    requires KeyLength(nk)
    ensures (nk * i) % nk == 0 && (nk * i) / nk == i
  {
    if nk == 4 {
      assert (4 * i) % 4 == 0;
    } else if nk == 6 {
      assert (6 * i) % 6 == 0;
    } else {
      assert (8 * i) % 8 == 0;
    }
  }

  /** The right-hand side of the first assignment (for example lines 475-479). */
  function RotatedSum(t: Tables, i: nat, first: bv32, last: bv32): bv32
    requires t.Shape() && i < 10
    reads t.FSb, t.RCON
  {
    Xor5(Xor32(first, t.RCON[i]), Placed(t.FSb[IndexOf(Byte2(last))], 3), Placed(t.FSb[IndexOf(Byte1(last))], 2),
         Placed(t.FSb[IndexOf(Byte0(last))], 1), Placed(t.FSb[IndexOf(Byte3(last))], 0))
  }

  lemma SumIsRotated(t: Tables, i: nat, first: bv32, last: bv32, v: Word, w: Word)
    requires t.Shape() && t.Generated() && i < 10 && first == Pack(v) && last == Pack(w)
    ensures RotatedSum(t, i, first, last) == Pack(Xor(SubWord(RotWord(w)), Xor(v, Rcon(i + 1))))
  {
    hide Pack;
    hide Xor;
    hide Xor5;
    hide Xor32;
    hide IndexOf;
    hide Byte0;
    hide Byte1;
    hide Byte2;
    hide Byte3;
    hide SBox;
    hide SBoxTable;
    hide InverseSBoxTable;
    hide Placed;
    hide Wide;
    hide Four.Filled;
    hide Rcon;
    Unpacked(w);
    SBoxAt(t.FSb[..], w.a);
    SBoxAt(t.FSb[..], w.b);
    SBoxAt(t.FSb[..], w.c);
    SBoxAt(t.FSb[..], w.d);
    RconAt(t.RCON[..], i);
    PackXor(v, Rcon(i + 1));
    JoinPack(Xor(v, Rcon(i + 1)), SBox(w.b), SBox(w.c), SBox(w.d), SBox(w.a));
  }

  lemma RconAt(rcon: seq<bv32>, i: nat)
    requires RconTable(rcon) && i < 10
    ensures rcon[i] == Pack(Rcon(i + 1))
  {
  }

  /** The middle assignment of a 256-bit key: the last word goes through the S-box. */
  method SubstitutedWord(t: Tables, RK: array<bv32>, to: nat, from: nat, last: nat, ghost key: seq<Word>)
    requires t.Shape() && t.Generated() && RK !in t.All()
    requires |key| == 8 && to < RK.Length && from == to - |key| >= 0 && last == to - 1
    requires to % 8 == 4 && Expanded(RK[..], key, to)
    modifies RK
    ensures t.Generated() && Expanded(RK[..], key, to + 1)
  {
    hide ExpandedWord;
    hide Pack;
    hide Xor;
    hide Xor5;
    hide Tables.Shape;
    hide Tables.Generated;
    hide FlastWord;
    ghost var w := ExpandedWord(key, last);
    NextWord(key, to);
    LastForwardWord(t, RK[from], RK[last], RK[last], RK[last], RK[last], ExpandedWord(key, from), w, w, w, w);
    XorCommutative(SubWord(w), ExpandedWord(key, from));
    RK[to] := FlastWord(t, RK[from], RK[last], RK[last], RK[last], RK[last]);
  }

  // ---- the loops (lines 469-533) ------------------------------------------------------

  method Expand128(t: Tables, RK: array<bv32>, ghost key: seq<Word>) returns (rk: nat)
    requires t.Shape() && t.Generated() && RK !in t.All() && RK.Length == 64
    requires |key| == 4 && Expanded(RK[..], key, 4)
    modifies RK
    ensures rk == 40 && t.Generated() && Expanded(RK[..], key, 44)
  {
    hide Expanded;
    hide Tables.Shape;
    hide Tables.Generated;
    var i := 0;
    rk := 0;
    while i < 10
      invariant 0 <= i <= 10 && rk == 4 * i && t.Generated()
      invariant Expanded(RK[..], key, 4 * i + 4)
    {
      RotatedWord(t, RK, i, rk + 4, rk, rk + 3, key);
      ChainWord(RK, rk + 5, rk + 1, rk + 4, key);
      ChainWord(RK, rk + 6, rk + 2, rk + 5, key);
      ChainWord(RK, rk + 7, rk + 3, rk + 6, key);
      rk := rk + 4;
      i := i + 1;
    }
  }

  method Expand192(t: Tables, RK: array<bv32>, ghost key: seq<Word>) returns (rk: nat)
    requires t.Shape() && t.Generated() && RK !in t.All() && RK.Length == 64
    requires |key| == 6 && Expanded(RK[..], key, 6)
    modifies RK
    ensures rk == 48 && t.Generated() && Expanded(RK[..], key, 54)
  {
    hide Expanded;
    hide Tables.Shape;
    hide Tables.Generated;
    var i := 0;
    rk := 0;
    while i < 8
      invariant 0 <= i <= 8 && rk == 6 * i && t.Generated()
      invariant Expanded(RK[..], key, 6 * i + 6)
    {
      RotatedWord(t, RK, i, rk + 6, rk, rk + 5, key);
      ChainWord(RK, rk + 7, rk + 1, rk + 6, key);
      ChainWord(RK, rk + 8, rk + 2, rk + 7, key);
      ChainWord(RK, rk + 9, rk + 3, rk + 8, key);
      ChainWord(RK, rk + 10, rk + 4, rk + 9, key);
      ChainWord(RK, rk + 11, rk + 5, rk + 10, key);
      rk := rk + 6;
      i := i + 1;
    }
  }

  method Expand256(t: Tables, RK: array<bv32>, ghost key: seq<Word>) returns (rk: nat)
    requires t.Shape() && t.Generated() && RK !in t.All() && RK.Length == 64
    requires |key| == 8 && Expanded(RK[..], key, 8)
    modifies RK
    ensures rk == 56 && t.Generated() && Expanded(RK[..], key, 64)
  {
    hide Expanded;
    hide Tables.Shape;
    hide Tables.Generated;
    var i := 0;
    rk := 0;
    while i < 7
      invariant 0 <= i <= 7 && rk == 8 * i && t.Generated()
      invariant Expanded(RK[..], key, 8 * i + 8)
    {
      RotatedWord(t, RK, i, rk + 8, rk, rk + 7, key);
      ChainWord(RK, rk + 9, rk + 1, rk + 8, key);
      ChainWord(RK, rk + 10, rk + 2, rk + 9, key);
      ChainWord(RK, rk + 11, rk + 3, rk + 10, key);

      SubstitutedWord(t, RK, rk + 12, rk + 4, rk + 11, key);
      ChainWord(RK, rk + 13, rk + 5, rk + 12, key);
      ChainWord(RK, rk + 14, rk + 6, rk + 13, key);
      ChainWord(RK, rk + 15, rk + 7, rk + 14, key);
      rk := rk + 8;
      i := i + 1;
    }
  }

  lemma ScheduleHeld(words: seq<bv32>, key: seq<Word>)
    requires KeyLength(|key|) && Expanded(words, key, 4 * (|key| + 7))
    ensures HoldKeys(words, KeySchedule(key))
  {
    hide Pack;
    hide ExpandedWord;
  }

  // ---- the decryption schedule (lines 550-587) -----------------------------------------

  function Words4(a: seq<bv32>, i: nat): Registers
    requires i + 4 <= |a|
  {
    Registers(a[i], a[i + 1], a[i + 2], a[i + 3])
  }

  /** The first `n` round keys are in place. */
  ghost predicate HoldFirst(words: seq<bv32>, k: seq<State>, n: nat) {
    n <= |k| && 4 * n <= |words| && forall i :: 0 <= i < n ==> Hold(Words4(words, 4 * i), k[i])
  }

  lemma FirstAdded(was: seq<bv32>, words: seq<bv32>, k: seq<State>, n: nat)
    requires HoldFirst(was, k, n) && n < |k| && |words| == |was| && 4 * n + 4 <= |words|
    requires forall j :: 0 <= j < 4 * n ==> words[j] == was[j]
    requires Hold(Words4(words, 4 * n), k[n])
    ensures HoldFirst(words, k, n + 1)
  {
    hide Hold;
    forall i | 0 <= i < n + 1 ensures Hold(Words4(words, 4 * i), k[i]) {
      if i < n { assert Words4(words, 4 * i) == Words4(was, 4 * i); }
    }
  }

  lemma AllFirst(words: seq<bv32>, k: seq<State>)
    requires HoldFirst(words, k, |k|)
    ensures HoldKeys(words, k)
  {
    hide Hold;
    forall i | 0 <= i < |k|
      ensures Hold(Registers(words[4 * i], words[4 * i + 1], words[4 * i + 2], words[4 * i + 3]), k[i])
    {
      assert Hold(Words4(words, 4 * i), k[i]);
    }
  }

  lemma HeldAt(words: seq<bv32>, k: seq<State>, n: nat)
    requires HoldKeys(words, k) && n < |k|
    ensures Hold(Words4(words, 4 * n), k[n])
  {
    hide Hold;
  }

  /** `*SK++ = *RK++`, four times. */
  method CopyFour(RK: array<bv32>, SK: array<bv32>, rk: nat, n: nat, ghost k: seq<State>)
    requires RK != SK && rk + 4 <= RK.Length && 4 * n + 4 <= SK.Length && n < |k|
    requires Hold(Words4(RK[..], rk), k[n]) && HoldFirst(SK[..], k, n)
    modifies SK
    ensures HoldFirst(SK[..], k, n + 1)
  {
    hide Hold;
    hide HoldFirst;
    ghost var was := SK[..];
    var sk := 4 * n;
    SK[sk] := RK[rk];
    SK[sk + 1] := RK[rk + 1];
    SK[sk + 2] := RK[rk + 2];
    SK[sk + 3] := RK[rk + 3];
    assert Words4(SK[..], 4 * n) == Words4(RK[..], rk);
    FirstAdded(was, SK[..], k, n);
  }

  /** The word that KT0 to KT3 give for a word of the schedule (for example lines 561-564). */
  function InvertedWord(t: Tables, x: bv32): bv32
    requires t.Shape()
    reads t.KT.t0, t.KT.t1, t.KT.t2, t.KT.t3
  {
    Xor32(Xor32(Xor32(t.KT.t0[IndexOf(Byte3(x))], t.KT.t1[IndexOf(Byte2(x))]), t.KT.t2[IndexOf(Byte1(x))]),
      t.KT.t3[IndexOf(Byte0(x))])
  }

  lemma InvertedIs(t: Tables, x: bv32, w: Word)
    requires t.Shape() && t.KT.Filled(InverseWord) && x == Pack(w)
    ensures InvertedWord(t, x) == Pack(InverseMixColumn(w))
  {
    hide Pack;
    hide Xor;
    hide Xor32;
    hide IndexOf;
    hide Byte0;
    hide Byte1;
    hide Byte2;
    hide Byte3;
    hide Turn;
    hide InverseMixColumn;
    hide InverseWord;
    hide Four.Filled;
    Unpacked(w);
    t.KT.At(InverseWord, w.a);
    t.KT.At(InverseWord, w.b);
    t.KT.At(InverseWord, w.c);
    t.KT.At(InverseWord, w.d);
    var p, q, r := InverseWord(w.a), Turn(InverseWord(w.b)), Turn(Turn(InverseWord(w.c)));
    InverseColumn(w.a, w.b, w.c, w.d);
    PackXor(p, q);
    PackXor(Xor(p, q), r);
    PackXor(Xor(Xor(p, q), r), Turn(Turn(Turn(InverseWord(w.d)))));
  }

  /** The four assignments of the loop (lines 559-579). */
  method InvertFour(t: Tables, RK: array<bv32>, SK: array<bv32>, rk: nat, n: nat, ghost s: State, ghost k: seq<State>)
    requires t.Shape() && t.KT.Filled(InverseWord) && SK !in t.All()
    requires RK != SK && rk + 4 <= RK.Length && 4 * n + 4 <= SK.Length && n < |k|
    requires Hold(Words4(RK[..], rk), s) && k[n] == InverseMixColumns(s) && HoldFirst(SK[..], k, n)
    modifies SK
    ensures HoldFirst(SK[..], k, n + 1)
  {
    hide Pack;
    hide InverseMixColumn;
    hide InvertedWord;
    hide HoldFirst;
    hide Tables.Shape;
    hide Four.Filled;
    ghost var was := SK[..];
    var sk := 4 * n;
    InvertedIs(t, RK[rk], s.w0);
    InvertedIs(t, RK[rk + 1], s.w1);
    InvertedIs(t, RK[rk + 2], s.w2);
    InvertedIs(t, RK[rk + 3], s.w3);
    var x0, x1 := InvertedWord(t, RK[rk]), InvertedWord(t, RK[rk + 1]);
    var x2, x3 := InvertedWord(t, RK[rk + 2]), InvertedWord(t, RK[rk + 3]);
    SK[sk] := x0;
    SK[sk + 1] := x1;
    SK[sk + 2] := x2;
    SK[sk + 3] := x3;
    assert Words4(SK[..], 4 * n) == Registers(x0, x1, x2, x3);
    FirstAdded(was, SK[..], k, n);
  }

  method SetDecryptionKey(t: Tables, ctx: Context, top: nat, ghost k: seq<State>)
    requires t.Shape() && t.KT.Filled(InverseWord) && ctx.Shape() && ctx.drk !in t.All()
    requires 2 <= |k| <= 16 && |k| == ctx.nr + 1 && HoldKeys(ctx.erk[..], k) && top == 4 * ctx.nr
    modifies ctx.drk
    ensures HoldKeys(ctx.drk[..], InverseKeys(k))
  {
    hide Hold;
    hide HoldKeys;
    hide HoldFirst;
    hide Words4;
    hide InverseMixColumns;
    hide Tables.Shape;
    hide Four.Filled;
    var RK, SK, rk: int := ctx.erk, ctx.drk, top;
    ghost var d := InverseKeys(k);
    HeldAt(RK[..], k, ctx.nr);
    NoneHeld(SK[..], d);
    CopyFour(RK, SK, rk, 0, d);
    rk := rk + 4;
    var i := 1;
    while i < ctx.nr
      invariant 1 <= i <= ctx.nr && rk == 4 * (ctx.nr - i) + 8
      invariant HoldFirst(SK[..], d, i) && HoldKeys(RK[..], k) && t.KT.Filled(InverseWord)
    {
      rk := rk - 8;
      HeldAt(RK[..], k, ctx.nr - i);
      InvertFour(t, RK, SK, rk, i, k[ctx.nr - i], d);
      rk := rk + 4;
      i := i + 1;
    }
    rk := rk - 8;
    HeldAt(RK[..], k, 0);
    CopyFour(RK, SK, rk, ctx.nr, d);
    AllFirst(SK[..], d);
  }

  lemma NoneHeld(words: seq<bv32>, k: seq<State>)
    ensures HoldFirst(words, k, 0)
  {
  }

  // ---- the whole function ------------------------------------------------------------------

  predicate KeySize(nbits: int) {
    nbits == 128 || nbits == 192 || nbits == 256
  }

  /** The context holds both schedules of the key, and the tables are filled in. */
  ghost predicate Ready(ctx: Context, t: Tables, key: seq<Word>)
    reads ctx, ctx.erk, ctx.drk, t, t.FSb, t.RSb, t.RCON
    reads t.FT.t0, t.FT.t1, t.FT.t2, t.FT.t3, t.RT.t0, t.RT.t1, t.RT.t2, t.RT.t3
  {
    KeyLength(|key|) && ctx.nr == |key| + 6 && t.Shape() && t.Generated() &&
    HoldKeys(ctx.erk[..], KeySchedule(key)) && HoldKeys(ctx.drk[..], InverseKeys(KeySchedule(key)))
  }

  /** The loop over the words of the key (lines 460-465). */
  method LoadKey(RK: array<bv32>, key: array<bv8>, nk: nat)
    requires KeyLength(nk) && key.Length >= 4 * nk && RK.Length == 64
    modifies RK
    ensures Expanded(RK[..], KeyWords(key[..], nk), nk)
  {
    hide Pack;
    var i := 0;
    while i < nk
      invariant 0 <= i <= nk
      invariant forall j :: 0 <= j < i ==>
                RK[j] == Pack(Word(key[4 * j], key[4 * j + 1], key[4 * j + 2], key[4 * j + 3]))
    {
      RK[i] := GetUint32(key, 4 * i);
      i := i + 1;
    }
  }

  /** Initialising the tables on first use (lines 442-447). */
  method InitTables(t: Tables)
    requires t.Valid()
    modifies t, t.All()
    ensures t.Valid() && t.Generated() && t.ktInit == old(t.ktInit)
  {
    hide Tables.Generated;
    hide Four.Filled;
    hide Four.Shape;
    if t.doInit {
      t.GenTables();
      t.doInit := false;
    }
  }

  method InitKeyTables(t: Tables)
    requires t.Valid() && t.Generated()
    modifies t, t.All()
    ensures t.Valid() && t.Generated() && t.KT.Filled(InverseWord)
  {
    hide Tables.Generated;
    hide Four.Filled;
    hide Four.Shape;
    if t.ktInit {
      t.FillKeyTables();
      t.ktInit := false;
    }
  }

  /** The encryption schedule for each key size (lines 469-533). */
  method SetEncryptionKey(ctx: Context, t: Tables, key: array<bv8>, nbits: int) returns (rk: nat)
    requires KeySize(nbits) && key.Length >= nbits / 8
    requires t.Shape() && t.Generated() && ctx.Shape() && ctx.erk !in t.All() && ctx.nr == nbits / 32 + 6
    modifies ctx.erk
    ensures rk == 4 * ctx.nr && t.Generated()
    ensures HoldKeys(ctx.erk[..], KeySchedule(KeyWords(old(key[..]), nbits / 32)))
  {
    hide Tables.Shape;
    hide Tables.Generated;
    hide Expanded;
    hide HoldKeys;
    hide KeySchedule;
    LoadKey(ctx.erk, key, nbits / 32);
    ghost var words := KeyWords(key[..], nbits / 32);
    if nbits == 128 {
      rk := Expand128(t, ctx.erk, words);
    } else if nbits == 192 {
      rk := Expand192(t, ctx.erk, words);
      Fewer(ctx.erk[..], words, 54, 52);
    } else {
      rk := Expand256(t, ctx.erk, words);
      Fewer(ctx.erk[..], words, 64, 60);
    }
    ScheduleHeld(ctx.erk[..], words);
  }

  lemma Fewer(words: seq<bv32>, key: seq<Word>, m: nat, n: nat)
    requires KeyLength(|key|) && Expanded(words, key, m) && n <= m
    ensures Expanded(words, key, n)
  {
  }

  /** `aes_set_key` (lines 437-590). */
  method SetKey(ctx: Context, t: Tables, key: array<bv8>, nbits: int) returns (r: int)
    requires t.Valid() && ctx.Shape() && ctx.erk !in t.All() && ctx.drk !in t.All()
    requires KeySize(nbits) ==> key.Length >= nbits / 8
    modifies ctx, ctx.erk, ctx.drk, t, t.All()
    ensures t.Valid() && r == if KeySize(nbits) then 0 else 1
    ensures r == 0 ==> Ready(ctx, t, KeyWords(old(key[..]), nbits / 32))
    ensures r == 1 ==> ctx.nr == old(ctx.nr) && ctx.erk[..] == old(ctx.erk[..]) && ctx.drk[..] == old(ctx.drk[..])
  {
    hide Tables.Valid;
    hide Tables.Generated;
    hide HoldKeys;
    hide KeySchedule;
    hide InverseKeys;
    hide KeyWords;
    InitTables(t);
    if nbits == 128 {
      ctx.nr := 10;
    } else if nbits == 192 {
      ctx.nr := 12;
    } else if nbits == 256 {
      ctx.nr := 14;
    } else {
      return 1;
    }
    SetSchedules(ctx, t, key, nbits);
    return 0;
  }

  method SetSchedules(ctx: Context, t: Tables, key: array<bv8>, nbits: int)
    requires t.Valid() && t.Generated() && ctx.Shape() && ctx.erk !in t.All() && ctx.drk !in t.All()
    requires KeySize(nbits) && key.Length >= nbits / 8 && ctx.nr == nbits / 32 + 6
    modifies ctx.erk, ctx.drk, t, t.All()
    ensures t.Valid() && Ready(ctx, t, KeyWords(old(key[..]), nbits / 32))
  {
    hide Tables.Shape;
    hide Tables.Generated;
    hide Four.Filled;
    hide Four.Shape;
    hide HoldKeys;
    hide KeySchedule;
    hide InverseKeys;
    ghost var k := KeySchedule(KeyWords(key[..], nbits / 32));
    var rk := SetEncryptionKey(ctx, t, key, nbits);
    InitKeyTables(t);
    SetDecryptionKey(t, ctx, rk, k);
  }

  // ---- decryption undoes encryption ------------------------------------------------------------

  /** A block under the cipher, with the schedule for the key. */
  ghost function EncryptBlock(key: seq<Word>, b: seq<bv8>): (r: seq<bv8>)
    requires KeyLength(|key|) && |b| == 16
    ensures |r| == 16
  {
    BytesOf(Cipher(StateOf(b), KeySchedule(key)))
  }

  ghost function DecryptBlock(key: seq<Word>, b: seq<bv8>): (r: seq<bv8>)
    requires KeyLength(|key|) && |b| == 16
    ensures |r| == 16
  {
    BytesOf(InverseCipher(StateOf(b), InverseKeys(KeySchedule(key))))
  }

  /** For every key of any size and every block. */
  lemma DecryptUndoesEncrypt(key: seq<Word>, b: seq<bv8>)
    requires KeyLength(|key|) && |b| == 16
    ensures DecryptBlock(key, EncryptBlock(key, b)) == b
  {
    hide StateOf;
    hide BytesOf;
    hide Cipher;
    hide InverseCipher;
    hide KeySchedule;
    hide InverseKeys;
    var k := KeySchedule(key);
    BlocksAreStates(b, Cipher(StateOf(b), k));
    InverseCipherUndoes(StateOf(b), k);
  }

  /** `aes_encrypt` with a key that has been set; input and output may be the same buffer. */
  method EncryptWithKey(ctx: Context, t: Tables, ghost key: seq<Word>, input: array<bv8>, output: array<bv8>)
    requires Ready(ctx, t, key) && input.Length >= 16 && output.Length >= 16
    modifies output
    ensures Ready(ctx, t, key) && output[..] == EncryptBlock(key, old(input[..16])) + old(output[16..])
  {
    hide HoldKeys;
    hide StateOf;
    hide BytesOf;
    hide Cipher;
    hide KeySchedule;
    hide InverseKeys;
    hide Tables.Shape;
    hide Tables.Generated;
    Encrypt(ctx, t, input, output, KeySchedule(key));
  }

  method DecryptWithKey(ctx: Context, t: Tables, ghost key: seq<Word>, input: array<bv8>, output: array<bv8>)
    requires Ready(ctx, t, key) && input.Length >= 16 && output.Length >= 16
    modifies output
    ensures Ready(ctx, t, key) && output[..] == DecryptBlock(key, old(input[..16])) + old(output[16..])
  {
    hide HoldKeys;
    hide StateOf;
    hide BytesOf;
    hide InverseCipher;
    hide KeySchedule;
    hide InverseKeys;
    hide Tables.Shape;
    hide Tables.Generated;
    Decrypt(ctx, t, input, output, InverseKeys(KeySchedule(key)));
  }
}
