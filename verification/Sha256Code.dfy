/** security/sha256.c: words are `unsigned long`, of which only the low 32 bits follow the standard. */
module Sha256Code {
  import opened Sha256Spec

  // ---- words ----------------------------------------------------------------------

  /** The 32 bits of a register that count. */
  function Lo(x: bv64): bv32 {
    (x & 0xFFFFFFFF) as bv32
  }

  lemma PlusOfLow(x: bv64, y: bv64)
    ensures Plus((x & 0xFFFFFFFF) as bv32, (y & 0xFFFFFFFF) as bv32) == ((x + y) & 0xFFFFFFFF) as bv32
  {
  }

  lemma LowOfSum(x: bv64, y: bv64)
    ensures Lo(x + y) == Plus(Lo(x), Lo(y))
  {
    hide Plus;
    PlusOfLow(x, y);
  }

  /** Addition of `unsigned long` values. */
  function Sum(x: bv64, y: bv64): bv64 {
    x + y
  }

  lemma LoPlus(x: bv64, y: bv64)
    ensures Lo(Sum(x, y)) == Plus(Lo(x), Lo(y))
  {
    hide Lo;
    hide Plus;
    LowOfSum(x, y);
  }

  lemma LoWide(x: bv32)
    ensures Lo(x as bv64) == x
  {
  }

  /** The macros S0 to S3, F0 and F1 with SHR and ROTR expanded (lines 78-88). */
  function S0(x: bv64): bv64 {
    (((x & 0xFFFFFFFF) >> 7) | (x << 25)) ^ (((x & 0xFFFFFFFF) >> 18) | (x << 14)) ^ ((x & 0xFFFFFFFF) >> 3)
  }

  function S1(x: bv64): bv64 {
    (((x & 0xFFFFFFFF) >> 17) | (x << 15)) ^ (((x & 0xFFFFFFFF) >> 19) | (x << 13)) ^ ((x & 0xFFFFFFFF) >> 10)
  }

  function S2(x: bv64): bv64 {
    (((x & 0xFFFFFFFF) >> 2) | (x << 30)) ^ (((x & 0xFFFFFFFF) >> 13) | (x << 19))
      ^ (((x & 0xFFFFFFFF) >> 22) | (x << 10))
  }

  function S3(x: bv64): bv64 {
    (((x & 0xFFFFFFFF) >> 6) | (x << 26)) ^ (((x & 0xFFFFFFFF) >> 11) | (x << 21))
      ^ (((x & 0xFFFFFFFF) >> 25) | (x << 7))
  }

  function F0(x: bv64, y: bv64, z: bv64): bv64 {
    (x & y) | (z & (x | y))
  }

  function F1(x: bv64, y: bv64, z: bv64): bv64 {
    z ^ (x & (y ^ z))
  }

  lemma S0OfLow(x: bv64)
    ensures SmallSigma0((x & 0xFFFFFFFF) as bv32)
         == (((((x & 0xFFFFFFFF) >> 7) | (x << 25)) ^ (((x & 0xFFFFFFFF) >> 18) | (x << 14))
           ^ ((x & 0xFFFFFFFF) >> 3)) & 0xFFFFFFFF) as bv32
  {
  }

  lemma LowOfS0(x: bv64)
    ensures Lo((((x & 0xFFFFFFFF) >> 7) | (x << 25)) ^ (((x & 0xFFFFFFFF) >> 18) | (x << 14)) ^ ((x & 0xFFFFFFFF) >> 3))
         == (((((x & 0xFFFFFFFF) >> 7) | (x << 25)) ^ (((x & 0xFFFFFFFF) >> 18) | (x << 14))
           ^ ((x & 0xFFFFFFFF) >> 3)) & 0xFFFFFFFF) as bv32
  {
  }

  lemma LoS0(x: bv64)
    ensures Lo(S0(x))
         == Lo((((x & 0xFFFFFFFF) >> 7) | (x << 25)) ^ (((x & 0xFFFFFFFF) >> 18) | (x << 14)) ^ ((x & 0xFFFFFFFF) >> 3))
  {
    hide Lo;
  }

  lemma S0Agrees(x: bv64)
    ensures Lo(S0(x)) == SmallSigma0(Lo(x))
  {
    hide S0;
    hide SmallSigma0;
    S0OfLow(x);
    LoS0(x);
    LowOfS0(x);
  }

  lemma S1OfLow(x: bv64)
    ensures SmallSigma1((x & 0xFFFFFFFF) as bv32)
         == (((((x & 0xFFFFFFFF) >> 17) | (x << 15)) ^ (((x & 0xFFFFFFFF) >> 19) | (x << 13))
           ^ ((x & 0xFFFFFFFF) >> 10)) & 0xFFFFFFFF) as bv32
  {
  }

  lemma LowOfS1(x: bv64)
    ensures Lo((((x & 0xFFFFFFFF) >> 17) | (x << 15)) ^ (((x & 0xFFFFFFFF) >> 19) | (x << 13))
            ^ ((x & 0xFFFFFFFF) >> 10))
         == (((((x & 0xFFFFFFFF) >> 17) | (x << 15)) ^ (((x & 0xFFFFFFFF) >> 19) | (x << 13))
           ^ ((x & 0xFFFFFFFF) >> 10)) & 0xFFFFFFFF) as bv32
  {
  }

  lemma LoS1(x: bv64)
    ensures Lo(S1(x))
         == Lo((((x & 0xFFFFFFFF) >> 17) | (x << 15)) ^ (((x & 0xFFFFFFFF) >> 19) | (x << 13))
           ^ ((x & 0xFFFFFFFF) >> 10))
  {
    hide Lo;
  }

  lemma S1Agrees(x: bv64)
    ensures Lo(S1(x)) == SmallSigma1(Lo(x))
  {
    hide S1;
    hide SmallSigma1;
    S1OfLow(x);
    LoS1(x);
    LowOfS1(x);
  }

  lemma S2OfLow(x: bv64)
    ensures BigSigma0((x & 0xFFFFFFFF) as bv32)
         == (((((x & 0xFFFFFFFF) >> 2) | (x << 30)) ^ (((x & 0xFFFFFFFF) >> 13) | (x << 19))
           ^ (((x & 0xFFFFFFFF) >> 22) | (x << 10))) & 0xFFFFFFFF) as bv32
  {
  }

  lemma LowOfS2(x: bv64)
    ensures Lo((((x & 0xFFFFFFFF) >> 2) | (x << 30)) ^ (((x & 0xFFFFFFFF) >> 13) | (x << 19))
            ^ (((x & 0xFFFFFFFF) >> 22) | (x << 10)))
         == (((((x & 0xFFFFFFFF) >> 2) | (x << 30)) ^ (((x & 0xFFFFFFFF) >> 13) | (x << 19))
           ^ (((x & 0xFFFFFFFF) >> 22) | (x << 10))) & 0xFFFFFFFF) as bv32
  {
  }

  lemma LoS2(x: bv64)
    ensures Lo(S2(x))
         == Lo((((x & 0xFFFFFFFF) >> 2) | (x << 30)) ^ (((x & 0xFFFFFFFF) >> 13) | (x << 19))
           ^ (((x & 0xFFFFFFFF) >> 22) | (x << 10)))
  {
    hide Lo;
  }

  lemma S2Agrees(x: bv64)
    ensures Lo(S2(x)) == BigSigma0(Lo(x))
  {
    hide S2;
    hide BigSigma0;
    S2OfLow(x);
    LoS2(x);
    LowOfS2(x);
  }

  lemma S3OfLow(x: bv64)
    ensures BigSigma1((x & 0xFFFFFFFF) as bv32)
         == (((((x & 0xFFFFFFFF) >> 6) | (x << 26)) ^ (((x & 0xFFFFFFFF) >> 11) | (x << 21))
           ^ (((x & 0xFFFFFFFF) >> 25) | (x << 7))) & 0xFFFFFFFF) as bv32
  {
  }

  lemma LowOfS3(x: bv64)
    ensures Lo((((x & 0xFFFFFFFF) >> 6) | (x << 26)) ^ (((x & 0xFFFFFFFF) >> 11) | (x << 21))
            ^ (((x & 0xFFFFFFFF) >> 25) | (x << 7)))
         == (((((x & 0xFFFFFFFF) >> 6) | (x << 26)) ^ (((x & 0xFFFFFFFF) >> 11) | (x << 21))
           ^ (((x & 0xFFFFFFFF) >> 25) | (x << 7))) & 0xFFFFFFFF) as bv32
  {
  }

  lemma LoS3(x: bv64)
    ensures Lo(S3(x))
         == Lo((((x & 0xFFFFFFFF) >> 6) | (x << 26)) ^ (((x & 0xFFFFFFFF) >> 11) | (x << 21))
           ^ (((x & 0xFFFFFFFF) >> 25) | (x << 7)))
  {
    hide Lo;
  }

  lemma S3Agrees(x: bv64)
    ensures Lo(S3(x)) == BigSigma1(Lo(x))
  {
    hide S3;
    hide BigSigma1;
    S3OfLow(x);
    LoS3(x);
    LowOfS3(x);
  }

  lemma F0Agrees(x: bv64, y: bv64, z: bv64)
    ensures Lo(F0(x, y, z)) == Maj(Lo(x), Lo(y), Lo(z))
  {
  }

  lemma F1Agrees(x: bv64, y: bv64, z: bv64)
    ensures Lo(F1(x, y, z)) == Ch(Lo(x), Lo(y), Lo(z))
  {
  }

  // ---- rounds (lines 96-101) ---------------------------------------------------------

  /** The eight registers, in the order of their roles in the next round, hold these values. */
  ghost predicate Agree(a: bv64, b: bv64, c: bv64, d: bv64, e: bv64, f: bv64, g: bv64, h: bv64, r: Hash) {
    Lo(a) == r.a && Lo(b) == r.b && Lo(c) == r.c && Lo(d) == r.d &&
    Lo(e) == r.e && Lo(f) == r.f && Lo(g) == r.g && Lo(h) == r.h
  }

  /** `temp1` and `temp2` of the P macro. */
  function First(e: bv64, f: bv64, g: bv64, h: bv64, x: bv64, k: bv64): bv64 {
    Sum(Sum(Sum(Sum(h, S3(e)), F1(e, f, g)), k), x)
  }

  function Second(a: bv64, b: bv64, c: bv64): bv64 {
    Sum(S2(a), F0(a, b, c))
  }

  lemma FirstAgrees(e: bv64, f: bv64, g: bv64, h: bv64, x: bv64, k: bv64, r: Hash)
    requires Lo(e) == r.e && Lo(f) == r.f && Lo(g) == r.g && Lo(h) == r.h
    ensures Lo(First(e, f, g, h, x, k)) == Temp1(r, Lo(k), Lo(x))
  {
    hide Lo;
    hide S3;
    hide F1;
    hide Plus;
    hide Sum;
    hide BigSigma1;
    hide Ch;
    S3Agrees(e);
    F1Agrees(e, f, g);
    LoPlus(h, S3(e));
    LoPlus(Sum(h, S3(e)), F1(e, f, g));
    LoPlus(Sum(Sum(h, S3(e)), F1(e, f, g)), k);
    LoPlus(Sum(Sum(Sum(h, S3(e)), F1(e, f, g)), k), x);
  }

  lemma SecondAgrees(a: bv64, b: bv64, c: bv64, r: Hash)
    requires Lo(a) == r.a && Lo(b) == r.b && Lo(c) == r.c
    ensures Lo(Second(a, b, c)) == Temp2(r)
  {
    hide Lo;
    hide S2;
    hide F0;
    hide Plus;
    hide Sum;
    hide BigSigma0;
    hide Maj;
    S2Agrees(a);
    F0Agrees(a, b, c);
    LoPlus(S2(a), F0(a, b, c));
  }

  /** The P macro: what becomes of `d` and `h`. */
  function P(a: bv64, b: bv64, c: bv64, d: bv64, e: bv64, f: bv64, g: bv64, h: bv64, x: bv64, k: bv64): (bv64, bv64) {
    var temp1 := First(e, f, g, h, x, k);
    var temp2 := Second(a, b, c);
    (Sum(d, temp1), Sum(temp1, temp2))
  }

  lemma RoundAgrees(a: bv64, b: bv64, c: bv64, d: bv64, e: bv64, f: bv64, g: bv64, h: bv64, x: bv64, k: bv64, r: Hash)
    requires Agree(a, b, c, d, e, f, g, h, r)
    ensures var p := P(a, b, c, d, e, f, g, h, x, k); Agree(p.1, a, b, c, p.0, e, f, g, Round(r, Lo(k), Lo(x)))
  {
    hide Lo;
    hide First;
    hide Second;
    hide Plus;
    hide Sum;
    hide Temp1;
    hide Temp2;
    FirstAgrees(e, f, g, h, x, k, r);
    SecondAgrees(a, b, c, r);
    LoPlus(d, First(e, f, g, h, x, k));
    LoPlus(First(e, f, g, h, x, k), Second(a, b, c));
  }

  // ---- one block (lines 56-185) -------------------------------------------------------

  /** The first `n` words of the message schedule are in place. */
  ghost predicate Scheduled(w: seq<bv64>, block: seq<bv8>, n: nat)
    requires |block| == 64
  {
    n <= |w| && forall i :: 0 <= i < n ==> Lo(w[i]) == W(block, i)
  }

  function Larger(m: nat, n: nat): nat {
    if m < n then n else m
  }

  /** The R macro (lines 90-94). */
  method R(w: array<bv64>, t: nat, ghost block: seq<bv8>)
    requires |block| == 64 && w.Length == 64 && 16 <= t < 64 && Scheduled(w[..], block, t)
    modifies w
    ensures Scheduled(w[..], block, t + 1)
  {
    hide Lo;
    hide S0;
    hide S1;
    hide Sum;
    hide Plus;
    hide SmallSigma0;
    hide SmallSigma1;
    hide BigEndian;
    var x, y, u, v := w[t - 2], w[t - 7], w[t - 15], w[t - 16];
    S1Agrees(x);
    S0Agrees(u);
    LoPlus(S1(x), y);
    LoPlus(Sum(S1(x), y), S0(u));
    LoPlus(Sum(Sum(S1(x), y), S0(u)), v);
    w[t] := Sum(Sum(Sum(S1(x), y), S0(u)), v);
  }

  /** One line of the unrolled rounds, with W[t] or R(t). */
  method OneRound(w: array<bv64>, t: nat, a: bv64, b: bv64, c: bv64, d: bv64, e: bv64, f: bv64, g: bv64, h: bv64,
                  ghost block: seq<bv8>, ghost start: Hash) returns (dNew: bv64, hNew: bv64)
    requires |block| == 64 && w.Length == 64 && t < 64 && Scheduled(w[..], block, Larger(16, t))
    requires Agree(a, b, c, d, e, f, g, h, Rounds(start, block, t))
    modifies w
    ensures Scheduled(w[..], block, Larger(16, t + 1))
    ensures Agree(hNew, a, b, c, dNew, e, f, g, Rounds(start, block, t + 1))
  {
    hide Lo;
    hide Agree;
    hide P;
    hide K;
    hide W;
    hide Round;
    if t >= 16 { R(w, t, block); }
    LoWide(K(t));
    RoundAgrees(a, b, c, d, e, f, g, h, w[t], K(t) as bv64, Rounds(start, block, t));
    var p := P(a, b, c, d, e, f, g, h, w[t], K(t) as bv64);
    return p.0, p.1;
  }

  /** Eight lines of the unrolled rounds: afterwards the registers have their old roles again. */
  method EightRounds(w: array<bv64>, t: nat, a0: bv64, b0: bv64, c0: bv64, d0: bv64, e0: bv64, f0: bv64, g0: bv64,
                     h0: bv64,
                     ghost block: seq<bv8>, ghost start: Hash)
    returns (a: bv64, b: bv64, c: bv64, d: bv64, e: bv64, f: bv64, g: bv64, h: bv64)
    requires |block| == 64 && w.Length == 64 && t + 8 <= 64 && Scheduled(w[..], block, Larger(16, t))
    requires Agree(a0, b0, c0, d0, e0, f0, g0, h0, Rounds(start, block, t))
    modifies w
    ensures Scheduled(w[..], block, Larger(16, t + 8))
    ensures Agree(a, b, c, d, e, f, g, h, Rounds(start, block, t + 8))
  {
    hide Agree;
    hide Scheduled;
    hide Rounds;
    a, b, c, d, e, f, g, h := a0, b0, c0, d0, e0, f0, g0, h0;
    d, h := OneRound(w, t, a, b, c, d, e, f, g, h, block, start);
    c, g := OneRound(w, t + 1, h, a, b, c, d, e, f, g, block, start);
    b, f := OneRound(w, t + 2, g, h, a, b, c, d, e, f, block, start);
    a, e := OneRound(w, t + 3, f, g, h, a, b, c, d, e, block, start);
    h, d := OneRound(w, t + 4, e, f, g, h, a, b, c, d, block, start);
    g, c := OneRound(w, t + 5, d, e, f, g, h, a, b, c, block, start);
    f, b := OneRound(w, t + 6, c, d, e, f, g, h, a, b, block, start);
    e, a := OneRound(w, t + 7, b, c, d, e, f, g, h, a, block, start);
  }

  /** GET_UINT32 (lines 25-31) into word `i` of the schedule. */
  method GetUint32(w: array<bv64>, i: nat, data: array<bv8>, at: nat, ghost block: seq<bv8>)
    requires |block| == 64 && w.Length == 64 && i < 16 && at + 64 <= data.Length && block == data[at..at + 64]
    requires Scheduled(w[..], block, i)
    modifies w
    ensures Scheduled(w[..], block, i + 1)
  {
    hide Lo;
    hide BigEndian;
    var b := at + 4 * i;
    WideWord(data[b], data[b + 1], data[b + 2], data[b + 3]);
    assert block[4 * i] == data[b] && block[4 * i + 1] == data[b + 1];
    assert block[4 * i + 2] == data[b + 2] && block[4 * i + 3] == data[b + 3];
    BigEndianIs(block, 4 * i);
    w[i] := Join(data[b], data[b + 1], data[b + 2], data[b + 3]);
  }

  function Join(a: bv8, b: bv8, c: bv8, d: bv8): bv64 {
    ((a as bv64) << 24) | ((b as bv64) << 16) | ((c as bv64) << 8) | (d as bv64)
  }

  function Join32(a: bv8, b: bv8, c: bv8, d: bv8): bv32 {
    ((a as bv32) << 24) | ((b as bv32) << 16) | ((c as bv32) << 8) | (d as bv32)
  }

  lemma WideWord(a: bv8, b: bv8, c: bv8, d: bv8)
    ensures Lo(Join(a, b, c, d)) == Join32(a, b, c, d)
  {
  }

  lemma BigEndianIs(block: seq<bv8>, i: nat)
    requires i + 4 <= |block|
    ensures BigEndian(block, i) == Join32(block[i], block[i + 1], block[i + 2], block[i + 3])
  {
  }

  method LoadBlock(data: array<bv8>, at: nat) returns (w: array<bv64>)
    requires at + 64 <= data.Length
    ensures fresh(w) && w.Length == 64 && Scheduled(w[..], data[at..at + 64], 16)
  {
    hide Scheduled;
    hide W;
    w := new bv64[64];
    ghost var block := data[at..at + 64];
    NothingScheduled(w[..], block);
    GetUint32(w, 0, data, at, block);
    GetUint32(w, 1, data, at, block);
    GetUint32(w, 2, data, at, block);
    GetUint32(w, 3, data, at, block);
    GetUint32(w, 4, data, at, block);
    GetUint32(w, 5, data, at, block);
    GetUint32(w, 6, data, at, block);
    GetUint32(w, 7, data, at, block);
    GetUint32(w, 8, data, at, block);
    GetUint32(w, 9, data, at, block);
    GetUint32(w, 10, data, at, block);
    GetUint32(w, 11, data, at, block);
    GetUint32(w, 12, data, at, block);
    GetUint32(w, 13, data, at, block);
    GetUint32(w, 14, data, at, block);
    GetUint32(w, 15, data, at, block);
  }

  lemma NothingScheduled(w: seq<bv64>, block: seq<bv8>)
    requires |block| == 64
    ensures Scheduled(w, block, 0)
  {
  }

  ghost predicate StateIs(state: seq<bv64>, h: Hash) {
    |state| == 8 && Agree(state[0], state[1], state[2], state[3], state[4], state[5], state[6], state[7], h)
  }

  /** `sha256_process` (lines 56-185). */
  method Process(state: array<bv64>, data: array<bv8>, at: nat, ghost start: Hash)
    requires at + 64 <= data.Length && StateIs(state[..], start)
    modifies state
    ensures StateIs(state[..], Compress(start, data[at..at + 64]))
  {
    hide Agree;
    hide Scheduled;
    hide Rounds;
    ghost var block := data[at..at + 64];
    var w := LoadBlock(data, at);
    var a, b, c, d := state[0], state[1], state[2], state[3];
    var e, f, g, h := state[4], state[5], state[6], state[7];
    RoundsStart(start, block);
    a, b, c, d, e, f, g, h := EightRounds(w, 0, a, b, c, d, e, f, g, h, block, start);
    a, b, c, d, e, f, g, h := EightRounds(w, 8, a, b, c, d, e, f, g, h, block, start);
    a, b, c, d, e, f, g, h := EightRounds(w, 16, a, b, c, d, e, f, g, h, block, start);
    a, b, c, d, e, f, g, h := EightRounds(w, 24, a, b, c, d, e, f, g, h, block, start);
    a, b, c, d, e, f, g, h := EightRounds(w, 32, a, b, c, d, e, f, g, h, block, start);
    a, b, c, d, e, f, g, h := EightRounds(w, 40, a, b, c, d, e, f, g, h, block, start);
    a, b, c, d, e, f, g, h := EightRounds(w, 48, a, b, c, d, e, f, g, h, block, start);
    a, b, c, d, e, f, g, h := EightRounds(w, 56, a, b, c, d, e, f, g, h, block, start);
    AddState(state, a, b, c, d, e, f, g, h, start, Rounds(start, block, 64));
  }

  lemma RoundsStart(start: Hash, block: seq<bv8>)
    requires |block| == 64
    ensures Rounds(start, block, 0) == start
  {
  }

  /** Lines 177-184. */
  method AddState(state: array<bv64>, a: bv64, b: bv64, c: bv64, d: bv64, e: bv64, f: bv64, g: bv64, h: bv64,
                  ghost start: Hash, ghost r: Hash)
    requires StateIs(state[..], start) && Agree(a, b, c, d, e, f, g, h, r)
    modifies state
    ensures StateIs(state[..], AddHash(start, r))
  {
    hide Lo;
    hide Sum;
    hide Plus;
    LoPlus(state[0], a);
    LoPlus(state[1], b);
    LoPlus(state[2], c);
    LoPlus(state[3], d);
    LoPlus(state[4], e);
    LoPlus(state[5], f);
    LoPlus(state[6], g);
    LoPlus(state[7], h);
    state[0] := Sum(state[0], a);
    state[1] := Sum(state[1], b);
    state[2] := Sum(state[2], c);
    state[3] := Sum(state[3], d);
    state[4] := Sum(state[4], e);
    state[5] := Sum(state[5], f);
    state[6] := Sum(state[6], g);
    state[7] := Sum(state[7], h);
  }
}
