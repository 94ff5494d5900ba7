/** The block cipher of FIPS-197. */
module AesSpec {
  import opened Field

  // ---- the S-box (sections 5.1.1 and 5.3.2) ----------------------------------

  function Affine(b: bv8): bv8 {
    b ^ b.RotateLeft(1) ^ b.RotateLeft(2) ^ b.RotateLeft(3) ^ b.RotateLeft(4) ^ 0x63
  }

  function InverseAffine(b: bv8): bv8 {
    b.RotateLeft(1) ^ b.RotateLeft(3) ^ b.RotateLeft(6) ^ 0x05
  }

  lemma AffineUndone(b: bv8)
    ensures InverseAffine(Affine(b)) == b && Affine(InverseAffine(b)) == b
  {
  }

  ghost function SBox(b: bv8): bv8 {
    Affine(Inverse(b))
  }

  ghost function InverseSBox(b: bv8): bv8 {
    Inverse(InverseAffine(b))
  }

  lemma SBoxUndone(b: bv8)
    ensures InverseSBox(SBox(b)) == b && SBox(InverseSBox(b)) == b
  {
    hide Affine;
    hide InverseAffine;
    hide Mul;
    AffineUndone(Inverse(b));
    AffineUndone(b);
    InverseTwice(b);
    InverseTwice(InverseAffine(b));
  }

  // ---- words and states --------------------------------------------------------

  /** Four bytes, the most significant first. */
  datatype Word = Word(a: bv8, b: bv8, c: bv8, d: bv8)

  /** The state (section 3.4): four columns. */
  datatype State = State(w0: Word, w1: Word, w2: Word, w3: Word)

  function Xor(x: Word, y: Word): Word {
    Word(Add(x.a, y.a), Add(x.b, y.b), Add(x.c, y.c), Add(x.d, y.d))
  }

  function AddRoundKey(s: State, k: State): State {
    State(Xor(s.w0, k.w0), Xor(s.w1, k.w1), Xor(s.w2, k.w2), Xor(s.w3, k.w3))
  }

  ghost function SubWord(w: Word): Word {
    Word(SBox(w.a), SBox(w.b), SBox(w.c), SBox(w.d))
  }

  ghost function SubBytes(s: State): State {
    State(SubWord(s.w0), SubWord(s.w1), SubWord(s.w2), SubWord(s.w3))
  }

  ghost function InverseSubWord(w: Word): Word {
    Word(InverseSBox(w.a), InverseSBox(w.b), InverseSBox(w.c), InverseSBox(w.d))
  }

  ghost function InverseSubBytes(s: State): State {
    State(InverseSubWord(s.w0), InverseSubWord(s.w1), InverseSubWord(s.w2), InverseSubWord(s.w3))
  }

  function ShiftRows(s: State): State {
    State(Word(s.w0.a, s.w1.b, s.w2.c, s.w3.d), Word(s.w1.a, s.w2.b, s.w3.c, s.w0.d),
          Word(s.w2.a, s.w3.b, s.w0.c, s.w1.d), Word(s.w3.a, s.w0.b, s.w1.c, s.w2.d))
  }

  function InverseShiftRows(s: State): State {
    State(Word(s.w0.a, s.w3.b, s.w2.c, s.w1.d), Word(s.w1.a, s.w0.b, s.w3.c, s.w2.d),
          Word(s.w2.a, s.w1.b, s.w0.c, s.w3.d), Word(s.w3.a, s.w2.b, s.w1.c, s.w0.d))
  }

  /** A sum of four bytes, as in the matrix products of sections 5.1.3 and 5.3.3. */
  function Sum4(a: bv8, b: bv8, c: bv8, d: bv8): bv8 {
    Add(Add(Add(a, b), c), d)
  }

  function MixColumn(w: Word): Word {
    Word(Sum4(Mul(0x02, w.a), Mul(0x03, w.b), w.c, w.d),
         Sum4(w.a, Mul(0x02, w.b), Mul(0x03, w.c), w.d),
         Sum4(w.a, w.b, Mul(0x02, w.c), Mul(0x03, w.d)),
         Sum4(Mul(0x03, w.a), w.b, w.c, Mul(0x02, w.d)))
  }

  function MixColumns(s: State): State {
    State(MixColumn(s.w0), MixColumn(s.w1), MixColumn(s.w2), MixColumn(s.w3))
  }

  function InverseMixColumn(w: Word): Word {
    Word(Sum4(Mul(0x0E, w.a), Mul(0x0B, w.b), Mul(0x0D, w.c), Mul(0x09, w.d)),
         Sum4(Mul(0x09, w.a), Mul(0x0E, w.b), Mul(0x0B, w.c), Mul(0x0D, w.d)),
         Sum4(Mul(0x0D, w.a), Mul(0x09, w.b), Mul(0x0E, w.c), Mul(0x0B, w.d)),
         Sum4(Mul(0x0B, w.a), Mul(0x0D, w.b), Mul(0x09, w.c), Mul(0x0E, w.d)))
  }

  function InverseMixColumns(s: State): State {
    State(InverseMixColumn(s.w0), InverseMixColumn(s.w1), InverseMixColumn(s.w2), InverseMixColumn(s.w3))
  }

  // ---- the cipher (section 5.1) and the equivalent inverse cipher (section 5.3.5) ----

  /** The state after `n` rounds with the round keys `k`. */
  ghost function Rounds(input: State, k: seq<State>, n: nat): State
    requires n < |k|
  {
    if n == 0 then AddRoundKey(input, k[0])
    else AddRoundKey(MixColumns(ShiftRows(SubBytes(Rounds(input, k, n - 1)))), k[n])
  }

  ghost function Cipher(input: State, k: seq<State>): State
    requires |k| >= 2
  {
    AddRoundKey(ShiftRows(SubBytes(Rounds(input, k, |k| - 2))), k[|k| - 1])
  }

  ghost function InverseRounds(input: State, k: seq<State>, n: nat): State
    requires n < |k|
  {
    if n == 0 then AddRoundKey(input, k[0])
    else AddRoundKey(InverseMixColumns(InverseShiftRows(InverseSubBytes(InverseRounds(input, k, n - 1)))), k[n])
  }

  ghost function InverseCipher(input: State, k: seq<State>): State
    requires |k| >= 2
  {
    AddRoundKey(InverseShiftRows(InverseSubBytes(InverseRounds(input, k, |k| - 2))), k[|k| - 1])
  }

  /** The round keys of the equivalent inverse cipher. */
  function InverseKeys(k: seq<State>): (r: seq<State>)
    requires |k| >= 2
    ensures |r| == |k|
  {
    seq(|k|, i requires 0 <= i < |k| =>
      if i == 0 || i == |k| - 1 then k[|k| - 1 - i] else InverseMixColumns(k[|k| - 1 - i]))
  }

  // ---- each step undone ----------------------------------------------------------

  lemma AddTwice(a: bv8, b: bv8)
    ensures Add(Add(a, b), b) == a
  {
  }

  lemma AddRoundKeyUndone(s: State, k: State)
    ensures AddRoundKey(AddRoundKey(s, k), k) == s
  {
    hide Add;
    XorTwice(s.w0, k.w0);
    XorTwice(s.w1, k.w1);
    XorTwice(s.w2, k.w2);
    XorTwice(s.w3, k.w3);
  }

  lemma XorTwice(x: Word, y: Word)
    ensures Xor(Xor(x, y), y) == x
  {
    hide Add;
    AddTwice(x.a, y.a);
    AddTwice(x.b, y.b);
    AddTwice(x.c, y.c);
    AddTwice(x.d, y.d);
  }

  lemma SubWordUndone(w: Word)
    ensures InverseSubWord(SubWord(w)) == w
  {
    hide SBox;
    hide InverseSBox;
    SBoxUndone(w.a);
    SBoxUndone(w.b);
    SBoxUndone(w.c);
    SBoxUndone(w.d);
  }

  lemma RowsUndone(s: State)
    ensures InverseShiftRows(InverseSubBytes(ShiftRows(SubBytes(s)))) == s
  {
    hide SBox;
    hide InverseSBox;
    SubWordUndone(s.w0);
    SubWordUndone(s.w1);
    SubWordUndone(s.w2);
    SubWordUndone(s.w3);
  }

  // ---- MixColumns undone ----------------------------------------------------------

  /** The constants of the two matrices multiplied. */
  lemma InverseTimesMix()
    ensures Mul(0x0E, 0x02) == 0x1C && Mul(0x0E, 0x03) == 0x12 && Mul(0x0B, 0x02) == 0x16 && Mul(0x0B, 0x03) == 0x1D
  {
    hide Mul;
    MulIs(0x0E, 0x02, 0x04, 0x08, 0x10, 0x20, 0x40, 0x80, 0x1B, 0x1C);
    MulIs(0x0E, 0x03, 0x06, 0x0C, 0x18, 0x30, 0x60, 0xC0, 0x9B, 0x12);
    MulIs(0x0B, 0x02, 0x04, 0x08, 0x10, 0x20, 0x40, 0x80, 0x1B, 0x16);
    MulIs(0x0B, 0x03, 0x06, 0x0C, 0x18, 0x30, 0x60, 0xC0, 0x9B, 0x1D);
  }

  lemma InverseTimesMixAgain()
    ensures Mul(0x0D, 0x02) == 0x1A && Mul(0x0D, 0x03) == 0x17 && Mul(0x09, 0x02) == 0x12 && Mul(0x09, 0x03) == 0x1B
  {
    hide Mul;
    MulIs(0x0D, 0x02, 0x04, 0x08, 0x10, 0x20, 0x40, 0x80, 0x1B, 0x1A);
    MulIs(0x0D, 0x03, 0x06, 0x0C, 0x18, 0x30, 0x60, 0xC0, 0x9B, 0x17);
    MulIs(0x09, 0x02, 0x04, 0x08, 0x10, 0x20, 0x40, 0x80, 0x1B, 0x12);
    MulIs(0x09, 0x03, 0x06, 0x0C, 0x18, 0x30, 0x60, 0xC0, 0x9B, 0x1B);
  }

  /** An entry of the product of the two matrices, for the constants that add up to it. */
  lemma Entry(p: bv8, q: bv8, r: bv8, s: bv8, x: bv8)
    ensures Sum4(Mul(p, x), Mul(q, x), Mul(r, x), Mul(s, x)) == Mul(Sum4(p, q, r, s), x)
  {
    hide Mul;
    hide Add;
    MulDistributes(p, q, x);
    MulDistributes(Add(p, q), r, x);
    MulDistributes(Add(Add(p, q), r), s, x);
  }

  lemma EntrySums()
    ensures Sum4(0x1C, 0x0B, 0x0D, 0x1B) == 1 && Sum4(0x12, 0x16, 0x0D, 0x09) == 0
    ensures Sum4(0x0E, 0x1D, 0x1A, 0x09) == 0 && Sum4(0x0E, 0x0B, 0x17, 0x12) == 0
  {
  }

  /** The product of the two matrices is the identity. */
  lemma Diagonal(x: bv8)
    ensures Sum4(Mul(0x0E, Mul(0x02, x)), Mul(0x0B, x), Mul(0x0D, x), Mul(0x09, Mul(0x03, x))) == x
  {
    hide Mul;
    hide Sum4;
    MulAssociative(0x0E, 0x02, x);
    MulAssociative(0x09, 0x03, x);
    InverseTimesMix();
    InverseTimesMixAgain();
    Entry(0x1C, 0x0B, 0x0D, 0x1B, x);
    EntrySums();
    OneMul(x);
  }

  lemma Second(x: bv8)
    ensures Sum4(Mul(0x0E, Mul(0x03, x)), Mul(0x0B, Mul(0x02, x)), Mul(0x0D, x), Mul(0x09, x)) == 0
  {
    hide Mul;
    hide Sum4;
    MulAssociative(0x0E, 0x03, x);
    MulAssociative(0x0B, 0x02, x);
    InverseTimesMix();
    Entry(0x12, 0x16, 0x0D, 0x09, x);
    EntrySums();
    MulZero(x);
  }

  lemma Third(x: bv8)
    ensures Sum4(Mul(0x0E, x), Mul(0x0B, Mul(0x03, x)), Mul(0x0D, Mul(0x02, x)), Mul(0x09, x)) == 0
  {
    hide Mul;
    hide Sum4;
    MulAssociative(0x0B, 0x03, x);
    MulAssociative(0x0D, 0x02, x);
    InverseTimesMix();
    InverseTimesMixAgain();
    Entry(0x0E, 0x1D, 0x1A, 0x09, x);
    EntrySums();
    MulZero(x);
  }

  lemma Fourth(x: bv8)
    ensures Sum4(Mul(0x0E, x), Mul(0x0B, x), Mul(0x0D, Mul(0x03, x)), Mul(0x09, Mul(0x02, x))) == 0
  {
    hide Mul;
    hide Sum4;
    MulAssociative(0x0D, 0x03, x);
    MulAssociative(0x09, 0x02, x);
    InverseTimesMixAgain();
    Entry(0x0E, 0x0B, 0x17, 0x12, x);
    EntrySums();
    MulZero(x);
  }

  lemma MulSum4(m: bv8, a: bv8, b: bv8, c: bv8, d: bv8)
    ensures Mul(m, Sum4(a, b, c, d)) == Sum4(Mul(m, a), Mul(m, b), Mul(m, c), Mul(m, d))
  {
    hide Mul;
    hide Add;
    MulLinear(m, Add(Add(a, b), c), d);
    MulLinear(m, Add(a, b), c);
    MulLinear(m, a, b);
  }

  lemma Sum4Linear(a: bv8, b: bv8, c: bv8, d: bv8, p: bv8, q: bv8, r: bv8, s: bv8)
    ensures Sum4(Add(a, p), Add(b, q), Add(c, r), Add(d, s)) == Add(Sum4(a, b, c, d), Sum4(p, q, r, s))
  {
    hide Add;
    Exchange(a, p, b, q);
    Exchange(Add(a, b), Add(p, q), c, r);
    Exchange(Add(Add(a, b), c), Add(Add(p, q), r), d, s);
  }

  /** A sum of four columns is a sum of four rows. */
  lemma Transposed(r0: Word, r1: Word, r2: Word, r3: Word)
    ensures Sum4(Sum4(r0.a, r0.b, r0.c, r0.d), Sum4(r1.a, r1.b, r1.c, r1.d),
                 Sum4(r2.a, r2.b, r2.c, r2.d), Sum4(r3.a, r3.b, r3.c, r3.d))
         == Sum4(Sum4(r0.a, r1.a, r2.a, r3.a), Sum4(r0.b, r1.b, r2.b, r3.b),
                 Sum4(r0.c, r1.c, r2.c, r3.c), Sum4(r0.d, r1.d, r2.d, r3.d))
  {
    hide Add;
    Sum4Linear(r0.a, r0.b, r0.c, r0.d, r1.a, r1.b, r1.c, r1.d);
    Sum4Linear(Add(r0.a, r1.a), Add(r0.b, r1.b), Add(r0.c, r1.c), Add(r0.d, r1.d), r2.a, r2.b, r2.c, r2.d);
    Sum4Linear(Add(Add(r0.a, r1.a), r2.a), Add(Add(r0.b, r1.b), r2.b), Add(Add(r0.c, r1.c), r2.c),
               Add(Add(r0.d, r1.d), r2.d), r3.a, r3.b, r3.c, r3.d);
  }

  /** The words of the matrix product, one coefficient at a time. */
  lemma FirstRowUndone(w: Word)
    ensures InverseMixColumn(MixColumn(w)).a == w.a
  {
    hide Mul;
    hide Sum4;
    MulSum4(0x0E, Mul(0x02, w.a), Mul(0x03, w.b), w.c, w.d);
    MulSum4(0x0B, w.a, Mul(0x02, w.b), Mul(0x03, w.c), w.d);
    MulSum4(0x0D, w.a, w.b, Mul(0x02, w.c), Mul(0x03, w.d));
    MulSum4(0x09, Mul(0x03, w.a), w.b, w.c, Mul(0x02, w.d));
    Transposed(Word(Mul(0x0E, Mul(0x02, w.a)), Mul(0x0E, Mul(0x03, w.b)), Mul(0x0E, w.c), Mul(0x0E, w.d)),
               Word(Mul(0x0B, w.a), Mul(0x0B, Mul(0x02, w.b)), Mul(0x0B, Mul(0x03, w.c)), Mul(0x0B, w.d)),
               Word(Mul(0x0D, w.a), Mul(0x0D, w.b), Mul(0x0D, Mul(0x02, w.c)), Mul(0x0D, Mul(0x03, w.d))),
               Word(Mul(0x09, Mul(0x03, w.a)), Mul(0x09, w.b), Mul(0x09, w.c), Mul(0x09, Mul(0x02, w.d))));
    Diagonal(w.a);
    Second(w.b);
    Third(w.c);
    Fourth(w.d);
    OnlyFirst(w.a);
  }

  lemma OnlyFirst(x: bv8)
    ensures Sum4(x, 0, 0, 0) == x
  {
  }

  /** RotWord of section 5.2, and what happens to a column when its rows move up. */
  function RotWord(w: Word): Word {
    Word(w.b, w.c, w.d, w.a)
  }

  lemma Sum4Rotated(a: bv8, b: bv8, c: bv8, d: bv8)
    ensures Sum4(a, b, c, d) == Sum4(b, c, d, a)
  {
    hide Add;
    AddAssociative(a, b, c);
    AddAssociative(a, Add(b, c), d);
    AddCommutative(a, Add(Add(b, c), d));
  }

  lemma MixRotated(w: Word)
    ensures MixColumn(RotWord(w)) == RotWord(MixColumn(w))
  {
    hide Mul;
    hide Sum4;
    Sum4Rotated(w.a, Mul(0x02, w.b), Mul(0x03, w.c), w.d);
    Sum4Rotated(w.a, w.b, Mul(0x02, w.c), Mul(0x03, w.d));
    Sum4Rotated(Mul(0x03, w.a), w.b, w.c, Mul(0x02, w.d));
    Sum4Rotated(Mul(0x02, w.a), Mul(0x03, w.b), w.c, w.d);
  }

  lemma InverseMixRotated(w: Word)
    ensures InverseMixColumn(RotWord(w)) == RotWord(InverseMixColumn(w))
  {
    hide Mul;
    hide Sum4;
    Sum4Rotated(Mul(0x0E, w.a), Mul(0x0B, w.b), Mul(0x0D, w.c), Mul(0x09, w.d));
    Sum4Rotated(Mul(0x09, w.a), Mul(0x0E, w.b), Mul(0x0B, w.c), Mul(0x0D, w.d));
    Sum4Rotated(Mul(0x0D, w.a), Mul(0x09, w.b), Mul(0x0E, w.c), Mul(0x0B, w.d));
    Sum4Rotated(Mul(0x0B, w.a), Mul(0x0D, w.b), Mul(0x09, w.c), Mul(0x0E, w.d));
  }

  lemma BothRotated(w: Word)
    ensures InverseMixColumn(MixColumn(RotWord(w))) == RotWord(InverseMixColumn(MixColumn(w)))
  {
    hide MixColumn;
    hide InverseMixColumn;
    hide RotWord;
    MixRotated(w);
    InverseMixRotated(MixColumn(w));
  }

  lemma MixColumnUndone(w: Word)
    ensures InverseMixColumn(MixColumn(w)) == w
  {
    hide MixColumn;
    hide InverseMixColumn;
    FirstRowUndone(w);
    FirstRowUndone(RotWord(w));
    FirstRowUndone(RotWord(RotWord(w)));
    FirstRowUndone(RotWord(RotWord(RotWord(w))));
    BothRotated(w);
    BothRotated(RotWord(w));
    BothRotated(RotWord(RotWord(w)));
  }

  lemma InverseMixLinear(x: Word, y: Word)
    ensures InverseMixColumn(Xor(x, y)) == Xor(InverseMixColumn(x), InverseMixColumn(y))
  {
    hide MixColumn;
    hide InverseMixColumn;
    hide RotWord;
    FirstRowLinear(x, y);
    FirstRowLinear(RotWord(x), RotWord(y));
    FirstRowLinear(RotWord(RotWord(x)), RotWord(RotWord(y)));
    FirstRowLinear(RotWord(RotWord(RotWord(x))), RotWord(RotWord(RotWord(y))));
    Rotations(x);
    Rotations(y);
    Rotations(Xor(x, y));
    XorRotated(x, y);
    XorRotated(RotWord(x), RotWord(y));
    XorRotated(RotWord(RotWord(x)), RotWord(RotWord(y)));
  }

  lemma XorRotated(x: Word, y: Word)
    ensures Xor(RotWord(x), RotWord(y)) == RotWord(Xor(x, y))
  {
  }

  /** Every row of the product is the first row of a rotation. */
  lemma Rotations(w: Word)
    ensures InverseMixColumn(w) == Word(InverseMixColumn(w).a, InverseMixColumn(RotWord(w)).a,
                                        InverseMixColumn(RotWord(RotWord(w))).a,
                                          InverseMixColumn(RotWord(RotWord(RotWord(w)))).a)
  {
    hide InverseMixColumn;
    InverseMixRotated(w);
    InverseMixRotated(RotWord(w));
    InverseMixRotated(RotWord(RotWord(w)));
  }

  lemma FirstRowLinear(x: Word, y: Word)
    ensures InverseMixColumn(Xor(x, y)).a == Add(InverseMixColumn(x).a, InverseMixColumn(y).a)
  {
    hide Mul;
    hide Add;
    hide Sum4;
    MulLinear(0x0E, x.a, y.a);
    MulLinear(0x0B, x.b, y.b);
    MulLinear(0x0D, x.c, y.c);
    MulLinear(0x09, x.d, y.d);
    Sum4Linear(Mul(0x0E, x.a), Mul(0x0B, x.b), Mul(0x0D, x.c), Mul(0x09, x.d),
               Mul(0x0E, y.a), Mul(0x0B, y.b), Mul(0x0D, y.c), Mul(0x09, y.d));
  }

  // ---- decryption undoes encryption ------------------------------------------------

  lemma MixedRoundUndone(y: State, k: State)
    ensures AddRoundKey(InverseMixColumns(AddRoundKey(MixColumns(y), k)), InverseMixColumns(k)) == y
  {
    hide MixColumn;
    hide InverseMixColumn;
    hide Xor;
    MixedWordUndone(y.w0, k.w0);
    MixedWordUndone(y.w1, k.w1);
    MixedWordUndone(y.w2, k.w2);
    MixedWordUndone(y.w3, k.w3);
  }

  lemma MixedWordUndone(y: Word, k: Word)
    ensures Xor(InverseMixColumn(Xor(MixColumn(y), k)), InverseMixColumn(k)) == y
  {
    hide MixColumn;
    hide InverseMixColumn;
    hide Xor;
    InverseMixLinear(MixColumn(y), k);
    MixColumnUndone(y);
    XorTwice(y, InverseMixColumn(k));
  }

  lemma {:induction false} RoundsUndone(input: State, k: seq<State>, j: nat)
    requires |k| >= 2 && j <= |k| - 2
    ensures InverseRounds(Cipher(input, k), InverseKeys(k), j) == ShiftRows(SubBytes(Rounds(input, k, |k| - 2 - j)))
  {
    hide SubBytes;
    hide InverseSubBytes;
    hide ShiftRows;
    hide InverseShiftRows;
    hide MixColumns;
    hide InverseMixColumns;
    hide AddRoundKey;
    var nr := |k| - 1;
    if j == 0 {
      AddRoundKeyUndone(ShiftRows(SubBytes(Rounds(input, k, nr - 1))), k[nr]);
    } else {
      RoundsUndone(input, k, j - 1);
      RowsUndone(Rounds(input, k, nr - j));
      MixedRoundUndone(ShiftRows(SubBytes(Rounds(input, k, nr - 1 - j))), k[nr - j]);
    }
  }

  /** The inverse cipher with the reversed schedule undoes the cipher. */
  lemma InverseCipherUndoes(input: State, k: seq<State>)
    requires |k| >= 2
    ensures InverseCipher(Cipher(input, k), InverseKeys(k)) == input
  {
    hide SubBytes;
    hide InverseSubBytes;
    hide ShiftRows;
    hide InverseShiftRows;
    hide MixColumns;
    hide InverseMixColumns;
    hide AddRoundKey;
    RoundsUndone(input, k, |k| - 2);
    RowsUndone(Rounds(input, k, 0));
    AddRoundKeyUndone(input, k[0]);
  }

  // ---- key expansion (section 5.2) ----------------------------------------------------

  /** The powers of x. */
  function RconByte(i: nat): bv8 {
    if i <= 1 then 0x01 else Xtime(RconByte(i - 1))
  }

  function Rcon(i: nat): Word {
    Word(RconByte(i), 0, 0, 0)
  }

  predicate KeyLength(n: nat) {
    n == 4 || n == 6 || n == 8
  }

  /** Word `i` of the expanded key. */
  ghost function ExpandedWord(key: seq<Word>, i: nat): Word
    requires KeyLength(|key|)
  {
    if i < |key| then key[i]
    else Xor(ExpandedWord(key, i - |key|), Temp(key, i, ExpandedWord(key, i - 1)))
  }

  ghost function Temp(key: seq<Word>, i: nat, last: Word): Word
    requires KeyLength(|key|)
  {
    if i % |key| == 0 then Xor(SubWord(RotWord(last)), Rcon(i / |key|))
    else if |key| > 6 && i % |key| == 4 then SubWord(last)
    else last
  }

  /** The key schedule: one state for each round and one more. */
  ghost function KeySchedule(key: seq<Word>): (r: seq<State>)
    requires KeyLength(|key|)
    ensures |r| == |key| + 7
  {
    seq(|key| + 7, i requires 0 <= i < |key| + 7 =>
      State(ExpandedWord(key, 4 * i), ExpandedWord(key, 4 * i + 1), ExpandedWord(key, 4 * i + 2),
        ExpandedWord(key, 4 * i + 3)))
  }
}
