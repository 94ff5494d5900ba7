/** The example vectors of appendix C of FIPS-197 for all three key sizes, with the states that are printed there. */
module AesVectors {
  import opened Field
  import opened AesSpec
  import opened AesSBox
  import opened Aes
  import opened AesKeys

  /** The multiple by x, as a shift. */
  function Double(b: bv8): bv8 {
    if b >= 0x80 then (b << 1) ^ 0x1B else b << 1
  }

  lemma DoubleIs(b: bv8)
    ensures Mul(0x02, b) == Double(b) && Mul(0x03, b) == Add(Double(b), b)
  {
    hide Mul;
    MulTwoThree(b);
  }

  /** A column after MixColumns and AddRoundKey. */
  function Times(t: Word, k: Word): Word {
    var a2, b2, c2, d2 := Double(t.a), Double(t.b), Double(t.c), Double(t.d);
    Word(Add(Sum4(a2, Add(b2, t.b), t.c, t.d), k.a), Add(Sum4(t.a, b2, Add(c2, t.c), t.d), k.b),
         Add(Sum4(t.a, t.b, c2, Add(d2, t.d)), k.c), Add(Sum4(Add(a2, t.a), t.b, t.c, d2), k.d))
  }

  lemma TimesIs(t: Word, k: Word)
    ensures Xor(MixColumn(t), k) == Times(t, k)
  {
    hide Mul;
    DoubleIs(t.a);
    DoubleIs(t.b);
    DoubleIs(t.c);
    DoubleIs(t.d);
    hide Double;
    hide Add;
  }

  /** One round, from the state `s` to `r`. */
  lemma RoundIs(input: State, k: seq<State>, n: nat, s: State, key: State, r: State)
    requires n + 1 < |k| && Rounds(input, k, n) == s && k[n + 1] == key
    requires var t := ShiftRows(SubBytes(s));
             r == State(Times(t.w0, key.w0), Times(t.w1, key.w1), Times(t.w2, key.w2), Times(t.w3, key.w3))
    ensures Rounds(input, k, n + 1) == r
  {
    hide MixColumn;
    hide Xor;
    hide Times;
    hide ShiftRows;
    hide SubBytes;
    var t := ShiftRows(SubBytes(s));
    TimesIs(t.w0, key.w0);
    TimesIs(t.w1, key.w1);
    TimesIs(t.w2, key.w2);
    TimesIs(t.w3, key.w3);
  }

  /** Round key `n` is `r`. */
  ghost predicate KeyAt(key: seq<Word>, n: nat, r: State)
    requires KeyLength(|key|)
  {
    ExpandedWord(key, 4 * n) == r.w0 && ExpandedWord(key, 4 * n + 1) == r.w1 &&
    ExpandedWord(key, 4 * n + 2) == r.w2 && ExpandedWord(key, 4 * n + 3) == r.w3
  }

  /** What is added to a word of the expanded key, for a key of `nk` words. */
  ghost function Added(nk: nat, i: nat, last: Word): Word {
    if nk == 0 then last
    else if i % nk == 0 then
      var w := SubWord(Word(last.b, last.c, last.d, last.a));
      Word(Add(w.a, RconByte(i / nk)), w.b, w.c, w.d)
    else if nk == 8 && i % nk == 4 then SubWord(last)
    else last
  }

  lemma AddedIs(key: seq<Word>, i: nat, last: Word)
    requires KeyLength(|key|)
    ensures Temp(key, i, last) == Added(|key|, i, last)
  {
    hide SBox;
  }

  /** The words `r` from word `i` on, given the words `x` one key length before and the word before. */
  ghost predicate Follows(nk: nat, i: nat, x: State, last: Word, r: State) {
    r.w0 == Xor(x.w0, Added(nk, i, last)) && r.w1 == Xor(x.w1, Added(nk, i + 1, r.w0)) &&
    r.w2 == Xor(x.w2, Added(nk, i + 2, r.w1)) && r.w3 == Xor(x.w3, Added(nk, i + 3, r.w2))
  }

  lemma NextKey(key: seq<Word>, nk: nat, n: nat, x: State, last: Word, r: State)
    requires KeyLength(nk) && |key| == nk && 4 * n >= nk && Follows(nk, 4 * n, x, last, r)
    requires ExpandedWord(key, 4 * n - nk) == x.w0 && ExpandedWord(key, 4 * n - nk + 1) == x.w1
    requires ExpandedWord(key, 4 * n - nk + 2) == x.w2 && ExpandedWord(key, 4 * n - nk + 3) == x.w3
    requires ExpandedWord(key, 4 * n - 1) == last
    ensures KeyAt(key, n, r)
  {
    hide Xor;
    hide Temp;
    hide Added;
    AddedIs(key, 4 * n, last);
    AddedIs(key, 4 * n + 1, r.w0);
    AddedIs(key, 4 * n + 2, r.w1);
    AddedIs(key, 4 * n + 3, r.w2);
  }

  lemma ScheduleIs(key: seq<Word>, n: nat, r: State)
    requires KeyLength(|key|) && n < |key| + 7 && KeyAt(key, n, r)
    ensures KeySchedule(key)[n] == r
  {
    hide ExpandedWord;
  }

  lemma Constants()
    ensures RconByte(1) == 0x01 && RconByte(2) == 0x02 && RconByte(3) == 0x04 && RconByte(4) == 0x08
    ensures RconByte(5) == 0x10 && RconByte(6) == 0x20 && RconByte(7) == 0x40 && RconByte(8) == 0x80
    ensures RconByte(9) == 0x1B && RconByte(10) == 0x36
  {
    hide Xtime;
    Doubles();
  }

  lemma Doubles()
    ensures Xtime(0x01) == 0x02 && Xtime(0x02) == 0x04 && Xtime(0x04) == 0x08 && Xtime(0x08) == 0x10
    ensures Xtime(0x10) == 0x20 && Xtime(0x20) == 0x40 && Xtime(0x40) == 0x80 && Xtime(0x80) == 0x1B
    ensures Xtime(0x1B) == 0x36
  {
  }

  lemma RowIs(b: seq<bv8>, t: seq<bv8>, c: nat, r: nat)
    requires |b| == |t| == 16 && c < 4 && r < 4
    requires t[0] == b[0] && t[1] == b[5] && t[2] == b[10] && t[3] == b[15]
    requires t[4] == b[4] && t[5] == b[9] && t[6] == b[14] && t[7] == b[3]
    requires t[8] == b[8] && t[9] == b[13] && t[10] == b[2] && t[11] == b[7]
    requires t[12] == b[12] && t[13] == b[1] && t[14] == b[6] && t[15] == b[11]
    ensures t[4 * c + r] == b[4 * ((c + r) % 4) + r]
  {
    ModFour(c + r);
    var from := 4 * ((c + r) % 4) + r;
    if c == 0 {
      assert from == 5 * r;
    } else if c == 1 {
      assert from == if r == 3 then 3 else 5 * r + 4;
    } else if c == 2 {
      assert from == if r < 2 then 5 * r + 8 else 5 * r - 8;
    } else {
      assert from == if r == 0 then 12 else 5 * r - 4;
    }
  }

  lemma ModFour(n: nat)
    requires n < 8
    ensures n % 4 == if n < 4 then n else n - 4
  {
  }

  /** Row `r` moves `r` places to the left. */
  lemma ShiftRowsMoves(s: State, c: nat, r: nat)
    requires c < 4 && r < 4
    ensures BytesOf(ShiftRows(s))[4 * c + r] == BytesOf(s)[4 * ((c + r) % 4) + r]
  {
    RowIs(BytesOf(s), BytesOf(ShiftRows(s)), c, r);
  }

  /** The plaintext of all three examples. */
  const PLAIN: State := State(Word(0x00, 0x11, 0x22, 0x33), Word(0x44, 0x55, 0x66, 0x77),
          Word(0x88, 0x99, 0xAA, 0xBB), Word(0xCC, 0xDD, 0xEE, 0xFF))

  const PLAIN_BYTES: seq<bv8> :=
    [0x00, 0x11, 0x22, 0x33, 0x44, 0x55, 0x66, 0x77, 0x88, 0x99, 0xAA, 0xBB, 0xCC, 0xDD, 0xEE, 0xFF]

  lemma PlainIs()
    ensures |PLAIN_BYTES| == 16 && StateOf(PLAIN_BYTES) == PLAIN
  {
  }

  /** The bytes 00, 01, 02 and so on. */
  predicate Counting(key: seq<bv8>) {
    |key| <= 32 && forall i :: 0 <= i < |key| ==> key[i] == i as bv8
  }

  // ---- 128 bits (appendix C.1) ------------------------------------------------------------

  /** The key of the example. */
  ghost predicate Key128(key: seq<Word>) {
    |key| == 4 && key[0] == Word(0x00, 0x01, 0x02, 0x03) && key[1] == Word(0x04, 0x05, 0x06, 0x07) &&
    key[2] == Word(0x08, 0x09, 0x0A, 0x0B) && key[3] == Word(0x0C, 0x0D, 0x0E, 0x0F)
  }

  const K128_0: State := State(Word(0x00, 0x01, 0x02, 0x03), Word(0x04, 0x05, 0x06, 0x07),
          Word(0x08, 0x09, 0x0A, 0x0B), Word(0x0C, 0x0D, 0x0E, 0x0F))
  const K128_1: State := State(Word(0xD6, 0xAA, 0x74, 0xFD), Word(0xD2, 0xAF, 0x72, 0xFA),
          Word(0xDA, 0xA6, 0x78, 0xF1), Word(0xD6, 0xAB, 0x76, 0xFE))
  const K128_2: State := State(Word(0xB6, 0x92, 0xCF, 0x0B), Word(0x64, 0x3D, 0xBD, 0xF1),
          Word(0xBE, 0x9B, 0xC5, 0x00), Word(0x68, 0x30, 0xB3, 0xFE))
  const K128_3: State := State(Word(0xB6, 0xFF, 0x74, 0x4E), Word(0xD2, 0xC2, 0xC9, 0xBF),
          Word(0x6C, 0x59, 0x0C, 0xBF), Word(0x04, 0x69, 0xBF, 0x41))
  const K128_4: State := State(Word(0x47, 0xF7, 0xF7, 0xBC), Word(0x95, 0x35, 0x3E, 0x03),
          Word(0xF9, 0x6C, 0x32, 0xBC), Word(0xFD, 0x05, 0x8D, 0xFD))
  const K128_5: State := State(Word(0x3C, 0xAA, 0xA3, 0xE8), Word(0xA9, 0x9F, 0x9D, 0xEB),
          Word(0x50, 0xF3, 0xAF, 0x57), Word(0xAD, 0xF6, 0x22, 0xAA))
  const K128_6: State := State(Word(0x5E, 0x39, 0x0F, 0x7D), Word(0xF7, 0xA6, 0x92, 0x96),
          Word(0xA7, 0x55, 0x3D, 0xC1), Word(0x0A, 0xA3, 0x1F, 0x6B))
  const K128_7: State := State(Word(0x14, 0xF9, 0x70, 0x1A), Word(0xE3, 0x5F, 0xE2, 0x8C),
          Word(0x44, 0x0A, 0xDF, 0x4D), Word(0x4E, 0xA9, 0xC0, 0x26))
  const K128_8: State := State(Word(0x47, 0x43, 0x87, 0x35), Word(0xA4, 0x1C, 0x65, 0xB9),
          Word(0xE0, 0x16, 0xBA, 0xF4), Word(0xAE, 0xBF, 0x7A, 0xD2))
  const K128_9: State := State(Word(0x54, 0x99, 0x32, 0xD1), Word(0xF0, 0x85, 0x57, 0x68),
          Word(0x10, 0x93, 0xED, 0x9C), Word(0xBE, 0x2C, 0x97, 0x4E))
  const K128_10: State := State(Word(0x13, 0x11, 0x1D, 0x7F), Word(0xE3, 0x94, 0x4A, 0x17),
          Word(0xF3, 0x07, 0xA7, 0x8B), Word(0x4D, 0x2B, 0x30, 0xC5))

  const S128_0: State := State(Word(0x00, 0x10, 0x20, 0x30), Word(0x40, 0x50, 0x60, 0x70),
          Word(0x80, 0x90, 0xA0, 0xB0), Word(0xC0, 0xD0, 0xE0, 0xF0))
  const S128_1: State := State(Word(0x89, 0xD8, 0x10, 0xE8), Word(0x85, 0x5A, 0xCE, 0x68),
          Word(0x2D, 0x18, 0x43, 0xD8), Word(0xCB, 0x12, 0x8F, 0xE4))
  const S128_2: State := State(Word(0x49, 0x15, 0x59, 0x8F), Word(0x55, 0xE5, 0xD7, 0xA0),
          Word(0xDA, 0xCA, 0x94, 0xFA), Word(0x1F, 0x0A, 0x63, 0xF7))
  const S128_3: State := State(Word(0xFA, 0x63, 0x6A, 0x28), Word(0x25, 0xB3, 0x39, 0xC9),
          Word(0x40, 0x66, 0x8A, 0x31), Word(0x57, 0x24, 0x4D, 0x17))
  const S128_4: State := State(Word(0x24, 0x72, 0x40, 0x23), Word(0x69, 0x66, 0xB3, 0xFA),
          Word(0x6E, 0xD2, 0x75, 0x32), Word(0x88, 0x42, 0x5B, 0x6C))
  const S128_5: State := State(Word(0xC8, 0x16, 0x77, 0xBC), Word(0x9B, 0x7A, 0xC9, 0x3B),
          Word(0x25, 0x02, 0x79, 0x92), Word(0xB0, 0x26, 0x19, 0x96))
  const S128_6: State := State(Word(0xC6, 0x2F, 0xE1, 0x09), Word(0xF7, 0x5E, 0xED, 0xC3),
          Word(0xCC, 0x79, 0x39, 0x5D), Word(0x84, 0xF9, 0xCF, 0x5D))
  const S128_7: State := State(Word(0xD1, 0x87, 0x6C, 0x0F), Word(0x79, 0xC4, 0x30, 0x0A),
          Word(0xB4, 0x55, 0x94, 0xAD), Word(0xD6, 0x6F, 0xF4, 0x1F))
  const S128_8: State := State(Word(0xFD, 0xE3, 0xBA, 0xD2), Word(0x05, 0xE5, 0xD0, 0xD7),
          Word(0x35, 0x47, 0x96, 0x4E), Word(0xF1, 0xFE, 0x37, 0xF1))
  const S128_9: State := State(Word(0xBD, 0x6E, 0x7C, 0x3D), Word(0xF2, 0xB5, 0x77, 0x9E),
          Word(0x0B, 0x61, 0x21, 0x6E), Word(0x8B, 0x10, 0xB6, 0x89))

  lemma Keys128_0(key: seq<Word>)
    requires Key128(key)
    ensures KeyAt(key, 0, K128_0)
  {
  }

  lemma Steps128_1()
    ensures Follows(4, 4, K128_0, K128_0.w3, K128_1)
    ensures Follows(4, 8, K128_1, K128_1.w3, K128_2)
    ensures Follows(4, 12, K128_2, K128_2.w3, K128_3)
    ensures Follows(4, 16, K128_3, K128_3.w3, K128_4)
  {
    hide SBox;
    hide RconByte;
    Constants();
    TableHolds();
  }

  lemma Steps128_2()
    ensures Follows(4, 20, K128_4, K128_4.w3, K128_5)
    ensures Follows(4, 24, K128_5, K128_5.w3, K128_6)
    ensures Follows(4, 28, K128_6, K128_6.w3, K128_7)
    ensures Follows(4, 32, K128_7, K128_7.w3, K128_8)
  {
    hide SBox;
    hide RconByte;
    Constants();
    TableHolds();
  }

  lemma Steps128_3()
    ensures Follows(4, 36, K128_8, K128_8.w3, K128_9)
    ensures Follows(4, 40, K128_9, K128_9.w3, K128_10)
  {
    hide SBox;
    hide RconByte;
    Constants();
    TableHolds();
  }

  /** The key schedule. */
  lemma Keys128(key: seq<Word>)
    requires Key128(key)
    ensures KeyAt(key, 0, K128_0) && KeyAt(key, 1, K128_1) && KeyAt(key, 2, K128_2)
    ensures KeyAt(key, 3, K128_3) && KeyAt(key, 4, K128_4) && KeyAt(key, 5, K128_5)
    ensures KeyAt(key, 6, K128_6) && KeyAt(key, 7, K128_7) && KeyAt(key, 8, K128_8)
    ensures KeyAt(key, 9, K128_9) && KeyAt(key, 10, K128_10)
  {
    hide ExpandedWord;
    hide Follows;
    Keys128_0(key);
    Steps128_1();
    Steps128_2();
    Steps128_3();
    NextKey(key, 4, 1, K128_0, K128_0.w3, K128_1);
    NextKey(key, 4, 2, K128_1, K128_1.w3, K128_2);
    NextKey(key, 4, 3, K128_2, K128_2.w3, K128_3);
    NextKey(key, 4, 4, K128_3, K128_3.w3, K128_4);
    NextKey(key, 4, 5, K128_4, K128_4.w3, K128_5);
    NextKey(key, 4, 6, K128_5, K128_5.w3, K128_6);
    NextKey(key, 4, 7, K128_6, K128_6.w3, K128_7);
    NextKey(key, 4, 8, K128_7, K128_7.w3, K128_8);
    NextKey(key, 4, 9, K128_8, K128_8.w3, K128_9);
    NextKey(key, 4, 10, K128_9, K128_9.w3, K128_10);
  }

  lemma Rounds128_0(key: seq<Word>)
    requires Key128(key)
    ensures Rounds(PLAIN, KeySchedule(key), 0) == S128_0
  {
    hide ExpandedWord;
    hide KeySchedule;
    Keys128(key);
    ScheduleIs(key, 0, K128_0);
  }

  lemma Rounds128_5(key: seq<Word>)
    requires Key128(key)
    ensures Rounds(PLAIN, KeySchedule(key), 5) == S128_5
  {
    hide ExpandedWord;
    hide KeySchedule;
    hide Rounds;
    hide SBox;
    Rounds128_0(key);
    TableHolds();
    Keys128(key);
    ScheduleIs(key, 1, K128_1);
    RoundIs(PLAIN, KeySchedule(key), 0, S128_0, K128_1, S128_1);
    ScheduleIs(key, 2, K128_2);
    RoundIs(PLAIN, KeySchedule(key), 1, S128_1, K128_2, S128_2);
    ScheduleIs(key, 3, K128_3);
    RoundIs(PLAIN, KeySchedule(key), 2, S128_2, K128_3, S128_3);
    ScheduleIs(key, 4, K128_4);
    RoundIs(PLAIN, KeySchedule(key), 3, S128_3, K128_4, S128_4);
    ScheduleIs(key, 5, K128_5);
    RoundIs(PLAIN, KeySchedule(key), 4, S128_4, K128_5, S128_5);
  }

  lemma Rounds128_9(key: seq<Word>)
    requires Key128(key)
    ensures Rounds(PLAIN, KeySchedule(key), 9) == S128_9
  {
    hide ExpandedWord;
    hide KeySchedule;
    hide Rounds;
    hide SBox;
    Rounds128_5(key);
    TableHolds();
    Keys128(key);
    ScheduleIs(key, 6, K128_6);
    RoundIs(PLAIN, KeySchedule(key), 5, S128_5, K128_6, S128_6);
    ScheduleIs(key, 7, K128_7);
    RoundIs(PLAIN, KeySchedule(key), 6, S128_6, K128_7, S128_7);
    ScheduleIs(key, 8, K128_8);
    RoundIs(PLAIN, KeySchedule(key), 7, S128_7, K128_8, S128_8);
    ScheduleIs(key, 9, K128_9);
    RoundIs(PLAIN, KeySchedule(key), 8, S128_8, K128_9, S128_9);
  }

  lemma Cipher128(key: seq<Word>)
    requires Key128(key)
    ensures Cipher(PLAIN, KeySchedule(key)) == State(Word(0x69, 0xC4, 0xE0, 0xD8), Word(0x6A, 0x7B, 0x04, 0x30),
                  Word(0xD8, 0xCD, 0xB7, 0x80), Word(0x70, 0xB4, 0xC5, 0x5A))
  {
    hide ExpandedWord;
    hide KeySchedule;
    hide Rounds;
    hide SBox;
    Rounds128_9(key);
    TableHolds();
    Keys128(key);
    ScheduleIs(key, 10, K128_10);
  }

  lemma KeyIs128(key: seq<bv8>)
    requires Counting(key) && |key| == 16
    ensures Key128(KeyWords(key, 4))
  {
  }

  /** Encryption gives the ciphertext of the example, and decryption the plaintext. */
  lemma Vector128(key: seq<bv8>, plain: seq<bv8>, text: seq<bv8>)
    requires Counting(key) && |key| == 16 && plain == PLAIN_BYTES
    requires text == [0x69, 0xC4, 0xE0, 0xD8, 0x6A, 0x7B, 0x04, 0x30, 0xD8, 0xCD, 0xB7, 0x80, 0x70, 0xB4, 0xC5, 0x5A]
    ensures EncryptBlock(KeyWords(key, 4), plain) == text && DecryptBlock(KeyWords(key, 4), text) == plain
  {
    hide Cipher;
    hide KeySchedule;
    hide InverseCipher;
    hide KeyWords;
    hide Key128;
    KeyIs128(key);
    PlainIs();
    Cipher128(KeyWords(key, 4));
    DecryptUndoesEncrypt(KeyWords(key, 4), plain);
  }

  // ---- 192 bits (appendix C.2) ------------------------------------------------------------

  /** The key of the example. */
  ghost predicate Key192(key: seq<Word>) {
    |key| == 6 && key[0] == Word(0x00, 0x01, 0x02, 0x03) && key[1] == Word(0x04, 0x05, 0x06, 0x07) &&
    key[2] == Word(0x08, 0x09, 0x0A, 0x0B) && key[3] == Word(0x0C, 0x0D, 0x0E, 0x0F) &&
    key[4] == Word(0x10, 0x11, 0x12, 0x13) && key[5] == Word(0x14, 0x15, 0x16, 0x17)
  }

  const K192_0: State := State(Word(0x00, 0x01, 0x02, 0x03), Word(0x04, 0x05, 0x06, 0x07),
          Word(0x08, 0x09, 0x0A, 0x0B), Word(0x0C, 0x0D, 0x0E, 0x0F))
  const K192_1: State := State(Word(0x10, 0x11, 0x12, 0x13), Word(0x14, 0x15, 0x16, 0x17),
          Word(0x58, 0x46, 0xF2, 0xF9), Word(0x5C, 0x43, 0xF4, 0xFE))
  const K192_2: State := State(Word(0x54, 0x4A, 0xFE, 0xF5), Word(0x58, 0x47, 0xF0, 0xFA),
          Word(0x48, 0x56, 0xE2, 0xE9), Word(0x5C, 0x43, 0xF4, 0xFE))
  const K192_3: State := State(Word(0x40, 0xF9, 0x49, 0xB3), Word(0x1C, 0xBA, 0xBD, 0x4D),
          Word(0x48, 0xF0, 0x43, 0xB8), Word(0x10, 0xB7, 0xB3, 0x42))
  const K192_4: State := State(Word(0x58, 0xE1, 0x51, 0xAB), Word(0x04, 0xA2, 0xA5, 0x55),
          Word(0x7E, 0xFF, 0xB5, 0x41), Word(0x62, 0x45, 0x08, 0x0C))
  const K192_5: State := State(Word(0x2A, 0xB5, 0x4B, 0xB4), Word(0x3A, 0x02, 0xF8, 0xF6),
          Word(0x62, 0xE3, 0xA9, 0x5D), Word(0x66, 0x41, 0x0C, 0x08))
  const K192_6: State := State(Word(0xF5, 0x01, 0x85, 0x72), Word(0x97, 0x44, 0x8D, 0x7E),
          Word(0xBD, 0xF1, 0xC6, 0xCA), Word(0x87, 0xF3, 0x3E, 0x3C))
  const K192_7: State := State(Word(0xE5, 0x10, 0x97, 0x61), Word(0x83, 0x51, 0x9B, 0x69),
          Word(0x34, 0x15, 0x7C, 0x9E), Word(0xA3, 0x51, 0xF1, 0xE0))
  const K192_8: State := State(Word(0x1E, 0xA0, 0x37, 0x2A), Word(0x99, 0x53, 0x09, 0x16),
          Word(0x7C, 0x43, 0x9E, 0x77), Word(0xFF, 0x12, 0x05, 0x1E))
  const K192_9: State := State(Word(0xDD, 0x7E, 0x0E, 0x88), Word(0x7E, 0x2F, 0xFF, 0x68),
          Word(0x60, 0x8F, 0xC8, 0x42), Word(0xF9, 0xDC, 0xC1, 0x54))
  const K192_10: State := State(Word(0x85, 0x9F, 0x5F, 0x23), Word(0x7A, 0x8D, 0x5A, 0x3D),
          Word(0xC0, 0xC0, 0x29, 0x52), Word(0xBE, 0xEF, 0xD6, 0x3A))
  const K192_11: State := State(Word(0xDE, 0x60, 0x1E, 0x78), Word(0x27, 0xBC, 0xDF, 0x2C),
          Word(0xA2, 0x23, 0x80, 0x0F), Word(0xD8, 0xAE, 0xDA, 0x32))
  const K192_12: State := State(Word(0xA4, 0x97, 0x0A, 0x33), Word(0x1A, 0x78, 0xDC, 0x09),
          Word(0xC4, 0x18, 0xC2, 0x71), Word(0xE3, 0xA4, 0x1D, 0x5D))

  const S192_0: State := State(Word(0x00, 0x10, 0x20, 0x30), Word(0x40, 0x50, 0x60, 0x70),
          Word(0x80, 0x90, 0xA0, 0xB0), Word(0xC0, 0xD0, 0xE0, 0xF0))
  const S192_1: State := State(Word(0x4F, 0x63, 0x76, 0x06), Word(0x43, 0xE0, 0xAA, 0x85),
          Word(0xAF, 0xF8, 0xC9, 0xD0), Word(0x41, 0xFA, 0x0D, 0xE4))
  const S192_2: State := State(Word(0xCB, 0x02, 0x81, 0x8C), Word(0x17, 0xD2, 0xAF, 0x9C),
          Word(0x62, 0xAA, 0x64, 0x42), Word(0x8B, 0xB2, 0x5F, 0xD7))
  const S192_3: State := State(Word(0xF7, 0x5C, 0x77, 0x78), Word(0xA3, 0x27, 0xC8, 0xED),
          Word(0x8C, 0xFE, 0xBF, 0xC1), Word(0xA6, 0xC3, 0x7F, 0x53))
  const S192_4: State := State(Word(0x22, 0xFF, 0xC9, 0x16), Word(0xA8, 0x14, 0x74, 0x41),
          Word(0x64, 0x96, 0xF1, 0x9C), Word(0x64, 0xAE, 0x25, 0x32))
  const S192_5: State := State(Word(0x80, 0x12, 0x1E, 0x07), Word(0x76, 0xFD, 0x1D, 0x8A),
          Word(0x8D, 0x8C, 0x31, 0xBC), Word(0x96, 0x5D, 0x1F, 0xEE))
  const S192_6: State := State(Word(0x67, 0x1E, 0xF1, 0xFD), Word(0x4E, 0x2A, 0x1E, 0x03),
          Word(0xDF, 0xDC, 0xB1, 0xEF), Word(0x3D, 0x78, 0x9B, 0x30))
  const S192_7: State := State(Word(0x0C, 0x03, 0x70, 0xD0), Word(0x0C, 0x01, 0xE6, 0x22),
          Word(0x16, 0x6B, 0x8A, 0xCC), Word(0xD6, 0xDB, 0x3A, 0x2C))
  const S192_8: State := State(Word(0x72, 0x55, 0xDA, 0xD3), Word(0x0F, 0xB8, 0x03, 0x10),
          Word(0xE0, 0x0D, 0x6C, 0x6B), Word(0x40, 0xD0, 0x52, 0x7C))
  const S192_9: State := State(Word(0xA9, 0x06, 0xB2, 0x54), Word(0x96, 0x8A, 0xF4, 0xE9),
          Word(0xB4, 0xBD, 0xB2, 0xD2), Word(0xF0, 0xC4, 0x43, 0x36))
  const S192_10: State := State(Word(0x88, 0xEC, 0x93, 0x0E), Word(0xF5, 0xE7, 0xE4, 0xB6),
          Word(0xCC, 0x32, 0xF4, 0xC9), Word(0x06, 0xD2, 0x94, 0x14))
  const S192_11: State := State(Word(0xAF, 0xB7, 0x3E, 0xEB), Word(0x1C, 0xD1, 0xB8, 0x51),
          Word(0x62, 0x28, 0x0F, 0x27), Word(0xFB, 0x20, 0xD5, 0x85))

  lemma Keys192_0(key: seq<Word>)
    requires Key192(key)
    ensures KeyAt(key, 0, K192_0)
    ensures ExpandedWord(key, 4) == K192_1.w0 && ExpandedWord(key, 5) == K192_1.w1
  {
  }

  /** The first computed words complete the second round key. */
  lemma Keys192_Second(key: seq<Word>)
    requires Key192(key)
    ensures KeyAt(key, 1, K192_1)
  {
    hide SBox;
    Keys192_0(key);
    Constants();
    TableHolds();
    assert ExpandedWord(key, 6) == Xor(key[0], Temp(key, 6, ExpandedWord(key, 5)));
    assert ExpandedWord(key, 7) == Xor(key[1], Temp(key, 7, ExpandedWord(key, 6)));
  }

  lemma Steps192_1()
    ensures Follows(6, 8, State(K192_0.w2, K192_0.w3, K192_1.w0, K192_1.w1), K192_1.w3, K192_2)
    ensures Follows(6, 12, State(K192_1.w2, K192_1.w3, K192_2.w0, K192_2.w1), K192_2.w3, K192_3)
    ensures Follows(6, 16, State(K192_2.w2, K192_2.w3, K192_3.w0, K192_3.w1), K192_3.w3, K192_4)
    ensures Follows(6, 20, State(K192_3.w2, K192_3.w3, K192_4.w0, K192_4.w1), K192_4.w3, K192_5)
  {
    hide SBox;
    hide RconByte;
    Constants();
    TableHolds();
  }

  lemma Steps192_2()
    ensures Follows(6, 24, State(K192_4.w2, K192_4.w3, K192_5.w0, K192_5.w1), K192_5.w3, K192_6)
    ensures Follows(6, 28, State(K192_5.w2, K192_5.w3, K192_6.w0, K192_6.w1), K192_6.w3, K192_7)
    ensures Follows(6, 32, State(K192_6.w2, K192_6.w3, K192_7.w0, K192_7.w1), K192_7.w3, K192_8)
    ensures Follows(6, 36, State(K192_7.w2, K192_7.w3, K192_8.w0, K192_8.w1), K192_8.w3, K192_9)
  {
    hide SBox;
    hide RconByte;
    Constants();
    TableHolds();
  }

  lemma Steps192_3()
    ensures Follows(6, 40, State(K192_8.w2, K192_8.w3, K192_9.w0, K192_9.w1), K192_9.w3, K192_10)
    ensures Follows(6, 44, State(K192_9.w2, K192_9.w3, K192_10.w0, K192_10.w1), K192_10.w3, K192_11)
    ensures Follows(6, 48, State(K192_10.w2, K192_10.w3, K192_11.w0, K192_11.w1), K192_11.w3, K192_12)
  {
    hide SBox;
    hide RconByte;
    Constants();
    TableHolds();
  }

  /** The key schedule. */
  lemma Keys192(key: seq<Word>)
    requires Key192(key)
    ensures KeyAt(key, 0, K192_0) && KeyAt(key, 1, K192_1) && KeyAt(key, 2, K192_2)
    ensures KeyAt(key, 3, K192_3) && KeyAt(key, 4, K192_4) && KeyAt(key, 5, K192_5)
    ensures KeyAt(key, 6, K192_6) && KeyAt(key, 7, K192_7) && KeyAt(key, 8, K192_8)
    ensures KeyAt(key, 9, K192_9) && KeyAt(key, 10, K192_10) && KeyAt(key, 11, K192_11)
    ensures KeyAt(key, 12, K192_12)
  {
    hide ExpandedWord;
    hide Follows;
    Keys192_0(key);
    Keys192_Second(key);
    Steps192_1();
    Steps192_2();
    Steps192_3();
    NextKey(key, 6, 2, State(K192_0.w2, K192_0.w3, K192_1.w0, K192_1.w1), K192_1.w3, K192_2);
    NextKey(key, 6, 3, State(K192_1.w2, K192_1.w3, K192_2.w0, K192_2.w1), K192_2.w3, K192_3);
    NextKey(key, 6, 4, State(K192_2.w2, K192_2.w3, K192_3.w0, K192_3.w1), K192_3.w3, K192_4);
    NextKey(key, 6, 5, State(K192_3.w2, K192_3.w3, K192_4.w0, K192_4.w1), K192_4.w3, K192_5);
    NextKey(key, 6, 6, State(K192_4.w2, K192_4.w3, K192_5.w0, K192_5.w1), K192_5.w3, K192_6);
    NextKey(key, 6, 7, State(K192_5.w2, K192_5.w3, K192_6.w0, K192_6.w1), K192_6.w3, K192_7);
    NextKey(key, 6, 8, State(K192_6.w2, K192_6.w3, K192_7.w0, K192_7.w1), K192_7.w3, K192_8);
    NextKey(key, 6, 9, State(K192_7.w2, K192_7.w3, K192_8.w0, K192_8.w1), K192_8.w3, K192_9);
    NextKey(key, 6, 10, State(K192_8.w2, K192_8.w3, K192_9.w0, K192_9.w1), K192_9.w3, K192_10);
    NextKey(key, 6, 11, State(K192_9.w2, K192_9.w3, K192_10.w0, K192_10.w1), K192_10.w3, K192_11);
    NextKey(key, 6, 12, State(K192_10.w2, K192_10.w3, K192_11.w0, K192_11.w1), K192_11.w3, K192_12);
  }

  lemma Rounds192_0(key: seq<Word>)
    requires Key192(key)
    ensures Rounds(PLAIN, KeySchedule(key), 0) == S192_0
  {
    hide ExpandedWord;
    hide KeySchedule;
    Keys192(key);
    ScheduleIs(key, 0, K192_0);
  }

  lemma Rounds192_5(key: seq<Word>)
    requires Key192(key)
    ensures Rounds(PLAIN, KeySchedule(key), 5) == S192_5
  {
    hide ExpandedWord;
    hide KeySchedule;
    hide Rounds;
    hide SBox;
    Rounds192_0(key);
    TableHolds();
    Keys192(key);
    ScheduleIs(key, 1, K192_1);
    RoundIs(PLAIN, KeySchedule(key), 0, S192_0, K192_1, S192_1);
    ScheduleIs(key, 2, K192_2);
    RoundIs(PLAIN, KeySchedule(key), 1, S192_1, K192_2, S192_2);
    ScheduleIs(key, 3, K192_3);
    RoundIs(PLAIN, KeySchedule(key), 2, S192_2, K192_3, S192_3);
    ScheduleIs(key, 4, K192_4);
    RoundIs(PLAIN, KeySchedule(key), 3, S192_3, K192_4, S192_4);
    ScheduleIs(key, 5, K192_5);
    RoundIs(PLAIN, KeySchedule(key), 4, S192_4, K192_5, S192_5);
  }

  lemma Rounds192_10(key: seq<Word>)
    requires Key192(key)
    ensures Rounds(PLAIN, KeySchedule(key), 10) == S192_10
  {
    hide ExpandedWord;
    hide KeySchedule;
    hide Rounds;
    hide SBox;
    Rounds192_5(key);
    TableHolds();
    Keys192(key);
    ScheduleIs(key, 6, K192_6);
    RoundIs(PLAIN, KeySchedule(key), 5, S192_5, K192_6, S192_6);
    ScheduleIs(key, 7, K192_7);
    RoundIs(PLAIN, KeySchedule(key), 6, S192_6, K192_7, S192_7);
    ScheduleIs(key, 8, K192_8);
    RoundIs(PLAIN, KeySchedule(key), 7, S192_7, K192_8, S192_8);
    ScheduleIs(key, 9, K192_9);
    RoundIs(PLAIN, KeySchedule(key), 8, S192_8, K192_9, S192_9);
    ScheduleIs(key, 10, K192_10);
    RoundIs(PLAIN, KeySchedule(key), 9, S192_9, K192_10, S192_10);
  }

  lemma Rounds192_11(key: seq<Word>)
    requires Key192(key)
    ensures Rounds(PLAIN, KeySchedule(key), 11) == S192_11
  {
    hide ExpandedWord;
    hide KeySchedule;
    hide Rounds;
    hide SBox;
    Rounds192_10(key);
    TableHolds();
    Keys192(key);
    ScheduleIs(key, 11, K192_11);
    RoundIs(PLAIN, KeySchedule(key), 10, S192_10, K192_11, S192_11);
  }

  lemma Cipher192(key: seq<Word>)
    requires Key192(key)
    ensures Cipher(PLAIN, KeySchedule(key)) == State(Word(0xDD, 0xA9, 0x7C, 0xA4), Word(0x86, 0x4C, 0xDF, 0xE0),
                  Word(0x6E, 0xAF, 0x70, 0xA0), Word(0xEC, 0x0D, 0x71, 0x91))
  {
    hide ExpandedWord;
    hide KeySchedule;
    hide Rounds;
    hide SBox;
    Rounds192_11(key);
    TableHolds();
    Keys192(key);
    ScheduleIs(key, 12, K192_12);
  }

  lemma KeyIs192(key: seq<bv8>)
    requires Counting(key) && |key| == 24
    ensures Key192(KeyWords(key, 6))
  {
  }

  /** Encryption gives the ciphertext of the example, and decryption the plaintext. */
  lemma Vector192(key: seq<bv8>, plain: seq<bv8>, text: seq<bv8>)
    requires Counting(key) && |key| == 24 && plain == PLAIN_BYTES
    requires text == [0xDD, 0xA9, 0x7C, 0xA4, 0x86, 0x4C, 0xDF, 0xE0, 0x6E, 0xAF, 0x70, 0xA0, 0xEC, 0x0D, 0x71, 0x91]
    ensures EncryptBlock(KeyWords(key, 6), plain) == text && DecryptBlock(KeyWords(key, 6), text) == plain
  {
    hide Cipher;
    hide KeySchedule;
    hide InverseCipher;
    hide KeyWords;
    hide Key192;
    KeyIs192(key);
    PlainIs();
    Cipher192(KeyWords(key, 6));
    DecryptUndoesEncrypt(KeyWords(key, 6), plain);
  }

  // ---- 256 bits (appendix C.3) ------------------------------------------------------------

  /** The key of the example. */
  ghost predicate Key256(key: seq<Word>) {
    |key| == 8 && key[0] == Word(0x00, 0x01, 0x02, 0x03) && key[1] == Word(0x04, 0x05, 0x06, 0x07) &&
    key[2] == Word(0x08, 0x09, 0x0A, 0x0B) && key[3] == Word(0x0C, 0x0D, 0x0E, 0x0F) &&
    key[4] == Word(0x10, 0x11, 0x12, 0x13) && key[5] == Word(0x14, 0x15, 0x16, 0x17) &&
    key[6] == Word(0x18, 0x19, 0x1A, 0x1B) && key[7] == Word(0x1C, 0x1D, 0x1E, 0x1F)
  }

  const K256_0: State := State(Word(0x00, 0x01, 0x02, 0x03), Word(0x04, 0x05, 0x06, 0x07),
          Word(0x08, 0x09, 0x0A, 0x0B), Word(0x0C, 0x0D, 0x0E, 0x0F))
  const K256_1: State := State(Word(0x10, 0x11, 0x12, 0x13), Word(0x14, 0x15, 0x16, 0x17),
          Word(0x18, 0x19, 0x1A, 0x1B), Word(0x1C, 0x1D, 0x1E, 0x1F))
  const K256_2: State := State(Word(0xA5, 0x73, 0xC2, 0x9F), Word(0xA1, 0x76, 0xC4, 0x98),
          Word(0xA9, 0x7F, 0xCE, 0x93), Word(0xA5, 0x72, 0xC0, 0x9C))
  const K256_3: State := State(Word(0x16, 0x51, 0xA8, 0xCD), Word(0x02, 0x44, 0xBE, 0xDA),
          Word(0x1A, 0x5D, 0xA4, 0xC1), Word(0x06, 0x40, 0xBA, 0xDE))
  const K256_4: State := State(Word(0xAE, 0x87, 0xDF, 0xF0), Word(0x0F, 0xF1, 0x1B, 0x68),
          Word(0xA6, 0x8E, 0xD5, 0xFB), Word(0x03, 0xFC, 0x15, 0x67))
  const K256_5: State := State(Word(0x6D, 0xE1, 0xF1, 0x48), Word(0x6F, 0xA5, 0x4F, 0x92),
          Word(0x75, 0xF8, 0xEB, 0x53), Word(0x73, 0xB8, 0x51, 0x8D))
  const K256_6: State := State(Word(0xC6, 0x56, 0x82, 0x7F), Word(0xC9, 0xA7, 0x99, 0x17),
          Word(0x6F, 0x29, 0x4C, 0xEC), Word(0x6C, 0xD5, 0x59, 0x8B))
  const K256_7: State := State(Word(0x3D, 0xE2, 0x3A, 0x75), Word(0x52, 0x47, 0x75, 0xE7),
          Word(0x27, 0xBF, 0x9E, 0xB4), Word(0x54, 0x07, 0xCF, 0x39))
  const K256_8: State := State(Word(0x0B, 0xDC, 0x90, 0x5F), Word(0xC2, 0x7B, 0x09, 0x48),
          Word(0xAD, 0x52, 0x45, 0xA4), Word(0xC1, 0x87, 0x1C, 0x2F))
  const K256_9: State := State(Word(0x45, 0xF5, 0xA6, 0x60), Word(0x17, 0xB2, 0xD3, 0x87),
          Word(0x30, 0x0D, 0x4D, 0x33), Word(0x64, 0x0A, 0x82, 0x0A))
  const K256_10: State := State(Word(0x7C, 0xCF, 0xF7, 0x1C), Word(0xBE, 0xB4, 0xFE, 0x54),
          Word(0x13, 0xE6, 0xBB, 0xF0), Word(0xD2, 0x61, 0xA7, 0xDF))
  const K256_11: State := State(Word(0xF0, 0x1A, 0xFA, 0xFE), Word(0xE7, 0xA8, 0x29, 0x79),
          Word(0xD7, 0xA5, 0x64, 0x4A), Word(0xB3, 0xAF, 0xE6, 0x40))
  const K256_12: State := State(Word(0x25, 0x41, 0xFE, 0x71), Word(0x9B, 0xF5, 0x00, 0x25),
          Word(0x88, 0x13, 0xBB, 0xD5), Word(0x5A, 0x72, 0x1C, 0x0A))
  const K256_13: State := State(Word(0x4E, 0x5A, 0x66, 0x99), Word(0xA9, 0xF2, 0x4F, 0xE0),
          Word(0x7E, 0x57, 0x2B, 0xAA), Word(0xCD, 0xF8, 0xCD, 0xEA))
  const K256_14: State := State(Word(0x24, 0xFC, 0x79, 0xCC), Word(0xBF, 0x09, 0x79, 0xE9),
          Word(0x37, 0x1A, 0xC2, 0x3C), Word(0x6D, 0x68, 0xDE, 0x36))

  const S256_0: State := State(Word(0x00, 0x10, 0x20, 0x30), Word(0x40, 0x50, 0x60, 0x70),
          Word(0x80, 0x90, 0xA0, 0xB0), Word(0xC0, 0xD0, 0xE0, 0xF0))
  const S256_1: State := State(Word(0x4F, 0x63, 0x76, 0x06), Word(0x43, 0xE0, 0xAA, 0x85),
          Word(0xEF, 0xA7, 0x21, 0x32), Word(0x01, 0xA4, 0xE7, 0x05))
  const S256_2: State := State(Word(0x18, 0x59, 0xFB, 0xC2), Word(0x8A, 0x1C, 0x00, 0xA0),
          Word(0x78, 0xED, 0x8A, 0xAD), Word(0xC4, 0x2F, 0x61, 0x09))
  const S256_3: State := State(Word(0x97, 0x5C, 0x66, 0xC1), Word(0xCB, 0x9F, 0x3F, 0xA8),
          Word(0xA9, 0x3A, 0x28, 0xDF), Word(0x8E, 0xE1, 0x0F, 0x63))
  const S256_4: State := State(Word(0x1C, 0x05, 0xF2, 0x71), Word(0xA4, 0x17, 0xE0, 0x4F),
          Word(0xF9, 0x21, 0xC5, 0xC1), Word(0x04, 0x70, 0x15, 0x54))
  const S256_5: State := State(Word(0xC3, 0x57, 0xAA, 0xE1), Word(0x1B, 0x45, 0xB7, 0xB0),
          Word(0xA2, 0xC7, 0xBD, 0x28), Word(0xA8, 0xDC, 0x99, 0xFA))
  const S256_6: State := State(Word(0x7F, 0x07, 0x41, 0x43), Word(0xCB, 0x4E, 0x24, 0x3E),
          Word(0xC1, 0x0C, 0x81, 0x5D), Word(0x83, 0x75, 0xD5, 0x4C))
  const S256_7: State := State(Word(0xD6, 0x53, 0xA4, 0x69), Word(0x6C, 0xA0, 0xBC, 0x0F),
          Word(0x5A, 0xCA, 0xAB, 0x5D), Word(0xB9, 0x6C, 0x5E, 0x7D))
  const S256_8: State := State(Word(0x5A, 0xA8, 0x58, 0x39), Word(0x5F, 0xD2, 0x8D, 0x7D),
          Word(0x05, 0xE1, 0xA3, 0x88), Word(0x68, 0xF3, 0xB9, 0xC5))
  const S256_9: State := State(Word(0x4A, 0x82, 0x48, 0x51), Word(0xC5, 0x7E, 0x7E, 0x47),
          Word(0x64, 0x3D, 0xE5, 0x0C), Word(0x2A, 0xF3, 0xE8, 0xC9))
  const S256_10: State := State(Word(0xC1, 0x49, 0x07, 0xF6), Word(0xCA, 0x3B, 0x3A, 0xA0),
          Word(0x70, 0xE9, 0xAA, 0x31), Word(0x3B, 0x52, 0xB5, 0xEC))
  const S256_11: State := State(Word(0x5F, 0x9C, 0x6A, 0xBF), Word(0xBA, 0xC6, 0x34, 0xAA),
          Word(0x50, 0x40, 0x9F, 0xA7), Word(0x66, 0x67, 0x76, 0x53))
  const S256_12: State := State(Word(0x51, 0x66, 0x04, 0x95), Word(0x43, 0x53, 0x95, 0x03),
          Word(0x14, 0xFB, 0x86, 0xE4), Word(0x01, 0x92, 0x25, 0x21))
  const S256_13: State := State(Word(0x62, 0x7B, 0xCE, 0xB9), Word(0x99, 0x9D, 0x5A, 0xAA),
          Word(0xC9, 0x45, 0xEC, 0xF4), Word(0x23, 0xF5, 0x6D, 0xA5))

  lemma Keys256_0(key: seq<Word>)
    requires Key256(key)
    ensures KeyAt(key, 0, K256_0) && KeyAt(key, 1, K256_1)
  {
  }

  lemma Steps256_1()
    ensures Follows(8, 8, K256_0, K256_1.w3, K256_2)
    ensures Follows(8, 12, K256_1, K256_2.w3, K256_3)
    ensures Follows(8, 16, K256_2, K256_3.w3, K256_4)
    ensures Follows(8, 20, K256_3, K256_4.w3, K256_5)
  {
    hide SBox;
    hide RconByte;
    Constants();
    TableHolds();
  }

  lemma Steps256_2()
    ensures Follows(8, 24, K256_4, K256_5.w3, K256_6)
    ensures Follows(8, 28, K256_5, K256_6.w3, K256_7)
    ensures Follows(8, 32, K256_6, K256_7.w3, K256_8)
    ensures Follows(8, 36, K256_7, K256_8.w3, K256_9)
  {
    hide SBox;
    hide RconByte;
    Constants();
    TableHolds();
  }

  lemma Steps256_3()
    ensures Follows(8, 40, K256_8, K256_9.w3, K256_10)
    ensures Follows(8, 44, K256_9, K256_10.w3, K256_11)
    ensures Follows(8, 48, K256_10, K256_11.w3, K256_12)
    ensures Follows(8, 52, K256_11, K256_12.w3, K256_13)
  {
    hide SBox;
    hide RconByte;
    Constants();
    TableHolds();
  }

  lemma Steps256_4()
    ensures Follows(8, 56, K256_12, K256_13.w3, K256_14)
  {
    hide SBox;
    hide RconByte;
    Constants();
    TableHolds();
  }

  /** The key schedule. */
  lemma Keys256(key: seq<Word>)
    requires Key256(key)
    ensures KeyAt(key, 0, K256_0) && KeyAt(key, 1, K256_1) && KeyAt(key, 2, K256_2)
    ensures KeyAt(key, 3, K256_3) && KeyAt(key, 4, K256_4) && KeyAt(key, 5, K256_5)
    ensures KeyAt(key, 6, K256_6) && KeyAt(key, 7, K256_7) && KeyAt(key, 8, K256_8)
    ensures KeyAt(key, 9, K256_9) && KeyAt(key, 10, K256_10) && KeyAt(key, 11, K256_11)
    ensures KeyAt(key, 12, K256_12) && KeyAt(key, 13, K256_13) && KeyAt(key, 14, K256_14)
  {
    hide ExpandedWord;
    hide Follows;
    Keys256_0(key);
    Steps256_1();
    Steps256_2();
    Steps256_3();
    Steps256_4();
    NextKey(key, 8, 2, K256_0, K256_1.w3, K256_2);
    NextKey(key, 8, 3, K256_1, K256_2.w3, K256_3);
    NextKey(key, 8, 4, K256_2, K256_3.w3, K256_4);
    NextKey(key, 8, 5, K256_3, K256_4.w3, K256_5);
    NextKey(key, 8, 6, K256_4, K256_5.w3, K256_6);
    NextKey(key, 8, 7, K256_5, K256_6.w3, K256_7);
    NextKey(key, 8, 8, K256_6, K256_7.w3, K256_8);
    NextKey(key, 8, 9, K256_7, K256_8.w3, K256_9);
    NextKey(key, 8, 10, K256_8, K256_9.w3, K256_10);
    NextKey(key, 8, 11, K256_9, K256_10.w3, K256_11);
    NextKey(key, 8, 12, K256_10, K256_11.w3, K256_12);
    NextKey(key, 8, 13, K256_11, K256_12.w3, K256_13);
    NextKey(key, 8, 14, K256_12, K256_13.w3, K256_14);
  }

  lemma Rounds256_0(key: seq<Word>)
    requires Key256(key)
    ensures Rounds(PLAIN, KeySchedule(key), 0) == S256_0
  {
    hide ExpandedWord;
    hide KeySchedule;
    Keys256(key);
    ScheduleIs(key, 0, K256_0);
  }

  lemma Rounds256_5(key: seq<Word>)
    requires Key256(key)
    ensures Rounds(PLAIN, KeySchedule(key), 5) == S256_5
  {
    hide ExpandedWord;
    hide KeySchedule;
    hide Rounds;
    hide SBox;
    Rounds256_0(key);
    TableHolds();
    Keys256(key);
    ScheduleIs(key, 1, K256_1);
    RoundIs(PLAIN, KeySchedule(key), 0, S256_0, K256_1, S256_1);
    ScheduleIs(key, 2, K256_2);
    RoundIs(PLAIN, KeySchedule(key), 1, S256_1, K256_2, S256_2);
    ScheduleIs(key, 3, K256_3);
    RoundIs(PLAIN, KeySchedule(key), 2, S256_2, K256_3, S256_3);
    ScheduleIs(key, 4, K256_4);
    RoundIs(PLAIN, KeySchedule(key), 3, S256_3, K256_4, S256_4);
    ScheduleIs(key, 5, K256_5);
    RoundIs(PLAIN, KeySchedule(key), 4, S256_4, K256_5, S256_5);
  }

  lemma Rounds256_10(key: seq<Word>)
    requires Key256(key)
    ensures Rounds(PLAIN, KeySchedule(key), 10) == S256_10
  {
    hide ExpandedWord;
    hide KeySchedule;
    hide Rounds;
    hide SBox;
    Rounds256_5(key);
    TableHolds();
    Keys256(key);
    ScheduleIs(key, 6, K256_6);
    RoundIs(PLAIN, KeySchedule(key), 5, S256_5, K256_6, S256_6);
    ScheduleIs(key, 7, K256_7);
    RoundIs(PLAIN, KeySchedule(key), 6, S256_6, K256_7, S256_7);
    ScheduleIs(key, 8, K256_8);
    RoundIs(PLAIN, KeySchedule(key), 7, S256_7, K256_8, S256_8);
    ScheduleIs(key, 9, K256_9);
    RoundIs(PLAIN, KeySchedule(key), 8, S256_8, K256_9, S256_9);
    ScheduleIs(key, 10, K256_10);
    RoundIs(PLAIN, KeySchedule(key), 9, S256_9, K256_10, S256_10);
  }

  lemma Rounds256_13(key: seq<Word>)
    requires Key256(key)
    ensures Rounds(PLAIN, KeySchedule(key), 13) == S256_13
  {
    hide ExpandedWord;
    hide KeySchedule;
    hide Rounds;
    hide SBox;
    Rounds256_10(key);
    TableHolds();
    Keys256(key);
    ScheduleIs(key, 11, K256_11);
    RoundIs(PLAIN, KeySchedule(key), 10, S256_10, K256_11, S256_11);
    ScheduleIs(key, 12, K256_12);
    RoundIs(PLAIN, KeySchedule(key), 11, S256_11, K256_12, S256_12);
    ScheduleIs(key, 13, K256_13);
    RoundIs(PLAIN, KeySchedule(key), 12, S256_12, K256_13, S256_13);
  }

  lemma Cipher256(key: seq<Word>)
    requires Key256(key)
    ensures Cipher(PLAIN, KeySchedule(key)) == State(Word(0x8E, 0xA2, 0xB7, 0xCA), Word(0x51, 0x67, 0x45, 0xBF),
                  Word(0xEA, 0xFC, 0x49, 0x90), Word(0x4B, 0x49, 0x60, 0x89))
  {
    hide ExpandedWord;
    hide KeySchedule;
    hide Rounds;
    hide SBox;
    Rounds256_13(key);
    TableHolds();
    Keys256(key);
    ScheduleIs(key, 14, K256_14);
  }

  lemma KeyIs256(key: seq<bv8>)
    requires Counting(key) && |key| == 32
    ensures Key256(KeyWords(key, 8))
  {
  }

  /** Encryption gives the ciphertext of the example, and decryption the plaintext. */
  lemma Vector256(key: seq<bv8>, plain: seq<bv8>, text: seq<bv8>)
    requires Counting(key) && |key| == 32 && plain == PLAIN_BYTES
    requires text == [0x8E, 0xA2, 0xB7, 0xCA, 0x51, 0x67, 0x45, 0xBF, 0xEA, 0xFC, 0x49, 0x90, 0x4B, 0x49, 0x60, 0x89]
    ensures EncryptBlock(KeyWords(key, 8), plain) == text && DecryptBlock(KeyWords(key, 8), text) == plain
  {
    hide Cipher;
    hide KeySchedule;
    hide InverseCipher;
    hide KeyWords;
    hide Key256;
    KeyIs256(key);
    PlainIs();
    Cipher256(KeyWords(key, 8));
    DecryptUndoesEncrypt(KeyWords(key, 8), plain);
  }
}
