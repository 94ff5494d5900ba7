/** Cipher block chaining with any block cipher, as security/AESStringCrypt.c does it. */
module Chaining {

  type Cipher = seq<bv8> -> seq<bv8>

  /** Blocks of 16 bytes go to blocks of 16 bytes. */
  ghost predicate OnBlocks(f: Cipher) {
    forall b :: |b| == 16 ==> |f(b)| == 16
  }

  ghost predicate Undoes(d: Cipher, e: Cipher) {
    forall b :: |b| == 16 ==> d(e(b)) == b
  }

  function XorBlocks(a: seq<bv8>, b: seq<bv8>): (r: seq<bv8>)
    requires |a| == |b| == 16
    ensures |r| == 16
  {
    seq(16, i requires 0 <= i < 16 => a[i] ^ b[i])
  }

  lemma XorTwiceIs(a: seq<bv8>, b: seq<bv8>)
    requires |a| == |b| == 16
    ensures XorBlocks(XorBlocks(a, b), b) == a
  {
    forall i | 0 <= i < 16 ensures XorBlocks(XorBlocks(a, b), b)[i] == a[i] {
      XorBytes(a[i], b[i]);
    }
  }

  lemma XorBytes(a: bv8, b: bv8)
    ensures (a ^ b) ^ b == a
  {
  }

  /** The next block of plaintext. A short one is filled up with what the buffer held before. */
  function NextPlain(plain: seq<bv8>, stale: seq<bv8>): (r: seq<bv8>)
    requires |stale| == 16
    ensures |r| == 16
  {
    if |plain| >= 16 then plain[..16] else plain + stale[|plain|..]
  }

  /** The plaintext after the next block. */
  function AfterPlain(plain: seq<bv8>): seq<bv8> {
    if |plain| >= 16 then plain[16..] else []
  }

  /** The ciphertext blocks, after a block or IV `last` and with the buffer holding `stale`. */
  ghost function Chained(e: Cipher, last: seq<bv8>, stale: seq<bv8>, plain: seq<bv8>): (r: seq<bv8>)
    requires OnBlocks(e) && |last| == |stale| == 16
    ensures |r| == 16 * ((|plain| + 15) / 16) && |r| % 16 == 0
    decreases |plain|
  {
    if plain == [] then []
    else
      var block := e(XorBlocks(NextPlain(plain, stale), last));
      block + Chained(e, block, block, AfterPlain(plain))
  }

  /** Blocks decrypted and unchained. */
  ghost function Unchained(d: Cipher, last: seq<bv8>, text: seq<bv8>): (r: seq<bv8>)
    requires OnBlocks(d) && |last| == 16 && |text| % 16 == 0
    ensures |r| == |text|
    decreases |text|
  {
    if text == [] then []
    else XorBlocks(d(text[..16]), last) + Unchained(d, text[..16], text[16..])
  }

  // ---- unchaining undoes chaining ---------------------------------------------------

  /** Whatever fills up the last block, the plaintext comes back at the front. */
  lemma {:induction false} UnchainedChained(e: Cipher, d: Cipher, last: seq<bv8>, stale: seq<bv8>, plain: seq<bv8>)
    requires OnBlocks(e) && OnBlocks(d) && Undoes(d, e) && |last| == |stale| == 16
    ensures plain <= Unchained(d, last, Chained(e, last, stale, plain))
    decreases |plain|
  {
    hide XorBlocks;
    hide NextPlain;
    hide Chained;
    hide Unchained;
    if plain != [] {
      var next, rest := NextPlain(plain, stale), AfterPlain(plain);
      var block := e(XorBlocks(next, last));
      ChainedStep(e, last, stale, plain);
      UnchainedStep(d, last, block, Chained(e, block, block, rest));
      XorTwiceIs(next, last);
      UnchainedChained(e, d, block, block, rest);
      NextRest(plain, stale, Unchained(d, block, Chained(e, block, block, rest)));
    }
  }

  lemma ChainedStep(e: Cipher, last: seq<bv8>, stale: seq<bv8>, plain: seq<bv8>)
    requires OnBlocks(e) && |last| == |stale| == 16 && plain != []
    ensures var block := e(XorBlocks(NextPlain(plain, stale), last));
            |block| == 16 && Chained(e, last, stale, plain) == block + Chained(e, block, block, AfterPlain(plain))
  {
    hide XorBlocks;
    hide NextPlain;
    hide AfterPlain;
  }

  lemma UnchainedStep(d: Cipher, last: seq<bv8>, block: seq<bv8>, text: seq<bv8>)
    requires OnBlocks(d) && |last| == |block| == 16 && |text| % 16 == 0
    ensures Unchained(d, last, block + text) == XorBlocks(d(block), last) + Unchained(d, block, text)
  {
    hide XorBlocks;
    assert (block + text)[..16] == block && (block + text)[16..] == text;
  }

  lemma NextRest(plain: seq<bv8>, stale: seq<bv8>, tail: seq<bv8>)
    requires |stale| == 16 && AfterPlain(plain) <= tail
    ensures plain <= NextPlain(plain, stale) + tail
  {
    if |plain| >= 16 {
      assert plain == plain[..16] + plain[16..];
    }
  }

  // ---- one more block ---------------------------------------------------------------

  /** The block that the next one is chained to. */
  function LastBlock(iv: seq<bv8>, text: seq<bv8>): (r: seq<bv8>)
    requires |iv| == 16 && |text| % 16 == 0
    ensures |r| == 16
  {
    if text == [] then iv else text[|text| - 16..]
  }

  lemma {:induction false} UnchainedAppended(d: Cipher, iv: seq<bv8>, text: seq<bv8>, block: seq<bv8>)
    requires OnBlocks(d) && |iv| == |block| == 16 && |text| % 16 == 0
    ensures Unchained(d, iv, text + block) == Unchained(d, iv, text) + XorBlocks(d(block), LastBlock(iv, text))
    decreases |text|
  {
    hide XorBlocks;
    hide Unchained;
    if text == [] {
      assert text + block == block + [];
      UnchainedStep(d, iv, block, []);
      UnchainedNone(d, iv);
      UnchainedNone(d, block);
    } else {
      var first, rest := text[..16], text[16..];
      assert text == first + rest && text + block == first + (rest + block);
      assert LastBlock(first, rest) == LastBlock(iv, text);
      UnchainedStep(d, iv, first, rest + block);
      UnchainedStep(d, iv, first, rest);
      UnchainedAppended(d, first, rest, block);
    }
  }

  lemma UnchainedNone(d: Cipher, iv: seq<bv8>)
    requires OnBlocks(d) && |iv| == 16
    ensures Unchained(d, iv, []) == []
  {
  }
}
