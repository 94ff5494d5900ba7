/** The container of security/AESStringCrypt.c in the terms of the standards behind it: HMAC as in section 2 of
    RFC 2104, 8192 hashings for the key, and cipher block chaining byte by byte. */
module StringCryptMeaning {
  import opened AesKeys
  import opened Sha256Spec
  import opened Chaining
  import opened StringCryptSpec

  // ---- the tag -------------------------------------------------------------------------

  /** The key filled up with zeros to 64 bytes, each with `mask` added. */
  predicate Masked(key: seq<bv8>, mask: bv8, p: seq<bv8>) {
    |p| == 64 && forall j :: 0 <= j < 64 ==> p[j] == (if j < |key| then key[j] else 0) ^ mask
  }

  /** `tag` is the HMAC of `text` under `key`. */
  ghost predicate IsTag(key: seq<bv8>, text: seq<bv8>, tag: seq<bv8>) {
    exists o, i :: Masked(key, 0x5C, o) && Masked(key, 0x36, i) && tag == Sha256(o + Sha256(i + text))
  }

  lemma MaskedIsPad(key: seq<bv8>, mask: bv8, p: seq<bv8>)
    requires |key| == 32
    ensures Masked(key, mask, p) <==> p == Pad(key, mask)
  {
    forall j | 0 <= j < 64 ensures Pad(key, mask)[j] == (if j < 32 then key[j] else 0) ^ mask {
      MaskCommutes(mask, if j < 32 then key[j] else 0);
    }
  }

  lemma MaskCommutes(mask: bv8, b: bv8)
    ensures mask ^ b == b ^ mask && 0 ^ mask == mask
  {
  }

  lemma TagIs(key: seq<bv8>, text: seq<bv8>, tag: seq<bv8>)
    requires |key| == 32
    ensures IsTag(key, text, tag) <==> tag == Hmac(key, text)
  {
    hide Sha256;
    hide Pad;
    hide Masked;
    MaskedIsPad(key, 0x5C, Pad(key, 0x5C));
    MaskedIsPad(key, 0x36, Pad(key, 0x36));
    forall o, i | Masked(key, 0x5C, o) && Masked(key, 0x36, i) ensures o == Pad(key, 0x5C) && i == Pad(key, 0x36) {
      MaskedIsPad(key, 0x5C, o);
      MaskedIsPad(key, 0x36, i);
    }
  }

  // ---- the key -------------------------------------------------------------------------

  /** The digests `d`, from the IV and zeros on, each hashed together with the password. */
  ghost predicate Hashings(iv: seq<bv8>, password: seq<bv8>, d: seq<seq<bv8>>) {
    |d| > 0 && |iv| == 16 && |d[0]| == 32 && d[0][..16] == iv && (forall j :: 16 <= j < 32 ==> d[0][j] == 0) &&
    forall n {:trigger d[n]} :: 0 < n < |d| ==> d[n] == Sha256(d[n - 1] + password)
  }

  /** `key` is what 8192 hashings give. */
  ghost predicate IsKey(iv: seq<bv8>, password: seq<bv8>, key: seq<bv8>) {
    exists d :: |d| == 8193 && Hashings(iv, password, d) && key == d[8192]
  }

  lemma {:induction false} HashingsAre(iv: seq<bv8>, password: seq<bv8>, d: seq<seq<bv8>>, n: nat)
    requires Hashings(iv, password, d) && n < |d|
    ensures |iv| == 16 && d[n] == Stretched(iv + Zeros(16), password, n)
  {
    hide Sha256;
    if n == 0 {
      assert d[0] == d[0][..16] + d[0][16..];
      assert d[0][16..] == Zeros(16);
    } else {
      HashingsAre(iv, password, d, n - 1);
    }
  }

  ghost function Digests(iv: seq<bv8>, password: seq<bv8>, n: nat): (d: seq<seq<bv8>>)
    requires |iv| == 16
    ensures |d| == n + 1
  {
    seq(n + 1, i requires 0 <= i <= n => Stretched(iv + Zeros(16), password, i))
  }

  lemma DigestsAre(iv: seq<bv8>, password: seq<bv8>, n: nat)
    requires |iv| == 16
    ensures Hashings(iv, password, Digests(iv, password, n))
  {
    hide Sha256;
    var d := Digests(iv, password, n);
    forall k {:trigger d[k]} | 0 < k < |d| ensures d[k] == Sha256(d[k - 1] + password) {
      StretchedStep(iv + Zeros(16), password, k);
    }
  }

  lemma StretchedStep(digest: seq<bv8>, password: seq<bv8>, n: nat)
    requires |digest| == 32 && n > 0
    ensures Stretched(digest, password, n) == Sha256(Stretched(digest, password, n - 1) + password)
  {
    hide Sha256;
  }

  lemma KeyIs(iv: seq<bv8>, password: seq<bv8>, key: seq<bv8>)
    requires |iv| == 16
    ensures IsKey(iv, password, key) <==> key == Key(iv, password)
  {
    hide Hashings;
    hide Stretched;
    hide Digests;
    if d :| |d| == 8193 && Hashings(iv, password, d) && key == d[8192] {
      HashingsAre(iv, password, d, 8192);
    }
    DigestsAre(iv, password, 8192);
    HashingsAre(iv, password, Digests(iv, password, 8192), 8192);
  }

  // ---- the blocks -------------------------------------------------------------------------

  /** Block `n` of some bytes. */
  function Block(s: seq<bv8>, n: nat): (r: seq<bv8>)
    requires 16 * n + 16 <= |s|
    ensures |r| == 16
    ensures forall j :: 0 <= j < 16 ==> r[j] == s[16 * n + j]
  {
    s[16 * n..16 * n + 16]
  }

  /** What block `n` is chained to: the ciphertext block before, or the IV. */
  function Before(iv: seq<bv8>, text: seq<bv8>, n: nat): (r: seq<bv8>)
    requires |iv| == 16 && 16 * n <= |text|
    ensures |r| == 16
  {
    if n == 0 then iv else Block(text, n - 1)
  }

  /** The bytes of `x` that come from `plain`, from index `at` on, are added to the block before. */
  predicate Mixes(x: seq<bv8>, plain: seq<bv8>, at: nat, before: seq<bv8>) {
    |x| == |before| == 16 && forall j :: 0 <= j < 16 && at + j < |plain| ==> x[j] == plain[at + j] ^ before[j]
  }

  /** Block `n` of the ciphertext. */
  ghost predicate IsBlock(key: seq<bv8>, iv: seq<bv8>, plain: seq<bv8>, text: seq<bv8>, n: nat) {
    |key| == 32 && |iv| == 16 && 16 * n + 16 <= |text| &&
    exists x :: |x| == 16 && Mixes(x, plain, 16 * n, Before(iv, text, n)) &&
      Block(text, n) == EncryptBlock(KeyWords(key, 8), x)
  }

  ghost predicate IsText(key: seq<bv8>, iv: seq<bv8>, plain: seq<bv8>, text: seq<bv8>) {
    |key| == 32 && |iv| == 16 && |text| == 16 * ((|plain| + 15) / 16) &&
    forall n: nat :: 16 * n + 16 <= |text| ==> IsBlock(key, iv, plain, text, n)
  }

  lemma FirstBlockIs(key: seq<bv8>, last: seq<bv8>, stale: seq<bv8>, plain: seq<bv8>)
    requires |key| == 32 && |last| == |stale| == 16 && plain != []
    ensures IsBlock(key, last, plain, Chained(Encrypter(key), last, stale, plain), 0)
  {
    hide EncryptBlock;
    hide KeyWords;
    var e := Encrypter(key);
    var x := XorBlocks(NextPlain(plain, stale), last);
    var text := Chained(e, last, stale, plain);
    ChainedStep(e, last, stale, plain);
    assert Block(text, 0) == e(x) == EncryptBlock(KeyWords(key, 8), x);
  }

  lemma LaterBlock(first: seq<bv8>, rest: seq<bv8>, n: nat)
    requires |first| == 16 && 16 * n + 16 <= |rest|
    ensures |first + rest| == 16 + |rest| && Block(first + rest, n + 1) == Block(rest, n)
  {
    forall j | 0 <= j < 16 ensures Block(first + rest, n + 1)[j] == Block(rest, n)[j] {
      assert (first + rest)[16 + (16 * n + j)] == rest[16 * n + j];
    }
  }

  lemma LaterBefore(last: seq<bv8>, first: seq<bv8>, rest: seq<bv8>, n: nat)
    requires |last| == |first| == 16 && 16 * n <= |rest|
    ensures Before(last, first + rest, n + 1) == Before(first, rest, n)
  {
    if n == 0 {
      assert Block(first + rest, 0) == first;
    } else {
      LaterBlock(first, rest, n - 1);
    }
  }

  lemma MixesLater(x: seq<bv8>, head: seq<bv8>, tail: seq<bv8>, at: nat, before: seq<bv8>)
    requires |head| == 16 && Mixes(x, tail, at, before)
    ensures Mixes(x, head + tail, 16 + at, before)
  {
    forall j | 0 <= j < 16 && 16 + at + j < |head + tail| ensures x[j] == (head + tail)[16 + at + j] ^ before[j] {
      assert (head + tail)[16 + (at + j)] == tail[at + j];
    }
  }

  /** A block of the rest is the block after it of the whole. */
  lemma LaterBlockIs(key: seq<bv8>, last: seq<bv8>, block: seq<bv8>, head: seq<bv8>, tail: seq<bv8>, rest: seq<bv8>,
                     n: nat, plain: seq<bv8>, text: seq<bv8>)
    requires |last| == |block| == |head| == 16 && plain == head + tail && text == block + rest
    requires IsBlock(key, block, tail, rest, n)
    ensures IsBlock(key, last, plain, text, n + 1)
  {
    hide EncryptBlock;
    hide KeyWords;
    hide Before;
    hide Block;
    hide Mixes;
    LaterBlock(block, rest, n);
    LaterBefore(last, block, rest, n);
    var x :| |x| == 16 && Mixes(x, tail, 16 * n, Before(block, rest, n)) &&
      Block(rest, n) == EncryptBlock(KeyWords(key, 8), x);
    MixesLater(x, head, tail, 16 * n, Before(block, rest, n));
  }

  lemma {:induction false} TextIs(key: seq<bv8>, last: seq<bv8>, stale: seq<bv8>, plain: seq<bv8>)
    requires |key| == 32 && |last| == |stale| == 16
    ensures IsText(key, last, plain, Chained(Encrypter(key), last, stale, plain))
    decreases |plain|
  {
    hide IsBlock;
    hide Encrypter;
    hide Chained;
    var e := Encrypter(key);
    var text := Chained(e, last, stale, plain);
    if plain != [] {
      FirstBlockIs(key, last, stale, plain);
      ChainedStep(e, last, stale, plain);
      var block := text[..16];
      var rest := Chained(e, block, block, AfterPlain(plain));
      assert text == block + rest;
      TextIs(key, block, block, AfterPlain(plain));
      forall n: nat | 16 * n + 16 <= |text| ensures IsBlock(key, last, plain, text, n) {
        if n > 0 {
          assert plain == plain[..16] + plain[16..];
          LaterBlockIs(key, last, block, plain[..16], plain[16..], rest, n - 1, plain, text);
        }
      }
    }
  }

  // ---- the container -------------------------------------------------------------------------

  /** `c` holds `plain` under the password: "AES", the version 0, the size of the last block, IV, blocks and tag. */
  ghost predicate IsContainer(password: seq<bv8>, iv: seq<bv8>, plain: seq<bv8>, c: seq<bv8>) {
    exists key, text, tag, size: bv8 ::
      IsKey(iv, password, key) && IsText(key, iv, plain, text) && IsTag(key, text, tag) &&
      size as int == |plain| % 16 && c == [0x41, 0x45, 0x53, 0x00, size] + iv + text + tag
  }

  lemma ContainerMeans(password: seq<bv8>, iv: seq<bv8>, stale: seq<bv8>, plain: seq<bv8>)
    requires |iv| == |stale| == 16
    ensures IsContainer(password, iv, plain, Container(password, iv, stale, plain))
  {
    hide Key;
    hide Hmac;
    hide Chained;
    hide Encrypter;
    hide IsKey;
    hide IsText;
    hide IsTag;
    var key := Key(iv, password);
    var text := Chained(Encrypter(key), iv, stale, plain);
    KeyIs(iv, password, key);
    TextIs(key, iv, stale, plain);
    TagIs(key, text, Hmac(key, text));
    SizeByte(|plain|);
    var size := (|plain| % 16) as bv8;
    assert Container(password, iv, stale, plain) == [0x41, 0x45, 0x53, 0x00, size] + iv + text + Hmac(key, text);
  }

  /** What the reader accepts: the right first bytes, whole blocks, and the tag of the blocks. */
  ghost predicate Genuine(password: seq<bv8>, c: seq<bv8>) {
    |c| >= 53 && c[0] == 0x41 && c[1] == 0x45 && c[2] == 0x53 && c[3] == 0 && (|c| - 53) % 16 == 0 &&
    exists key :: IsKey(c[5..21], password, key) && IsTag(key, c[21..|c| - 32], c[|c| - 32..])
  }

  lemma AcceptedMeans(password: seq<bv8>, c: seq<bv8>)
    ensures Accepted(password, c) <==> Genuine(password, c)
  {
    hide Key;
    hide Hmac;
    hide IsKey;
    hide IsTag;
    if |c| >= 53 {
      HasHeader(c);
      var key := Key(IvOf(c), password);
      KeyIs(IvOf(c), password, key);
      TagIs(key, TextOf(c), c[|c| - 32..]);
      forall k | IsKey(IvOf(c), password, k) ensures k == key { KeyIs(IvOf(c), password, k); }
    }
  }

  /** Block by block, what is decrypted is added to the block before. */
  lemma {:induction false} UnchainedAt(key: seq<bv8>, last: seq<bv8>, text: seq<bv8>, n: nat)
    requires |key| == 32 && |last| == 16 && |text| % 16 == 0 && 16 * n + 16 <= |text|
    ensures Block(Unchained(Decrypter(key), last, text), n)
         == XorBlocks(DecryptBlock(KeyWords(key, 8), Block(text, n)), Before(last, text, n))
    decreases |text|
  {
    hide DecryptBlock;
    hide KeyWords;
    hide XorBlocks;
    hide Unchained;
    hide Block;
    hide Before;
    var d := Decrypter(key);
    var first, rest := text[..16], text[16..];
    assert text == first + rest;
    UnchainedStep(d, last, first, rest);
    assert d(first) == DecryptBlock(KeyWords(key, 8), first);
    if n == 0 {
      FirstOf(first, rest);
      FirstOf(XorBlocks(d(first), last), Unchained(d, first, rest));
      assert Before(last, text, 0) == last by { NothingBefore(last, text); }
    } else {
      UnchainedAt(key, first, rest, n - 1);
      LaterBlock(first, rest, n - 1);
      LaterBefore(last, first, rest, n - 1);
      LaterBlock(XorBlocks(d(first), last), Unchained(d, first, rest), n - 1);
    }
  }

  lemma FirstOf(first: seq<bv8>, rest: seq<bv8>)
    requires |first| == 16
    ensures Block(first + rest, 0) == first
  {
  }

  lemma NothingBefore(iv: seq<bv8>, text: seq<bv8>)
    requires |iv| == 16
    ensures Before(iv, text, 0) == iv
  {
  }

  /** The plaintext in an accepted container: its blocks, each decrypted and added to the block before. */
  ghost predicate IsPlain(key: seq<bv8>, iv: seq<bv8>, text: seq<bv8>, plain: seq<bv8>) {
    |key| == 32 && |iv| == 16 && |plain| <= |text| && |text| % 16 == 0 &&
    forall n: nat :: 16 * n + 16 <= |text| ==>
      Mixes(DecryptBlock(KeyWords(key, 8), Block(text, n)), plain, 16 * n, Before(iv, text, n))
  }

  lemma OpenedMeans(password: seq<bv8>, c: seq<bv8>)
    requires Genuine(password, c) && Final(c) <= 16
    ensures Accepted(password, c)
    ensures exists key :: IsKey(c[5..21], password, key) && IsPlain(key, c[5..21], c[21..|c| - 32], Opened(password, c))
  {
    hide Key;
    hide Hmac;
    hide IsKey;
    hide IsTag;
    hide IsPlain;
    AcceptedMeans(password, c);
    var key := Key(IvOf(c), password);
    KeyIs(IvOf(c), password, key);
    PlainIs(key, IvOf(c), TextOf(c), PlainSize(|TextOf(c)|, Final(c)));
  }

  lemma PlainIs(key: seq<bv8>, iv: seq<bv8>, text: seq<bv8>, size: nat)
    requires |key| == 32 && |iv| == 16 && |text| % 16 == 0 && size <= |text|
    ensures IsPlain(key, iv, text, Unchained(Decrypter(key), iv, text)[..size])
  {
    hide DecryptBlock;
    hide KeyWords;
    hide Unchained;
    hide Decrypter;
    hide Block;
    hide Before;
    var all := Unchained(Decrypter(key), iv, text);
    forall n: nat | 16 * n + 16 <= |text|
      ensures Mixes(DecryptBlock(KeyWords(key, 8), Block(text, n)), all[..size], 16 * n, Before(iv, text, n))
    {
      UnchainedAt(key, iv, text, n);
      MixesBlock(DecryptBlock(KeyWords(key, 8), Block(text, n)), all, n, Before(iv, text, n), size);
    }
  }

  lemma MixesBlock(x: seq<bv8>, all: seq<bv8>, n: nat, before: seq<bv8>, size: nat)
    requires |x| == |before| == 16 && 16 * n + 16 <= |all| && size <= |all| && Block(all, n) == XorBlocks(x, before)
    ensures Mixes(x, all[..size], 16 * n, before)
  {
    forall j | 0 <= j < 16 && 16 * n + j < size ensures x[j] == all[16 * n + j] ^ before[j] {
      assert Block(all, n)[j] == x[j] ^ before[j];
      XorBytes(x[j], before[j]);
    }
  }

  /** The reader answers with a length exactly for genuine containers. */
  lemma AnswerMeans(password: seq<bv8>, c: seq<bv8>, plain: seq<bv8>, r: int)
    requires (Headed(c) ==> Final(c) <= 16) && Answer(password, c, plain, r)
    ensures r != -1 <==> Genuine(password, c)
  {
    hide Genuine;
    hide Key;
    hide Hmac;
    hide Unchained;
    AcceptedMeans(password, c);
  }
}
