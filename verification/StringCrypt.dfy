/** `AESStringCrypt` and `AESStringDecrypt` (security/AESStringCrypt.c). The IV and what the block buffer holds
    before the first block are inputs; where they come from is not part of this model. */
module StringCrypt {
  import opened Sequences
  import opened AesSpec
  import opened AesTables
  import opened Aes
  import opened AesKeys
  import opened Sha256Spec
  import opened Sha256Stream
  import opened Chaining
  import opened StringCryptSpec
  import opened StringCryptMeaning

  // ---- hashing -------------------------------------------------------------------------

  /** One of the 8192 rounds (lines 259-265). */
  method HashWithPassword(sha: Sha256Context, digest: array<bv8>, password: array<bv8>, length: nat)
    requires sha.Shape() && digest.Length == 32 && length <= password.Length && length < WORD
    requires digest != sha.buffer && password != sha.buffer && password != digest
    modifies sha, sha.state, sha.buffer, digest
    ensures digest[..] == Sha256(old(digest[..]) + password[..length])
  {
    hide Sha256;
    hide Sha256Context.Valid;
    sha.Starts();
    sha.Update(digest, 32);
    sha.Update(password, length);
    assert sha.msg == old(digest[..]) + password[..length];
    sha.Finish(digest);
  }

  /** Lines 251-266 and 440-455. */
  method DeriveKey(sha: Sha256Context, IV: array<bv8>, digest: array<bv8>, password: array<bv8>, length: nat)
    requires sha.Shape() && IV.Length == 16 && digest.Length == 32 && length <= password.Length && length < WORD
    requires digest != sha.buffer && password != sha.buffer && password != digest && IV != digest && IV != sha.buffer
    modifies sha, sha.state, sha.buffer, digest
    ensures digest[..] == Key(IV[..], password[..length])
  {
    hide Sha256;
    forall i | 0 <= i < 32 { digest[i] := 0; }
    forall i | 0 <= i < 16 { digest[i] := IV[i]; }
    assert digest[..] == IV[..] + Zeros(16);
    var i := 0;
    while i < ROUNDS
      invariant 0 <= i <= ROUNDS && digest[..] == Stretched(IV[..] + Zeros(16), password[..length], i)
    {
      HashWithPassword(sha, digest, password, length);
      i := i + 1;
    }
  }

  /** Lines 278-285 and 467-474. */
  method FillPads(digest: array<bv8>) returns (ipad: array<bv8>, opad: array<bv8>)
    requires digest.Length == 32
    ensures fresh(ipad) && fresh(opad) && ipad.Length == opad.Length == 64 && ipad != opad
    ensures ipad[..] == Pad(digest[..], 0x36) && opad[..] == Pad(digest[..], 0x5C)
  {
    hide Mask;
    ipad := new bv8[64](i => 0x36);
    opad := new bv8[64](i => 0x5C);
    var i := 0;
    while i < 32
      invariant 0 <= i <= 32
      invariant forall j :: 0 <= j < i ==> ipad[j] == Mask(0x36, digest[j]) && opad[j] == Mask(0x5C, digest[j])
      invariant forall j :: i <= j < 64 ==> ipad[j] == 0x36 && opad[j] == 0x5C
    {
      ipad[i] := Mask(ipad[i], digest[i]);
      opad[i] := Mask(opad[i], digest[i]);
      i := i + 1;
    }
    assert ipad[..] == Pad(digest[..], 0x36);
    assert opad[..] == Pad(digest[..], 0x5C);
  }

  /** Together with one block of padded key, the ciphertext stays below the limit of the hash. */
  predicate SmallEnough(size: int) {
    64 + size < 0x2000_0000_0000_0000
  }

  /** The end of the inner hash, and the outer one (lines 343-347 and 530-534). */
  method FinishHmac(sha: Sha256Context, opad: array<bv8>, digest: array<bv8>, ghost key: seq<bv8>, ghost text: seq<bv8>)
    requires sha.Shape() && sha.Valid() && opad.Length == 64 && digest.Length == 32 && |key| == 32
    requires sha.msg == Pad(key, 0x36) + text && SmallEnough(|text|) && opad[..] == Pad(key, 0x5C)
    requires opad != sha.buffer && digest != sha.buffer && opad != digest
    modifies sha, sha.state, sha.buffer, digest
    ensures digest[..] == Hmac(key, text)
  {
    hide Sha256;
    hide Pad;
    hide Sha256Context.Valid;
    sha.Finish(digest);
    ghost var inner := digest[..];
    assert inner == Sha256(Pad(key, 0x36) + text);
    sha.Starts();
    sha.Update(opad, 64);
    sha.Update(digest, 32);
    assert sha.msg == Pad(key, 0x5C) + inner;
    sha.Finish(digest);
  }

  // ---- copying ---------------------------------------------------------------------------

  /** `memcpy(to + q, from + p, n)` */
  method Copy(from: array<bv8>, p: nat, n: nat, to: array<bv8>, q: nat)
    requires p + n <= from.Length && q + n <= to.Length && from != to
    modifies to
    ensures to[..q] == old(to[..q]) && to[q..q + n] == from[p..p + n] && to[q + n..] == old(to[q + n..])
  {
    forall i | 0 <= i < n { to[q + i] := from[p + i]; }
  }

  method XorInto(buffer: array<bv8>, IV: array<bv8>)
    requires buffer.Length >= 16 && IV.Length == 16 && buffer != IV
    modifies buffer
    ensures buffer[..16] == XorBlocks(old(buffer[..16]), IV[..])
  {
    ghost var was, iv := buffer[..16], IV[..];
    var i := 0;
    while i < 16
      invariant 0 <= i <= 16 && IV[..] == iv
      invariant buffer[..i] == XorBlocks(was, iv)[..i] && buffer[i..16] == was[i..]
    {
      assert buffer[i] == buffer[i..16][0] == was[i] && IV[i] == iv[i];
      buffer[i] := buffer[i] ^ IV[i];
      i := i + 1;
    }
  }

  // ---- encryption ---------------------------------------------------------------------------

  /** The next `n` bytes of plaintext, filled up from the buffer and added to the last block. */
  function Mixed(plaintext: seq<bv8>, pos: nat, n: nat, buffer: seq<bv8>, last: seq<bv8>): seq<bv8> {
    if pos + n <= |plaintext| && n <= 16 <= |buffer| && |last| == 16
    then XorBlocks(plaintext[pos..pos + n] + buffer[n..16], last) else []
  }

  /** One block: chained, encrypted, hashed and written (lines 306-337). */
  method EncryptNext(ctx: Context, t: Tables, sha: Sha256Context, plaintext: array<bv8>, pos: nat, n: nat,
                     buffer: array<bv8>, IV: array<bv8>, ciphertext: array<bv8>, p: nat, ghost key: seq<bv8>)
    returns (ghost block: seq<bv8>)
    requires |key| == 32 && Ready(ctx, t, KeyWords(key, 8)) && sha.Valid() && n <= 16
    requires pos + n <= plaintext.Length && buffer.Length == 32 && IV.Length == 16 && p + 16 <= ciphertext.Length
    requires buffer != IV && buffer != ciphertext && IV != ciphertext && buffer != sha.buffer && IV != sha.buffer
    requires ciphertext != sha.buffer && plaintext != buffer && plaintext != IV && plaintext != sha.buffer &&
             plaintext != ciphertext
    modifies sha, sha.state, sha.buffer, buffer, IV, ciphertext
    ensures Ready(ctx, t, KeyWords(key, 8)) && sha.Valid()
    ensures |block| == 16 && buffer[..16] == block && IV[..] == block && sha.msg == old(sha.msg) + block
    ensures ciphertext[..p + 16] == old(ciphertext[..p]) + block && ciphertext[p + 16..] == old(ciphertext[p + 16..])
    ensures block == Encrypter(key)(Mixed(plaintext[..], pos, n, old(buffer[..]), old(IV[..])))
  {
    hide Ready;
    hide KeyWords;
    hide Encrypter;
    hide XorBlocks;
    hide Sha256Context.Valid;
    EncryptNextBlock(ctx, t, plaintext, pos, n, buffer, IV, key);
    block := buffer[..16];
    sha.Update(buffer, 16);
    Copy(buffer, 0, 16, ciphertext, p);
    Copy(buffer, 0, 16, IV, 0);
  }

  /** Lines 306-321. */
  method EncryptNextBlock(ctx: Context, t: Tables, plaintext: array<bv8>, pos: nat, n: nat, buffer: array<bv8>,
                          IV: array<bv8>,
                          ghost key: seq<bv8>)
    requires |key| == 32 && Ready(ctx, t, KeyWords(key, 8)) && n <= 16
    requires pos + n <= plaintext.Length && buffer.Length == 32 && IV.Length == 16 && buffer != IV &&
             plaintext != buffer
    modifies buffer
    ensures Ready(ctx, t, KeyWords(key, 8))
    ensures buffer[..16] == Encrypter(key)(Mixed(plaintext[..], pos, n, old(buffer[..]), IV[..]))
  {
    hide Ready;
    hide KeyWords;
    hide EncryptBlock;
    hide XorBlocks;
    ghost var mixed := Mixed(plaintext[..], pos, n, buffer[..], IV[..]);
    Copy(plaintext, pos, n, buffer, 0);
    assert buffer[..16] == plaintext[pos..pos + n] + old(buffer[n..16]);
    XorInto(buffer, IV);
    assert buffer[..16] == mixed;
    EncryptWithKey(ctx, t, KeyWords(key, 8), buffer, buffer);
  }

  lemma NextIs(plain: seq<bv8>, n: nat, stale: seq<bv8>)
    requires |stale| == 16 && n == if |plain| >= 16 then 16 else |plain|
    ensures plain[..n] + stale[n..] == NextPlain(plain, stale) && AfterPlain(plain) == plain[n..]
  {
  }

  /** One step of the chain: what has been written and what is still to come. */
  lemma ChainGrows(e: Cipher, last: seq<bv8>, stale: seq<bv8>, plain: seq<bv8>, block: seq<bv8>, text: seq<bv8>)
    requires OnBlocks(e) && |last| == |stale| == |block| == 16 && plain != []
    requires block == e(XorBlocks(NextPlain(plain, stale), last))
    ensures text + Chained(e, last, stale, plain) == (text + block) + Chained(e, block, block, AfterPlain(plain))
  {
    hide XorBlocks;
    hide Chained;
    hide NextPlain;
    hide AfterPlain;
    ChainedStep(e, last, stale, plain);
    Regroup(text, block, Chained(e, block, block, AfterPlain(plain)));
  }

  /** The loop over the plaintext (lines 290-338). */
  method EncryptAll(ctx: Context, t: Tables, sha: Sha256Context, plaintext: array<bv8>, length0: nat,
                    buffer: array<bv8>, IV: array<bv8>, ciphertext: array<bv8>, p0: nat, ghost key: seq<bv8>)
    returns (p: nat, ghost text: seq<bv8>)
    requires |key| == 32 && Ready(ctx, t, KeyWords(key, 8)) && sha.Valid()
    requires length0 <= plaintext.Length && buffer.Length == 32 && IV.Length == 16
    requires p0 + 16 * ((length0 + 15) / 16) <= ciphertext.Length
    requires buffer != IV && buffer != ciphertext && IV != ciphertext && buffer != sha.buffer && IV != sha.buffer
    requires ciphertext != sha.buffer && plaintext != buffer && plaintext != IV && plaintext != sha.buffer &&
             plaintext != ciphertext
    modifies sha, sha.state, sha.buffer, buffer, IV, ciphertext
    ensures sha.Valid() && sha.msg == old(sha.msg) + text && p == p0 + |text|
    ensures |text| == 16 * ((length0 + 15) / 16)
    ensures ciphertext[..p] == old(ciphertext[..p0]) + text && ciphertext[p..] == old(ciphertext[p..])
    ensures text == Chained(Encrypter(key), old(IV[..]), old(buffer[..16]), plaintext[..length0])
  {
    hide Ready;
    hide KeyWords;
    hide Encrypter;
    hide XorBlocks;
    hide Chained;
    hide NextPlain;
    hide AfterPlain;
    hide Sha256Context.Valid;
    ghost var e, all := Encrypter(key), Chained(Encrypter(key), IV[..], buffer[..16], plaintext[..length0]);
    var length, pos := length0, 0;
    p, text := p0, [];
    while length > 0
      invariant pos + length == length0 && Ready(ctx, t, KeyWords(key, 8)) && sha.Valid()
      invariant p + 16 * ((length + 15) / 16) <= ciphertext.Length && p == p0 + |text|
      invariant sha.msg == old(sha.msg) + text
      invariant ciphertext[..p] == old(ciphertext[..p0]) + text && ciphertext[p..] == old(ciphertext[p..])
      invariant text + Chained(e, IV[..], buffer[..16], plaintext[pos..length0]) == all
    {
      ghost var last, stale, before := IV[..], buffer[..16], ciphertext[..];
      var n := if length >= 16 then 16 else length;
      length := length - n;
      ghost var block := EncryptNext(ctx, t, sha, plaintext, pos, n, buffer, IV, ciphertext, p, key);
      ghost var rest := plaintext[pos..length0];
      Slices(plaintext[..], pos, n, length0);
      Suffix(old(ciphertext[..]), before, ciphertext[..], p);
      NextIs(rest, n, stale);
      ChainGrows(e, last, stale, rest, block, text);
      text := text + block;
      pos := pos + n;
      p := p + 16;
    }
    ChainEnds(e, IV[..], buffer[..16], plaintext[pos..length0]);
  }

  lemma NextSlice(s: seq<bv8>, a: nat, b: nat)
    requires a <= b && b + 16 <= |s|
    ensures s[a..b + 16] == s[a..b] + s[b..b + 16]
  {
  }

  lemma Slices(s: seq<bv8>, a: nat, n: nat, b: nat)
    requires a + n <= b <= |s|
    ensures s[a..b][..n] == s[a..a + n] && s[a..b][n..] == s[a + n..b]
  {
  }

  lemma Suffix(a: seq<bv8>, b: seq<bv8>, c: seq<bv8>, p: nat)
    requires p + 16 <= |a| == |b| == |c| && b[p..] == a[p..] && c[p + 16..] == b[p + 16..]
    ensures c[p + 16..] == a[p + 16..]
  {
    assert b[p + 16..] == b[p..][16..] && a[p + 16..] == a[p..][16..];
  }

  lemma ChainEnds(e: Cipher, last: seq<bv8>, stale: seq<bv8>, plain: seq<bv8>)
    requires OnBlocks(e) && |last| == |stale| == 16 && plain == []
    ensures Chained(e, last, stale, plain) == []
  {
  }

  // ---- the whole container --------------------------------------------------------------------

  /** Deriving the key and setting it (lines 251-271 and 440-460). */
  method SetUpKey(t: Tables, ctx: Context, sha: Sha256Context, IV: array<bv8>, password: array<bv8>, length: nat)
    returns (digest: array<bv8>)
    requires t.Valid() && ctx.Shape() && ctx.erk !in t.All() && ctx.drk !in t.All() && sha.Shape()
    requires IV.Length == 16 && length <= password.Length && length < WORD
    requires password != sha.buffer && IV != sha.buffer
    modifies t, t.All(), ctx, ctx.erk, ctx.drk, sha, sha.state, sha.buffer
    ensures fresh(digest) && digest.Length == 32
    ensures t.Valid() && digest[..] == Key(IV[..], password[..length])
    ensures Ready(ctx, t, KeyWords(digest[..], 8))
  {
    hide Ready;
    hide KeyWords;
    hide Key;
    hide Tables.Valid;
    hide Context.Shape;
    hide Sha256Context.Shape;
    digest := new bv8[32];
    DeriveKey(sha, IV, digest, password, length);
    var r := SetKey(ctx, t, digest, 256);
  }

  /** The local contexts and the digest. */
  method NewSession(t: Tables, IV: array<bv8>, password: array<bv8>, length: nat)
    returns (ctx: Context, sha: Sha256Context, digest: array<bv8>)
    requires t.Valid() && IV.Length == 16 && length <= password.Length && length < WORD
    modifies t, t.All()
    ensures fresh(sha) && fresh(sha.state) && fresh(sha.buffer) && fresh(digest) && digest != sha.buffer
    ensures sha.Shape() && digest.Length == 32 && t.Valid() && digest[..] == Key(IV[..], password[..length])
    ensures Ready(ctx, t, KeyWords(digest[..], 8))
  {
    hide Ready;
    hide KeyWords;
    hide Key;
    hide Tables.Valid;
    hide Context.Shape;
    hide Sha256Context.Shape;
    ctx := new Context();
    sha := new Sha256Context();
    digest := SetUpKey(t, ctx, sha, IV, password, length);
  }

  /** Starting the inner hash (lines 278-288 and 467-477). */
  method StartHmac(sha: Sha256Context, digest: array<bv8>) returns (opad: array<bv8>)
    requires sha.Shape() && digest.Length == 32 && digest != sha.buffer
    modifies sha, sha.state, sha.buffer
    ensures fresh(opad) && opad.Length == 64 && opad[..] == Pad(digest[..], 0x5C)
    ensures sha.Valid() && sha.msg == Pad(digest[..], 0x36)
  {
    hide Pad;
    hide Sha256Context.Valid;
    var ipad;
    ipad, opad := FillPads(digest);
    sha.Starts();
    sha.Update(ipad, 64);
    assert sha.msg == Pad(digest[..], 0x36);
  }

  /** The header and the IV (lines 100-109 and 248-249). */
  method WriteHeader(ciphertext: array<bv8>, size: nat, IV: array<bv8>)
    requires ciphertext.Length >= 21 && IV.Length == 16 && IV != ciphertext
    modifies ciphertext
    ensures ciphertext[..21] == Header(size) + IV[..] && ciphertext[21..] == old(ciphertext[21..])
  {
    ciphertext[0] := 0x41;
    ciphertext[1] := 0x45;
    ciphertext[2] := 0x53;
    ciphertext[3] := 0x00;
    ciphertext[4] := (size % 16) as bv8;
    assert ciphertext[..5] == Header(size);
    assert ciphertext[21..] == old(ciphertext[21..]);
    ghost var rest := ciphertext[21..];
    Copy(IV, 0, 16, ciphertext, 5);
    assert ciphertext[..21] == ciphertext[..5] + ciphertext[5..21];
    assert ciphertext[5 + 16..] == rest;
  }

  /** Everything after the key has been set (lines 278-351). */
  method EncryptAndSeal(ctx: Context, t: Tables, sha: Sha256Context, digest: array<bv8>, plaintext: array<bv8>,
                        length0: nat,
                        buffer: array<bv8>, IV: array<bv8>, ciphertext: array<bv8>)
                          returns (length: nat, ghost text: seq<bv8>)
    requires digest.Length == 32 && Ready(ctx, t, KeyWords(digest[..], 8)) && sha.Shape()
    requires length0 <= plaintext.Length && SmallEnough(16 * ((length0 + 15) / 16)) && buffer.Length == 32 &&
             IV.Length == 16
    requires ciphertext.Length >= 53 + 16 * ((length0 + 15) / 16)
    requires buffer != IV && buffer != ciphertext && IV != ciphertext && buffer != sha.buffer && IV != sha.buffer
    requires ciphertext != sha.buffer && plaintext != buffer && plaintext != IV && plaintext != sha.buffer &&
             plaintext != ciphertext
    requires digest != buffer && digest != IV && digest != ciphertext && digest != plaintext && digest != sha.buffer
    modifies sha, sha.state, sha.buffer, buffer, IV, ciphertext, digest
    ensures length == 53 + |text| && |text| == 16 * ((length0 + 15) / 16)
    ensures ciphertext[..length] == old(ciphertext[..21]) + text + Hmac(old(digest[..]), text)
    ensures ciphertext[length..] == old(ciphertext[length..])
    ensures text == Chained(Encrypter(old(digest[..])), old(IV[..]), old(buffer[..16]), plaintext[..length0])
  {
    hide Ready;
    hide KeyWords;
    hide Pad;
    hide Hmac;
    hide Chained;
    hide Encrypter;
    hide Sha256Context.Valid;
    ghost var key := digest[..];
    var opad := StartHmac(sha, digest);
    var p;
    p, text := EncryptAll(ctx, t, sha, plaintext, length0, buffer, IV, ciphertext, 21, key);
    FinishHmac(sha, opad, digest, key, text);
    length := p + 32;
    assert ciphertext[p..][32..] == ciphertext[length..];
    ghost var rest := ciphertext[length..];
    Copy(digest, 0, 32, ciphertext, p);
    assert ciphertext[length..] == rest;
    assert ciphertext[..length] == ciphertext[..p] + ciphertext[p..p + 32];
  }

  lemma ContainerIs(password: seq<bv8>, iv: seq<bv8>, stale: seq<bv8>, plain: seq<bv8>, head: seq<bv8>, key: seq<bv8>,
                    text: seq<bv8>)
    requires |iv| == |stale| == 16 && head == Header(|plain|) + iv && key == Key(iv, password)
    requires text == Chained(Encrypter(key), iv, stale, plain)
    ensures head + text + Hmac(key, text) == Container(password, iv, stale, plain)
  {
    hide Key;
    hide Hmac;
    hide Header;
    hide Chained;
    hide Encrypter;
  }

  /** Byte arrays are none of the tables. */
  lemma NotATable(t: Tables, a: array<bv8>)
    ensures a !in t.All()
  {
  }

  /** `AESStringCrypt` (lines 73-352) with the given IV. */
  method CryptString(t: Tables, password: array<bv8>, passwordLength: nat, plaintext: array<bv8>, plaintextLength: nat,
                     IV: array<bv8>, buffer: array<bv8>, ciphertext: array<bv8>) returns (length: nat)
    requires t.Valid() && passwordLength <= password.Length && passwordLength < WORD
    requires plaintextLength <= plaintext.Length && SmallEnough(16 * ((plaintextLength + 15) / 16))
    requires IV.Length == 16 && buffer.Length == 32 && ciphertext.Length >= 53 + 16 * ((plaintextLength + 15) / 16)
    requires buffer != IV && buffer != ciphertext && IV != ciphertext && plaintext != buffer && plaintext != IV &&
             plaintext != ciphertext
    requires password != ciphertext && password != buffer && password != IV
    modifies t, t.All(), IV, buffer, ciphertext
    ensures t.Valid() && length == 53 + 16 * ((plaintextLength + 15) / 16)
    ensures ciphertext[..length]
         == Container(password[..passwordLength], old(IV[..]), old(buffer[..16]), plaintext[..plaintextLength])
    ensures IsContainer(password[..passwordLength], old(IV[..]), plaintext[..plaintextLength], ciphertext[..length])
    ensures ciphertext[length..] == old(ciphertext[length..])
  {
    hide IsContainer;
    hide Ready;
    hide KeyWords;
    hide Key;
    hide Container;
    hide Hmac;
    hide Header;
    hide Chained;
    hide Encrypter;
    hide Tables.Valid;
    hide Sha256Context.Shape;
    hide Context.Shape;
    hide Tables.All;
    hide Four.Arrays;
    ghost var iv, stale := IV[..], buffer[..16];
    NotATable(t, password);
    NotATable(t, plaintext);
    NotATable(t, IV);
    NotATable(t, buffer);
    NotATable(t, ciphertext);
    WriteHeader(ciphertext, plaintextLength, IV);
    var ctx, sha, digest := NewSession(t, IV, password, passwordLength);
    ghost var key, head := digest[..], ciphertext[..21];
    ghost var text;
    length, text := EncryptAndSeal(ctx, t, sha, digest, plaintext, plaintextLength, buffer, IV, ciphertext);
    ContainerIs(password[..passwordLength], iv, stale, plaintext[..plaintextLength], head, key, text);
    ContainerMeans(password[..passwordLength], iv, stale, plaintext[..plaintextLength]);
  }

  // ---- decryption ---------------------------------------------------------------------------------

  /** A decrypted block without the block before it. */
  function Unmixed(block: seq<bv8>, last: seq<bv8>): seq<bv8> {
    if |block| == 16 && |last| == 16 then XorBlocks(block, last) else []
  }

  /** One block of ciphertext, copied twice and hashed (lines 481-486). */
  method HashNext(sha: Sha256Context, ciphertext: array<bv8>, pos: nat, buffer: array<bv8>, buffer2: array<bv8>)
    requires sha.Valid() && pos + 16 <= ciphertext.Length && buffer.Length == 64 && buffer2.Length == 32
    requires buffer != buffer2 && buffer != sha.buffer && buffer2 != sha.buffer
    requires ciphertext != buffer && ciphertext != buffer2 && ciphertext != sha.buffer
    modifies sha, sha.state, sha.buffer, buffer, buffer2
    ensures sha.Valid() && sha.msg == old(sha.msg) + ciphertext[pos..pos + 16]
    ensures buffer[..16] == buffer2[..16] == ciphertext[pos..pos + 16]
  {
    hide Sha256Context.Valid;
    Copy(ciphertext, pos, 16, buffer, 0);
    Copy(ciphertext, pos, 16, buffer2, 0);
    assert buffer[..16] == ciphertext[pos..pos + 16] && buffer2[..16] == ciphertext[pos..pos + 16];
    sha.Update(buffer, 16);
  }

  /** One block: hashed, decrypted and unchained (lines 481-500). */
  method DecryptNext(ctx: Context, t: Tables, sha: Sha256Context, ciphertext: array<bv8>, pos: nat,
                     buffer: array<bv8>, buffer2: array<bv8>, IV: array<bv8>, ghost key: seq<bv8>)
    requires |key| == 32 && Ready(ctx, t, KeyWords(key, 8)) && sha.Valid()
    requires pos + 16 <= ciphertext.Length && buffer.Length == 64 && buffer2.Length == 32 && IV.Length == 16
    requires buffer != IV && buffer != buffer2 && buffer2 != IV && buffer != sha.buffer && buffer2 != sha.buffer &&
             IV != sha.buffer
    requires ciphertext != buffer && ciphertext != buffer2 && ciphertext != IV && ciphertext != sha.buffer
    modifies sha, sha.state, sha.buffer, buffer, buffer2, IV
    ensures Ready(ctx, t, KeyWords(key, 8)) && sha.Valid() && sha.msg == old(sha.msg) + ciphertext[pos..pos + 16]
    ensures IV[..] == ciphertext[pos..pos + 16]
    ensures buffer[..16] == Unmixed(Decrypter(key)(ciphertext[pos..pos + 16]), old(IV[..]))
  {
    hide Ready;
    hide KeyWords;
    hide Decrypter;
    hide XorBlocks;
    hide Sha256Context.Valid;
    HashNext(sha, ciphertext, pos, buffer, buffer2);
    DecryptInPlace(ctx, t, buffer, IV, key);
    Copy(buffer2, 0, 16, IV, 0);
    assert IV[..] == buffer2[..16];
  }

  /** Lines 487-495. */
  method DecryptInPlace(ctx: Context, t: Tables, buffer: array<bv8>, IV: array<bv8>, ghost key: seq<bv8>)
    requires |key| == 32 && Ready(ctx, t, KeyWords(key, 8)) && buffer.Length == 64 && IV.Length == 16 && buffer != IV
    modifies buffer
    ensures Ready(ctx, t, KeyWords(key, 8))
    ensures buffer[..16] == Unmixed(Decrypter(key)(old(buffer[..16])), IV[..])
  {
    hide Ready;
    hide KeyWords;
    hide DecryptBlock;
    hide XorBlocks;
    ghost var block := buffer[..16];
    DecryptWithKey(ctx, t, KeyWords(key, 8), buffer, buffer);
    assert buffer[..16] == Decrypter(key)(block);
    XorInto(buffer, IV);
  }

  /** The first `p` bytes of `plain` are those of the decrypted text. */
  ghost predicate Recovered(d: Cipher, iv: seq<bv8>, text: seq<bv8>, plain: seq<bv8>, p: nat)
    requires OnBlocks(d) && |iv| == 16
  {
    |text| % 16 == 0 && p <= |text| && p <= |plain| && plain[..p] == Unchained(d, iv, text)[..p]
  }

  lemma MoreRecovered(d: Cipher, iv: seq<bv8>, text: seq<bv8>, block: seq<bv8>, was: seq<bv8>, plain: seq<bv8>,
                      p: nat, n: nat)
    requires OnBlocks(d) && |iv| == |block| == 16 && Recovered(d, iv, text, was, p) && p == |text| && n <= 16
    requires p + n <= |plain| && plain[..p] == was[..p]
    requires plain[p..p + n] == XorBlocks(d(block), LastBlock(iv, text))[..n]
    ensures Recovered(d, iv, text + block, plain, p + n)
  {
    hide XorBlocks;
    hide Unchained;
    hide LastBlock;
    UnchainedAppended(d, iv, text, block);
    assert plain[..p + n] == plain[..p] + plain[p..p + n];
    assert Unchained(d, iv, text)[..p] == Unchained(d, iv, text);
  }

  lemma NothingRecovered(d: Cipher, iv: seq<bv8>, plain: seq<bv8>)
    requires OnBlocks(d) && |iv| == 16
    ensures Recovered(d, iv, [], plain, 0)
  {
  }

  lemma LastIs(iv: seq<bv8>, text: seq<bv8>, block: seq<bv8>)
    requires |iv| == |block| == 16 && |text| % 16 == 0
    ensures LastBlock(iv, text + block) == block
  {
  }

  /** One block decrypted, and the first `n` bytes of it written. */
  method DecryptAndWrite(ctx: Context, t: Tables, sha: Sha256Context, ciphertext: array<bv8>, pos: nat,
                         buffer: array<bv8>, buffer2: array<bv8>, IV: array<bv8>, plaintext: array<bv8>, p: nat, n: nat,
                         ghost iv: seq<bv8>, ghost text: seq<bv8>, ghost key: seq<bv8>)
    requires |key| == 32 && Ready(ctx, t, KeyWords(key, 8)) && sha.Valid() && n <= 16 && p + n <= plaintext.Length
    requires pos + 16 <= ciphertext.Length && buffer.Length == 64 && buffer2.Length == 32 && IV.Length == 16
    requires buffer != IV && buffer != buffer2 && buffer2 != IV && buffer != sha.buffer && buffer2 != sha.buffer &&
             IV != sha.buffer
    requires ciphertext != buffer && ciphertext != buffer2 && ciphertext != IV && ciphertext != sha.buffer
    requires plaintext != buffer && plaintext != buffer2 && plaintext != IV && plaintext != sha.buffer &&
             plaintext != ciphertext
    requires |iv| == 16 && p == |text| && Recovered(Decrypter(key), iv, text, plaintext[..], p) &&
             IV[..] == LastBlock(iv, text)
    modifies sha, sha.state, sha.buffer, buffer, buffer2, IV, plaintext
    ensures Ready(ctx, t, KeyWords(key, 8)) && sha.Valid() && sha.msg == old(sha.msg) + ciphertext[pos..pos + 16]
    ensures IV[..] == ciphertext[pos..pos + 16]
    ensures Recovered(Decrypter(key), iv, text + ciphertext[pos..pos + 16], plaintext[..], p + n)
  {
    hide Ready;
    hide KeyWords;
    hide Decrypter;
    hide XorBlocks;
    hide LastBlock;
    hide Recovered;
    hide Sha256Context.Valid;
    ghost var block, was := ciphertext[pos..pos + 16], plaintext[..];
    DecryptNext(ctx, t, sha, ciphertext, pos, buffer, buffer2, IV, key);
    Copy(buffer, 0, n, plaintext, p);
    assert plaintext[p..p + n] == buffer[..16][..n];
    MoreRecovered(Decrypter(key), iv, text, block, was, plaintext[..], p, n);
  }

  /** The loop over the ciphertext (lines 479-520): `length` bytes are left, the last 32 of them the HMAC. */
  method DecryptAll(ctx: Context, t: Tables, sha: Sha256Context, ciphertext: array<bv8>, length0: nat, final: nat,
                    IV: array<bv8>, plaintext: array<bv8>, ghost key: seq<bv8>)
    returns (pos: nat, length: nat, p: nat, ghost text: seq<bv8>)
    requires |key| == 32 && Ready(ctx, t, KeyWords(key, 8)) && sha.Valid()
    requires 32 <= length0 && 21 + length0 <= ciphertext.Length && final <= 16 && IV.Length == 16
    requires plaintext.Length >= PlainSize(length0 - 32, final)
    requires IV != sha.buffer && plaintext != sha.buffer && ciphertext != sha.buffer
    requires IV != plaintext && IV != ciphertext && plaintext != ciphertext
    modifies sha, sha.state, sha.buffer, IV, plaintext
    ensures sha.Valid() && sha.msg == old(sha.msg) + text && |text| % 16 == 0
    ensures pos == 21 + |text| && pos + length == 21 + length0 && text == ciphertext[21..pos]
    ensures 16 < length <= 32 && p == PlainSize(length0 - 32, final)
    ensures Recovered(Decrypter(key), old(IV[..]), text, plaintext[..], p)
  {
    hide Ready;
    hide KeyWords;
    hide Decrypter;
    hide XorBlocks;
    hide LastBlock;
    hide Recovered;
    hide PlainSize;
    hide Sha256Context.Valid;
    var buffer := new bv8[64];
    var buffer2 := new bv8[32];
    ghost var iv, d := IV[..], Decrypter(key);
    pos, length, p, text := 21, length0, 0, [];
    NothingRecovered(d, iv, plaintext[..]);
    NothingLeft(iv, length0 - 32, final);
    while length > 32
      invariant pos == 21 + |text| && |text| % 16 == 0 && pos + length == 21 + length0 && 16 < length
      invariant Ready(ctx, t, KeyWords(key, 8)) && sha.Valid() && sha.msg == old(sha.msg) + text
      invariant text == ciphertext[21..pos] && IV[..] == LastBlock(iv, text)
      invariant p == if length > 32 then |text| else PlainSize(length0 - 32, final)
      invariant Recovered(d, iv, text, plaintext[..], p)
    {
      ghost var block := ciphertext[pos..pos + 16];
      var n := if length - 16 > 32 || final == 0 then 16 else final;
      SizesFit(length0 - 32, final, p, n, length - 16);
      DecryptAndWrite(ctx, t, sha, ciphertext, pos, buffer, buffer2, IV, plaintext, p, n, iv, text, key);
      NextSlice(ciphertext[..], 21, pos);
      LastIs(iv, text, block);
      pos := pos + 16;
      length := length - 16;
      p := p + n;
      text := text + block;
    }
  }

  lemma NothingLeft(iv: seq<bv8>, size: nat, final: nat)
    requires |iv| == 16 && final <= 16
    ensures LastBlock(iv, []) == iv && (size == 0 ==> PlainSize(size, final) == 0)
  {
  }

  /** The last block ends the plaintext; the ones before it are whole. */
  lemma SizesFit(size: nat, final: nat, p: nat, n: nat, length: nat)
    requires final <= 16 && p % 16 == 0 && p + 16 + length == size + 32 && 16 < length
    requires n == if length > 32 || final == 0 then 16 else final
    ensures p + n <= PlainSize(size, final)
    ensures length <= 32 ==> p + n == PlainSize(size, final)
  {
  }

  /** `AESStringDecrypt` (lines 378-542). A size byte above 16 behind a correct header, which no
      container has, is not part of this model. */
  method DecryptString(t: Tables, password: array<bv8>, passwordLength: nat, ciphertext: array<bv8>, length: nat,
                       plaintext: array<bv8>) returns (r: int)
    requires t.Valid() && passwordLength <= password.Length && passwordLength < WORD
    requires length == ciphertext.Length && SmallEnough(length - 53)
    requires Headed(ciphertext[..]) ==>
             Final(ciphertext[..]) <= 16 && plaintext.Length >= PlainSize(length - 53, Final(ciphertext[..]))
    requires plaintext != ciphertext && plaintext != password
    modifies t, t.All(), plaintext
    ensures t.Valid() && Answer(password[..passwordLength], ciphertext[..], plaintext[..], r)
    ensures r != -1 <==> Genuine(password[..passwordLength], ciphertext[..])
  {
    hide Genuine;
    hide Ready;
    hide KeyWords;
    hide Key;
    hide Hmac;
    hide Decrypter;
    hide Unchained;
    hide Answer;
    hide Tables.Valid;
    hide Tables.All;
    hide Four.Arrays;
    hide PlainSize;
    ghost var c, pw := ciphertext[..], password[..passwordLength];
    if length < 53 {
      NoAnswer(pw, c, plaintext[..]);
      AnswerMeans(pw, c, plaintext[..], -1);
      return -1;
    }
    if !(ciphertext[0] == 0x41 && ciphertext[1] == 0x45 && ciphertext[2] == 0x53) {
      NoAnswer(pw, c, plaintext[..]);
      AnswerMeans(pw, c, plaintext[..], -1);
      return -1;
    }
    if ciphertext[3] > 0 {
      NoAnswer(pw, c, plaintext[..]);
      AnswerMeans(pw, c, plaintext[..], -1);
      return -1;
    }
    HasHeader(c);
    NotATable(t, password);
    NotATable(t, ciphertext);
    NotATable(t, plaintext);
    var final := ciphertext[4] as int;
    var IV := new bv8[16];
    NotATable(t, IV);
    Copy(ciphertext, 5, 16, IV, 0);
    assert IV[..] == IvOf(c);
    var ctx, sha, digest := NewSession(t, IV, password, passwordLength);
    assert ciphertext[..] == c && password[..passwordLength] == pw && IV[..] == IvOf(c);
    ghost var key := digest[..];
    assert key == Key(IvOf(c), pw);
    r := OpenSealed(ctx, t, sha, digest, ciphertext, final, IV, plaintext);
    assert ciphertext[..] == c && password[..passwordLength] == pw;
    AnswerIs(pw, c, plaintext[..], r);
    AnswerMeans(pw, c, plaintext[..], r);
  }

  /** Everything after the key has been set (lines 467-541). */
  method OpenSealed(ctx: Context, t: Tables, sha: Sha256Context, digest: array<bv8>, ciphertext: array<bv8>, final: nat,
                    IV: array<bv8>, plaintext: array<bv8>) returns (r: int)
    requires digest.Length == 32 && Ready(ctx, t, KeyWords(digest[..], 8)) && sha.Shape()
    requires 53 <= ciphertext.Length && SmallEnough(ciphertext.Length - 53) && final <= 16 && IV.Length == 16
    requires plaintext.Length >= PlainSize(ciphertext.Length - 53, final)
    requires IV != plaintext && IV != ciphertext && plaintext != ciphertext && IV != sha.buffer &&
             plaintext != sha.buffer
    requires ciphertext != sha.buffer && digest != plaintext && digest != ciphertext && digest != IV &&
             digest != sha.buffer
    modifies sha, sha.state, sha.buffer, IV, plaintext, digest
    ensures var c, text := ciphertext[..], TextOf(ciphertext[..]);
      if |text| % 16 == 0 && Hmac(old(digest[..]), text) == c[|c| - 32..] then
        r == PlainSize(|text|, final) <= plaintext.Length &&
        plaintext[..r] == Unchained(Decrypter(old(digest[..])), old(IV[..]), text)[..PlainSize(|text|, final)]
      else r == -1
  {
    hide Ready;
    hide KeyWords;
    hide Pad;
    hide Hmac;
    hide Decrypter;
    hide Unchained;
    hide PlainSize;
    hide Sha256Context.Valid;
    ghost var key := digest[..];
    var opad := StartHmac(sha, digest);
    var pos, length, p, text := DecryptAll(ctx, t, sha, ciphertext, ciphertext.Length - 21, final, IV, plaintext, key);
    if length != 32 {
      return -1;
    }
    assert text == TextOf(ciphertext[..]);
    FinishHmac(sha, opad, digest, key, text);
    if digest[..] != ciphertext[pos..pos + 32] {
      return -1;
    }
    return p;
  }
}
