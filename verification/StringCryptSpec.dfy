/** The container of security/AESStringCrypt.c as a function of password, IV and plaintext. */
module StringCryptSpec {
  import opened AesSpec
  import opened AesKeys
  import opened Sha256Spec
  import opened Chaining

  /** The number of times that IV and password are hashed (lines 257 and 446). */
  const ROUNDS := 8192

  /** Hashing `digest` and the password together, `n` times. */
  function Stretched(digest: seq<bv8>, password: seq<bv8>, n: nat): (r: seq<bv8>)
    requires |digest| == 32
    ensures |r| == 32
  {
    if n == 0 then digest else Sha256(Stretched(digest, password, n - 1) + password)
  }

  /** The key for an IV and a password. */
  function Key(iv: seq<bv8>, password: seq<bv8>): (r: seq<bv8>)
    requires |iv| == 16
    ensures |r| == 32
  {
    Stretched(iv + Zeros(16), password, ROUNDS)
  }

  // ---- HMAC (section 2 of RFC 2104) -------------------------------------------------

  function Mask(a: bv8, b: bv8): bv8 {
    a ^ b
  }

  /** The key, filled up with zeros to a block, with every byte changed by `pad`. */
  function Pad(key: seq<bv8>, pad: bv8): (r: seq<bv8>)
    requires |key| == 32
    ensures |r| == 64
  {
    seq(64, i requires 0 <= i < 64 => if i < 32 then Mask(pad, key[i]) else pad)
  }

  function Hmac(key: seq<bv8>, text: seq<bv8>): (r: seq<bv8>)
    requires |key| == 32
    ensures |r| == 32
  {
    Sha256(Pad(key, 0x5C) + Sha256(Pad(key, 0x36) + text))
  }

  // ---- the block cipher -----------------------------------------------------------------

  /** AES with a key of 256 bits. */
  ghost function Encrypter(key: seq<bv8>): (r: Cipher)
    requires |key| == 32
    ensures OnBlocks(r)
  {
    b => if |b| == 16 then EncryptBlock(KeyWords(key, 8), b) else []
  }

  ghost function Decrypter(key: seq<bv8>): (r: Cipher)
    requires |key| == 32
    ensures OnBlocks(r)
  {
    b => if |b| == 16 then DecryptBlock(KeyWords(key, 8), b) else []
  }

  lemma DecrypterUndoes(key: seq<bv8>)
    requires |key| == 32
    ensures Undoes(Decrypter(key), Encrypter(key))
  {
    hide EncryptBlock;
    hide DecryptBlock;
    hide KeyWords;
    forall b: seq<bv8> | |b| == 16 ensures Decrypter(key)(Encrypter(key)(b)) == b {
      DecryptUndoesEncrypt(KeyWords(key, 8), b);
    }
  }

  // ---- the container ----------------------------------------------------------------------

  function Header(size: nat): (r: seq<bv8>)
    ensures |r| == 5
  {
    [0x41, 0x45, 0x53, 0x00, (size % 16) as bv8]
  }

  /** What `AESStringCrypt` writes. `stale` is what its buffer holds when the first block is read. */
  ghost function Container(password: seq<bv8>, iv: seq<bv8>, stale: seq<bv8>, plain: seq<bv8>): (r: seq<bv8>)
    requires |iv| == |stale| == 16
    ensures |r| == 53 + 16 * ((|plain| + 15) / 16)
  {
    var key := Key(iv, password);
    var text := Chained(Encrypter(key), iv, stale, plain);
    Header(|plain|) + iv + text + Hmac(key, text)
  }

  function IvOf(c: seq<bv8>): (r: seq<bv8>)
    requires |c| >= 53
    ensures |r| == 16
  {
    c[5..21]
  }

  function TextOf(c: seq<bv8>): seq<bv8>
    requires |c| >= 53
  {
    c[21..|c| - 32]
  }

  /** Long enough, and with the right first bytes (lines 398-413). */
  predicate Headed(c: seq<bv8>) {
    |c| >= 53 && c[..3] == [0x41, 0x45, 0x53] && c[3] == 0
  }

  /** Whether `AESStringDecrypt` accepts a container. */
  predicate Accepted(password: seq<bv8>, c: seq<bv8>) {
    Headed(c) && |TextOf(c)| % 16 == 0 &&
    Hmac(Key(IvOf(c), password), TextOf(c)) == c[|c| - 32..]
  }

  /** The length of the plaintext in blocks of 16 bytes, the last of which counts `final` bytes. */
  function PlainSize(size: nat, final: nat): (r: nat)
    requires final <= 16
    ensures r <= size + 15 && (size % 16 == 0 ==> r <= size)
  {
    var blocks := (size + 15) / 16;
    if blocks == 0 then 0 else if final == 0 then 16 * blocks else 16 * (blocks - 1) + final
  }

  /** The size byte: how many bytes of the last block count, with 0 for all. */
  function Final(c: seq<bv8>): nat
    requires |c| >= 5
  {
    c[4] as nat
  }

  /** The plaintext in an accepted container. */
  ghost function Opened(password: seq<bv8>, c: seq<bv8>): seq<bv8>
    requires |c| >= 53 && |TextOf(c)| % 16 == 0 && Final(c) <= 16
  {
    var key := Key(IvOf(c), password);
    Unchained(Decrypter(key), IvOf(c), TextOf(c))[..PlainSize(|TextOf(c)|, Final(c))]
  }

  /** What `AESStringDecrypt` answers: the length of the plaintext and the plaintext itself, or an error. */
  ghost predicate Answer(password: seq<bv8>, c: seq<bv8>, plain: seq<bv8>, r: int)
    requires Headed(c) ==> Final(c) <= 16
  {
    if Accepted(password, c) then r == |Opened(password, c)| <= |plain| && plain[..r] == Opened(password, c)
    else r == -1
  }

  lemma AnswerIs(password: seq<bv8>, c: seq<bv8>, plain: seq<bv8>, r: int)
    requires |c| >= 53 && Final(c) <= 16 && c[0] == 0x41 && c[1] == 0x45 && c[2] == 0x53 && c[3] == 0
    requires var key, text := Key(IvOf(c), password), TextOf(c);
      if |text| % 16 == 0 && Hmac(key, text) == c[|c| - 32..] then
        var size := PlainSize(|text|, Final(c));
        r == size <= |plain| && plain[..r] == Unchained(Decrypter(key), IvOf(c), text)[..size]
      else r == -1
    ensures Answer(password, c, plain, r)
  {
    hide Key;
    hide Hmac;
    hide Decrypter;
    hide Unchained;
    hide PlainSize;
    assert c[..3] == [c[0], c[1], c[2]];
  }

  lemma HasHeader(c: seq<bv8>)
    requires |c| >= 53
    ensures Headed(c) <==> c[0] == 0x41 && c[1] == 0x45 && c[2] == 0x53 && c[3] == 0
  {
    assert c[..3] == [c[0], c[1], c[2]];
  }

  lemma NoAnswer(password: seq<bv8>, c: seq<bv8>, plain: seq<bv8>)
    requires |c| < 53 || !(c[0] == 0x41 && c[1] == 0x45 && c[2] == 0x53 && c[3] == 0)
    ensures !Headed(c)
    ensures Answer(password, c, plain, -1)
  {
    hide Key;
    hide Hmac;
    if |c| >= 53 { assert c[..3] == [c[0], c[1], c[2]]; }
  }

  // ---- opening undoes closing ---------------------------------------------------------------

  lemma ContainerParts(password: seq<bv8>, iv: seq<bv8>, stale: seq<bv8>, plain: seq<bv8>)
    requires |iv| == |stale| == 16
    ensures var c := Container(password, iv, stale, plain);
            var key := Key(iv, password);
            c[..3] == [0x41, 0x45, 0x53] && c[3] == 0 && c[4] == (|plain| % 16) as bv8 && IvOf(c) == iv &&
            TextOf(c) == Chained(Encrypter(key), iv, stale, plain) && c[|c| - 32..] == Hmac(key, TextOf(c))
  {
    hide Key;
    hide Chained;
    hide Hmac;
    hide Encrypter;
  }

  /** For every password, IV and plaintext. */
  lemma OpeningUndoesClosing(password: seq<bv8>, iv: seq<bv8>, stale: seq<bv8>, plain: seq<bv8>)
    requires |iv| == |stale| == 16
    ensures var c := Container(password, iv, stale, plain);
            Final(c) <= 16 && Accepted(password, c) && Opened(password, c) == plain
  {
    hide Key;
    hide Chained;
    hide Unchained;
    hide Hmac;
    hide Encrypter;
    hide Decrypter;
    hide Container;
    var c := Container(password, iv, stale, plain);
    ContainerParts(password, iv, stale, plain);
    DecrypterUndoes(Key(iv, password));
    UnchainedChained(Encrypter(Key(iv, password)), Decrypter(Key(iv, password)), iv, stale, plain);
    SizeByte(|plain|);
    SizeIs(|plain|);
  }

  lemma SizeByte(n: nat)
    ensures ((n % 16) as bv8) as nat == n % 16
  {
  }

  lemma SizeIs(n: nat)
    ensures PlainSize(16 * ((n + 15) / 16), n % 16) == n
  {
  }
}
