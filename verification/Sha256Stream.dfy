/** The streaming interface of security/sha256.c (lines 41-54 and 187-263). */
module Sha256Stream {
  import opened Sequences
  import opened Sha256Spec
  import opened Sha256Code

  // ---- complete blocks and the rest ----------------------------------------------

  function Whole(m: seq<bv8>): (r: seq<bv8>)
    ensures |r| % 64 == 0 && r <= m && |m| < |r| + 64
  {
    m[..|m| - |m| % 64]
  }

  function Rest(m: seq<bv8>): (r: seq<bv8>)
    ensures |r| == |m| % 64 && Whole(m) + r == m
  {
    m[|m| - |m| % 64..]
  }

  lemma WholeIs(m: seq<bv8>, done: nat)
    requires done <= |m| < done + 64 && done % 64 == 0
    ensures Whole(m) == m[..done] && Rest(m) == m[done..]
  {
  }

  /** 2^32 */
  const WORD: int := 0x1_0000_0000

  // ---- the context ------------------------------------------------------------------

  class Sha256Context {
    var total0: nat
    var total1: nat
    const state: array<bv64>
    const buffer: array<bv8>

    /** Everything that has been hashed so far. */
    ghost var msg: seq<bv8>

    constructor ()
      ensures Shape() && fresh(state) && fresh(buffer)
    {
      total0, total1 := 0, 0;
      state := new bv64[8];
      buffer := new bv8[64];
      msg := [];
    }

    ghost predicate Shape() {
      state.Length == 8 && buffer.Length == 64
    }

    ghost predicate Counted()
      reads this
    {
      total0 < WORD && total0 + WORD * total1 == |msg|
    }

    ghost predicate Valid()
      reads this, state, buffer
    {
      Shape() && Counted() && StateIs(state[..], Blocks(Whole(msg))) && buffer[..|msg| % 64] == Rest(msg)
    }

    /** `sha256_starts` (lines 41-54). */
    method Starts()
      requires Shape()
      modifies this, state
      ensures Valid() && msg == []
    {
      hide Lo;
      total0 := 0;
      total1 := 0;
      LoWide(0x6A09E667);
      LoWide(0xBB67AE85);
      LoWide(0x3C6EF372);
      LoWide(0xA54FF53A);
      LoWide(0x510E527F);
      LoWide(0x9B05688C);
      LoWide(0x1F83D9AB);
      LoWide(0x5BE0CD19);
      state[0] := 0x6A09E667;
      state[1] := 0xBB67AE85;
      state[2] := 0x3C6EF372;
      state[3] := 0xA54FF53A;
      state[4] := 0x510E527F;
      state[5] := 0x9B05688C;
      state[6] := 0x1F83D9AB;
      state[7] := 0x5BE0CD19;
      msg := [];
    }

    /** `sha256_update` (lines 187-226). */
    method Update(input: array<bv8>, length: nat)
      requires Valid() && length <= input.Length && length < WORD && input != buffer
      modifies this, state, buffer
      ensures Valid() && msg == old(msg) + input[..length]
    {
      hide StateIs;
      hide Blocks;
      hide Whole;
      hide Rest;
      if length == 0 {
        assert input[..length] == [];
        return;
      }
      LeftIs(total0, total1, |msg|);
      var left := total0 % 64;
      var fill := 64 - left;
      Count(length);
      Absorb(input, length, left, fill);
    }

    /** The byte counters (lines 196-202). */
    method Count(length: nat)
      requires Counted() && length < WORD
      modifies this`total0, this`total1
      ensures total0 < WORD && total0 + WORD * total1 == |msg| + length
    {
      total0 := (total0 + length) % WORD;
      if total0 < length {
        total1 := total1 + 1;
      }
    }

    /** Lines 204-225: whole blocks are processed, the rest goes into the buffer. */
    method Absorb(input: array<bv8>, length: nat, left0: nat, fill: nat)
      requires Shape() && length <= input.Length && input != buffer
      requires left0 == |msg| % 64 && fill == 64 - left0
      requires total0 < WORD && total0 + WORD * total1 == |msg| + length
      requires StateIs(state[..], Blocks(Whole(msg))) && buffer[..left0] == Rest(msg)
      modifies this`msg, state, buffer
      ensures Valid() && msg == old(msg) + input[..length]
    {
      hide StateIs;
      hide Blocks;
      hide Whole;
      hide Rest;
      hide Held;
      hide Shape;
      var left, p, rest := left0, 0, length;
      ghost var all := msg + input[..length];
      ghost var done := |msg| - left;
      StartHeld(input[..], length);
      if left > 0 && rest >= fill {
        FillBuffer(input, fill, left, all, done);
        rest := rest - fill;
        p := fill;
        left := 0;
        done := done + 64;
      }
      p, rest, done := ProcessInput(input, all, length, p, rest, left, done);
      if rest > 0 {
        Copy(input, p, rest, left, all, done);
      }
      EndHeld(all, done, left + rest);
      msg := all;
    }

    /** The buffer is filled up and processed (lines 206-208). */
    method FillBuffer(input: array<bv8>, fill: nat, left: nat, ghost all: seq<bv8>, ghost done: nat)
      requires Held(all, done, left) && input != buffer && left + fill == 64 && fill <= input.Length &&
               done + 64 <= |all|
      requires input[..fill] == all[done + left..done + 64]
      modifies state, buffer
      ensures Held(all, done + 64, 0)
    {
      hide Held;
      hide Shape;
      Copy(input, 0, fill, left, all, done);
      ProcessBuffer(all, done);
    }

    /** The state covers the first `done` bytes, and the buffer holds the next `left` ones. */
    ghost predicate Held(all: seq<bv8>, done: nat, left: nat)
      reads state, buffer
    {
      Shape() && left <= 64 && done + left <= |all| && done % 64 == 0 &&
      StateIs(state[..], Blocks(all[..done])) && buffer[..left] == all[done..done + left]
    }

    lemma StartHeld(input: seq<bv8>, length: nat)
      requires Shape() && length <= |input|
      requires StateIs(state[..], Blocks(Whole(msg))) && buffer[..|msg| % 64] == Rest(msg)
      ensures Held(msg + input[..length], |msg| - |msg| % 64, |msg| % 64)
      ensures (msg + input[..length])[|msg|..] == input[..length]
    {
      hide StateIs;
      hide Blocks;
      var all, left := msg + input[..length], |msg| % 64;
      assert all[..|msg| - left] == Whole(msg);
      assert all[|msg| - left..|msg| - left + left] == Rest(msg);
    }

    lemma EndHeld(all: seq<bv8>, done: nat, left: nat)
      requires Held(all, done, left) && left < 64 && done + left == |all|
      ensures StateIs(state[..], Blocks(Whole(all))) && buffer[..|all| % 64] == Rest(all)
    {
      hide StateIs;
      hide Blocks;
      WholeIs(all, done);
      assert all[done..done + left] == all[done..];
    }

    /** `memcpy` into the buffer. */
    method Copy(input: array<bv8>, p: nat, n: nat, left: nat, ghost all: seq<bv8>, ghost done: nat)
      requires Held(all, done, left) && input != buffer && left + n <= 64 && p + n <= input.Length
      requires done + left + n <= |all| && input[p..p + n] == all[done + left..done + left + n]
      modifies buffer
      ensures Held(all, done, left + n)
    {
      hide StateIs;
      hide Blocks;
      ghost var was, next := buffer[..left], input[p..p + n];
      forall i | 0 <= i < n { buffer[left + i] := input[p + i]; }
      assert state[..] == old(state[..]);
      assert buffer[..left] == was && buffer[left..left + n] == next;
      assert buffer[..left + n] == was + next;
      assert all[done..done + left + n] == all[done..done + left] + all[done + left..done + left + n];
    }

    method ProcessBuffer(ghost all: seq<bv8>, ghost done: nat)
      requires Held(all, done, 64)
      modifies state
      ensures Held(all, done + 64, 0)
    {
      hide StateIs;
      hide Blocks;
      hide Compress;
      assert all[done..][..64] == all[done..done + 64] == buffer[..][0..64];
      assert buffer[0..64] == buffer[..64];
      NextBlock(all, done, all[done..], 0, |all| - done);
      Process(state, buffer, 0, Blocks(all[..done]));
    }

    /** The loop over whole blocks of the input (lines 214-219). */
    method ProcessInput(input: array<bv8>, ghost all: seq<bv8>, length: nat, p0: nat, rest0: nat, left: nat,
                        ghost done0: nat)
      returns (p: nat, rest: nat, ghost done: nat)
      requires Held(all, done0, left) && p0 + rest0 == length <= input.Length && input != buffer
      requires done0 + left + rest0 == |all| && all[done0 + left..] == input[p0..length]
      requires left > 0 ==> left + rest0 < 64
      modifies state
      ensures Held(all, done, left) && p + rest == length && left + rest < 64
      ensures done + left + rest == |all| && all[done + left..] == input[p..length]
    {
      hide StateIs;
      hide Blocks;
      hide Compress;
      p, rest, done := p0, rest0, done0;
      while rest >= 64
        invariant Held(all, done, left) && p + rest == length
        invariant done + left + rest == |all| && all[done + left..] == input[p..length]
        invariant left > 0 ==> left + rest < 64
      {
        NextBlock(all, done, input[..], p, length);
        Process(state, input, p, Blocks(all[..done]));
        p := p + 64;
        rest := rest - 64;
        done := done + 64;
      }
    }

    /** `sha256_finish` (lines 236-263). */
    method Finish(digest: array<bv8>)
      requires Valid() && |msg| < 0x2000_0000_0000_0000 && digest.Length >= 32 && digest != buffer
      modifies this, state, buffer, digest
      ensures Valid() && digest[..] == Sha256(old(msg)) + old(digest[32..])
    {
      hide StateIs;
      hide Blocks;
      hide Whole;
      hide Rest;
      ghost var m := msg;
      LeftIs(total0, total1, |msg|);
      var last := total0 % 64;
      var padn := if last < 56 then 56 - last else 120 - last;
      var msglen := LengthBytes();
      var padding := new bv8[64](i => if i == 0 then 0x80 else 0);
      Update(padding, padn);
      Update(msglen, 8);
      PaddedIs(m, msg, padding[..padn], msglen[..8]);
      WholeOf(msg);
      PutState(digest, Blocks(msg));
    }

    /** The length in bits, as eight bytes (lines 242-247). */
    method LengthBytes() returns (msglen: array<bv8>)
      requires Valid() && |msg| < 0x2000_0000_0000_0000
      ensures fresh(msglen) && msglen.Length == 8 && msglen[..] == NumberBytes(8 * |msg|, 8)
    {
      hide NumberBytes;
      hide StateIs;
      hide Blocks;
      msglen := new bv8[8];
      var high := total0 / 0x2000_0000 + total1 * 8;
      var low := total0 * 8;
      PutLength(msglen, 0, high);
      PutLength(msglen, 4, low);
      BitLength(total0, total1, |msg|);
      assert msglen[..] == msglen[..4] + msglen[4..8];
    }

    /** Lines 255-262. */
    method PutState(digest: array<bv8>, ghost h: Hash)
      requires Shape() && StateIs(state[..], h) && digest.Length >= 32 && digest != buffer
      modifies digest
      ensures digest[..] == HashBytes(h) + old(digest[32..])
    {
      hide WordBytes;
      hide Lo;
      ghost var kept := digest[32..];
      PutFour(digest, 0, state[0], state[1], state[2], state[3]);
      PutFour(digest, 16, state[4], state[5], state[6], state[7]);
      assert digest[32..] == kept;
      assert digest[..] == digest[..32] + digest[32..];
    }
  }

  lemma LeftIs(total0: nat, total1: nat, n: nat)
    requires total0 + WORD * total1 == n
    ensures total0 % 64 == n % 64
  {
    assert n == total0 + 64 * (0x400_0000 * total1);
  }

  lemma NextBlock(all: seq<bv8>, done: nat, input: seq<bv8>, p: nat, length: nat)
    requires done % 64 == 0 && done + 64 <= |all| && p + 64 <= length <= |input| && all[done..] == input[p..length]
    ensures Blocks(all[..done + 64]) == Compress(Blocks(all[..done]), input[p..p + 64])
    ensures all[done + 64..] == input[p + 64..length]
  {
    hide Blocks;
    hide Compress;
    assert input[p..p + 64] == all[done..][..64] == all[done..done + 64];
    assert all[..done + 64] == all[..done] + all[done..done + 64];
    BlocksAppended(all[..done], all[done..done + 64]);
    assert all[done + 64..] == all[done..][64..] == input[p..length][64..];
  }

  lemma WholeOf(m: seq<bv8>)
    requires |m| % 64 == 0
    ensures Whole(m) == m
  {
  }

  /** What the two updates of `sha256_finish` append is the padding. */
  lemma PaddedIs(m: seq<bv8>, all: seq<bv8>, padding: seq<bv8>, length: seq<bv8>)
    requires var last := |m| % 64; |padding| == if last < 56 then 56 - last else 120 - last
    requires forall i :: 0 <= i < |padding| ==> padding[i] == if i == 0 then 0x80 else 0
    requires length == NumberBytes(8 * |m|, 8) && all == m + padding + length
    ensures all == Padded(m)
  {
    hide NumberBytes;
    hide Padded;
    hide Zeros;
    var k := |padding| - 1;
    ZerosNeeded(|m|, k);
    OneAndZeros(padding, k);
    Regroup(m, [0x80], Zeros(k));
    PaddedParts(m);
  }

  lemma PaddedParts(m: seq<bv8>)
    ensures Padded(m) == m + [0x80] + Zeros(PaddingZeros(|m|)) + NumberBytes(8 * |m|, 8)
  {
    hide NumberBytes;
  }

  lemma ZerosNeeded(length: nat, k: nat)
    requires k == if length % 64 < 56 then 55 - length % 64 else 119 - length % 64
    ensures PaddingZeros(length) == k
  {
  }

  lemma OneAndZeros(padding: seq<bv8>, k: nat)
    requires |padding| == k + 1 && forall i :: 0 <= i < |padding| ==> padding[i] == if i == 0 then 0x80 else 0
    ensures padding == [0x80] + Zeros(k)
  {
  }

  /** PUT_UINT32 (lines 33-39). */
  method PutUint32(x: bv64, b: array<bv8>, at: nat)
    requires at + 4 <= b.Length
    modifies b
    ensures b[..at + 4] == old(b[..at]) + WordBytes(Lo(x))
    ensures forall i :: at + 4 <= i < b.Length ==> b[i] == old(b[i])
  {
    hide Lo;
    hide WordBytes;
    LowBytes(x);
    b[at] := ((x >> 24) & 0xFF) as bv8;
    b[at + 1] := ((x >> 16) & 0xFF) as bv8;
    b[at + 2] := ((x >> 8) & 0xFF) as bv8;
    b[at + 3] := (x & 0xFF) as bv8;
    assert b[..at + 4] == old(b[..at]) + WordBytes(Lo(x));
  }

  method PutFour(b: array<bv8>, at: nat, x0: bv64, x1: bv64, x2: bv64, x3: bv64)
    requires at + 16 <= b.Length
    modifies b
    ensures b[..at + 16] == old(b[..at]) + WordBytes(Lo(x0)) + WordBytes(Lo(x1)) + WordBytes(Lo(x2)) + WordBytes(Lo(x3))
    ensures forall i :: at + 16 <= i < b.Length ==> b[i] == old(b[i])
  {
    hide Lo;
    hide WordBytes;
    PutUint32(x0, b, at);
    PutUint32(x1, b, at + 4);
    PutUint32(x2, b, at + 8);
    PutUint32(x3, b, at + 12);
  }

  lemma LowBytes(x: bv64)
    ensures WordBytes(Lo(x)) == [((x >> 24) & 0xFF) as bv8, ((x >> 16) & 0xFF) as bv8, ((x >> 8) & 0xFF) as bv8,
            (x & 0xFF) as bv8]
  {
  }

  /** PUT_UINT32 of a number that may be wider than 32 bits. */
  method PutLength(b: array<bv8>, at: nat, n: nat)
    requires at + 4 <= b.Length
    modifies b
    ensures b[at..at + 4] == NumberBytes(n, 4)
    ensures forall i :: 0 <= i < b.Length && !(at <= i < at + 4) ==> b[i] == old(b[i])
  {
    hide NumberBytes;
    hide ByteAt;
    b[at] := ByteAt(n, 0x100_0000);
    b[at + 1] := ByteAt(n, 0x1_0000);
    b[at + 2] := ByteAt(n, 0x100);
    b[at + 3] := ByteAt(n, 1);
    FourBytes(n);
  }

  function ByteAt(n: nat, unit: nat): bv8
    requires unit > 0
  {
    (n / unit % 0x100) as bv8
  }

  lemma FourBytes(n: nat)
    ensures NumberBytes(n, 4) == [ByteAt(n, 0x100_0000), ByteAt(n, 0x1_0000), ByteAt(n, 0x100), ByteAt(n, 1)]
  {
    hide ByteAt;
    SplitNumber(n, 0);
  }

  lemma SplitNumber(n: nat, count: nat)
    ensures NumberBytes(n, count + 4)
         == NumberBytes(n / WORD, count) + [ByteAt(n, 0x100_0000), ByteAt(n, 0x1_0000), ByteAt(n, 0x100), ByteAt(n, 1)]
  {
    var n1 := n / 0x100;
    var n2 := n1 / 0x100;
    var n3 := n2 / 0x100;
    var n4 := n3 / 0x100;
    Quotients(n);
    NumberStep(n, count + 3);
    NumberStep(n1, count + 2);
    NumberStep(n2, count + 1);
    NumberStep(n3, count);
    assert NumberBytes(n, count + 4)
      == NumberBytes(n4, count) + [ByteAt(n3, 1)] + [ByteAt(n2, 1)] + [ByteAt(n1, 1)] + [ByteAt(n, 1)];
  }

  lemma Quotients(n: nat)
    ensures n / 0x100 / 0x100 == n / 0x1_0000 && n / 0x1_0000 / 0x100 == n / 0x100_0000 &&
            n / 0x100_0000 / 0x100 == n / WORD
    ensures ByteAt(n / 0x100, 1) == ByteAt(n, 0x100) && ByteAt(n / 0x1_0000, 1) == ByteAt(n, 0x1_0000)
    ensures ByteAt(n / 0x100_0000, 1) == ByteAt(n, 0x100_0000)
  {
  }

  lemma NumberStep(n: nat, count: nat)
    ensures NumberBytes(n, count + 1) == NumberBytes(n / 0x100, count) + [ByteAt(n, 1)]
  {
  }

  lemma BitLength(total0: nat, total1: nat, n: nat)
    requires total0 < WORD && total0 + WORD * total1 == n && n < 0x2000_0000_0000_0000
    ensures NumberBytes(8 * n, 8) == NumberBytes(total0 / 0x2000_0000 + total1 * 8, 4) + NumberBytes(total0 * 8, 4)
  {
    hide NumberBytes;
    hide ByteAt;
    SplitNumber(8 * n, 4);
    assert 8 * n / WORD == total0 / 0x2000_0000 + total1 * 8;
    FourBytes(total0 * 8);
    SameByte(total0 * 8, 8 * total1, 0x100_0000);
    SameByte(total0 * 8, 8 * total1, 0x1_0000);
    SameByte(total0 * 8, 8 * total1, 0x100);
    SameByte(total0 * 8, 8 * total1, 1);
  }

  lemma SameByte(n: nat, k: nat, unit: nat)
    requires unit == 1 || unit == 0x100 || unit == 0x1_0000 || unit == 0x100_0000
    ensures ByteAt(n + WORD * k, unit) == ByteAt(n, unit)
  {
    if unit == 1 {
      SameRemainder(n, 0x100_0000 * k);
    } else if unit == 0x100 {
      assert (n + WORD * k) / 0x100 == n / 0x100 + 0x100 * (0x1_0000 * k);
      SameRemainder(n / 0x100, 0x1_0000 * k);
    } else if unit == 0x1_0000 {
      assert (n + WORD * k) / 0x1_0000 == n / 0x1_0000 + 0x100 * (0x100 * k);
      SameRemainder(n / 0x1_0000, 0x100 * k);
    } else {
      assert (n + WORD * k) / 0x100_0000 == n / 0x100_0000 + 0x100 * k;
      SameRemainder(n / 0x100_0000, k);
    }
  }

  lemma SameRemainder(x: nat, y: nat)
    ensures (x + 0x100 * y) % 0x100 == x % 0x100
  {
  }

  // ---- messages in pieces --------------------------------------------------------------

  /** The contents of the first `n` pieces, one after the other. */
  ghost function Joined(pieces: seq<array<bv8>>, n: nat): seq<bv8>
    requires n <= |pieces|
    reads pieces
  {
    if n == 0 then [] else Joined(pieces, n - 1) + pieces[n - 1][..]
  }

  /** However a message is cut into pieces, the digest is that of the whole message. */
  method DigestOfPieces(ctx: Sha256Context, pieces: seq<array<bv8>>, digest: array<bv8>)
    requires ctx.Shape() && digest.Length == 32 && digest != ctx.buffer
    requires forall k :: 0 <= k < |pieces| ==> pieces[k].Length < WORD && pieces[k] != ctx.buffer && pieces[k] != digest
    requires |Joined(pieces, |pieces|)| < 0x2000_0000_0000_0000
    modifies ctx, ctx.state, ctx.buffer, digest
    ensures digest[..] == Sha256(Joined(pieces, |pieces|))
  {
    hide Sha256;
    hide Sha256Context.Valid;
    ctx.Starts();
    var i := 0;
    while i < |pieces|
      invariant 0 <= i <= |pieces| && ctx.Valid() && ctx.msg == Joined(pieces, i)
      invariant forall k :: 0 <= k < |pieces| ==> pieces[k][..] == old(pieces[k][..])
    {
      ctx.Update(pieces[i], pieces[i].Length);
      assert pieces[i][..pieces[i].Length] == pieces[i][..];
      i := i + 1;
    }
    ctx.Finish(digest);
  }
}
