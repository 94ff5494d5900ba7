/** Strings written with \u escapes are read as UTF-8. */
module JsonUnicode {
  import opened Bytes
  import opened Options
  import opened Utf16
  import opened JsonGrammar

  /** `t` spells the scalar `c` as one \uXXXX literal, or as two when it needs a surrogate pair. Hexadecimal
      digits may be in either case. */
  predicate Spells(t: seq<byte>, c: nat) {
    IsScalar(c) &&
    if c < 0x10000 then |t| == 6 && Unit(t, 0, c)
    else |t| == 12 && Unit(t, 0, 0xD800 + (c - 0x10000) / 1024) && Unit(t, 6, 0xDC00 + (c - 0x10000) % 1024)
  }

  /** A literal for the 16-bit code unit `u` stands at `i`. */
  predicate Unit(t: seq<byte>, i: nat, u: nat) {
    i + 6 <= |t| && t[i] == BACKSLASH && t[i + 1] == LOWER_U &&
    IsHex(t[i + 2]) && IsHex(t[i + 3]) && IsHex(t[i + 4]) && IsHex(t[i + 5]) && Hex4(t, i + 2) == u
  }

  function Concat(pieces: seq<seq<byte>>, i: nat): seq<byte>
    decreases |pieces| - i
  {
    if i >= |pieces| then [] else pieces[i] + Concat(pieces, i + 1)
  }

  function Utf8From(scalars: seq<Scalar>, i: nat): seq<byte>
    decreases |scalars| - i
  {
    if i >= |scalars| then [] else Utf8(scalars[i]) + Utf8From(scalars, i + 1)
  }

  lemma UnitAt(s: seq<byte>, p: nat, t: seq<byte>, i: nat, u: nat)
    requires At(s, p, t) && Unit(t, i, u)
    ensures Unit(s, p + i, u)
  {
    forall k | i <= k < i + 6 ensures s[p + k] == t[k] {
      assert s[p..p + |t|][k] == s[p + k];
    }
  }

  lemma ReadSpelling(s: seq<byte>, p: nat, end: nat, t: seq<byte>, c: nat)
    requires At(s, p, t) && Spells(t, c) && p + |t| <= end <= |s|
    ensures ReadLiteral(s, p, end) == Good(Utf8(c), |t|) && s[p] == BACKSLASH && s[p + 1] == LOWER_U
  {
    if c < 0x10000 {
      UnitAt(s, p, t, 0, c);
    } else {
      var high, low := 0xD800 + (c - 0x10000) / 1024, 0xDC00 + (c - 0x10000) % 1024;
      UnitAt(s, p, t, 0, high);
      UnitAt(s, p, t, 6, low);
      assert PairValue(high, low) == c;
    }
  }

  lemma {:induction false} DecodeSpellings(s: seq<byte>, p: nat, end: nat, pieces: seq<seq<byte>>, scalars: seq<Scalar>,
                                           i: nat, out: seq<byte>)
    requires |pieces| == |scalars| && i <= |scalars| && forall k :: 0 <= k < |scalars| ==> Spells(pieces[k], scalars[k])
    requires At(s, p, Concat(pieces, i)) && p + |Concat(pieces, i)| == end < |s|
    ensures Decode(s, p, end, out) == Parsed(out + Utf8From(scalars, i), end)
    decreases |scalars| - i
  {
    hide At;
    hide Decode;
    hide ReadLiteral;
    hide Utf8;
    hide Spells;
    if i < |scalars| {
      AtSplit(s, p, pieces[i], Concat(pieces, i + 1));
      SpellingLength(pieces[i], scalars[i]);
      ReadSpelling(s, p, end, pieces[i], scalars[i]);
      DecodeLiteral(s, p, end, out, Utf8(scalars[i]), |pieces[i]|);
      DecodeSpellings(s, p + |pieces[i]|, end, pieces, scalars, i + 1, out + Utf8(scalars[i]));
      assert out + Utf8(scalars[i]) + Utf8From(scalars, i + 1) == out + (Utf8(scalars[i]) + Utf8From(scalars, i + 1));
    } else {
      DecodeEnd(s, end, out);
      assert out + [] == out;
    }
  }

  lemma SpellingLength(t: seq<byte>, c: nat)
    requires Spells(t, c)
    ensures |t| >= 6
  {
  }

  lemma DecodeLiteral(s: seq<byte>, p: nat, end: nat, out: seq<byte>, bytes: seq<byte>, used: nat)
    requires p < end < |s| && p + 1 < |s| && s[p] == BACKSLASH && s[p + 1] == LOWER_U
    requires ReadLiteral(s, p, end) == Good(bytes, used)
    ensures Decode(s, p, end, out) == Decode(s, p + used, end, out + bytes)
  {
    hide ReadLiteral;
  }

  lemma DecodeEnd(s: seq<byte>, end: nat, out: seq<byte>)
    requires end < |s|
    ensures Decode(s, end, end, out) == Parsed(out, end)
  {
  }

  lemma {:induction false} CloseSpellings(s: seq<byte>, p: nat, pieces: seq<seq<byte>>, scalars: seq<Scalar>, i: nat)
    requires |pieces| == |scalars| && i <= |scalars| && forall k :: 0 <= k < |scalars| ==> Spells(pieces[k], scalars[k])
    requires At(s, p, Concat(pieces, i)) && p + |Concat(pieces, i)| < |s| && s[p + |Concat(pieces, i)|] == QUOTE
    ensures CloseQuote(s, p) == Some(p + |Concat(pieces, i)|)
    decreases |scalars| - i
  {
    if i < |scalars| {
      var t := pieces[i];
      AtSplit(s, p, t, Concat(pieces, i + 1));
      CloseQuoteSpelling(s, p, t, scalars[i]);
      CloseSpellings(s, p + |t|, pieces, scalars, i + 1);
    }
  }

  lemma CloseQuoteSpelling(s: seq<byte>, p: nat, t: seq<byte>, c: nat)
    requires At(s, p, t) && Spells(t, c)
    ensures CloseQuote(s, p) == CloseQuote(s, p + |t|)
  {
    hide CloseQuote;
    if c < 0x10000 {
      UnitAt(s, p, t, 0, c);
      CloseQuoteUnit(s, p, c);
    } else {
      var high, low := 0xD800 + (c - 0x10000) / 1024, 0xDC00 + (c - 0x10000) % 1024;
      UnitAt(s, p, t, 0, high);
      UnitAt(s, p, t, 6, low);
      CloseQuoteUnit(s, p, high);
      CloseQuoteUnit(s, p + 6, low);
    }
  }

  /** The first pass steps over one literal. */
  lemma CloseQuoteUnit(s: seq<byte>, p: nat, u: nat)
    requires Unit(s, p, u)
    ensures CloseQuote(s, p) == CloseQuote(s, p + 6)
  {
    assert CloseQuote(s, p) == CloseQuote(s, p + 2) == CloseQuote(s, p + 3) == CloseQuote(s, p + 4);
    assert CloseQuote(s, p + 4) == CloseQuote(s, p + 5) == CloseQuote(s, p + 6);
  }

  lemma {:induction false} Utf8NoNul(scalars: seq<Scalar>, i: nat)
    requires forall k :: 0 <= k < |scalars| ==> scalars[k] > 0
    ensures NoNul(Utf8From(scalars, i))
    decreases |scalars| - i
  {
    if i < |scalars| { Utf8NoNul(scalars, i + 1); }
  }

  /** A string literal made of \u escapes for non-zero scalars parses to the UTF-8 of those scalars. */
  lemma ParseSpelledString(s: seq<byte>, off: nat, pieces: seq<seq<byte>>, scalars: seq<Scalar>)
    requires Terminated(s) && |pieces| == |scalars|
    requires forall k :: 0 <= k < |scalars| ==> scalars[k] > 0 && Spells(pieces[k], scalars[k])
    requires At(s, off, [QUOTE] + (Concat(pieces, 0) + [QUOTE]))
    ensures off < |s| && ParseString(s, off) == Parsed(Utf8From(scalars, 0), off + |Concat(pieces, 0)| + 2)
  {
    hide At;
    hide CloseQuote;
    hide Decode;
    hide Spells;
    hide Concat;
    hide Utf8From;
    var t := Concat(pieces, 0);
    AtSplit(s, off, [QUOTE], t + [QUOTE]);
    AtFirst(s, off, [QUOTE]);
    AtSplit(s, off + 1, t, [QUOTE]);
    AtFirst(s, off + 1 + |t|, [QUOTE]);
    CloseSpellings(s, off + 1, pieces, scalars, 0);
    DecodeSpellings(s, off + 1, off + 1 + |t|, pieces, scalars, 0, []);
    Utf8NoNul(scalars, 0);
    assert [] + Utf8From(scalars, 0) == Utf8From(scalars, 0);
    StringParsed(s, off, off + 1 + |t|, Utf8From(scalars, 0));
  }

  // ---- UTF-8 itself -----------------------------------------------------

  /** The scalar behind one UTF-8 sequence, read from the lead byte and the continuation bits. */
  function Utf8Value(t: seq<byte>): int
    requires 1 <= |t| <= 4
  {
    var a: int := t[0];
    if |t| == 1 then a
    else
      var b: int := t[1] % 64;
      if |t| == 2 then a % 32 * 64 + b
      else
        var c: int := t[2] % 64;
        if |t| == 3 then a % 16 * 4096 + b * 64 + c
        else
          var d: int := t[3] % 64;
          a % 8 * 262144 + b * 4096 + c * 64 + d
  }

  lemma Sixes(c: nat)
    ensures c == c / 64 * 64 + c % 64
    ensures c == c / 4096 * 4096 + c / 64 % 64 * 64 + c % 64
    ensures c == c / 262144 * 262144 + c / 4096 % 64 * 4096 + c / 64 % 64 * 64 + c % 64
  {
    assert c / 4096 == c / 64 / 64;
    assert c / 262144 == c / 4096 / 64;
  }

  /** The encoding loses nothing: reading the bits back gives the scalar. */
  lemma Utf8RoundTrip(c: nat)
    requires c < 0x110000
    ensures Utf8Value(Utf8(c)) == c
  {
    Sixes(c);
    assert c < 0x800 ==> (0xC0 + c / 64) % 32 == c / 64;
    assert 0x800 <= c < 0x10000 ==> (0xE0 + c / 4096) % 16 == c / 4096;
    assert 0x10000 <= c ==> (0xF0 + c / 262144) % 8 == c / 262144;
    assert (0x80 + c % 64) % 64 == c % 64;
    assert (0x80 + c / 64 % 64) % 64 == c / 64 % 64;
    assert (0x80 + c / 4096 % 64) % 64 == c / 4096 % 64;
  }
}
