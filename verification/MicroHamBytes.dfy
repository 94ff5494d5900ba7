/** The bytes on the wire of src/microham.c, as numbers: what each unit sends (lines 520-722), and what any frame
    means (lines 405-512). */
module MicroHamBytes {
  import opened MicroHamFrames
  import opened MicroHamMessages

  /** A byte as it travels: with its top bit set. */
  function High(b: bv8): bv8 {
    if b < 128 then b + 128 else b
  }

  /** 1 for a byte whose own top bit was set. */
  function TopOf(b: bv8): bv8 {
    if b < 128 then 0 else 1
  }

  /** What is sent for each unit. */
  lemma FlagsAre(status: bv8)
    ensures UnitBytes(Flags(status)) == [8 + TopOf(status), 128, 128, High(status)]
  {
    StatusIs(status);
    FlatOne(StatusFrame(status));
  }

  lemma RadioIs(status: bv8, byte: bv8)
    ensures UnitBytes(Radio(status, byte))
         == [40 + TopOf(status) + 4 * TopOf(byte), High(byte), 128, High(status)]
  {
    var f := RadioFrame(status, byte);
    HighIs(status);
    HighIs(byte);
    FlatOne(f);
  }

  lemma WkeyIs(status: bv8, byte: bv8)
    ensures UnitBytes(Wkey(status, byte))
         == [8 + TopOf(status), 128, 128, High(status)] + [64, 128, 128, 128] + [72 + TopOf(byte), 128, 128, High(byte)]
  {
    StatusIs(status);
    SharedIs(0x48, byte);
    FlatThree(StatusFrame(status), NO_OP, SharedFrame(0x48, byte));
  }

  lemma ControlIs(status: bv8, byte: bv8, valid: bool)
    ensures UnitBytes(Control(status, byte, valid))
         == [8 + TopOf(status), 128, 128, High(status)]
            + [(if valid then 72 else 64) + TopOf(byte), 128, 128, High(byte)]
  {
    StatusIs(status);
    SharedIs(if valid then 0x48 else 0x40, byte);
    FlatTwo(StatusFrame(status), SharedFrame(if valid then 0x48 else 0x40, byte));
  }

  lemma HighIs(b: bv8)
    ensures Data(b) == High(b) && Bit(b, 0x80) == (TopOf(b) == 1)
  {
  }

  lemma StatusIs(status: bv8)
    ensures StatusFrame(status) == [8 + TopOf(status), 128, 128, High(status)]
  {
    HighIs(status);
  }

  lemma SharedIs(header: bv8, byte: bv8)
    requires header == 0x48 || header == 0x40
    ensures SharedFrame(header, byte) == [header + TopOf(byte), 128, 128, High(byte)]
  {
    HighIs(byte);
  }

  lemma FlatOne(f: seq<bv8>)
    ensures Flat([f]) == f
  {
  }

  lemma FlatTwo(f: seq<bv8>, g: seq<bv8>)
    ensures Flat([f, g]) == f + g
  {
    assert [f, g][1..] == [g];
    FlatOne(g);
  }

  lemma FlatThree(f: seq<bv8>, g: seq<bv8>, h: seq<bv8>)
    ensures Flat([f, g, h]) == f + g + h
  {
    assert [f, g, h][1..] == [g, h];
    FlatTwo(g, h);
  }

  // ---- what a frame means ---------------------------------------------

  /** The byte that travels as `b`, with its own top bit in the header. */
  function Low(b: bv8, top: bool): bv8 {
    if top then b else b - 128
  }

  /** The bit of `header` with the value `m`. */
  predicate Has(header: bv8, m: bv8)
    requires m != 0
  {
    header / m % 2 == 1
  }

  /** Every frame: whether it starts a sequence or is the next of one, the radio byte, and the shared byte, which
      belongs to the flags, the control string, WinKey or PS/2 by the place in the sequence. */
  lemma FrameMeans(r: Reader, f: seq<bv8>)
    requires WellFormed(f)
    ensures var n := if Has(f[0], 64) then r.frameseq + 1 else 0;
            var shared := Low(f[3], Has(f[0], 1));
            var told := if Has(f[0], 32) then [FromRadio(Low(f[1], Has(f[0], 4)))] else [];
            var more := if !Has(f[0], 8) then []
                        else if n == 0 then [FlagByte(shared)]
                        else if n == 2 then [FromWinKey(shared)]
                        else if n == 3 then [FromPs2(shared)]
                        else [];
            var s := FeedAll(r, f);
            s.frame == [] && s.frameseq == n && s.events == r.events + (told + more)
            && (n != 1 ==> s.incontrol == r.incontrol && s.control == r.control && s.controls == r.controls)
            && (n == 1 ==> ControlIsRead(r, s, shared, Has(f[0], 8)))
  {
    FrameIsRead(r, f);
    BitsAre(f[0]);
    LowIs(f[1], Has(f[0], 4));
    LowIs(f[3], Has(f[0], 1));
    hide FeedAll;
    hide Bit;
    hide Has;
    hide Low;
    hide Value;
  }

  /** A control byte: one that is not marked valid starts a control string, or ends it and passes it on; a valid one
      continues it. */
  predicate ControlIsRead(r: Reader, s: Reader, byte: bv8, valid: bool) {
    if valid then s.control == r.control + [byte] && s.incontrol == r.incontrol && s.controls == r.controls
    else if r.incontrol then
      s.control == r.control + [byte] && !s.incontrol && s.controls == r.controls + [r.control + [byte]]
    else s.control == [byte] && s.incontrol && s.controls == r.controls
  }

  lemma BitsAre(h: bv8)
    ensures Bit(h, 0x40) == Has(h, 64) && Bit(h, 0x20) == Has(h, 32) && Bit(h, 0x08) == Has(h, 8)
    ensures Bit(h, 0x04) == Has(h, 4) && Bit(h, 0x01) == Has(h, 1) && Bit(h, 0x80) == (h >= 128)
  {
  }

  lemma LowIs(b: bv8, top: bool)
    requires Bit(b, 0x80)
    ensures Value(b, top) == Low(b, top)
  {
  }

  /** Bytes that belong to no frame are ignored, and a byte below 128 always starts a frame. */
  lemma StrayByte(r: Reader, b: bv8)
    ensures b >= 128 && r.frame == [] ==> Feed(r, b) == r
    ensures b < 128 ==> Feed(r, b) == r.(frame := [b])
  {
    BitsAre(b);
    hide Parse;
  }

  /** The bit with the value 4 keys the transmitter. */
  lemma PttIsFour(status: bv8)
    ensures PttBit(status) == Has(status, 4)
  {
    BitsAre(status);
  }
}
