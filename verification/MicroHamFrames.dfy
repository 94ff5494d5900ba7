/** The four-byte frames of src/microham.c: how they are built (lines 520-722) and read (lines 400-512, 837-863). */
module MicroHamFrames {

  // ---- what is written at once ------------------------------------------------------

  /** One `write` to the device: what it carries, and the status byte at the time it was put together. */
  datatype Unit =
    | Radio(status: bv8, byte: bv8)
    | Flags(status: bv8)
    | Wkey(status: bv8, byte: bv8)
    | Control(status: bv8, byte: bv8, valid: bool)

  function Bit(b: bv8, mask: bv8): bool {
    b & mask != 0
  }

  function When(c: bool, b: bv8): bv8 {
    if c then b else 0
  }

  function Or(a: bv8, b: bv8): bv8 {
    a | b
  }

  /** A byte with its top bit set. */
  function Data(b: bv8): bv8 {
    0x80 | b
  }

  function StatusFrame(status: bv8): seq<bv8> {
    [Or(0x08, When(Bit(status, 0x80), 0x01)), 0x80, 0x80, Data(status)]
  }

  function RadioFrame(status: bv8, byte: bv8): seq<bv8> {
    [Or(Or(0x28, When(Bit(status, 0x80), 0x01)), When(Bit(byte, 0x80), 0x04)), Data(byte), 0x80, Data(status)]
  }

  const NO_OP: seq<bv8> := [0x40, 0x80, 0x80, 0x80]

  function SharedFrame(header: bv8, byte: bv8): seq<bv8> {
    [Or(header, When(Bit(byte, 0x80), 0x01)), 0x80, 0x80, Data(byte)]
  }

  /** The bytes of a unit, as frames. */
  function Frames(u: Unit): seq<seq<bv8>> {
    match u
    case Radio(status, byte) => [RadioFrame(status, byte)]
    case Flags(status) => [StatusFrame(status)]
    case Wkey(status, byte) => [StatusFrame(status), NO_OP, SharedFrame(0x48, byte)]
    case Control(status, byte, valid) => [StatusFrame(status), SharedFrame(if valid then 0x48 else 0x40, byte)]
  }

  function Flat(frames: seq<seq<bv8>>): seq<bv8> {
    if frames == [] then [] else frames[0] + Flat(frames[1..])
  }

  function UnitBytes(u: Unit): seq<bv8> {
    Flat(Frames(u))
  }

  function Bytes(units: seq<Unit>): seq<bv8> {
    if units == [] then [] else UnitBytes(units[0]) + Bytes(units[1..])
  }

  lemma {:induction false} BytesAppended(a: seq<Unit>, b: seq<Unit>)
    ensures Bytes(a + b) == Bytes(a) + Bytes(b)
  {
    hide UnitBytes;
    if a == [] {
      assert a + b == b;
    } else {
      BytesAppended(a[1..], b);
      assert (a + b)[0] == a[0] && (a + b)[1..] == a[1..] + b;
    }
  }

  /** A frame starts with the only byte that has its top bit clear. */
  predicate WellFormed(f: seq<bv8>) {
    |f| == 4 && !Bit(f[0], 0x80) && Bit(f[1], 0x80) && Bit(f[2], 0x80) && Bit(f[3], 0x80)
  }

  // ---- the reader ----------------------------------------------------------------------

  /** What a frame tells besides control strings. */
  datatype Event = FromRadio(b: bv8) | FlagByte(b: bv8) | FromWinKey(b: bv8) | FromPs2(b: bv8)

  /** The reader's variables, and what it has passed on: events and whole control strings. */
  datatype Reader = Reader(frame: seq<bv8>, frameseq: nat, incontrol: bool, control: seq<bv8>,
                           events: seq<Event>, controls: seq<seq<bv8>>)

  /** A byte put together from seven bits and one bit of the header. */
  function Value(b: bv8, top: bool): bv8 {
    (b & 0x7F) | When(top, 0x80)
  }

  function NextSeq(r: Reader, header: bv8): nat {
    if Bit(header, 0x40) then r.frameseq + 1 else 0
  }

  /** The events of a frame with sequence number `n` (lines 430-511). */
  function FrameEvents(f: seq<bv8>, n: nat): seq<Event>
    requires |f| == 4
  {
    var shared := Value(f[3], Bit(f[0], 0x01));
    (if Bit(f[0], 0x20) then [FromRadio(Value(f[1], Bit(f[0], 0x04)))] else []) +
    (if !Bit(f[0], 0x08) then [] else if n == 0 then [FlagByte(shared)] else if n == 2 then [FromWinKey(shared)]
     else if n == 3 then [FromPs2(shared)] else [])
  }

  /** A byte of the control channel, which starts, ends or continues a control string (lines 466-495). */
  function ControlByte(r: Reader, byte: bv8, valid: bool): Reader {
    if !valid && !r.incontrol then r.(control := [byte], incontrol := true)
    else if !valid then r.(control := r.control + [byte], incontrol := false, controls :=
      r.controls + [r.control + [byte]])
    else r.(control := r.control + [byte])
  }

  /** `parseFrame` (lines 405-512). */
  function Parse(r: Reader, f: seq<bv8>): Reader
    requires |f| == 4
  {
    var n := NextSeq(r, f[0]);
    var r1 := r.(frameseq := n, events := r.events + FrameEvents(f, n));
    if n == 1 then ControlByte(r1, Value(f[3], Bit(f[0], 0x01)), Bit(f[0], 0x08)) else r1
  }

  /** One byte from the device (lines 842-861). */
  function Feed(r: Reader, b: bv8): Reader {
    if !Bit(b, 0x80) then r.(frame := [b])
    else if r.frame == [] then r
    else if |r.frame| < 3 then r.(frame := r.frame + [b])
    else if |r.frame| == 3 then Parse(r.(frame := []), r.frame + [b])
    else r
  }

  function FeedAll(r: Reader, bytes: seq<bv8>): Reader
    decreases |bytes|
  {
    if bytes == [] then r else FeedAll(Feed(r, bytes[0]), bytes[1..])
  }

  lemma {:induction false} FeedAppended(r: Reader, a: seq<bv8>, b: seq<bv8>)
    ensures FeedAll(r, a + b) == FeedAll(FeedAll(r, a), b)
    decreases |a|
  {
    hide Feed;
    if a == [] {
      assert a + b == b;
    } else {
      FeedAppended(Feed(r, a[0]), a[1..], b);
      assert (a + b)[0] == a[0] && (a + b)[1..] == a[1..] + b;
    }
  }

  /** Whatever came before, a well-formed frame is read as a frame. */
  lemma FrameIsRead(r: Reader, f: seq<bv8>)
    requires WellFormed(f)
    ensures FeedAll(r, f) == Parse(r.(frame := []), f)
  {
    hide Parse;
    hide Bit;
    var r1 := Feed(r, f[0]);
    var r2 := Feed(r1, f[1]);
    var r3 := Feed(r2, f[2]);
    assert f[1..][1..] == f[2..] && f[2..][1..] == f[3..] && f[3..][1..] == [];
    assert FeedAll(r3, f[3..]) == Feed(r3, f[3]);
    assert FeedAll(r1, f[1..]) == FeedAll(r2, f[2..]) == FeedAll(r3, f[3..]);
    assert r3.frame + [f[3]] == f;
    assert r3.(frame := []) == r.(frame := []);
  }

  // ---- each unit read back -----------------------------------------------------------------

  lemma StatusBits(status: bv8)
    ensures var f := StatusFrame(status);
      WellFormed(f) && !Bit(f[0], 0x40) && !Bit(f[0], 0x20) && Bit(f[0], 0x08) && Value(f[3], Bit(f[0], 0x01)) == status
  {
  }

  lemma RadioHeader(p: bool, q: bool)
    ensures var h := Or(Or(0x28, When(p, 0x01)), When(q, 0x04));
      !Bit(h, 0x80) && !Bit(h, 0x40) && Bit(h, 0x20) && Bit(h, 0x08) && Bit(h, 0x01) == p && Bit(h, 0x04) == q
  {
  }

  lemma ByteParts(b: bv8)
    ensures Bit(Data(b), 0x80) && Value(Data(b), Bit(b, 0x80)) == b
  {
  }

  lemma RadioBits(status: bv8, byte: bv8)
    ensures var f := RadioFrame(status, byte);
      WellFormed(f) && !Bit(f[0], 0x40) && Bit(f[0], 0x20) && Bit(f[0], 0x08) &&
      Value(f[3], Bit(f[0], 0x01)) == status && Value(f[1], Bit(f[0], 0x04)) == byte
  {
    hide Or;
    hide When;
    hide Data;
    hide Value;
    RadioHeader(Bit(status, 0x80), Bit(byte, 0x80));
    ByteParts(status);
    ByteParts(byte);
  }

  lemma SharedBits(valid: bool, byte: bv8)
    ensures var f := SharedFrame(if valid then 0x48 else 0x40, byte);
      WellFormed(f) && Bit(f[0], 0x40) && !Bit(f[0], 0x20) && Bit(f[0], 0x08) == valid &&
        Value(f[3], Bit(f[0], 0x01)) == byte
  {
  }

  lemma NoOpBits()
    ensures WellFormed(NO_OP) && NO_OP == SharedFrame(0x40, 0)
  {
  }

  /** The events of a unit. */
  function UnitEvents(u: Unit): seq<Event> {
    match u
    case Radio(status, byte) => [FromRadio(byte), FlagByte(status)]
    case Flags(status) => [FlagByte(status)]
    case Wkey(status, byte) => [FlagByte(status), FromWinKey(byte)]
    case Control(status, byte, valid) => [FlagByte(status)]
  }

  function Events(units: seq<Unit>): seq<Event> {
    if units == [] then [] else UnitEvents(units[0]) + Events(units[1..])
  }

  /** What a unit does to the control string: the no-op in front of a WinKey byte reads as a zero at its start or
      end. */
  function Touched(r: Reader, u: Unit): Reader {
    match u
    case Control(status, byte, valid) => ControlByte(r, byte, valid)
    case Wkey(status, byte) => ControlByte(r, 0, false)
    case _ => r
  }

  predicate SameControl(r: Reader, s: Reader) {
    r.incontrol == s.incontrol && r.control == s.control && r.controls == s.controls
  }

  lemma StatusIsRead(r: Reader, status: bv8)
    ensures var s := FeedAll(r, StatusFrame(status));
            s == r.(frame := [], frameseq := 0, events := r.events + [FlagByte(status)])
  {
    hide Value;
    hide Bit;
    StatusBits(status);
    FrameIsRead(r, StatusFrame(status));
  }

  lemma RadioIsRead(r: Reader, status: bv8, byte: bv8)
    ensures var s := FeedAll(r, RadioFrame(status, byte));
            s == r.(frame := [], frameseq := 0, events := r.events + [FromRadio(byte), FlagByte(status)])
  {
    hide Value;
    hide Bit;
    hide RadioFrame;
    RadioBits(status, byte);
    FrameIsRead(r, RadioFrame(status, byte));
  }

  /** The second or third frame of a unit. */
  lemma SharedIsRead(r: Reader, valid: bool, byte: bv8)
    requires r.frameseq == 0 || (r.frameseq == 1 && valid)
    ensures var s := FeedAll(r, SharedFrame(if valid then 0x48 else 0x40, byte));
            if r.frameseq == 0 then s == ControlByte(r.(frame := [], frameseq := 1), byte, valid)
            else s == r.(frame := [], frameseq := 2, events := r.events + [FromWinKey(byte)])
  {
    hide Value;
    hide Bit;
    hide SharedFrame;
    SharedBits(valid, byte);
    FrameIsRead(r, SharedFrame(if valid then 0x48 else 0x40, byte));
  }

  lemma UnitIsRead(r: Reader, u: Unit)
    ensures var s := FeedAll(r, UnitBytes(u));
            s.frame == [] && s.events == r.events + UnitEvents(u) && SameControl(s, Touched(r, u))
  {
    hide FeedAll;
    hide StatusFrame;
    hide RadioFrame;
    hide SharedFrame;
    match u
    case Radio(status, byte) =>
      OneFrame(RadioFrame(status, byte));
      RadioIsRead(r, status, byte);
    case Flags(status) =>
      OneFrame(StatusFrame(status));
      StatusIsRead(r, status);
    case Control(status, byte, valid) =>
      TwoFrames(StatusFrame(status), SharedFrame(if valid then 0x48 else 0x40, byte));
      StatusIsRead(r, status);
      var r1 := FeedAll(r, StatusFrame(status));
      FeedAppended(r, StatusFrame(status), SharedFrame(if valid then 0x48 else 0x40, byte));
      SharedIsRead(r1, valid, byte);
    case Wkey(status, byte) => WkeyIsRead(r, status, byte);
  }

  lemma WkeyIsRead(r: Reader, status: bv8, byte: bv8)
    ensures var s := FeedAll(r, UnitBytes(Wkey(status, byte)));
            s.frame == [] && s.events == r.events + [FlagByte(status), FromWinKey(byte)] &&
              SameControl(s, ControlByte(r, 0, false))
  {
    hide FeedAll;
    hide StatusFrame;
    hide SharedFrame;
    NoOpBits();
    var a, b, c := StatusFrame(status), NO_OP, SharedFrame(0x48, byte);
    assert Flat([a, b, c]) == a + (b + c) by { assert [a, b, c][1..] == [b, c]; TwoFrames(b, c); }
    StatusIsRead(r, status);
    var r1 := FeedAll(r, a);
    SharedIsRead(r1, false, 0);
    var r2 := FeedAll(r1, b);
    SharedIsRead(r2, true, byte);
    FeedAppended(r, a, b + c);
    FeedAppended(r1, b, c);
  }

  lemma OneFrame(a: seq<bv8>)
    ensures Flat([a]) == a
  {
  }

  lemma TwoFrames(a: seq<bv8>, b: seq<bv8>)
    ensures Flat([a, b]) == a + b
  {
    assert [a, b][1..] == [b];
    OneFrame(b);
  }

  /** The reader in any state, after any bytes, gets all that is then written. */
  lemma {:induction false} UnitsAreRead(r: Reader, units: seq<Unit>)
    requires units != []
    ensures var s := FeedAll(r, Bytes(units)); s.frame == [] && s.events == r.events + Events(units)
    decreases |units|
  {
    hide FeedAll;
    hide UnitBytes;
    hide UnitEvents;
    var u, rest := units[0], units[1..];
    UnitIsRead(r, u);
    FeedAppended(r, UnitBytes(u), Bytes(rest));
    var r1 := FeedAll(r, UnitBytes(u));
    if rest == [] {
      assert Bytes(rest) == [] && Events(rest) == [];
      assert UnitBytes(u) + Bytes(rest) == UnitBytes(u);
    } else {
      UnitsAreRead(r1, rest);
    }
  }
}
