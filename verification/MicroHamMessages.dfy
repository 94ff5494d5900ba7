/** The four writers of src/microham.c (lines 520-722): each sends one message, unit by unit. */
module MicroHamMessages {
  import opened Sequences
  import opened MicroHamFrames

  datatype Message =
    | RadioMessage(bytes: seq<bv8>)
    | FlagsMessage
    | WkeyMessage(bytes: seq<bv8>)
    | ControlMessage(bytes: seq<bv8>)

  /** The bit of the status byte that keys the transmitter. */
  predicate PttBit(status: bv8) {
    Bit(status, 0x04)
  }

  function WithPtt(status: bv8, ptt: bool): bv8 {
    if ptt then status | 0x04 else status & 0xFB
  }

  lemma PttIsSet(status: bv8, ptt: bool)
    ensures PttBit(WithPtt(status, ptt)) == ptt
    ensures WithPtt(status, ptt) & 0xFB == status & 0xFB
  {
  }

  function Length(m: Message): nat {
    if m.FlagsMessage? then 1 else |m.bytes|
  }

  /** Unit `i` of a message. The first and the last byte of a control string are not marked valid. */
  function UnitOf(m: Message, i: nat, status: bv8): Unit
    requires i < Length(m)
  {
    match m
    case RadioMessage(bytes) => Radio(status, bytes[i])
    case FlagsMessage => Flags(status)
    case WkeyMessage(bytes) => Wkey(status, bytes[i])
    case ControlMessage(bytes) => Control(status, bytes[i], !(i == 0 || i == |bytes| - 1))
  }

  /** The first units of a message; the status byte may change between two of them. */
  predicate Begins(m: Message, units: seq<Unit>) {
    |units| <= Length(m) && forall i :: 0 <= i < |units| ==> units[i] == UnitOf(m, i, units[i].status)
  }

  /** A message that has been written, with its units. */
  datatype Sent = Sent(message: Message, units: seq<Unit>)

  predicate Whole(s: Sent) {
    |s.units| == Length(s.message) && Begins(s.message, s.units)
  }

  function AllUnits(log: seq<Sent>): seq<Unit> {
    if log == [] then [] else log[0].units + AllUnits(log[1..])
  }

  lemma {:induction false} AllUnitsAppended(log: seq<Sent>, s: Sent)
    ensures AllUnits(log + [s]) == AllUnits(log) + s.units
  {
    if log == [] {
      assert log + [s] == [s] && [s][1..] == [];
      assert AllUnits([s]) == s.units + AllUnits([]);
    } else {
      assert (log + [s])[0] == log[0] && (log + [s])[1..] == log[1..] + [s];
      AllUnitsAppended(log[1..], s);
    }
  }

  // ---- control strings ----------------------------------------------------------------

  /** A control string that the reader can tell from the ones around it. */
  predicate Framed(m: Message) {
    match m
    case ControlMessage(bytes) => 2 <= |bytes|
    case WkeyMessage(bytes) => bytes == []
    case _ => true
  }

  function Controls(log: seq<Sent>): seq<seq<bv8>> {
    if log == [] then []
    else OwnControl(log[0].message) + Controls(log[1..])
  }

  lemma OneMore(units: seq<Unit>, k: nat)
    requires k < |units|
    ensures Bytes(units[..k + 1]) == Bytes(units[..k]) + UnitBytes(units[k])
  {
    hide UnitBytes;
    assert units[..k + 1] == units[..k] + [units[k]];
    BytesAppended(units[..k], [units[k]]);
    assert Bytes([units[k]]) == UnitBytes(units[k]) + Bytes([]);
    assert UnitBytes(units[k]) + [] == UnitBytes(units[k]);
  }

  lemma BytesMore(units: seq<Unit>, u: Unit)
    ensures Bytes(units + [u]) == Bytes(units) + UnitBytes(u)
  {
    hide UnitBytes;
    OneMore(units + [u], |units|);
    assert (units + [u])[..|units|] == units && (units + [u])[..|units| + 1] == units + [u];
  }

  lemma NextUnit(r: Reader, units: seq<Unit>, k: nat)
    requires k < |units|
    ensures SameControl(FeedAll(r, Bytes(units[..k + 1])), Touched(FeedAll(r, Bytes(units[..k])), units[k]))
  {
    hide UnitBytes;
    hide FeedAll;
    hide Touched;
    OneMore(units, k);
    FeedAppended(r, Bytes(units[..k]), UnitBytes(units[k]));
    UnitIsRead(FeedAll(r, Bytes(units[..k])), units[k]);
  }

  /** After `k` units of a control string, the reader has its first `k` bytes. */
  lemma {:induction false} ControlGrows(r: Reader, m: Message, units: seq<Unit>, k: nat)
    requires m.ControlMessage? && Framed(m) && Whole(Sent(m, units)) && !r.incontrol && 1 <= k <= |units|
    ensures var s := FeedAll(r, Bytes(units[..k]));
      s.control == m.bytes[..k] && s.incontrol == (k < |units|) &&
      s.controls == if k < |units| then r.controls else r.controls + [m.bytes]
    decreases k
  {
    hide FeedAll;
    hide Bytes;
    NextUnit(r, units, k - 1);
    if k == 1 {
      assert Bytes(units[..0]) == [] by { NoUnits(units[..0]); }
      NothingRead(r);
    } else {
      ControlGrows(r, m, units, k - 1);
      assert m.bytes[..k] == m.bytes[..k - 1] + [m.bytes[k - 1]];
    }
    if k == |units| { assert m.bytes[..k] == m.bytes; }
  }

  lemma NoUnits(units: seq<Unit>)
    requires units == []
    ensures Bytes(units) == []
  {
  }

  lemma NothingRead(r: Reader)
    ensures FeedAll(r, []) == r
  {
  }

  /** Other messages leave the control string alone. */
  lemma {:induction false} OthersDoNotTouch(r: Reader, units: seq<Unit>, k: nat)
    requires k <= |units| && forall i :: 0 <= i < |units| ==> units[i].Radio? || units[i].Flags?
    ensures SameControl(FeedAll(r, Bytes(units[..k])), r)
  {
    hide FeedAll;
    hide Bytes;
    if k == 0 {
      NoUnits(units[..0]);
      NothingRead(r);
    } else {
      NextUnit(r, units, k - 1);
      OthersDoNotTouch(r, units, k - 1);
    }
  }

  /** Every WinKey byte starts or ends a control string. */
  lemma {:induction false} WkeyTouches(r: Reader, units: seq<Unit>, k: nat)
    requires k <= |units| && !r.incontrol && forall i :: 0 <= i < |units| ==> units[i].Wkey?
    ensures var t := FeedAll(r, Bytes(units[..k])); t.incontrol == (k % 2 == 1) && |t.controls| == |r.controls| + k / 2
  {
    hide FeedAll;
    hide Bytes;
    if k == 0 {
      NoUnits(units[..0]);
      NothingRead(r);
    } else {
      NextUnit(r, units, k - 1);
      WkeyTouches(r, units, k - 1);
    }
  }

  /** The control string that a message is meant to pass on. */
  function OwnControl(m: Message): seq<seq<bv8>> {
    if m.ControlMessage? then [m.bytes] else []
  }

  /** A reader between control strings gets what a message passes on, and is between control strings again,
      exactly for framed messages. */
  lemma MessageIsRead(r: Reader, s: Sent)
    requires Whole(s) && !r.incontrol
    ensures var t := FeedAll(r, Bytes(s.units));
      (!t.incontrol && t.controls == r.controls + OwnControl(s.message)) <==> Framed(s.message)
  {
    hide FeedAll;
    hide Bytes;
    var n := |s.units|;
    assert s.units[..n] == s.units;
    match s.message
    case ControlMessage(bytes) =>
      if n >= 2 {
        ControlGrows(r, s.message, s.units, n);
      } else if n == 1 {
        NextUnit(r, s.units, 0);
        NoUnits(s.units[..0]);
        NothingRead(r);
      } else {
        NoUnits(s.units);
        NothingRead(r);
      }
    case WkeyMessage(bytes) =>
      WkeyTouches(r, s.units, n);
      if n == 0 {
        NoUnits(s.units);
        NothingRead(r);
      }
    case _ => OthersDoNotTouch(r, s.units, n);
  }

  /** In a run of whole messages without WinKey bytes, every control string of two or more bytes is read back,
      in order. */
  lemma {:induction false} ControlsAreRead(r: Reader, log: seq<Sent>)
    requires !r.incontrol && forall s | s in log :: Whole(s) && Framed(s.message)
    ensures var t := FeedAll(r, Bytes(AllUnits(log))); !t.incontrol && t.controls == r.controls + Controls(log)
    decreases |log|
  {
    hide FeedAll;
    hide Bytes;
    hide Whole;
    hide Framed;
    hide OwnControl;
    if log == [] {
      NoUnits([]);
      NothingRead(r);
    } else {
      MessageIsRead(r, log[0]);
      BytesAppended(log[0].units, AllUnits(log[1..]));
      FeedAppended(r, Bytes(log[0].units), Bytes(AllUnits(log[1..])));
      ControlsAreRead(FeedAll(r, Bytes(log[0].units)), log[1..]);
      Regroup(r.controls, OwnControl(log[0].message), Controls(log[1..]));
    }
  }
}
