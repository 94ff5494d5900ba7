/** The reading side of src/microham.c (lines 395-512 and 837-863) over its global variables. */
module MicroHamReceiver {
  import opened MicroHamFrames

  function RadioBytes(events: seq<Event>): seq<bv8> {
    if events == [] then []
    else (if events[0].FromRadio? then [events[0].b] else []) + RadioBytes(events[1..])
  }

  function WkeyBytes(events: seq<Event>): seq<bv8> {
    if events == [] then []
    else (if events[0].FromWinKey? then [events[0].b] else []) + WkeyBytes(events[1..])
  }

  /** Which event goes to which socket. */
  lemma SocketsAre(b: bv8)
    ensures RadioBytes([FromRadio(b)]) == [b] && WkeyBytes([FromRadio(b)]) == []
    ensures RadioBytes([FromWinKey(b)]) == [] && WkeyBytes([FromWinKey(b)]) == [b]
    ensures forall e: Event :: e.FlagByte? || e.FromPs2? ==> RadioBytes([e]) == [] && WkeyBytes([e]) == []
  {
    assert forall e: Event :: [e][1..] == [];
  }

  lemma {:induction false} RadioAppended(a: seq<Event>, b: seq<Event>)
    ensures RadioBytes(a + b) == RadioBytes(a) + RadioBytes(b)
  {
    if a == [] {
      assert a + b == b;
    } else {
      assert (a + b)[0] == a[0] && (a + b)[1..] == a[1..] + b;
      RadioAppended(a[1..], b);
    }
  }

  lemma {:induction false} WkeyAppended(a: seq<Event>, b: seq<Event>)
    ensures WkeyBytes(a + b) == WkeyBytes(a) + WkeyBytes(b)
  {
    if a == [] {
      assert a + b == b;
    } else {
      assert (a + b)[0] == a[0] && (a + b)[1..] == a[1..] + b;
      WkeyAppended(a[1..], b);
    }
  }

  class Receiver {
    const frame: array<bv8>
    var framepos: nat
    var frameseq: nat
    var incontrol: bool
    const controlstring: array<bv8>
    var numcontrolbytes: nat

    /** What has been written to the radio and WinKey sockets. */
    var radio: seq<bv8>
    var wkey: seq<bv8>

    ghost var events: seq<Event>
    ghost var controls: seq<seq<bv8>>

    constructor ()
      ensures Valid() && View() == Reader([], 0, false, [], [], [])
    {
      frame := new bv8[4];
      framepos, frameseq, incontrol := 0, 0, false;
      controlstring := new bv8[256];
      numcontrolbytes := 0;
      radio, wkey := [], [];
      events, controls := [], [];
    }

    ghost predicate Valid()
      reads this
    {
      frame.Length == 4 && controlstring.Length == 256 && frame != controlstring &&
      framepos < 4 && numcontrolbytes <= 256 && radio == RadioBytes(events) && wkey == WkeyBytes(events)
    }

    ghost function View(): Reader
      requires Valid()
      reads this, frame, controlstring
    {
      Reader(frame[..framepos], frameseq, incontrol, controlstring[..numcontrolbytes], events, controls)
    }

    /** An event goes to its socket. */
    method Emit(e: Event)
      requires Valid()
      modifies this`radio, this`wkey, this`events
      ensures Valid() && events == old(events) + [e]
    {
      RadioAppended(events, [e]);
      WkeyAppended(events, [e]);
      OneEvent(e);
      if e.FromRadio? {
        radio := radio + [e.b];
      } else if e.FromWinKey? {
        wkey := wkey + [e.b];
      }
      events := events + [e];
    }

    /** Lines 466-495. */
    method TakeControl(byte: bv8, valid: bool)
      requires Valid() && |ControlByte(View(), byte, valid).control| <= 256
      modifies this`incontrol, this`numcontrolbytes, this`controls, controlstring
      ensures Valid() && View() == ControlByte(old(View()), byte, valid)
    {
      ghost var was := controlstring[..numcontrolbytes];
      if !valid && !incontrol {
        numcontrolbytes := 1;
        controlstring[0] := byte;
        incontrol := true;
        return;
      }
      controlstring[numcontrolbytes] := byte;
      numcontrolbytes := numcontrolbytes + 1;
      assert controlstring[..numcontrolbytes] == was + [byte];
      if !valid && incontrol {
        controls := controls + [was + [byte]];
        incontrol := false;
      }
    }

    /** `parseFrame` (lines 405-512) of the complete frame. */
    method ParseFrame(ghost f: seq<bv8>)
      requires Valid() && framepos == 0 && f == frame[..] && |Parse(View(), f).control| <= 256
      modifies this, controlstring
      ensures Valid() && View() == Parse(old(View()), f)
    {
      hide Bit;
      hide Value;
      hide ControlByte;
      ghost var r, n := View(), NextSeq(View(), f[0]);
      EventsInOrder(r.events, f, n);
      if !Bit(frame[0], 0x40) {
        frameseq := 0;
      } else {
        frameseq := frameseq + 1;
      }
      if Bit(frame[0], 0x20) {
        Emit(FromRadio(Value(frame[1], Bit(frame[0], 0x04))));
      }
      ghost var r1 := View();
      if Bit(frame[0], 0x08) || frameseq == 1 {
        var byte := Value(frame[3], Bit(frame[0], 0x01));
        match frameseq
        case 0 => Emit(FlagByte(byte));
        case 1 =>
          assert r1 == r.(frameseq := n, events := r.events + FrameEvents(f, n));
          TakeControl(byte, Bit(frame[0], 0x08));
        case 2 => Emit(FromWinKey(byte));
        case 3 => Emit(FromPs2(byte));
        case _ =>
      }
    }

    /** One byte from the device (lines 842-861). */
    method ReadByte(b: bv8)
      requires Valid() && |Feed(View(), b).control| <= 256
      modifies this, frame, controlstring
      ensures Valid() && View() == Feed(old(View()), b)
    {
      hide Bit;
      hide Parse;
      ghost var was := frame[..framepos];
      if !Bit(b, 0x80) && framepos != 0 {
        framepos := 0;
      }
      if Bit(b, 0x80) && framepos == 0 {
        framepos := 0;
        return;
      }
      frame[framepos] := b;
      framepos := framepos + 1;
      if framepos >= 4 {
        framepos := 0;
        assert frame[..] == was + [b];
        ParseFrame(frame[..]);
      }
    }

    /** The loop over everything that the device has (lines 840-862). */
    method ReadAll(bytes: seq<bv8>)
      requires Valid() && forall k :: 0 <= k <= |bytes| ==> |FeedAll(View(), bytes[..k]).control| <= 256
      modifies this, frame, controlstring
      ensures Valid() && View() == FeedAll(old(View()), bytes)
    {
      hide Feed;
      ghost var start := View();
      var i := 0;
      NothingFed(start, bytes[..0]);
      while i < |bytes|
        invariant 0 <= i <= |bytes| && Valid() && View() == FeedAll(start, bytes[..i])
      {
        OneMoreFed(start, bytes, i);
        ReadByte(bytes[i]);
        i := i + 1;
      }
      assert bytes[..i] == bytes;
    }
  }

  /** The radio byte comes first, and only then the one of the shared channel. */
  lemma EventsInOrder(events: seq<Event>, f: seq<bv8>, n: nat)
    requires |f| == 4
    ensures var radio := if Bit(f[0], 0x20) then events + [FromRadio(Value(f[1], Bit(f[0], 0x04)))] else events;
            var shared := Value(f[3], Bit(f[0], 0x01));
            events + FrameEvents(f, n) ==
              if !Bit(f[0], 0x08) then radio else if n == 0 then radio + [FlagByte(shared)]
              else if n == 2 then radio + [FromWinKey(shared)] else if n == 3 then radio + [FromPs2(shared)] else radio
  {
    hide Bit;
    hide Value;
  }

  lemma OneEvent(e: Event)
    ensures RadioBytes([e]) == if e.FromRadio? then [e.b] else []
    ensures WkeyBytes([e]) == if e.FromWinKey? then [e.b] else []
  {
    assert [e][1..] == [];
  }

  lemma NothingFed(r: Reader, bytes: seq<bv8>)
    requires bytes == []
    ensures FeedAll(r, bytes) == r
  {
  }

  lemma OneMoreFed(r: Reader, bytes: seq<bv8>, i: nat)
    requires i < |bytes|
    ensures FeedAll(r, bytes[..i + 1]) == Feed(FeedAll(r, bytes[..i]), bytes[i])
  {
    hide Feed;
    assert bytes[..i + 1] == bytes[..i] + [bytes[i]];
    FeedAppended(r, bytes[..i], [bytes[i]]);
    assert [bytes[i]][1..] == [];
  }
}
