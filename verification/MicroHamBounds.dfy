/** What the writers send never overruns the 256 bytes of the reader's control string (src/microham.c:402, 466-495). */
module MicroHamBounds {
  import opened MicroHamFrames
  import opened MicroHamMessages
  import T = MicroHamThreads

  predicate Fits(r: Reader) {
    |r.control| <= 256
  }

  predicate Short(m: Message) {
    m.ControlMessage? ==> |m.bytes| <= 256
  }

  /** An incomplete frame changes nothing but the frame. */
  lemma PartOfFrame(r: Reader, f: seq<bv8>, k: nat)
    requires WellFormed(f) && k < 4
    ensures SameControl(FeedAll(r, f[..k]), r)
  {
    hide Bit;
    hide Parse;
    if k > 0 {
      PartOfFrame(r, f, k - 1);
      PartIs(r, f, k - 1);
      assert f[..k] == f[..k - 1] + [f[k - 1]];
      FeedAppended(r, f[..k - 1], [f[k - 1]]);
      assert [f[k - 1]][1..] == [];
    }
  }

  lemma PartIs(r: Reader, f: seq<bv8>, k: nat)
    requires WellFormed(f) && k < 4
    ensures k > 0 ==> FeedAll(r, f[..k]).frame == f[..k]
  {
    hide Bit;
    hide Parse;
    if k > 0 {
      PartIs(r, f, k - 1);
      assert f[..k] == f[..k - 1] + [f[k - 1]];
      FeedAppended(r, f[..k - 1], [f[k - 1]]);
      assert [f[k - 1]][1..] == [];
    }
  }

  /** A prefix of two runs of bytes ends in the first or in the second. */
  lemma PrefixOfTwo(r: Reader, a: seq<bv8>, b: seq<bv8>, k: nat)
    requires k <= |a| + |b|
    ensures FeedAll(r, (a + b)[..k]) == if k <= |a| then FeedAll(r, a[..k]) else FeedAll(FeedAll(r, a), b[..k - |a|])
  {
    hide FeedAll;
    if k <= |a| {
      assert (a + b)[..k] == a[..k];
    } else {
      assert (a + b)[..k] == a + b[..k - |a|];
      FeedAppended(r, a, b[..k - |a|]);
    }
  }

  lemma UnitFits(r: Reader, u: Unit, k: nat)
    requires k <= |UnitBytes(u)| && Fits(r) && Fits(Touched(r, u))
    ensures Fits(FeedAll(r, UnitBytes(u)[..k]))
  {
    hide FeedAll;
    hide StatusFrame;
    hide RadioFrame;
    hide SharedFrame;
    hide WellFormed;
    UnitIsRead(r, u);
    if k == |UnitBytes(u)| {
      assert UnitBytes(u)[..k] == UnitBytes(u);
    } else {
      StatusBits(u.status);
      FrameLength(StatusFrame(u.status));
      match u
      case Radio(status, byte) =>
        OneFrame(RadioFrame(status, byte));
        RadioBits(status, byte);
        FrameLength(RadioFrame(status, byte));
        PartOfFrame(r, RadioFrame(status, byte), k);
      case Flags(status) =>
        OneFrame(StatusFrame(status));
        PartOfFrame(r, StatusFrame(status), k);
      case Control(status, byte, valid) => ControlUnitFits(r, status, byte, valid, k);
      case Wkey(status, byte) => WkeyUnitFits(r, status, byte, k);
    }
  }

  /** Only the no-op in the middle changes the control string. */
  lemma WkeyUnitFits(r: Reader, status: bv8, byte: bv8, k: nat)
    requires Fits(r) && Fits(ControlByte(r, 0, false)) && k < |UnitBytes(Wkey(status, byte))|
    ensures Fits(FeedAll(r, UnitBytes(Wkey(status, byte))[..k]))
  {
    hide FeedAll;
    hide StatusFrame;
    hide SharedFrame;
    hide WellFormed;
    var a, c := StatusFrame(status), SharedFrame(0x48, byte);
    assert UnitBytes(Wkey(status, byte)) == a + (NO_OP + c) by {
      assert [a, NO_OP, c][1..] == [NO_OP, c];
      TwoFrames(NO_OP, c);
    }
    StatusBits(status);
    NoOpBits();
    SharedBits(true, byte);
    FrameLength(a);
    FrameLength(c);
    StatusIsRead(r, status);
    var r1 := FeedAll(r, a);
    SharedIsRead(r1, false, 0);
    PrefixOfTwo(r, a, NO_OP + c, k);
    if k <= 4 {
      FramePrefix(r, a, k);
    } else {
      PrefixOfTwo(r1, NO_OP, c, k - 4);
      if k <= 8 {
        FramePrefix(r1, NO_OP, k - 4);
      } else {
        FramePrefix(FeedAll(r1, NO_OP), c, k - 8);
      }
    }
  }

  lemma FramePrefix(r: Reader, f: seq<bv8>, k: nat)
    requires WellFormed(f) && k <= 4
    ensures if k < 4 then SameControl(FeedAll(r, f[..k]), r) else FeedAll(r, f[..k]) == FeedAll(r, f)
  {
    hide FeedAll;
    if k < 4 {
      PartOfFrame(r, f, k);
    } else {
      assert f[..k] == f;
    }
  }

  lemma FrameLength(f: seq<bv8>)
    requires WellFormed(f)
    ensures |f| == 4
  {
  }

  lemma ControlUnitFits(r: Reader, status: bv8, byte: bv8, valid: bool, k: nat)
    requires Fits(r) && k < |UnitBytes(Control(status, byte, valid))|
    ensures Fits(FeedAll(r, UnitBytes(Control(status, byte, valid))[..k]))
  {
    hide FeedAll;
    hide StatusFrame;
    hide SharedFrame;
    hide WellFormed;
    var a, b := StatusFrame(status), SharedFrame(if valid then 0x48 else 0x40, byte);
    TwoFrames(a, b);
    StatusBits(status);
    SharedBits(valid, byte);
    FrameLength(a);
    FrameLength(b);
    PrefixOfTwo(r, a, b, k);
    StatusIsRead(r, status);
    if k < 4 {
      PartOfFrame(r, a, k);
    } else if k == 4 {
      assert a[..k] == a;
    } else {
      PartOfFrame(FeedAll(r, a), b, k - 4);
    }
  }

  /** If the reader's control string fits after each unit, it fits after each byte. */
  lemma {:induction false} UnitsFit(r: Reader, units: seq<Unit>, k: nat)
    requires forall j :: 0 <= j <= |units| ==> Fits(FeedAll(r, Bytes(units[..j])))
    requires k <= |Bytes(units)|
    ensures Fits(FeedAll(r, Bytes(units)[..k]))
    decreases |units|
  {
    hide FeedAll;
    hide Fits;
    hide UnitBytes;
    if units == [] {
      assert units[..0] == units && Bytes(units)[..k] == Bytes(units);
      assert Fits(FeedAll(r, Bytes(units[..0])));
    } else {
      var u, rest := units[0], units[1..];
      var r1 := FeedAll(r, UnitBytes(u));
      PrefixOfTwo(r, UnitBytes(u), Bytes(rest), k);
      AfterFirst(r, units, 0);
      if k <= |UnitBytes(u)| {
        FirstFits(r, units, k);
      } else {
        forall j | 0 <= j <= |rest| ensures Fits(FeedAll(r1, Bytes(rest[..j]))) {
          AfterFirst(r, units, j);
          assert Fits(FeedAll(r, Bytes(units[..j + 1])));
        }
        UnitsFit(r1, rest, k - |UnitBytes(u)|);
      }
    }
  }

  lemma AfterFirst(r: Reader, units: seq<Unit>, j: nat)
    requires j < |units|
    ensures FeedAll(FeedAll(r, UnitBytes(units[0])), Bytes(units[1..][..j])) == FeedAll(r, Bytes(units[..j + 1]))
  {
    hide FeedAll;
    hide UnitBytes;
    assert units[..j + 1] == [units[0]] + units[1..][..j];
    assert units[..j + 1][0] == units[0] && units[..j + 1][1..] == units[1..][..j];
    FeedAppended(r, UnitBytes(units[0]), Bytes(units[1..][..j]));
  }

  lemma FirstFits(r: Reader, units: seq<Unit>, k: nat)
    requires units != [] && k <= |UnitBytes(units[0])|
    requires forall j :: 0 <= j <= |units| ==> Fits(FeedAll(r, Bytes(units[..j])))
    ensures Fits(FeedAll(r, UnitBytes(units[0])[..k]))
  {
    hide FeedAll;
    hide UnitBytes;
    hide Touched;
    NoUnits(units[..0]);
    NothingRead(r);
    assert Fits(FeedAll(r, Bytes(units[..0])));
    NextUnit(r, units, 0);
    assert Fits(FeedAll(r, Bytes(units[..0 + 1])));
    UnitFits(r, units[0], k);
  }

  // ---- between messages and inside of them ---------------------------------------------

  /** A reader at the start or the end of a message: a control string that it has started has one byte. */
  predicate Ready(r: Reader) {
    Fits(r) && (r.incontrol ==> |r.control| == 1)
  }

  /** After an odd number of boundaries a control string has been started, otherwise one has been ended. */
  predicate Toggled(r: Reader, t: Reader, odd: bool) {
    t.incontrol == (r.incontrol != odd) && |t.control| == if t.incontrol then 1 else 2
  }

  /** What a reader that was in the state `r` holds after `k` units of a message, in the state `t`. A control string
      that meets a started one ends that with its first byte, and starts another one with its last. */
  predicate Midway(r: Reader, m: Message, k: nat, t: Reader) {
    if k == 0 || m.RadioMessage? || m.FlagsMessage? then t.incontrol == r.incontrol && |t.control| == |r.control|
    else if m.WkeyMessage? || |m.bytes| == 1 then Toggled(r, t, k % 2 == 1)
    else if !r.incontrol then t.incontrol == (k < |m.bytes|) && |t.control| == k
    else t.incontrol == (k == |m.bytes|) && |t.control| == if k < |m.bytes| then k + 1 else 1
  }

  lemma {:induction false} MessageMidway(r: Reader, s: Sent, k: nat)
    requires Whole(s) && Ready(r) && k <= |s.units|
    ensures Midway(r, s.message, k, FeedAll(r, Bytes(s.units[..k])))
  {
    hide FeedAll;
    hide Bytes;
    if k == 0 {
      NoUnits(s.units[..0]);
      NothingRead(r);
    } else {
      MessageMidway(r, s, k - 1);
      NextUnit(r, s.units, k - 1);
    }
  }

  lemma MessageFits(r: Reader, s: Sent, k: nat)
    requires Whole(s) && Short(s.message) && Ready(r) && k <= |s.units|
    ensures Fits(FeedAll(r, Bytes(s.units[..k]))) && (k == |s.units| ==> Ready(FeedAll(r, Bytes(s.units[..k]))))
  {
    hide FeedAll;
    hide Bytes;
    MessageMidway(r, s, k);
  }

  lemma {:induction false} LogFits(r: Reader, log: seq<Sent>, j: nat)
    requires Ready(r) && forall s | s in log :: Whole(s) && Short(s.message)
    requires j <= |AllUnits(log)|
    ensures Fits(FeedAll(r, Bytes(AllUnits(log)[..j])))
    decreases |log|
  {
    hide FeedAll;
    hide Bytes;
    hide Whole;
    hide Short;
    hide Fits;
    if log == [] {
      NoUnits(AllUnits(log)[..j]);
      NothingRead(r);
    } else {
      var s, rest := log[0], log[1..];
      var n := |s.units|;
      if j <= n {
        assert AllUnits(log)[..j] == s.units[..j];
        MessageFits(r, s, j);
      } else {
        assert AllUnits(log)[..j] == s.units + AllUnits(rest)[..j - n];
        BytesAppended(s.units, AllUnits(rest)[..j - n]);
        FeedAppended(r, Bytes(s.units), Bytes(AllUnits(rest)[..j - n]));
        assert s.units[..n] == s.units;
        MessageFits(r, s, n);
        LogFits(FeedAll(r, Bytes(s.units)), rest, j - n);
      }
    }
  }

  /** Reading a run of whole messages, whose control strings have at most 256 bytes, never overruns the control
      string, at any byte. */
  lemma RunFits(r: Reader, log: seq<Sent>, k: nat)
    requires Ready(r) && forall s | s in log :: Whole(s) && Short(s.message)
    requires k <= |Bytes(AllUnits(log))|
    ensures Fits(FeedAll(r, Bytes(AllUnits(log))[..k]))
  {
    hide FeedAll;
    hide Bytes;
    hide Whole;
    hide Short;
    hide Fits;
    forall j | 0 <= j <= |AllUnits(log)| ensures Fits(FeedAll(r, Bytes(AllUnits(log)[..j]))) {
      LogFits(r, log, j);
    }
    UnitsFit(r, AllUnits(log), k);
  }

  /** A longer control string overruns it: with its last byte, or with the one before if it met a started one. */
  lemma LongMessageOverruns(r: Reader, s: Sent) returns (k: nat)
    requires Ready(r) && Whole(s) && !Short(s.message)
    ensures k <= |s.units| && !Fits(FeedAll(r, Bytes(s.units[..k])))
  {
    hide FeedAll;
    hide Bytes;
    k := if r.incontrol then |s.units| - 1 else |s.units|;
    MessageMidway(r, s, k);
  }

  lemma {:induction false} LongOverruns(r: Reader, log: seq<Sent>, i: nat) returns (j: nat)
    requires Ready(r) && forall s | s in log :: Whole(s)
    requires i < |log| && !Short(log[i].message)
    ensures j <= |AllUnits(log)| && !Fits(FeedAll(r, Bytes(AllUnits(log)[..j])))
    decreases |log|
  {
    hide FeedAll;
    hide Bytes;
    hide Whole;
    hide Short;
    hide Fits;
    var s, rest := log[0], log[1..];
    var n := |s.units|;
    if !Short(s.message) {
      j := LongMessageOverruns(r, s);
      assert AllUnits(log)[..j] == s.units[..j];
    } else {
      assert s.units[..n] == s.units;
      MessageFits(r, s, n);
      j := LongOverruns(FeedAll(r, Bytes(s.units)), rest, i - 1);
      assert AllUnits(log)[..n + j] == s.units + AllUnits(rest)[..j];
      BytesAppended(s.units, AllUnits(rest)[..j]);
      FeedAppended(r, Bytes(s.units), Bytes(AllUnits(rest)[..j]));
      j := n + j;
    }
  }

  lemma UnitsPrefix(units: seq<Unit>, j: nat)
    requires j <= |units|
    ensures Bytes(units[..j]) <= Bytes(units)
  {
    hide Bytes;
    assert units == units[..j] + units[j..];
    BytesAppended(units[..j], units[j..]);
  }

  /** Any run of whole messages is read without an overrun exactly when no control string has more than 256 bytes. */
  lemma RunFitsExactly(r: Reader, log: seq<Sent>)
    requires Ready(r) && forall s | s in log :: Whole(s)
    ensures var bytes := Bytes(AllUnits(log));
            (forall k :: 0 <= k <= |bytes| ==> Fits(FeedAll(r, bytes[..k]))) <==>
              (forall s | s in log :: Short(s.message))
  {
    hide FeedAll;
    hide Bytes;
    hide Whole;
    hide Short;
    hide Fits;
    var bytes := Bytes(AllUnits(log));
    if forall s | s in log :: Short(s.message) {
      forall k | 0 <= k <= |bytes| ensures Fits(FeedAll(r, bytes[..k])) { RunFits(r, log, k); }
    } else {
      var i: nat :| i < |log| && !Short(log[i].message);
      var j := LongOverruns(r, log, i);
      UnitsPrefix(AllUnits(log), j);
      assert bytes[..|Bytes(AllUnits(log)[..j])|] == Bytes(AllUnits(log)[..j]);
    }
  }

  // ---- the stream of the two threads ------------------------------------------------------

  /** A message that has begun, with units for the rest of it. */
  function Completed(m: Message, units: seq<Unit>): (all: seq<Unit>)
    requires Begins(m, units)
    ensures Whole(Sent(m, all)) && units <= all
    decreases Length(m) - |units|
  {
    if |units| == Length(m) then units else Completed(m, units + [UnitOf(m, |units|, 0)])
  }

  /** A long message overruns, whatever is written behind it. */
  lemma LongInStream(r: Reader, log: seq<Sent>, i: nat, more: seq<Unit>) returns (k: nat)
    requires Ready(r) && (forall s | s in log :: Whole(s)) && i < |log| && !Short(log[i].message)
    ensures var bytes := Bytes(AllUnits(log) + more); k <= |bytes| && !Fits(FeedAll(r, bytes[..k]))
  {
    hide FeedAll;
    hide Bytes;
    hide Whole;
    hide Short;
    hide Fits;
    var j := LongOverruns(r, log, i);
    var units := AllUnits(log) + more;
    assert units[..j] == AllUnits(log)[..j];
    UnitsPrefix(units, j);
    k := |Bytes(units[..j])|;
    assert Bytes(units)[..k] == Bytes(units[..j]);
  }

  /** Reading what the two threads write, in any interleaving, never overruns the control string if no message that
      has been sent or begun is a control string of more than 256 bytes, and always does if a whole one is. */
  lemma StreamFits(s: T.State, steps: seq<T.Step>, r: Reader)
    requires T.Init(s) && T.Possible(s, steps) && Ready(r)
    ensures var t := T.After(s, steps);
      var fits := forall k :: 0 <= k <= |t.stream| ==> Fits(FeedAll(r, t.stream[..k]));
      var short := forall x | x in t.log :: Short(x.message);
      (fits ==> short) && (t.owner.Nobody? && short ==> fits) &&
      (t.owner.Held? ==>
         var p := T.PhaseOf(t, t.owner.thread);
         !p.Idle? && (short && Short(p.message) ==> fits))
  {
    hide FeedAll;
    hide Bytes;
    hide Whole;
    hide Short;
    hide Fits;
    hide AllUnits;
    hide T.Partial;
    hide Begins;
    T.StreamIsWholeMessages(s, steps);
    hide T.After;
    var t := T.After(s, steps);
    if i: nat :| i < |t.log| && !Short(t.log[i].message) {
      var k := LongInStream(r, t.log, i, T.Partial(t));
    }
    if t.owner.Nobody? {
      RunFitsExactly(r, t.log);
    } else {
      var m := T.PhaseOf(t, t.owner.thread).message;
      var last := Sent(m, Completed(m, T.Partial(t)));
      if Short(m) && forall x | x in t.log :: Short(x.message) {
        AllUnitsAppended(t.log, last);
        var units := AllUnits(t.log) + T.Partial(t);
        assert AllUnits(t.log + [last])[..|units|] == units;
        UnitsPrefix(AllUnits(t.log + [last]), |units|);
        forall k | 0 <= k <= |t.stream| ensures Fits(FeedAll(r, t.stream[..k])) {
          assert t.stream[..k] == Bytes(AllUnits(t.log + [last]))[..k];
          RunFits(r, t.log + [last], k);
        }
      }
    }
  }

  /** So the reader's array of 256 bytes is large enough for a run of messages that keep to that length. */
  lemma RunIsReadable(r: Reader, log: seq<Sent>, k: nat)
    requires !r.incontrol && |r.control| <= 256 && forall s | s in log :: Whole(s)
    requires forall s | s in log :: s.message.ControlMessage? ==> |s.message.bytes| <= 256
    requires k <= |Bytes(AllUnits(log))|
    ensures |FeedAll(r, Bytes(AllUnits(log))[..k]).control| <= 256
  {
    hide FeedAll;
    hide Bytes;
    hide AllUnits;
    hide Whole;
    RunFits(r, log, k);
  }
}
