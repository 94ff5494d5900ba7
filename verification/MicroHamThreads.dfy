/** The client thread and the thread in `read_device` (src/microham.c:750-894, 1233-1253), which share the device
    under a mutex: lock, put a unit together, write it, unlock. */
module MicroHamThreads {
  import opened MicroHamFrames
  import opened MicroHamMessages

  datatype Thread = Client | DeviceReader

  /** What a thread is doing with the message it sends. `ptt` is the setting that a flags message is to send. */
  datatype Phase =
    | Idle
    | Waiting(message: Message, ptt: bool)
    | Writing(message: Message, ptt: bool, done: seq<Unit>)
    | Built(message: Message, ptt: bool, done: seq<Unit>, next: Unit)

  datatype Owner = Nobody | Held(thread: Thread)

  /** `stream` is what the device has received, and `log` the messages that are complete. */
  datatype State = State(status: bv8, owner: Owner, client: Phase, reader: Phase, stream: seq<bv8>, log: seq<Sent>)

  function PhaseOf(s: State, t: Thread): Phase {
    if t.Client? then s.client else s.reader
  }

  function With(s: State, t: Thread, p: Phase): State {
    if t.Client? then s.(client := p) else s.(reader := p)
  }

  /** The units of the message that is being written. */
  function Partial(s: State): seq<Unit> {
    match s.owner
    case Nobody => []
    case Held(t) => var p := PhaseOf(s, t); if p.Writing? || p.Built? then p.done else []
  }

  // ---- steps -----------------------------------------------------------------------

  datatype Step =
    | Call(thread: Thread, message: Message)
    | SetPtt(ptt: bool)
    | Lock(thread: Thread)
    | Build(thread: Thread)
    | Write(thread: Thread)
    | Unlock(thread: Thread)

  /** `writeFlags` is only called from `uh_set_ptt`, and that only by the client. */
  predicate Enabled(s: State, step: Step) {
    match step
    case Call(t, m) => PhaseOf(s, t).Idle? && !m.FlagsMessage?
    case SetPtt(ptt) => s.client.Idle?
    case Lock(t) => PhaseOf(s, t).Waiting? && s.owner.Nobody?
    case Build(t) => PhaseOf(s, t).Writing? && |PhaseOf(s, t).done| < Length(PhaseOf(s, t).message)
    case Write(t) => PhaseOf(s, t).Built?
    case Unlock(t) => PhaseOf(s, t).Writing? && |PhaseOf(s, t).done| == Length(PhaseOf(s, t).message)
  }

  function Next(s: State, step: Step): State
    requires Enabled(s, step)
  {
    match step
    case Call(t, m) => With(s, t, Waiting(m, false))
    case SetPtt(ptt) => With(s.(status := WithPtt(s.status, ptt)), Client, Waiting(FlagsMessage, ptt))
    case Lock(t) => var p := PhaseOf(s, t); With(s.(owner := Held(t)), t, Writing(p.message, p.ptt, []))
    case Build(t) =>
      var p := PhaseOf(s, t);
      With(s, t, Built(p.message, p.ptt, p.done, UnitOf(p.message, |p.done|, s.status)))
    case Write(t) =>
      var p := PhaseOf(s, t);
      With(s.(stream := s.stream + UnitBytes(p.next)), t, Writing(p.message, p.ptt, p.done + [p.next]))
    case Unlock(t) =>
      var p := PhaseOf(s, t);
      With(s.(owner := Nobody, log := s.log + [Sent(p.message, p.done)]), t, Idle)
  }

  /** All units so far, in the order in which they were written. */
  function Units(s: State): seq<Unit> {
    AllUnits(s.log) + Partial(s)
  }

  predicate Init(s: State) {
    s.owner.Nobody? && s.client.Idle? && s.reader.Idle? && s.stream == [] && s.log == []
  }

  // ---- what every step keeps ----------------------------------------------------------

  predicate GoodPhase(s: State, t: Thread) {
    var p := PhaseOf(s, t);
    ((p.Writing? || p.Built?) <==> s.owner == Held(t)) &&
    (p.Writing? ==> Begins(p.message, p.done)) &&
    (p.Built? ==> |p.done| < Length(p.message) && Begins(p.message, p.done) &&
                  p.next == UnitOf(p.message, |p.done|, p.next.status)) &&
    (!p.Idle? && p.message.FlagsMessage? ==> t.Client? && PttBit(s.status) == p.ptt) &&
    (p.Built? && p.message.FlagsMessage? ==> PttBit(p.next.status) == p.ptt)
  }

  predicate Good(s: State) {
    GoodPhase(s, Client) && GoodPhase(s, DeviceReader) && (forall x | x in s.log :: Whole(x)) &&
      s.stream == Bytes(Units(s))
  }

  lemma InitIsGood(s: State)
    requires Init(s)
    ensures Good(s)
  {
  }

  lemma StepKeepsGood(s: State, step: Step)
    requires Good(s) && Enabled(s, step)
    ensures Good(Next(s, step))
  {
    hide Bytes;
    hide AllUnits;
    hide UnitBytes;
    hide Begins;
    hide PttBit;
    hide WithPtt;
    match step
    case Call(t, m) =>
    case SetPtt(ptt) => PttIsSet(s.status, ptt);
    case Lock(t) => NothingBegins(PhaseOf(s, t).message);
    case Build(t) =>
    case Write(t) => WriteKeepsGood(s, t);
    case Unlock(t) => UnlockKeepsGood(s, t);
  }

  lemma NothingBegins(m: Message)
    ensures Begins(m, [])
  {
  }

  lemma BeginsMore(m: Message, units: seq<Unit>, u: Unit)
    requires Begins(m, units) && |units| < Length(m) && u == UnitOf(m, |units|, u.status)
    ensures Begins(m, units + [u])
  {
  }

  lemma WriteKeepsGood(s: State, t: Thread)
    requires Good(s) && Enabled(s, Write(t))
    ensures Good(Next(s, Write(t))) && Units(Next(s, Write(t))) == Units(s) + [PhaseOf(s, t).next]
  {
    hide Bytes;
    hide AllUnits;
    hide UnitBytes;
    hide Begins;
    hide PttBit;
    hide Units;
    var p := PhaseOf(s, t);
    WriteAdds(s, t);
    BeginsMore(p.message, p.done, p.next);
    BytesMore(Units(s), p.next);
  }

  lemma WriteAdds(s: State, t: Thread)
    requires Enabled(s, Write(t)) && s.owner == Held(t)
    ensures Units(Next(s, Write(t))) == Units(s) + [PhaseOf(s, t).next]
  {
    hide AllUnits;
    hide UnitBytes;
    var p := PhaseOf(s, t);
    assert AllUnits(s.log) + (p.done + [p.next]) == AllUnits(s.log) + p.done + [p.next];
  }

  lemma UnlockKeepsGood(s: State, t: Thread)
    requires Good(s) && Enabled(s, Unlock(t))
    ensures Good(Next(s, Unlock(t))) && Units(Next(s, Unlock(t))) == Units(s)
  {
    hide Bytes;
    hide AllUnits;
    hide UnitBytes;
    hide Begins;
    hide PttBit;
    var p := PhaseOf(s, t);
    AllUnitsAppended(s.log, Sent(p.message, p.done));
    assert AllUnits(s.log) + p.done + [] == AllUnits(s.log) + p.done;
  }

  // ---- runs --------------------------------------------------------------------------------

  /** The state after some steps. */
  function After(s: State, steps: seq<Step>): State
    requires Possible(s, steps)
    decreases |steps|
  {
    if steps == [] then s else After(Next(s, steps[0]), steps[1..])
  }

  predicate Possible(s: State, steps: seq<Step>)
    decreases |steps|
  {
    steps == [] || (Enabled(s, steps[0]) && Possible(Next(s, steps[0]), steps[1..]))
  }

  lemma {:induction false} RunKeepsGood(s: State, steps: seq<Step>)
    requires Good(s) && Possible(s, steps)
    ensures Good(After(s, steps))
    decreases |steps|
  {
    hide Good;
    hide Next;
    hide Enabled;
    if steps != [] {
      StepKeepsGood(s, steps[0]);
      RunKeepsGood(Next(s, steps[0]), steps[1..]);
    }
  }

  /** For any interleaving, whenever nobody holds the lock the stream is a concatenation of whole messages,
      and at any other time of whole messages and the beginning of one. */
  lemma StreamIsWholeMessages(s: State, steps: seq<Step>)
    requires Init(s) && Possible(s, steps)
    ensures var t := After(s, steps);
      (forall x | x in t.log :: Whole(x)) && t.stream == Bytes(AllUnits(t.log) + Partial(t)) &&
      (t.owner.Nobody? ==> t.stream == Bytes(AllUnits(t.log))) &&
      (t.owner.Held? ==> !PhaseOf(t, t.owner.thread).Idle? && Begins(PhaseOf(t, t.owner.thread).message, Partial(t)))
  {
    InitIsGood(s);
    RunKeepsGood(s, steps);
    GoodStream(After(s, steps));
  }

  lemma GoodStream(t: State)
    requires Good(t)
    ensures (forall x | x in t.log :: Whole(x)) && t.stream == Bytes(AllUnits(t.log) + Partial(t))
    ensures t.owner.Nobody? ==> t.stream == Bytes(AllUnits(t.log))
    ensures t.owner.Held? ==>
            !PhaseOf(t, t.owner.thread).Idle? && Begins(PhaseOf(t, t.owner.thread).message, Partial(t))
  {
    hide Bytes;
    hide AllUnits;
    hide Begins;
    assert AllUnits(t.log) + [] == AllUnits(t.log);
  }

  /** Read back, the stream of any interleaving gives every event in the order of writing; and between messages,
      if all of them are framed, every control string. */
  lemma StreamIsReadBack(s: State, steps: seq<Step>, r: Reader)
    requires Init(s) && Possible(s, steps) && Units(After(s, steps)) != []
    ensures var t := After(s, steps);
      FeedAll(r, t.stream).events == r.events + Events(Units(t)) &&
      (t.owner.Nobody? && !r.incontrol && (forall x | x in t.log :: Framed(x.message)) ==>
         FeedAll(r, t.stream).controls == r.controls + Controls(t.log))
  {
    hide FeedAll;
    hide Bytes;
    hide Events;
    hide Controls;
    hide AllUnits;
    hide After;
    var t := After(s, steps);
    InitIsGood(s);
    RunKeepsGood(s, steps);
    GoodStream(t);
    UnitsAreRead(r, Units(t));
    if t.owner.Nobody? && !r.incontrol && forall x | x in t.log :: Framed(x.message) {
      ControlsAreRead(r, t.log);
    }
  }

  // ---- the PTT bit ---------------------------------------------------------------------------

  /** The status byte and every unit that has been put together have the PTT bit `ptt`. */
  predicate Settled(s: State, ptt: bool) {
    PttBit(s.status) == ptt &&
    (s.client.Built? ==> PttBit(s.client.next.status) == ptt) &&
      (s.reader.Built? ==> PttBit(s.reader.next.status) == ptt)
  }

  lemma OwnStatus(m: Message, i: nat, status: bv8)
    requires i < Length(m)
    ensures UnitOf(m, i, status).status == status
  {
  }

  /** Writing the flag frame of `uh_set_ptt` settles the bit, although the reader may have been waiting. */
  lemma FlagFrameSettles(s: State)
    requires Good(s) && Enabled(s, Write(Client)) && s.client.message.FlagsMessage?
    ensures Settled(Next(s, Write(Client)), s.client.ptt)
  {
    hide Bytes;
    hide AllUnits;
    hide UnitBytes;
    hide PttBit;
    hide Begins;
  }

  /** What one step adds to the units. */
  function Added(s: State, step: Step): seq<Unit>
    requires Enabled(s, step)
  {
    if step.Write? then [PhaseOf(s, step.thread).next] else []
  }

  lemma StepAdds(s: State, step: Step)
    requires Good(s) && Enabled(s, step)
    ensures Units(Next(s, step)) == Units(s) + Added(s, step)
  {
    hide Bytes;
    hide AllUnits;
    hide UnitBytes;
    hide Begins;
    hide PttBit;
    if step.Write? {
      WriteKeepsGood(s, step.thread);
    } else if step.Unlock? {
      UnlockKeepsGood(s, step.thread);
    }
  }

  lemma StepKeepsSettled(s: State, step: Step, ptt: bool)
    requires Good(s) && Enabled(s, step) && Settled(s, ptt) && !step.SetPtt?
    ensures Settled(Next(s, step), ptt) && forall u | u in Added(s, step) :: PttBit(u.status) == ptt
  {
    hide PttBit;
    hide Good;
    if step.Build? {
      var p := PhaseOf(s, step.thread);
      OwnStatus(p.message, |p.done|, s.status);
    }
  }

  /** Until the next call of `uh_set_ptt`, every unit that is written has the settled PTT bit. */
  lemma {:induction false} SettledRun(s: State, steps: seq<Step>, ptt: bool)
    requires Good(s) && Settled(s, ptt) && Possible(s, steps) && forall x | x in steps :: !x.SetPtt?
    ensures var t := After(s, steps);
      PttBit(t.status) == ptt && Units(s) <= Units(t) &&
      forall i :: |Units(s)| <= i < |Units(t)| ==> PttBit(Units(t)[i].status) == ptt
    decreases |steps|
  {
    hide Good;
    hide PttBit;
    hide Next;
    hide Enabled;
    hide Units;
    if steps != [] {
      StepKeepsGood(s, steps[0]);
      StepAdds(s, steps[0]);
      StepKeepsSettled(s, steps[0], ptt);
      SettledRun(Next(s, steps[0]), steps[1..], ptt);
    }
  }

  /** After the flag frame of `uh_set_ptt(ptt)`, in any interleaving and until the next `uh_set_ptt`, every unit has
      the PTT bit that was set, and `uh_get_ptt` reports it. */
  lemma PttHolds(s: State, before: seq<Step>, after: seq<Step>)
    requires Init(s) && Possible(s, before)
    requires var m := After(s, before);
      Enabled(m, Write(Client)) && m.client.message.FlagsMessage? && Possible(Next(m, Write(Client)), after)
    requires forall x | x in after :: !x.SetPtt?
    ensures var m := After(s, before);
      var start := Next(m, Write(Client));
      var t := After(start, after);
      PttBit(t.status) == m.client.ptt && Units(start) <= Units(t) &&
      forall i :: |Units(start)| <= i < |Units(t)| ==> PttBit(Units(t)[i].status) == m.client.ptt
  {
    hide After;
    hide Possible;
    hide Good;
    hide Next;
    var m := After(s, before);
    InitIsGood(s);
    RunKeepsGood(s, before);
    FlagFrameSettles(m);
    StepKeepsGood(m, Write(Client));
    SettledRun(Next(m, Write(Client)), after, m.client.ptt);
  }
}
