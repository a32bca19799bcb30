/** No wakeup is lost once the writer thread has looked at the list for the first time. */
module FifoWakeup {
  import Bytes
  import opened WriteFifo
  import opened FifoSafety
  import opened FifoShutdown

  /** Behind every append there is a signal. */
  predicate Signals(todo: seq<Micro>) {
    todo != [] ==> (todo[0].Append? ==> Signal in todo[1..]) && Signals(todo[1..])
  }

  /** A sleeping writer has nothing to do, or has been signalled, or is about to be. */
  predicate Heeded(s: State) {
    && Signals(s.todo)
    && s.place != Start && (s.place == Drowsy ==> s.fifo == [])
    && (s.place == Waiting && !s.notified && s.fifo != [] ==> Signal in s.todo)
  }

  lemma {:induction false} SignalsBehind(todo: seq<Micro>, more: seq<Micro>)
    requires Signals(more) && (Signal in more || forall m :: m in todo ==> !m.Append?)
    ensures Signals(todo + more)
    decreases |todo|
  {
    if todo == [] {
      assert todo + more == more;
    } else {
      assert (todo + more)[1..] == todo[1..] + more;
      SignalsBehind(todo[1..], more);
    }
  }

  lemma {:induction false} FlushSignals(filled: bool, before: seq<Micro>, more: seq<Micro>)
    requires Signals(more) && Signal in more
    ensures Signals(FlushSteps(filled) + before + more) && Signal in FlushSteps(filled) + before + more
  {
    SignalsBehind(FlushSteps(filled) + before, more);
  }

  lemma {:induction false} JustSignal()
    ensures Signals([Signal]) && Signals([])
  {
    assert [Signal][1..] == [];
  }

  /** write signals behind whatever it puts into the list. */
  lemma {:induction false} WriteSignals(bits: nat, buffer: Buffer, bytes: seq<Bytes.Byte>)
    requires bits >= 8
    ensures Signals(WriteSteps(bits, buffer, bytes))
  {
    hide Signals, Samples;
    var n, data := |bytes| / (bits / 8), Samples(bits, bytes);
    var flush := FlushSteps(true);
    JustSignal();
    if n > CAPACITY {
      FlushSignals(true, [], [Signal]);
      assert flush + [] == flush;
      FlushSignals(buffer.Some?, [Fresh(n), Copy(data)], flush + [Signal]);
      assert FlushSteps(buffer.Some?) + [Fresh(n), Copy(data)] + (flush + [Signal]) == WriteSteps(bits, buffer, bytes);
    } else {
      var full := buffer.Some? && |buffer.data| + n > CAPACITY;
      var fill := (if full || buffer.None? then [Fresh(CAPACITY)] else []) + [Copy(data)];
      FillSignals(fill);
      if full {
        SignalOnly(fill);
        FlushSignals(true, [], [Signal] + fill);
        assert flush + [] == flush;
        assert flush + ([Signal] + fill) == WriteSteps(bits, buffer, bytes);
      } else {
        assert fill == WriteSteps(bits, buffer, bytes);
      }
    }
  }

  lemma {:induction false} FillSignals(fill: seq<Micro>)
    requires forall m :: m in fill ==> !m.Append?
    ensures Signals(fill)
  {
    JustSignal();
    SignalsBehind(fill, []);
    assert fill + [] == fill;
  }

  lemma {:induction false} SignalOnly(fill: seq<Micro>)
    requires Signals(fill)
    ensures Signals([Signal] + fill)
  {
    assert ([Signal] + fill)[1..] == fill;
  }

  lemma {:induction false} FlushCallSignals(filled: bool)
    ensures Signals(FlushSteps(filled) + [Signal])
  {
    JustSignal();
    FlushSignals(filled, [], [Signal]);
    assert FlushSteps(filled) + [] == FlushSteps(filled);
  }

  lemma {:induction false} DestroySignals(filled: bool)
    ensures Signals(DestroySteps(filled))
  {
    hide Signals;
    FillSignals([Signal, Join]);
    FlushSignals(filled, [Lock, SetKill, Unlock], [Signal, Join]);
    assert FlushSteps(filled) + [Lock, SetKill, Unlock] + [Signal, Join] == DestroySteps(filled);
  }

  lemma {:induction false} StaysHeeded(s: State, a: Action)
    requires Inv(s) && Heeded(s) && Enabled(s, a)
    ensures Heeded(Apply(s, a))
  {
    hide Safe, Pending, Worked, Settled, Conserved, EncodedInv, Samples;
    match a
    case CallWrite(bytes) => WriteSignals(s.bits, s.buffer, bytes); hide WriteSteps, Signals;
    case CallFlush => FlushCallSignals(s.buffer.Some?); hide FlushSteps, Signals;
    case CallDestroy => DestroySignals(s.buffer.Some?); hide DestroySteps, Signals;
    case Run => RunFinds(s); RunHeeded(s);
    case _ => hide WriteSteps, FlushSteps, DestroySteps, Signals, JniStep;
  }

  lemma {:induction false} RunHeeded(s: State)
    requires JniEnabled(s) && Heeded(s)
    requires s.lock == Writer <==> s.place == Drowsy || s.place == Looking
    requires s.todo[0].Append? ==> s.lock == Jni
    ensures Heeded(JniStep(s))
  {
    assert s.todo == [s.todo[0]] + s.todo[1..];
  }

  lemma {:induction false} LookHeeds(s: State)
    requires Signals(s.todo) && s.place == Looking
    ensures Heeded(LookStep(s))
  {}

  lemma {:induction false} SignalsAlways(s: State, a: Action)
    requires Inv(s) && Signals(s.todo) && Enabled(s, a)
    ensures Signals(Apply(s, a).todo)
  {
    hide Safe, Pending, Worked, Settled, Conserved, EncodedInv, Samples;
    match a
    case CallWrite(bytes) => WriteSignals(s.bits, s.buffer, bytes);
    case CallFlush => FlushCallSignals(s.buffer.Some?);
    case CallDestroy => DestroySignals(s.buffer.Some?);
    case _ => hide WriteSteps, FlushSteps, DestroySteps;
  }

  lemma {:induction false} RunsHeeded(s: State, actions: seq<Action>, t: State)
    requires Inv(s) && Signals(s.todo) && Reaches(s, actions, t)
    ensures Heeded(s) || Look in actions ==> Heeded(t)
    decreases |actions|
  {
    if actions != [] {
      var u := Apply(s, actions[0]);
      StepKeeps(s, actions[0]);
      SignalsAlways(s, actions[0]);
      if actions[0] == Look {
        LookHeeds(s);
      } else if Heeded(s) {
        StaysHeeded(s, actions[0]);
      }
      hide Inv, Heeded, Apply, Signals;
      RunsHeeded(u, actions[1..], t);
    }
  }

  /**
   In every run, once the writer has looked at the list: when it sleeps, the list is empty, or it has been signalled, or
   the JNI thread has a signal left to send. So as long as the list holds something some thread can go on, and with
   the JNI thread done with its call it is the writer.
   */
  lemma {:induction false} NoWakeupIsLost(bits: nat, actions: seq<Action>, s: State)
    requires bits >= 8 && Reaches(Initial(bits), actions, s) && Look in actions
    ensures s.place == Waiting && s.fifo != [] ==> s.notified || Signal in s.todo
    ensures s.fifo != [] && s.todo == [] ==> exists a :: Owed(s, a) && a != Run
  {
    InitialInv(bits);
    EveryRun(bits, actions, s);
    RunsHeeded(Initial(bits), actions, s);
    if s.fifo != [] && s.todo == [] {
      hide Reaches, Inv;
      HeededGoesOn(s);
    }
  }

  lemma {:induction false} HeededGoesOn(s: State)
    requires Inv(s) && Heeded(s) && s.fifo != [] && s.todo == []
    ensures exists a :: Owed(s, a) && a != Run
  {
    hide Pending, Worked, Settled, Conserved, EncodedInv;
    assert s.lock != Jni;
    var a := match s.place
      case Looking => Look
      case Waiting => Wake
      case Relock => Again
      case Encoding => if s.current < |s.batch| then Encode(true) else Finish
      case Start => Begin
      case Drowsy => Sleep
      case Exited => Run;
    assert Owed(s, a);
  }
}
