/** When the destructor of FLACStreamEncoder comes back from pthread_join, and when it never does. */
module FifoShutdown {
  import opened WriteFifo
  import opened FifoSafety

  /** The destructor is done. */
  predicate Done(s: State) {
    s.closing && s.todo == [] && s.place == Exited
  }

  /** A step that can be taken without a call from outside and without a wakeup nobody sent. */
  predicate Owed(s: State, a: Action) {
    Enabled(s, a) && !a.CallWrite? && !a.CallFlush? && !a.CallDestroy? && (a.Wake? ==> s.notified)
  }

  // Every step after the kill flag is one less

  function LookCost(fifo: seq<Entry>): nat {
    4 * |fifo| + if fifo == [] then 1 else 4
  }

  /** How many steps the writer can still take once nothing is appended any more. */
  function WriterCost(s: State): int {
    match s.place
    case Start => LookCost(s.fifo) + 3
    case Drowsy => LookCost(s.fifo) + 2
    case Waiting => LookCost(s.fifo) + 1
    case Looking => LookCost(s.fifo)
    case Encoding => 4 * (|s.batch| - s.current) - s.retry + 2 + LookCost(s.fifo)
    case Relock => LookCost(s.fifo) + 1
    case Exited => 0
  }

  function StepsLeft(s: State): int {
    |s.todo| + WriterCost(s)
  }

  lemma {:induction false} JniStepsCount(s: State)
    requires JniInv(s) && s.kill && JniEnabled(s)
    ensures var t := JniStep(s); t.kill && |t.todo| == |s.todo| - 1 && WriterCost(t) == WriterCost(s)
  {
    NothingAfterKill(s.todo, s.buffer, s.next, s.lock == Jni, s.closing);
    assert !s.todo[0].Append?;
    hide Safe, Pending;
  }

  lemma {:induction false} WriterStepsCount(s: State, a: Action)
    requires WriterInv(s) && s.kill && s.bits >= 8 && Enabled(s, a)
    requires !a.Run? && !a.CallWrite? && !a.CallFlush? && !a.CallDestroy?
    ensures var t := Apply(s, a); t.kill && t.todo == s.todo && WriterCost(t) < WriterCost(s)
  {
    hide Worked, Settled, WriteSteps, DestroySteps, FlushSteps, JniStep, Samples;
  }

  lemma {:induction false} KilledStepsCount(s: State, a: Action)
    requires Inv(s) && s.kill && Enabled(s, a)
    ensures Apply(s, a).kill && 0 <= StepsLeft(Apply(s, a)) < StepsLeft(s)
  {
    StepKeeps(s, a);
    CostsNothingLess(Apply(s, a));
    NothingAfterKill(s.todo, s.buffer, s.next, s.lock == Jni, s.closing);
    if a.Run? {
      JniStepsCount(s);
    } else {
      WriterStepsCount(s, a);
    }
    hide Inv, JniInv, WriterInv, Conserved, EncodedInv, WriterCost, JniStep, LookStep, EncodeStep, Close;
  }

  /** No run goes on for ever once the kill flag is set. */
  lemma {:induction false} ShutdownEnds(s: State, actions: seq<Action>, t: State)
    requires Inv(s) && s.kill && Reaches(s, actions, t)
    ensures |actions| <= StepsLeft(s)
    decreases |actions|
  {
    CostsNothingLess(s);
    if actions != [] {
      KilledStepsCount(s, actions[0]);
      StepKeeps(s, actions[0]);
      hide Inv, Apply, StepsLeft;
      ShutdownEnds(Apply(s, actions[0]), actions[1..], t);
    }
  }

  lemma {:induction false} CostsNothingLess(s: State)
    requires Inv(s)
    ensures StepsLeft(s) >= 0
  {
    hide Safe, Pending, Worked, Settled, Conserved, EncodedInv, JniInv;
  }

  // When it never comes back

  /** Only [Join] is left and the writer sleeps on a signal that will not come. */
  predicate Hung(s: State) {
    s.kill && s.todo == [Join] && s.place == Waiting && !s.notified
  }

  /** A run in which pthread_cond_wait returns only when it was signalled. */
  predicate Quietly(s: State, actions: seq<Action>, t: State)
    decreases |actions|
  {
    if actions == [] then s == t
    else
      && s.bits >= 8 && Enabled(s, actions[0]) && (actions[0].Wake? ==> s.notified)
      && Quietly(Apply(s, actions[0]), actions[1..], t)
  }

  /** The destructor is about to broadcast. */
  predicate Broadcasting(s: State) {
    s.kill && s.todo == [Signal, Join]
  }

  /** The broadcast has been sent, and the writer has heard it or will look again anyway. */
  predicate Reached(s: State) {
    && s.kill && s.closing && (s.todo == [Join] || (s.todo == [] && s.place == Exited))
    && (s.place == Looking || s.place == Encoding || s.place == Relock || s.place == Exited
        || (s.place == Waiting && s.notified))
  }

  lemma {:induction false} ReachedStays(s: State, a: Action)
    requires Inv(s) && Reached(s) && Enabled(s, a)
    ensures Reached(Apply(s, a))
  {
    hide Safe, Pending, Worked, Settled, Conserved, EncodedInv, WriteSteps, DestroySteps, FlushSteps, Samples;
  }

  /** Somebody can always go on. */
  lemma {:induction false} ReachedGoesOn(s: State)
    requires Inv(s) && Reached(s) && !Done(s)
    ensures exists a :: Owed(s, a)
  {
    hide Pending, Worked, Settled, Conserved, EncodedInv;
    assert s.lock != Jni;
    var a := match s.place
      case Looking => Look
      case Waiting => Wake
      case Relock => Again
      case Encoding => if s.current < |s.batch| then Encode(true) else Finish
      case _ => Run;
    assert Owed(s, a);
  }

  lemma {:induction false} ReachedRuns(s: State, actions: seq<Action>, t: State)
    requires Inv(s) && Reached(s) && Quietly(s, actions, t)
    ensures |actions| <= StepsLeft(s) && Inv(t) && Reached(t)
    decreases |actions|
  {
    CostsNothingLess(s);
    if actions != [] {
      KilledStepsCount(s, actions[0]);
      StepKeeps(s, actions[0]);
      ReachedStays(s, actions[0]);
      hide Inv, Apply, StepsLeft, Reached;
      ReachedRuns(Apply(s, actions[0]), actions[1..], t);
    }
  }

  /** The writer went to sleep for the first time after the broadcast, or is on its way there. */
  predicate Missed(s: State) {
    && s.kill && s.closing && s.todo == [Join]
    && (s.place == Start || s.place == Drowsy || (s.place == Waiting && !s.notified))
  }

  lemma {:induction false} MissedStays(s: State, a: Action)
    requires s.bits >= 8 && Missed(s) && Enabled(s, a) && (a.Wake? ==> s.notified)
    ensures Missed(Apply(s, a))
  {
    hide WriteSteps, DestroySteps, FlushSteps, Samples;
  }

  lemma {:induction false} MissedForEver(s: State, actions: seq<Action>, t: State)
    requires Missed(s) && Quietly(s, actions, t)
    ensures Missed(t) && !Done(t)
    decreases |actions|
  {
    if actions != [] {
      MissedStays(s, actions[0]);
      hide Apply, Missed;
      MissedForEver(Apply(s, actions[0]), actions[1..], t);
    }
  }

  /** What the broadcast meets. */
  lemma {:induction false} BroadcastSplits(s: State)
    requires Inv(s) && Broadcasting(s)
    ensures s.closing
    ensures if s.place == Start || s.place == Drowsy then Missed(JniStep(s)) else Reached(JniStep(s))
  {
    NothingAfterKill(s.todo, s.buffer, s.next, s.lock == Jni, s.closing);
    hide Safe, Pending, Worked, Settled, Conserved, EncodedInv;
  }

  /** There is a way to the end: a run that finishes. */
  ghost predicate CanFinish(s: State) {
    exists actions, t :: Quietly(s, actions, t) && Done(t)
  }

  lemma {:induction false} ReachedCanFinish(s: State)
    requires Inv(s) && Reached(s)
    ensures CanFinish(s)
    decreases StepsLeft(s)
  {
    CostsNothingLess(s);
    if Done(s) {
      assert Quietly(s, [], s);
    } else {
      hide Inv, Reached, Apply, StepsLeft, Done;
      ReachedGoesOn(s);
      var a :| Owed(s, a);
      var u := Apply(s, a);
      KilledStepsCount(s, a);
      StepKeeps(s, a);
      ReachedStays(s, a);
      ReachedCanFinish(u);
      var actions, t :| Quietly(u, actions, t) && Done(t);
      assert ([a] + actions)[1..] == actions;
      assert Quietly(s, [a] + actions, t);
    }
  }

  /**
   The destructor comes back from pthread_join if and only if its broadcast finds the writer thread past its first
   pthread_cond_wait; spurious wakeups aside. When it does, every run ends, and only with the destructor done.
   */
  lemma {:induction false} JoinReturnsIffWriterHadSlept(s: State)
    requires Inv(s) && Broadcasting(s)
    ensures CanFinish(JniStep(s)) <==> s.place != Start && s.place != Drowsy
    ensures s.place != Start && s.place != Drowsy ==>
      forall actions, t :: Quietly(JniStep(s), actions, t) ==>
        |actions| <= StepsLeft(JniStep(s)) && (Done(t) || exists a :: Owed(t, a))
  {
    var u := JniStep(s);
    BroadcastSplits(s);
    RunKeeps(s);
    hide Inv, Broadcasting, JniStep, StepsLeft, Reached, Missed, Quietly, Done, Owed;
    if s.place == Start || s.place == Drowsy {
      forall actions, t | Quietly(u, actions, t) ensures !Done(t) {
        MissedForEver(u, actions, t);
      }
    } else {
      ReachedCanFinish(u);
      forall actions, t | Quietly(u, actions, t)
        ensures |actions| <= StepsLeft(u) && (Done(t) || exists a :: Owed(t, a))
      {
        ReachedRuns(u, actions, t);
        if !Done(t) {
          ReachedGoesOn(t);
        }
      }
    }
  }

  // From the call of the destructor

  /** A bound on the steps that are left, before the kill flag is set and after it, once the destructor was called. */
  function RunsOut(s: State): int {
    8 * |s.todo| + Course(s)
  }

  function Queue(fifo: seq<Entry>): nat {
    4 * |fifo| + if fifo == [] then 0 else 3
  }

  function Course(s: State): int {
    match s.place
    case Start => Queue(s.fifo) + 6
    case Drowsy => Queue(s.fifo) + 3
    case Waiting => Queue(s.fifo) + if s.notified then 5 else 2
    case Looking => Queue(s.fifo) + 4
    case Encoding => 4 * (|s.batch| - s.current) - s.retry + 6 + Queue(s.fifo)
    case Relock => Queue(s.fifo) + 5
    case Exited => 0
  }

  lemma {:induction false} NeverNegative(s: State)
    requires Inv(s)
    ensures RunsOut(s) >= 0
  {
    hide Safe, Pending, Worked, Settled, Conserved, EncodedInv, JniInv;
  }

  lemma {:induction false} ClosingRunsOut(s: State, a: Action)
    requires Inv(s) && s.closing && Enabled(s, a) && (a.Wake? ==> s.notified)
    ensures Apply(s, a).closing && RunsOut(Apply(s, a)) < RunsOut(s)
  {
    hide Safe, Pending, Worked, Settled, Conserved, EncodedInv, WriteSteps, DestroySteps, FlushSteps, Samples;
    if a.Run? {
      JniCosts(s);
    }
  }

  lemma {:induction false} JniCosts(s: State)
    requires JniInv(s) && WriterInv(s) && JniEnabled(s)
    ensures var t := JniStep(s); |t.todo| == |s.todo| - 1 && t.closing == s.closing && Course(t) <= Course(s) + 7
  {
    JniTouches(s);
    hide WriterInv, JniInv, JniStep;
  }

  /** What a step of the JNI thread changes of what the writer thread sees. */
  lemma {:induction false} JniTouches(s: State)
    requires JniEnabled(s)
    ensures var t := JniStep(s);
      && t.todo == s.todo[1..] && t.closing == s.closing
      && t.place == s.place && t.batch == s.batch && t.current == s.current && t.retry == s.retry
      && |s.fifo| <= |t.fifo| <= |s.fifo| + 1 && (s.todo[0].Signal? ==> t.fifo == s.fifo)
      && (!s.todo[0].Signal? ==> t.notified == s.notified)
      && (t.kill ==> s.kill || s.todo[0].SetKill?)
  {}

  /** The writer is past its first look at the lock, and hears the broadcast if that has been sent. */
  predicate UnderWay(s: State) {
    && s.closing && s.place != Start
    && (s.todo != [] ==> EndsInJoin(s.todo))
    && (s.kill ==> s.place != Drowsy)
    && (|s.todo| <= 1 ==> Reached(s))
  }

  /** The steps up to pthread_join, the broadcast right before it. */
  predicate EndsInJoin(todo: seq<Micro>) {
    && todo != [] && todo[|todo| - 1] == Join
    && (|todo| > 1 ==> todo[|todo| - 2] == Signal)
  }

  lemma {:induction false} UnderWayStays(s: State, a: Action)
    requires Inv(s) && UnderWay(s) && Enabled(s, a) && (a.Wake? ==> s.notified)
    ensures UnderWay(Apply(s, a))
  {
    if |s.todo| <= 1 {
      ReachedStays(s, a);
    }
    if a.Run? {
      JniUnderWay(s);
    } else {
      WriterStaysAwake(s, a);
    }
    hide Inv, Reached, Apply;
  }

  lemma {:induction false} JniStaysAwake(s: State)
    requires Inv(s) && s.closing && s.place != Start && JniEnabled(s) && (s.kill ==> s.place != Drowsy)
    ensures var t := JniStep(s);
      t.closing && t.place != Start && (t.kill ==> t.place != Drowsy) && t.todo == s.todo[1..]
  {
    NextFinds(s);
    JniTouches(s);
    hide Inv, JniStep, JniEnabled;
  }

  lemma {:induction false} WriterStaysAwake(s: State, a: Action)
    requires s.bits >= 8 && s.closing && s.place != Start && Enabled(s, a) && !a.Run? && (s.kill ==> s.place != Drowsy)
    ensures var t := Apply(s, a);
      t.closing && t.place != Start && (t.kill ==> t.place != Drowsy) && t.todo == s.todo && t.kill == s.kill
  {
    hide WriteSteps, DestroySteps, FlushSteps, Samples, JniStep, JniEnabled;
  }

  lemma {:induction false} NextFinds(s: State)
    requires Inv(s) && JniEnabled(s)
    ensures s.todo[0].SetKill? ==> s.lock == Jni
    ensures s.place == Drowsy ==> s.lock == Writer
  {
    RunFinds(s);
    hide Pending, Worked, Settled, Conserved, EncodedInv, Safe;
  }

  lemma {:induction false} JniUnderWay(s: State)
    requires Inv(s) && UnderWay(s) && JniEnabled(s) && (|s.todo| <= 1 ==> Reached(JniStep(s)))
    ensures UnderWay(JniStep(s))
  {
    JniStaysAwake(s);
    if |s.todo| == 2 {
      assert s.todo == [Signal, Join];
      KilledByThen(s);
      BroadcastSplits(s);
    }
  }

  lemma {:induction false} KilledByThen(s: State)
    requires Inv(s) && s.todo == [Signal, Join]
    ensures s.kill
  {
    var rest: seq<Micro> := [Join];
    assert s.todo[1..] == rest;
    assert Safe(rest, s.buffer, s.next, s.lock == Jni, s.kill, s.closing);
    hide Pending, Worked, Settled, Conserved, EncodedInv;
  }

  lemma {:induction false} UnderWayGoesOn(s: State)
    requires Inv(s) && UnderWay(s) && !Done(s)
    ensures exists a :: Owed(s, a)
  {
    hide Inv, Reached, Done;
    if |s.todo| <= 1 {
      ReachedGoesOn(s);
    } else if JniEnabled(s) {
      hide JniEnabled;
      assert Owed(s, Run);
    } else {
      LockIsTaken(s);
      hide JniEnabled;
      assert Owed(s, if s.place == Drowsy then Sleep else Look);
    }
  }

  lemma {:induction false} LockIsTaken(s: State)
    requires Inv(s) && |s.todo| > 1 && !JniEnabled(s)
    ensures s.place == Drowsy || s.place == Looking
  {
    hide Pending, Worked, Settled, Conserved, EncodedInv;
  }

  lemma {:induction false} UnderWayRuns(s: State, actions: seq<Action>, t: State)
    requires Inv(s) && UnderWay(s) && Quietly(s, actions, t)
    ensures Inv(t) && UnderWay(t)
    decreases |actions|
  {
    if actions != [] {
      StepKeeps(s, actions[0]);
      UnderWayStays(s, actions[0]);
      hide Inv, Apply, UnderWay;
      UnderWayRuns(Apply(s, actions[0]), actions[1..], t);
    }
  }

  lemma {:induction false} ClosingEnds(s: State, actions: seq<Action>, t: State)
    requires Inv(s) && s.closing && Quietly(s, actions, t)
    ensures |actions| <= RunsOut(s)
    decreases |actions|
  {
    NeverNegative(s);
    if actions != [] {
      ClosingRunsOut(s, actions[0]);
      StepKeeps(s, actions[0]);
      hide Inv, Apply, RunsOut;
      ClosingEnds(Apply(s, actions[0]), actions[1..], t);
    }
  }

  /** As long as the writer thread has not started, nothing is in the way of the destructor up to pthread_join. */
  lemma {:induction false} AloneToJoin(s: State) returns (actions: seq<Action>, t: State)
    requires Inv(s) && s.closing && s.place == Start && EndsInJoin(s.todo)
    ensures Quietly(s, actions, t)
    ensures Inv(t) && t.kill && t.todo == [Join] && t.place == Start && t.lock != Jni
    decreases |s.todo|
  {
    if |s.todo| == 1 {
      actions, t := [], s;
      JoinFindsFree(s);
    } else {
      StartsFree(s);
      StepKeeps(s, Run);
      JniCosts(s);
      hide Inv, JniEnabled;
      var rest;
      rest, t := AloneToJoin(JniStep(s));
      actions := [Run] + rest;
      QuietStep(s, Run, rest, t);
    }
  }

  lemma {:induction false} JoinFindsFree(s: State)
    requires Inv(s) && s.todo == [Join]
    ensures s.kill && s.lock != Jni
  {
    hide Pending, Worked, Settled, Conserved, EncodedInv;
  }

  lemma {:induction false} StartsFree(s: State)
    requires Inv(s) && s.place == Start && EndsInJoin(s.todo) && |s.todo| > 1
    ensures JniEnabled(s) && JniStep(s).place == Start && JniStep(s).closing == s.closing && EndsInJoin(JniStep(s).todo)
  {
    hide Pending, Worked, Settled, Conserved, EncodedInv;
  }

  lemma {:induction false} SleepsForEver(t: State) returns (actions: seq<Action>, u: State)
    requires Inv(t) && t.kill && t.todo == [Join] && t.place == Start && t.lock != Jni
    ensures Quietly(t, actions, u) && Hung(u)
  {
    var drowsy := Apply(t, Begin);
    u := Apply(drowsy, Sleep);
    QuietStep(drowsy, Sleep, [], u);
    QuietStep(t, Begin, [Sleep], u);
    actions := [Begin] + [Sleep];
    hide Safe, Pending, Worked, Settled, Conserved, EncodedInv;
  }

  lemma {:induction false} QuietConcat(s: State, a: seq<Action>, t: State, b: seq<Action>, u: State)
    requires Quietly(s, a, t) && Quietly(t, b, u)
    ensures Quietly(s, a + b, u)
    decreases |a|
  {
    hide Apply;
    if a == [] {
      assert a + b == b;
    } else {
      QuietConcat(Apply(s, a[0]), a[1..], t, b, u);
      assert (a + b)[1..] == a[1..] + b;
    }
  }

  lemma {:induction false} HungIsStuck(s: State)
    requires Hung(s)
    ensures !Done(s) && forall a :: !Owed(s, a)
  {}

  /** A run that gets stuck with the destructor not done. */
  ghost predicate CanHang(s: State) {
    exists actions, t :: Quietly(s, actions, t) && !Done(t) && forall a :: !Owed(t, a)
  }

  lemma {:induction false} DestroyEndsInJoin(filled: bool)
    ensures EndsInJoin(DestroySteps(filled)) && |DestroySteps(filled)| > 1
  {}

  /**
   Spurious wakeups aside, every run from a call of the destructor is bounded, and it comes back from pthread_join in
   every one of them if and only if the writer thread had taken the lock for the first time before the call.
   */
  lemma {:induction false} DestructorReturnsIffWriterHadStarted(s: State)
    requires Inv(s) && Enabled(s, CallDestroy)
    ensures var u := Apply(s, CallDestroy);
      && (forall actions, t :: Quietly(u, actions, t) ==> |actions| <= RunsOut(u))
      && (CanHang(u) <==> s.place == Start)
  {
    var u := Apply(s, CallDestroy);
    StepKeeps(s, CallDestroy);
    DestroyEndsInJoin(s.buffer.Some?);
    BeforeTheCall(s);
    hide Inv, Apply, DestroySteps, Quietly, RunsOut;
    forall actions, t | Quietly(u, actions, t) ensures |actions| <= RunsOut(u) {
      ClosingEnds(u, actions, t);
    }
    if s.place == Start {
      HangsFromStart(u);
    } else {
      NeverHangs(u);
    }
  }

  lemma {:induction false} HangsFromStart(u: State)
    requires Inv(u) && u.closing && u.place == Start && EndsInJoin(u.todo)
    ensures CanHang(u)
  {
    hide Inv, Done, Owed, Hung;
    var actions, t := AloneToJoin(u);
    var more, end := SleepsForEver(t);
    QuietConcat(u, actions, t, more, end);
    HungIsStuck(end);
  }

  lemma {:induction false} NeverHangs(u: State)
    requires Inv(u) && UnderWay(u)
    ensures !CanHang(u)
  {
    hide Inv, Done, Owed, UnderWay;
    forall actions, t | Quietly(u, actions, t) && !Done(t) ensures exists a :: Owed(t, a) {
      UnderWayRuns(u, actions, t);
      UnderWayGoesOn(t);
    }
  }

  lemma {:induction false} BeforeTheCall(s: State)
    requires Inv(s) && Enabled(s, CallDestroy)
    ensures var u := Apply(s, CallDestroy);
      && s.bits >= 8 && u.closing && !u.kill && u.place == s.place && u.todo == DestroySteps(s.buffer.Some?)
  {
    hide Pending, Worked, Settled, Conserved, EncodedInv, DestroySteps;
  }

  /** An encoder destroyed as soon as it is made need not come back. */
  lemma {:induction false} ShutdownCanHang()
    ensures Enabled(Initial(16), CallDestroy) && CanHang(Apply(Initial(16), CallDestroy))
  {
    InitialInv(16);
    DestructorReturnsIffWriterHadStarted(Initial(16));
  }

  lemma {:induction false} QuietStep(s: State, a: Action, rest: seq<Action>, t: State)
    requires s.bits >= 8 && Enabled(s, a) && (a.Wake? ==> s.notified) && Quietly(Apply(s, a), rest, t)
    ensures Quietly(s, [a] + rest, t)
  {
    assert ([a] + rest)[1..] == rest;
  }
}
