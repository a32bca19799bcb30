/** What every interleaving of the two threads keeps, and what is left when the writer thread has ended. */
module FifoSafety {
  import opened Sequences
  import opened WriteFifo

  lemma {:induction false} FlatNext(a: seq<Entry>, n: nat)
    requires n < |a|
    ensures Flat(a[..n + 1]) == Flat(a[..n]) + a[n]
    ensures Flat(a[n..]) == a[n] + Flat(a[n + 1..])
  {
    assert a[..n + 1] == a[..n] + [a[n]];
    FlatConcat(a[..n], [a[n]]);
    assert Flat([a[n]]) == a[n] + Flat([]);
  }

  function Held(b: Buffer): Entry {
    if b.Some? then b.data else []
  }

  /** The samples of all batches the writer is done with. */
  function Taken(past: seq<Fate>): Entry {
    if past == [] then [] else Taken(past[..|past| - 1]) + Flat(past[|past| - 1].entries)
  }

  /** Of those, the samples that the encoder took. */
  function Handed(past: seq<Fate>): Entry {
    if past == [] then []
    else
      var f := past[|past| - 1];
      Handed(past[..|past| - 1]) + Flat(if f.handed <= |f.entries| then f.entries[..f.handed] else [])
  }

  // One batch

  function Count(calls: seq<Call>, c: Call): nat {
    if calls == [] then 0
    else Count(calls[..|calls| - 1], c) + if calls[|calls| - 1] == c then 1 else 0
  }

  lemma {:induction false} CountNext(calls: seq<Call>, d: Call, c: Call)
    ensures Count(calls + [d], c) == Count(calls, c) + if d == c then 1 else 0
  {
    assert (calls + [d])[..|calls|] == calls;
  }

  /**
   Entries before done went through once, after three failures at most; entry done failed so often; no later one was
   tried.
   */
  predicate Tried(calls: seq<Call>, k: nat, done: nat, failures: nat) {
    && Count(calls, Call(k, true)) == (if k < done then 1 else 0)
    && (k < done ==> Count(calls, Call(k, false)) <= 3)
    && (k == done ==> Count(calls, Call(k, false)) == failures)
    && (k > done ==> Count(calls, Call(k, false)) == 0)
  }

  /** The calls go through the batch in order. */
  ghost predicate Worked(calls: seq<Call>, done: nat, failures: nat) {
    && (forall k: nat :: Tried(calls, k, done, failures))
    && (forall i, j :: 0 <= i < j < |calls| ==> calls[i].entry <= calls[j].entry)
    && (forall i :: 0 <= i < |calls| ==> calls[i].entry <= done)
  }

  lemma {:induction false} WorkedStart()
    ensures Worked([], 0, 0)
  {
    forall k: nat ensures Tried([], k, 0, 0) {}
  }

  lemma {:induction false} WorkedCall(calls: seq<Call>, done: nat, failures: nat, ok: bool)
    requires Worked(calls, done, failures) && failures <= 3
    ensures var more := calls + [Call(done, ok)];
      if ok then Worked(more, done + 1, 0) else Worked(more, done, failures + 1)
  {
    var more := calls + [Call(done, ok)];
    var d, f := if ok then done + 1 else done, if ok then 0 else failures + 1;
    forall k: nat ensures Tried(more, k, d, f) {
      assert Tried(calls, k, done, failures);
      CountNext(calls, Call(done, ok), Call(k, true));
      CountNext(calls, Call(done, ok), Call(k, false));
    }
  }

  /** What became of a batch: all of it was encoded, or all before an entry that failed four times. */
  ghost predicate Settled(f: Fate) {
    f.handed <= |f.entries| && Worked(f.calls, f.handed, if f.handed < |f.entries| then 4 else 0)
  }

  // The invariant

  /** The JNI thread can go on, and has the lock when it needs it. */
  predicate JniInv(s: State) {
    s.bits >= 8 && Safe(s.todo, s.buffer, s.next, s.lock == Jni, s.kill, s.closing)
  }

  ghost predicate WriterInv(s: State) {
    && (s.lock == Writer <==> s.place == Drowsy || s.place == Looking)
    && s.current <= |s.batch| && s.retry <= 3 && (s.current == |s.batch| ==> s.retry == 0)
    && Worked(s.calls, s.current, s.retry)
    && (s.place != Encoding ==> s.batch == [])
    && (s.place == Exited ==> s.kill && s.fifo == [])
    && (forall i :: 0 <= i < |s.past| ==> Settled(s.past[i]))
  }

  /** Where every sample handed to write is: nothing twice, nothing missing, all in order. */
  predicate Conserved(s: State) {
    s.submitted == Taken(s.past) + Flat(s.batch) + Unclaimed(s.fifo, s.next, s.buffer, s.todo)
  }

  /** What the writer has not claimed yet. */
  function Unclaimed(fifo: seq<Entry>, next: Buffer, buffer: Buffer, todo: seq<Micro>): Entry {
    Flat(fifo) + Held(next) + Held(buffer) + Pending(todo)
  }

  predicate EncodedInv(s: State) {
    s.encoded == Handed(s.past) + Flat(if s.current <= |s.batch| then s.batch[..s.current] else [])
  }

  ghost predicate Inv(s: State) {
    JniInv(s) && WriterInv(s) && Conserved(s) && EncodedInv(s)
  }

  lemma {:induction false} InitialInv(bits: nat)
    requires bits >= 8
    ensures Inv(Initial(bits))
  {
    WorkedStart();
  }

  // The JNI thread's steps

  lemma {:induction false} RunKeepsJni(s: State)
    requires JniInv(s) && JniEnabled(s)
    ensures JniInv(JniStep(s))
  {}

  lemma {:induction false} RunKeepsWriter(s: State)
    requires JniInv(s) && WriterInv(s) && JniEnabled(s)
    ensures WriterInv(JniStep(s))
  {
    RunFinds(s);
    hide Worked, Settled, Pending, Safe;
    var t := JniStep(s);
    assert t.lock == Writer <==> s.lock == Writer;
    assert s.place == Exited ==> t.fifo == s.fifo && t.kill;
  }

  /** What the next step of the JNI thread finds. */
  lemma {:induction false} RunFinds(s: State)
    requires JniInv(s) && JniEnabled(s)
    ensures s.todo[0].Detach? ==> s.buffer.Some? && s.next.None?
    ensures s.todo[0].Append? ==> s.next.Some? && s.lock == Jni && !s.kill
    ensures s.todo[0].Fresh? ==> s.buffer.None?
    ensures s.todo[0].Copy? ==> s.buffer.Some? && |s.buffer.data| + |s.todo[0].data| <= s.buffer.capacity
    ensures s.todo[0].SetKill? ==> s.lock == Jni
    ensures s.todo[0].Unlock? ==> s.lock == Jni
  {}

  lemma {:induction false} AppendMoves(fifo: seq<Entry>, next: Buffer, buffer: Buffer, todo: seq<Micro>)
    requires next.Some?
    ensures Unclaimed(fifo + [next.data], None, buffer, todo) == Unclaimed(fifo, next, buffer, todo)
  {
    FlatConcat(fifo, [next.data]);
    assert Flat([next.data]) == next.data + Flat([]);
    hide Pending, Flat;
    assert Flat(fifo + [next.data]) + [] == Flat(fifo) + next.data;
  }

  lemma {:induction false} CopyMoves(fifo: seq<Entry>, next: Buffer, buffer: Buffer, data: Entry, rest: Entry)
    requires buffer.Some?
    ensures Flat(fifo) + Held(next) + Held(buffer.(data := buffer.data + data)) + rest
         == Flat(fifo) + Held(next) + Held(buffer) + (data + rest)
  {
    hide Flat;
  }

  lemma {:induction false} DetachMoves(fifo: seq<Entry>, buffer: Buffer, rest: Entry)
    ensures Flat(fifo) + Held(buffer) + Held(None) + rest == Flat(fifo) + Held(None) + Held(buffer) + rest
  {
    hide Flat;
  }

  lemma {:induction false} RunMovesOn(s: State)
    requires JniInv(s) && JniEnabled(s)
    ensures var t := JniStep(s);
      Unclaimed(t.fifo, t.next, t.buffer, t.todo) == Unclaimed(s.fifo, s.next, s.buffer, s.todo)
  {
    RunFinds(s);
    var t := JniStep(s);
    var p := Pending(t.todo);
    assert Pending(s.todo) == (if s.todo[0].Copy? then s.todo[0].data else []) + p;
    hide Safe, Flat, Pending, JniEnabled, JniInv;
    if s.todo[0].Append? {
      AppendMoves(s.fifo, s.next, s.buffer, t.todo);
    } else if s.todo[0].Copy? {
      CopyMoves(s.fifo, s.next, s.buffer, s.todo[0].data, p);
    } else {
      assert Pending(s.todo) == p;
      if s.todo[0].Detach? {
        DetachMoves(s.fifo, s.buffer, p);
      }
    }
  }

  lemma {:induction false} RunKeeps(s: State)
    requires Inv(s) && JniEnabled(s)
    ensures Inv(JniStep(s))
  {
    hide Safe, Worked, Settled, Taken, Handed, Flat, Pending, Unclaimed;
    RunFinds(s);
    RunKeepsJni(s);
    RunKeepsWriter(s);
    RunMovesOn(s);
  }

  // The writer's steps

  lemma {:induction false} BatchClaimed(fifo: seq<Entry>, next: Buffer, buffer: Buffer, todo: seq<Micro>)
    ensures Flat([]) + Unclaimed(fifo, next, buffer, todo) == Flat(fifo) + Unclaimed([], next, buffer, todo)
  {}

  lemma {:induction false} LookKeeps(s: State)
    requires Inv(s) && s.place == Looking
    ensures Inv(LookStep(s))
  {
    hide Taken, Handed, Safe, Pending, Worked, Settled, Flat, Unclaimed;
    WorkedStart();
    BatchClaimed(s.fifo, s.next, s.buffer, s.todo);
    if s.fifo != [] {
      assert s.fifo[..0] == s.batch[..0];
      var u := Unclaimed(s.fifo, s.next, s.buffer, s.todo);
      assert Taken(s.past) + Flat(s.batch) + u == Taken(s.past) + (Flat(s.batch) + u);
    }
  }

  lemma {:induction false} CloseKeeps(s: State)
    requires JniInv(s) && Conserved(s) && EncodedInv(s) && s.place == Encoding && s.lock != Writer
    requires Settled(Fate(s.batch, s.current, s.calls))
    requires forall i :: 0 <= i < |s.past| ==> Settled(s.past[i])
    ensures Inv(Close(s))
  {
    hide Safe, Pending, Worked, Settled, Flat, Taken, Handed, Unclaimed;
    WorkedStart();
    var f := Fate(s.batch, s.current, s.calls);
    SettledSize(f);
    FateAdded(s.past, f);
    NothingFlat();
  }

  lemma {:induction false} SettledSize(f: Fate)
    requires Settled(f)
    ensures f.handed <= |f.entries|
  {}

  lemma {:induction false} NothingFlat()
    ensures Flat<int>([]) == []
  {}

  lemma {:induction false} FateAdded(past: seq<Fate>, f: Fate)
    requires f.handed <= |f.entries|
    ensures Taken(past + [f]) == Taken(past) + Flat(f.entries)
    ensures Handed(past + [f]) == Handed(past) + Flat(f.entries[..f.handed])
  {
    assert (past + [f])[..|past|] == past;
    hide Flat;
  }

  lemma {:induction false} EncodeKeeps(s: State, ok: bool)
    requires Inv(s) && s.place == Encoding && s.current < |s.batch|
    ensures Inv(EncodeStep(s, ok))
  {
    hide Taken, Handed, Safe, Pending, Worked, Unclaimed, Flat;
    WorkedCall(s.calls, s.current, s.retry, ok);
    var t := s.(calls := s.calls + [Call(s.current, ok)]);
    if ok {
      FlatNext(s.batch, s.current);
      var h := Handed(s.past);
      assert h + Flat(s.batch[..s.current]) + s.batch[s.current] == h + Flat(s.batch[..s.current + 1]);
    } else if s.retry + 1 > 3 {
      assert Settled(Fate(t.batch, t.current, t.calls));
      CloseKeeps(t);
    }
  }

  lemma {:induction false} FinishKeeps(s: State)
    requires Inv(s) && s.place == Encoding && s.current >= |s.batch|
    ensures Inv(Close(s))
  {
    hide Taken, Handed, Safe, Pending, Worked, Unclaimed, Flat;
    assert Settled(Fate(s.batch, s.current, s.calls));
    CloseKeeps(s);
  }

  /** The places where the writer only takes or drops the lock. */
  lemma {:induction false} LockingKeeps(s: State, a: Action)
    requires Inv(s) && Enabled(s, a) && (a.Begin? || a.Sleep? || a.Wake? || a.Again?)
    ensures Inv(Apply(s, a))
  {
    hide Taken, Handed, Safe, Pending, Worked, Settled, Flat;
  }

  lemma {:induction false} CallKeeps(s: State, a: Action)
    requires Inv(s) && Enabled(s, a) && (a.CallWrite? || a.CallFlush? || a.CallDestroy?)
    ensures Inv(Apply(s, a))
  {
    hide Taken, Handed, Worked, Settled, Flat, WriteSteps, Samples, DestroySteps, FlushSteps;
    assert s.lock != Jni && !s.kill && s.next.None?;
    assert Kept(s.buffer);
    match a
    case CallWrite(bytes) => WriteIsSafe(s.bits, s.buffer, bytes);
    case CallFlush => FlushCallIsSafe(s.buffer);
    case CallDestroy => DestroyIsSafe(s.buffer);
  }

  /** Every step of either thread, and every call, keeps the invariant. */
  lemma {:induction false} StepKeeps(s: State, a: Action)
    requires Inv(s) && Enabled(s, a)
    ensures Inv(Apply(s, a))
  {
    match a
    case Run => RunKeeps(s);
    case Look => LookKeeps(s);
    case Encode(ok) => EncodeKeeps(s, ok);
    case Finish => FinishKeeps(s);
    case Begin => LockingKeeps(s, a);
    case Sleep => LockingKeeps(s, a);
    case Wake => LockingKeeps(s, a);
    case Again => LockingKeeps(s, a);
    case CallWrite(_) => CallKeeps(s, a);
    case CallFlush => CallKeeps(s, a);
    case CallDestroy => CallKeeps(s, a);
  }

  // Whole runs

  /** The samples handed to write in the course of a run. */
  function Written(bits: nat, actions: seq<Action>): Entry {
    if actions == [] then []
    else (if actions[0].CallWrite? then Samples(bits, actions[0].bytes) else []) + Written(bits, actions[1..])
  }

  lemma {:induction false} RunsKeep(s: State, actions: seq<Action>, t: State)
    requires Inv(s) && Reaches(s, actions, t)
    ensures Inv(t) && t.bits == s.bits
    ensures t.submitted == s.submitted + Written(s.bits, actions)
    decreases |actions|
  {
    hide Inv, JniInv, WriterInv, Conserved, EncodedInv, Samples;
    if actions == [] {
    } else {
      var u := Apply(s, actions[0]);
      StepKeeps(s, actions[0]);
      AppliedSubmits(s, actions[0]);
      RunsKeep(u, actions[1..], t);
    }
  }

  lemma {:induction false} AppliedSubmits(s: State, a: Action)
    requires s.bits >= 8 && Enabled(s, a)
    ensures var t := Apply(s, a);
      && t.bits == s.bits
      && t.submitted == s.submitted + if a.CallWrite? then Samples(s.bits, a.bytes) else []
  {
    hide WriteSteps, Samples, FlushSteps, DestroySteps, JniStep, LookStep, EncodeStep, Enabled;
  }

  lemma {:induction false} EveryRun(bits: nat, actions: seq<Action>, s: State)
    requires bits >= 8 && Reaches(Initial(bits), actions, s)
    ensures Inv(s) && s.submitted == Written(bits, actions)
  {
    InitialInv(bits);
    RunsKeep(Initial(bits), actions, s);
  }

  predicate Whole(s: State) {
    s.retry == 0 && forall i :: 0 <= i < |s.past| ==> s.past[i].handed == |s.past[i].entries|
  }

  lemma {:induction false} NoFailureNoLoss(s: State, actions: seq<Action>, t: State)
    requires Inv(s) && Whole(s) && Reaches(s, actions, t) && Encode(false) !in actions
    ensures Whole(t)
    decreases |actions|
  {
    if actions == [] {
    } else {
      var u := Apply(s, actions[0]);
      StepKeeps(s, actions[0]);
      WholeAfter(s, actions[0]);
      hide Inv, Whole, Apply;
      NoFailureNoLoss(u, actions[1..], t);
    }
  }

  lemma {:induction false} WholeAfter(s: State, a: Action)
    requires Inv(s) && Whole(s) && Enabled(s, a) && a != Encode(false)
    ensures Whole(Apply(s, a))
  {
    hide Safe, Worked, Settled, Conserved, EncodedInv, WriteSteps, Samples, FlushSteps, DestroySteps;
    if a.Run? {
      JniKeepsBatches(s);
      hide JniStep;
    }
  }

  lemma {:induction false} JniKeepsBatches(s: State)
    requires s.todo != []
    ensures JniStep(s).retry == s.retry && JniStep(s).past == s.past
  {}

  lemma {:induction false} WholeHanded(past: seq<Fate>)
    requires forall i :: 0 <= i < |past| ==> past[i].handed == |past[i].entries|
    ensures Handed(past) == Taken(past)
  {
    if past != [] {
      var f := past[|past| - 1];
      assert f.entries[..f.handed] == f.entries;
      WholeHanded(past[..|past| - 1]);
    }
  }

  /**
   Conservation: as long as the encoder fails no call, what it got, what the writer still has of its batch, what is in
   the list, what the JNI thread is about to append, the write buffer, and what write has yet to copy make up
   everything that was ever written, in order.
   */
  lemma {:induction false} NothingLostOnTheWay(bits: nat, actions: seq<Action>, s: State)
    requires bits >= 8 && Reaches(Initial(bits), actions, s) && Encode(false) !in actions
    ensures s.current <= |s.batch|
    ensures Written(bits, actions)
         == s.encoded + Flat(s.batch[s.current..]) + Flat(s.fifo) + Held(s.next) + Held(s.buffer) + Pending(s.todo)
  {
    hide Flat, Pending, Handed, Taken, JniInv, Worked, Settled, Reaches, Written;
    EveryRun(bits, actions, s);
    InitialInv(bits);
    NoFailureNoLoss(Initial(bits), actions, s);
    WholeHanded(s.past);
    ConservedParts(s);
  }

  lemma {:induction false} ConservedParts(s: State)
    requires Conserved(s) && EncodedInv(s) && Handed(s.past) == Taken(s.past) && s.current <= |s.batch|
    ensures s.submitted
         == s.encoded + Flat(s.batch[s.current..]) + Flat(s.fifo) + Held(s.next) + Held(s.buffer) + Pending(s.todo)
  {
    hide Flat, Pending, Handed, Taken, Held;
    var a, b, h := s.batch[..s.current], s.batch[s.current..], Handed(s.past);
    FlatConcat(a, b);
    assert a + b == s.batch;
    Regroup(h, Flat(a), Flat(b), Flat(s.fifo), Held(s.next), Held(s.buffer), Pending(s.todo));
  }

  lemma {:induction false} Regroup(h: Entry, a: Entry, b: Entry, x: Entry, y: Entry, z: Entry, w: Entry)
    ensures h + (a + b) + (x + y + z + w) == h + a + b + x + y + z + w
  {
    Assoc(h, a, b);
    Assoc(h + a + b, x, y);
    Assoc(h + a + b, x + y, z);
    Assoc(h + a + b, x + y + z, w);
  }

  lemma {:induction false} Assoc(a: Entry, b: Entry, c: Entry)
    ensures a + (b + c) == a + b + c
  {}

  /** Once the kill flag is set nothing more can come from the JNI thread. */
  lemma {:induction false} NothingAfterKill(todo: seq<Micro>, buffer: Buffer, next: Buffer, held: bool, closing: bool)
    requires Safe(todo, buffer, next, held, true, closing)
    ensures closing && buffer.None? && next.None? && Pending(todo) == []
    ensures forall i :: 0 <= i < |todo| ==> !todo[i].Append? && !todo[i].Detach? && !todo[i].Fresh? && !todo[i].Copy?
  {
    if todo != [] {
      var rest := todo[1..];
      NothingAfterKill(rest, buffer, next,
        if todo[0].Lock? || todo[0].SetKill? then true else if todo[0].Unlock? then false else held, closing);
      forall i | 0 < i < |todo|
        ensures !todo[i].Append? && !todo[i].Detach? && !todo[i].Fresh? && !todo[i].Copy?
      {
        assert todo[i] == rest[i - 1];
      }
    }
  }

  /** When the writer thread has ended, every buffer is empty and stays so; without failures everything was encoded. */
  lemma {:induction false} ShutdownLosesNothing(bits: nat, actions: seq<Action>, s: State)
    requires bits >= 8 && Reaches(Initial(bits), actions, s) && s.place == Exited
    ensures s.closing && s.fifo == [] && s.batch == [] && s.next.None? && s.buffer.None? && Pending(s.todo) == []
    ensures Written(bits, actions) == Taken(s.past) && s.encoded == Handed(s.past)
    ensures Encode(false) !in actions ==> s.encoded == Written(bits, actions)
  {
    EveryRun(bits, actions, s);
    NothingAfterKill(s.todo, s.buffer, s.next, s.lock == Jni, s.closing);
    hide Safe, Worked, Settled, Pending;
    if Encode(false) !in actions {
      NothingLostOnTheWay(bits, actions, s);
    }
  }

  /**
   With failures: each batch the writer let go of was encoded up to some entry and no further, in order; every entry
   before that one went through exactly once and within four calls, that one failed four times,
     later ones were never tried.
   */
  lemma {:induction false} FailuresDropTheTail(bits: nat, actions: seq<Action>, s: State, i: nat, k: nat)
    requires bits >= 8 && Reaches(Initial(bits), actions, s) && i < |s.past| && k < |s.past[i].entries|
    ensures var f := s.past[i];
      var passed, failed := Count(f.calls, Call(k, true)), Count(f.calls, Call(k, false));
      && passed + failed <= 4
      && (k < f.handed <==> passed == 1) && (k >= f.handed <==> passed == 0)
      && (k == f.handed <==> failed == 4) && (k > f.handed ==> failed == 0)
      && (forall a, b :: 0 <= a < b < |f.calls| ==> f.calls[a].entry <= f.calls[b].entry)
    ensures s.current <= |s.batch|
    ensures s.encoded == Handed(s.past) + Flat(s.batch[..s.current])
  {
    EveryRun(bits, actions, s);
    var f := s.past[i];
    assert Settled(f);
    assert Tried(f.calls, k, f.handed, if f.handed < |f.entries| then 4 else 0);
    hide Safe, Pending, Flat, Count;
  }

  /**
   The list changes hands under the lock: while the JNI thread appends, it holds the lock, the writer does not look,
   and the writer's batch is not the list.
   */
  lemma {:induction false} AppendIsExclusive(bits: nat, actions: seq<Action>, s: State)
    requires bits >= 8 && Reaches(Initial(bits), actions, s) && JniEnabled(s) && s.todo[0].Append?
    ensures s.lock == Jni && s.place != Looking && s.place != Drowsy && s.place != Exited && s.next.Some?
    ensures JniStep(s).batch == s.batch && JniStep(s).fifo == s.fifo + [s.next.data]
  {
    EveryRun(bits, actions, s);
    RunFinds(s);
    hide Safe, Worked, Settled;
  }

  /** Between two calls the JNI thread holds no lock and at most one buffer for 32768 samples. */
  lemma {:induction false} BetweenCalls(bits: nat, actions: seq<Action>, s: State)
    requires bits >= 8 && Reaches(Initial(bits), actions, s) && s.todo == []
    ensures s.lock != Jni && s.next.None?
    ensures s.buffer.Some? ==> |s.buffer.data| <= s.buffer.capacity == 32768
  {
    EveryRun(bits, actions, s);
  }

  /** copyBuffer never writes behind the end of the write buffer. */
  lemma {:induction false} CopyFits(bits: nat, actions: seq<Action>, s: State)
    requires bits >= 8 && Reaches(Initial(bits), actions, s) && JniEnabled(s) && s.todo[0].Copy?
    ensures s.buffer.Some? && |s.buffer.data| + |s.todo[0].data| <= s.buffer.capacity
  {
    EveryRun(bits, actions, s);
    RunFinds(s);
  }
}
