/** What the steps of one call come to when the writer thread takes none in between. */
module JniAlone {
  import opened Bytes
  import opened WriteFifo

  /** All steps that are left, one after the other. */
  function RunAlone(s: State): (t: State)
    decreases |s.todo|
  {
    if s.todo == [] then s else RunAlone(JniStep(s))
  }

  lemma {:induction false} StepAlone(s: State, m: Micro, t: seq<Micro>)
    ensures RunAlone(s.(todo := [m] + t)) == RunAlone(JniStep(s.(todo := [m])).(todo := t))
  {
    assert ([m] + t)[1..] == t && [m][1..] == [];
    assert JniStep(s.(todo := [m] + t)) == JniStep(s.(todo := [m])).(todo := t);
  }

  predicate BetweenCalls(s: State) {
    s.next.None? && s.lock == Free && s.place == Start && !s.notified
  }

  function Flushed(s: State): State {
    if s.buffer.Some? then s.(fifo := s.fifo + [s.buffer.data], buffer := None) else s
  }

  lemma {:induction false} DetachAlone(s: State, t: seq<Micro>)
    requires BetweenCalls(s) && s.buffer.Some?
    ensures RunAlone(s.(todo := [Detach, Lock] + t))
         == RunAlone(s.(next := s.buffer, buffer := None, lock := Jni, todo := t))
  {
    StepAlone(s, Detach, [Lock] + t);
    StepAlone(s.(next := s.buffer, buffer := None), Lock, t);
    hide RunAlone;
    assert [Detach, Lock] + t == [Detach] + ([Lock] + t);
  }

  lemma {:induction false} AppendAlone(s: State, t: seq<Micro>)
    requires s.next.Some? && s.lock == Jni
    ensures RunAlone(s.(todo := [Append, Unlock] + t))
         == RunAlone(s.(fifo := s.fifo + [s.next.data], next := None, lock := Free, todo := t))
  {
    StepAlone(s, Append, [Unlock] + t);
    StepAlone(s.(fifo := s.fifo + [s.next.data], next := None), Unlock, t);
    hide RunAlone;
    assert [Append, Unlock] + t == [Append] + ([Unlock] + t);
  }

  lemma {:induction false} FlushAlone(s: State, t: seq<Micro>)
    requires BetweenCalls(s) && s.buffer.Some?
    ensures RunAlone(s.(todo := FlushSteps(true) + t)) == RunAlone(Flushed(s).(todo := t))
  {
    hide RunAlone;
    DetachAlone(s, [Append, Unlock] + t);
    AppendAlone(s.(next := s.buffer, buffer := None, lock := Jni), t);
    assert FlushSteps(true) + t == [Detach, Lock] + ([Append, Unlock] + t);
  }

  lemma {:induction false} FillAlone(s: State, n: nat, data: Entry, t: seq<Micro>)
    requires BetweenCalls(s) && s.buffer.None?
    ensures RunAlone(s.(todo := [Fresh(n), Copy(data)] + t)) == RunAlone(s.(buffer := Some(n, data), todo := t))
  {
    StepAlone(s, Fresh(n), [Copy(data)] + t);
    StepAlone(s.(buffer := Some(n, [])), Copy(data), t);
    assert [Fresh(n), Copy(data)] + t == [Fresh(n)] + ([Copy(data)] + t);
    assert [] + data == data;
  }

  /** What write comes to. */
  lemma {:induction false} WriteAlone(s: State, bytes: seq<Byte>)
    requires BetweenCalls(s) && s.bits >= 8 && s.todo == []
    ensures var n, data := |bytes| / (s.bits / 8), Samples(s.bits, bytes);
      RunAlone(s.(todo := WriteSteps(s.bits, s.buffer, bytes))) ==
        if n > 32768 then Flushed(Flushed(s).(buffer := Some(n, data)))
        else if s.buffer.Some? && |s.buffer.data| + n <= 32768 then
          s.(buffer := s.buffer.(data := s.buffer.data + data))
        else Flushed(s).(buffer := Some(32768, data))
  {
    var n, data := |bytes| / (s.bits / 8), Samples(s.bits, bytes);
    hide Samples;
    if n > CAPACITY {
      LargeAlone(s, n, data);
    } else {
      SmallAlone(s, n, data);
    }
  }

  /** What flush comes to: the write buffer goes into the list. */
  lemma {:induction false} FlushCallAlone(s: State)
    requires BetweenCalls(s) && s.bits >= 8 && Enabled(s, CallFlush)
    ensures RunAlone(Apply(s, CallFlush)) == Flushed(s)
  {
    var steps := FlushSteps(s.buffer.Some?) + [Signal];
    if s.buffer.Some? {
      FlushAlone(s, [Signal]);
    } else {
      assert steps == [Signal];
    }
    EndAlone(Flushed(s));
  }

  lemma {:induction false} LargeAlone(s: State, n: nat, data: Entry)
    requires BetweenCalls(s) && s.todo == []
    ensures RunAlone(s.(todo := FlushSteps(s.buffer.Some?) + [Fresh(n), Copy(data)] + FlushSteps(true) + [Signal]))
         == Flushed(Flushed(s).(buffer := Some(n, data)))
  {
    var end := FlushSteps(true) + [Signal];
    var mid := [Fresh(n), Copy(data)] + end;
    assert FlushSteps(s.buffer.Some?) + [Fresh(n), Copy(data)] + FlushSteps(true) + [Signal]
        == FlushSteps(s.buffer.Some?) + mid;
    var u := Flushed(s);
    if s.buffer.Some? {
      FlushAlone(s, mid);
    } else {
      assert FlushSteps(false) + mid == mid;
    }
    FillAlone(u, n, data, end);
    FlushAlone(u.(buffer := Some(n, data)), [Signal]);
    EndAlone(Flushed(u.(buffer := Some(n, data))));
  }

  lemma {:induction false} EndAlone(s: State)
    requires BetweenCalls(s)
    ensures RunAlone(s.(todo := [Signal])) == s.(todo := [])
  {
    StepAlone(s, Signal, []);
    assert [Signal] + [] == [Signal];
  }

  lemma {:induction false} FullAlone(s: State, data: Entry)
    requires BetweenCalls(s) && s.todo == [] && s.buffer.Some?
    ensures RunAlone(s.(todo := FlushSteps(true) + [Signal] + [Fresh(CAPACITY), Copy(data)]))
         == Flushed(s).(buffer := Some(CAPACITY, data))
  {
    var fill := [Fresh(CAPACITY), Copy(data)];
    assert fill + [] == fill;
    FlushAlone(s, [Signal] + fill);
    StepAlone(Flushed(s), Signal, fill);
    FillAlone(Flushed(s), CAPACITY, data, []);
    assert FlushSteps(true) + [Signal] + fill == FlushSteps(true) + ([Signal] + fill);
  }

  lemma {:induction false} SmallAlone(s: State, n: nat, data: Entry)
    requires BetweenCalls(s) && s.todo == []
    ensures var full := s.buffer.Some? && |s.buffer.data| + n > CAPACITY;
      var steps := (if full then FlushSteps(true) + [Signal] else [])
        + (if full || s.buffer.None? then [Fresh(CAPACITY)] else [])
        + [Copy(data)];
      RunAlone(s.(todo := steps)) ==
        if s.buffer.Some? && !full then s.(buffer := s.buffer.(data := s.buffer.data + data))
        else Flushed(s).(buffer := Some(CAPACITY, data))
  {
    var fill := [Fresh(CAPACITY), Copy(data)];
    assert fill + [] == fill && [Copy(data)] + [] == [Copy(data)];
    if s.buffer.Some? && |s.buffer.data| + n <= CAPACITY {
      StepAlone(s, Copy(data), []);
      assert [] + [] + [Copy(data)] == [Copy(data)];
    } else if s.buffer.Some? {
      FullAlone(s, data);
      assert FlushSteps(true) + [Signal] + [Fresh(CAPACITY)] + [Copy(data)] == FlushSteps(true) + [Signal] + fill;
    } else {
      assert [] + [Fresh(CAPACITY)] + [Copy(data)] == fill;
      FillAlone(s, CAPACITY, data, []);
    }
  }
}
