/** The two threads of FLACStreamEncoder and the list of buffers between them, as a transition system. */
module WriteFifo {
  import opened Bytes

  /** The samples of one write buffer. */
  type Entry = seq<int>

  const CAPACITY := 32768

  /** m_write_buffer: how many samples it can take, and those below m_write_buffer_offset. */
  datatype Buffer = None | Some(capacity: nat, data: Entry)

  /** What the JNI thread does between two points where the writer thread can get in between. */
  datatype Micro =
    | Detach           // new write_fifo_t takes the write buffer
    | Lock
    | Append           // the new entry goes behind the last one
    | Unlock
    | Fresh(n: nat)    // a new write buffer
    | Copy(data: Entry)
    | Signal
    | SetKill
    | Join

  datatype Holder = Free | Jni | Writer

  /** Where the writer thread is. It holds the lock in Drowsy and in Looking. */
  datatype Place = Start | Drowsy | Waiting | Looking | Encoding | Relock | Exited

  /** One call of FLAC__stream_encoder_process_interleaved, on an entry of the batch. */
  datatype Call = Call(entry: nat, ok: bool)

  /** A batch the writer is done with, how many of its entries were encoded, and the calls made. */
  datatype Fate = Fate(entries: seq<Entry>, handed: nat, calls: seq<Call>)

  datatype State = State(
    bits: nat,
    buffer: Buffer, next: Buffer, todo: seq<Micro>, closing: bool,
    lock: Holder, fifo: seq<Entry>, kill: bool,
    place: Place, batch: seq<Entry>, current: nat, retry: nat, notified: bool,
    calls: seq<Call>, past: seq<Fate>, submitted: Entry, encoded: Entry)

  datatype Action =
    | CallWrite(bytes: seq<Byte>)
    | CallFlush
    | CallDestroy
    | Run              // the JNI thread's next step
    | Begin            // the writer locks for the first time
    | Sleep            // pthread_cond_wait lets go of the lock
    | Wake             // and takes it again
    | Look             // at m_fifo and m_kill_writer
    | Encode(ok: bool)
    | Finish           // delete fifo
    | Again            // locks for another look

  function Initial(bits: nat): State {
    State(bits, None, None, [], false, Free, [], false, Start, [], 0, 0, false, [], [], [], [])
  }

  // The JNI thread

  /** The samples copyBuffer stores; no other sample size is copied at all. */
  function Samples(bits: nat, bytes: seq<Byte>): (samples: Entry) {
    if bits == 8 then seq(|bytes|, i requires 0 <= i < |bytes| => Signed(bytes[i], 1))
    else if bits == 16 then
      seq(|bytes| / 2, i requires 0 <= i < |bytes| / 2 => Signed(FromLittleEndian(bytes[2 * i..2 * i + 2]), 2))
    else []
  }

  /** flush_to_fifo. */
  function FlushSteps(filled: bool): seq<Micro> {
    if filled then [Detach, Lock, Append, Unlock] else []
  }

  /** FLACStreamEncoder::write. */
  function WriteSteps(bits: nat, buffer: Buffer, bytes: seq<Byte>): seq<Micro>
    requires bits >= 8
  {
    var n := |bytes| / (bits / 8);
    var samples := Samples(bits, bytes);
    if n > CAPACITY then
      FlushSteps(buffer.Some?) + [Fresh(n), Copy(samples)] + FlushSteps(true) + [Signal]
    else
      var full := buffer.Some? && |buffer.data| + n > CAPACITY;
      (if full then FlushSteps(true) + [Signal] else [])
      + (if full || buffer.None? then [Fresh(CAPACITY)] else [])
      + [Copy(samples)]
  }

  /** ~FLACStreamEncoder up to pthread_join. */
  function DestroySteps(filled: bool): seq<Micro> {
    FlushSteps(filled) + [Lock, SetKill, Unlock, Signal, Join]
  }

  predicate JniEnabled(s: State) {
    && s.todo != []
    && (s.todo[0].Lock? ==> s.lock == Free)
    && (s.todo[0].Join? ==> s.place == Exited)
  }

  /** A step of the JNI thread, as the code takes it: nothing checks for room or for the lock. */
  function JniStep(s: State): (r: State)
    requires s.todo != []
    ensures r.bits == s.bits && r.submitted == s.submitted
  {
    var t := s.(todo := s.todo[1..]);
    match s.todo[0]
    case Detach => t.(next := s.buffer, buffer := None)
    case Lock => t.(lock := Jni)
    case Append => if s.next.Some? then t.(fifo := s.fifo + [s.next.data], next := None) else t
    case Unlock => t.(lock := Free)
    case Fresh(n) => t.(buffer := Some(n, []))
    case Copy(data) => if s.buffer.Some? then t.(buffer := s.buffer.(data := s.buffer.data + data)) else t
    case Signal => t.(notified := s.notified || s.place == Waiting)
    case SetKill => t.(kill := true)
    case Join => t
  }

  // The transition system

  predicate Enabled(s: State, a: Action) {
    match a
    case CallWrite(_) => s.todo == [] && !s.closing
    case CallFlush => s.todo == [] && !s.closing
    case CallDestroy => s.todo == [] && !s.closing
    case Run => JniEnabled(s)
    case Begin => s.place == Start && s.lock == Free
    case Sleep => s.place == Drowsy
    case Wake => s.place == Waiting && s.lock == Free
    case Look => s.place == Looking
    case Encode(_) => s.place == Encoding && s.current < |s.batch|
    case Finish => s.place == Encoding && s.current >= |s.batch|
    case Again => s.place == Relock && s.lock == Free
  }

  function LookStep(s: State): (r: State)
    ensures r.bits == s.bits && r.submitted == s.submitted
  {
    if s.fifo != [] then
      s.(batch := s.fifo, fifo := [], current := 0, retry := 0, calls := [], lock := Free, place := Encoding)
    else if s.kill then s.(lock := Free, place := Exited)
    else s.(place := Drowsy)
  }

  /** The writer lets go of its batch. */
  function Close(s: State): State {
    s.(past := s.past + [Fate(s.batch, s.current, s.calls)], batch := [], current := 0, retry := 0, calls := [],
       place := Relock)
  }

  function EncodeStep(s: State, ok: bool): (r: State)
    requires s.current < |s.batch|
    ensures r.bits == s.bits && r.submitted == s.submitted
  {
    var t := s.(calls := s.calls + [Call(s.current, ok)]);
    if ok then t.(encoded := s.encoded + s.batch[s.current], current := s.current + 1, retry := 0)
    else if s.retry + 1 > 3 then Close(t)
    else t.(retry := s.retry + 1)
  }

  function Apply(s: State, a: Action): State
    requires s.bits >= 8 && Enabled(s, a)
  {
    match a
    case CallWrite(bytes) =>
      s.(todo := WriteSteps(s.bits, s.buffer, bytes), submitted := s.submitted + Samples(s.bits, bytes))
    case CallFlush => s.(todo := FlushSteps(s.buffer.Some?) + [Signal])
    case CallDestroy => s.(todo := DestroySteps(s.buffer.Some?), closing := true)
    case Run => JniStep(s)
    case Begin => s.(lock := Writer, place := Drowsy)
    case Sleep => s.(lock := Free, place := Waiting, notified := false)
    case Wake => s.(lock := Writer, place := Looking, notified := false)
    case Look => LookStep(s)
    case Encode(ok) => EncodeStep(s, ok)
    case Finish => Close(s)
    case Again => s.(lock := Writer, place := Looking)
  }

  /** The states that a list of actions goes through, from s on. */
  predicate Reaches(s: State, actions: seq<Action>, t: State)
    decreases |actions|
  {
    if actions == [] then s == t
    else s.bits >= 8 && Enabled(s, actions[0]) && Reaches(Apply(s, actions[0]), actions[1..], t)
  }

  // The JNI thread alone: what is left to do can be done

  /** A write buffer between calls. */
  predicate Kept(buffer: Buffer) {
    buffer.Some? ==> |buffer.data| <= buffer.capacity == CAPACITY
  }

  /** Every step left finds what it needs: the lock for the list, room for the samples, a buffer, no kill flag yet. */
  predicate Safe(todo: seq<Micro>, buffer: Buffer, next: Buffer, held: bool, kill: bool, closing: bool) {
    if todo == [] then next.None? && !held && Kept(buffer) && (closing ==> buffer.None? && kill) && (kill ==> closing)
    else
      var rest := todo[1..];
      match todo[0]
      case Detach =>
        buffer.Some? && next.None? && !held && !kill && Safe(rest, None, buffer, held, kill, closing)
      case Lock => !held && Safe(rest, buffer, next, true, kill, closing)
      case Append => held && next.Some? && buffer.None? && !kill && Safe(rest, buffer, None, held, kill, closing)
      case Unlock => held && Safe(rest, buffer, next, false, kill, closing)
      case Fresh(n) =>
        buffer.None? && next.None? && !held && !kill && Safe(rest, Some(n, []), next, held, kill, closing)
      case Copy(data) =>
        && buffer.Some? && next.None? && !held && !kill && |buffer.data| + |data| <= buffer.capacity
        && Safe(rest, buffer.(data := buffer.data + data), next, held, kill, closing)
      case Signal => !held && Safe(rest, buffer, next, held, kill, closing)
      case SetKill => held && closing && buffer.None? && next.None? && Safe(rest, buffer, next, held, true, closing)
      case Join => kill && !held && rest == [] && Safe(rest, buffer, next, held, kill, closing)
  }

  /** The samples of write calls that are still to be copied. */
  function Pending(todo: seq<Micro>): Entry {
    if todo == [] then []
    else (if todo[0].Copy? then todo[0].data else []) + Pending(todo[1..])
  }

  lemma {:induction false} SamplesFit(bits: nat, bytes: seq<Byte>)
    requires bits >= 8
    ensures |Samples(bits, bytes)| <= |bytes| / (bits / 8)
  {
    if bits != 8 && bits != 16 {
      NonNegative(|bytes|, bits / 8);
    }
  }

  lemma {:induction false} NonNegative(a: nat, b: nat)
    requires b > 0
    ensures a / b >= 0
  {}

  lemma {:induction false} PendingConcat(a: Micro, t: seq<Micro>)
    ensures ([a] + t)[1..] == t
    ensures Pending([a] + t) == (if a.Copy? then a.data else []) + Pending(t)
  {
    assert ([a] + t)[1..] == t;
  }

  lemma {:induction false} FlushIsSafe(t: seq<Micro>, data: Buffer, closing: bool)
    requires data.Some? && Safe(t, None, None, false, false, closing)
    ensures Safe(FlushSteps(true) + t, data, None, false, false, closing)
    ensures Pending(FlushSteps(true) + t) == Pending(t)
  {
    var t1 := [Unlock] + t;
    var t2 := [Append] + t1;
    var t3 := [Lock] + t2;
    PendingConcat(Unlock, t);
    PendingConcat(Append, t1);
    PendingConcat(Lock, t2);
    PendingConcat(Detach, t3);
    assert FlushSteps(true) + t == [Detach] + t3;
    assert Safe(t1, None, None, true, false, closing);
    assert Safe(t2, None, data, true, false, closing);
    assert Safe(t3, None, data, false, false, closing);
  }

  lemma {:induction false} FreshIsSafe(t: seq<Micro>, n: nat)
    requires Safe(t, Some(n, []), None, false, false, false)
    ensures Safe([Fresh(n)] + t, None, None, false, false, false)
    ensures Pending([Fresh(n)] + t) == Pending(t)
  {
    PendingConcat(Fresh(n), t);
  }

  lemma {:induction false} CopyIsSafe(t: seq<Micro>, buffer: Buffer, data: Entry)
    requires buffer.Some? && |buffer.data| + |data| <= buffer.capacity
    requires Safe(t, buffer.(data := buffer.data + data), None, false, false, false)
    ensures Safe([Copy(data)] + t, buffer, None, false, false, false)
    ensures Pending([Copy(data)] + t) == data + Pending(t)
  {
    PendingConcat(Copy(data), t);
  }

  lemma {:induction false} SignalIsSafe(t: seq<Micro>, buffer: Buffer)
    requires Safe(t, buffer, None, false, false, false)
    ensures Safe([Signal] + t, buffer, None, false, false, false)
    ensures Pending([Signal] + t) == Pending(t)
  {
    PendingConcat(Signal, t);
  }

  /** A buffer too large to share: it goes into the list at once, behind what was being filled. */
  lemma {:induction false} LargeWriteIsSafe(buffer: Buffer, n: nat, data: Entry)
    requires |data| <= n
    ensures var steps := FlushSteps(buffer.Some?) + [Fresh(n), Copy(data)] + FlushSteps(true) + [Signal];
      Safe(steps, buffer, None, false, false, false) && Pending(steps) == data
  {
    var t1: seq<Micro> := [Signal];
    var t2 := FlushSteps(true) + t1;
    var t3 := [Copy(data)] + t2;
    var t4 := [Fresh(n)] + t3;
    assert Pending([]) == [] && [Signal] + [] == t1;
    assert [] + data == data && data + [] == data;
    SignalIsSafe([], None);
    FlushIsSafe(t1, Some(n, data), false);
    CopyIsSafe(t2, Some(n, []), data);
    FreshIsSafe(t3, n);
    assert [Fresh(n), Copy(data)] + FlushSteps(true) + [Signal] == t4;
    if buffer.Some? {
      FlushIsSafe(t4, buffer, false);
      assert FlushSteps(true) + [Fresh(n), Copy(data)] + FlushSteps(true) + [Signal] == FlushSteps(true) + t4;
    } else {
      assert FlushSteps(false) + [Fresh(n), Copy(data)] + FlushSteps(true) + [Signal] == t4;
    }
  }

  lemma {:induction false} SmallWriteIsSafe(buffer: Buffer, n: nat, data: Entry)
    requires |data| <= n <= CAPACITY && Kept(buffer)
    ensures var full := buffer.Some? && |buffer.data| + n > CAPACITY;
      var steps := (if full then FlushSteps(true) + [Signal] else [])
        + (if full || buffer.None? then [Fresh(CAPACITY)] else [])
        + [Copy(data)];
      Safe(steps, buffer, None, false, false, false) && Pending(steps) == data
  {
    var t1: seq<Micro> := [Copy(data)];
    var t2 := [Fresh(CAPACITY)] + t1;
    var t3 := [Signal] + t2;
    assert Pending([]) == [] && [Copy(data)] + [] == t1 && data + [] == data && [] + data == data;
    if buffer.Some? && |buffer.data| + n <= CAPACITY {
      CopyIsSafe([], buffer, data);
      assert [] + [] + [Copy(data)] == t1;
    } else {
      CopyIsSafe([], Some(CAPACITY, []), data);
      FreshIsSafe(t1, CAPACITY);
      if buffer.Some? {
        SignalIsSafe(t2, None);
        FlushIsSafe(t3, buffer, false);
        assert FlushSteps(true) + [Signal] + [Fresh(CAPACITY)] + [Copy(data)] == FlushSteps(true) + t3;
      } else {
        assert [] + [Fresh(CAPACITY)] + [Copy(data)] == t2;
      }
    }
  }

  /** The branches of write never overrun a buffer, and copy just the samples of the call. */
  lemma {:induction false} WriteIsSafe(bits: nat, buffer: Buffer, bytes: seq<Byte>)
    requires bits >= 8 && Kept(buffer)
    ensures Safe(WriteSteps(bits, buffer, bytes), buffer, None, false, false, false)
    ensures Pending(WriteSteps(bits, buffer, bytes)) == Samples(bits, bytes)
  {
    var n := |bytes| / (bits / 8);
    var data := Samples(bits, bytes);
    SamplesFit(bits, bytes);
    hide Samples, Safe, Pending, FlushSteps;
    if n > CAPACITY {
      LargeWriteIsSafe(buffer, n, data);
    } else {
      SmallWriteIsSafe(buffer, n, data);
    }
  }

  lemma {:induction false} FlushCallIsSafe(buffer: Buffer)
    requires Kept(buffer)
    ensures Safe(FlushSteps(buffer.Some?) + [Signal], buffer, None, false, false, false)
    ensures Pending(FlushSteps(buffer.Some?) + [Signal]) == []
  {
    SignalIsSafe([], None);
    assert [Signal] + [] == [Signal];
    if buffer.Some? {
      FlushIsSafe([Signal], buffer, false);
    } else {
      assert FlushSteps(false) + [Signal] == [Signal];
    }
  }

  lemma {:induction false} DestroyIsSafe(buffer: Buffer)
    requires Kept(buffer)
    ensures Safe(DestroySteps(buffer.Some?), buffer, None, false, false, true)
    ensures Pending(DestroySteps(buffer.Some?)) == []
  {
    var t1: seq<Micro> := [Join];
    var t2 := [Signal] + t1;
    var t3 := [Unlock] + t2;
    var t4 := [SetKill] + t3;
    var t5 := [Lock] + t4;
    PendingConcat(Join, []);
    assert [Join] + [] == t1;
    PendingConcat(Signal, t1);
    PendingConcat(Unlock, t2);
    PendingConcat(SetKill, t3);
    PendingConcat(Lock, t4);
    assert Safe(t1, None, None, false, true, true);
    assert Safe(t2, None, None, false, true, true);
    assert Safe(t3, None, None, true, true, true);
    assert Safe(t4, None, None, true, false, true);
    assert t5 == [Lock, SetKill, Unlock, Signal, Join];
    if buffer.Some? {
      FlushIsSafe(t5, buffer, true);
    } else {
      assert FlushSteps(false) + t5 == t5;
    }
  }
}
