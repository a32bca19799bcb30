/** Recordings of 8 or 16 bits through FLACStreamEncoder: the numbers encoded are those that were recorded. */
module Recording {
  import opened Bytes
  import opened Sequences
  import opened WriteFifo
  import opened FifoSafety
  import PcmFormat

  /** The numbers that n bytes hold in two's complement. */
  predicate InRange(x: seq<int>, n: nat) {
    forall i :: 0 <= i < |x| ==> -Pow256(n) <= 2 * x[i] < Pow256(n)
  }

  /** A block of samples as the microphone buffer has them: n bytes each, low-order byte first. */
  function Recorded(x: seq<int>, n: nat): (bytes: seq<Byte>)
    ensures |bytes| == n * |x|
  {
    PcmFormat.Packed(x, n, false, false)
  }

  lemma {:induction false} OneByteNext(front: seq<Byte>, last: Byte)
    ensures Samples(8, front + [last]) == Samples(8, front) + [Signed(last, 1)]
  {
    hide Signed;
  }

  lemma {:induction false} TwoBytesNext(front: seq<Byte>, last: seq<Byte>)
    requires |front| % 2 == 0 && |last| == 2
    ensures Samples(16, front + last) == Samples(16, front) + [Signed(FromLittleEndian(last), 2)]
  {
    hide Signed, FromLittleEndian;
    var k := |front| / 2;
    var a, b := Samples(16, front + last), Samples(16, front);
    assert |a| == k + 1 && |b| == k;
    assert (front + last)[2 * k..2 * k + 2] == last;
    forall i | 0 <= i < k ensures a[i] == b[i] {
      assert (front + last)[2 * i..2 * i + 2] == front[2 * i..2 * i + 2];
    }
  }

  lemma {:induction false} SamplesNext(n: nat, front: seq<Byte>, last: seq<Byte>)
    requires 1 <= n <= 2 && |front| % n == 0 && |last| == n
    ensures Samples(8 * n, front + last) == Samples(8 * n, front) + [Signed(FromLittleEndian(last), n)]
  {
    hide Samples, Signed;
    if n == 1 {
      assert last == [last[0]] && last[1..] == [];
      OneByteNext(front, last[0]);
    } else {
      TwoBytesNext(front, last);
    }
  }

  /** copyBuffer stores the numbers that were recorded, the negative ones with their sign. */
  lemma {:induction false} SamplesAreThoseRecorded(x: seq<int>, n: nat)
    requires 1 <= n <= 2 && InRange(x, n)
    ensures Samples(8 * n, Recorded(x, n)) == x
  {
    hide Signed, LittleEndian, FromLittleEndian, Pow256;
    if x != [] {
      var k := |x| - 1;
      assert -Pow256(n) <= 2 * x[k] < Pow256(n);
      var front, last := Recorded(x[..k], n), LittleEndian(x[k], n);
      assert Recorded(x, n) == front + last;
      SamplesAreThoseRecorded(x[..k], n);
      SignedFieldRoundTrip(x[k], n);
      assert |front| % n == 0 by {
        RemainderUnique(|front|, n, k, 0);
      }
      SamplesNext(n, front, last);
    }
  }

  /** The calls of write in a run bring these blocks, one after the other. */
  predicate Records(n: nat, actions: seq<Action>, blocks: seq<seq<int>>) {
    if actions == [] then blocks == []
    else if actions[0].CallWrite? then
      && blocks != [] && InRange(blocks[0], n) && actions[0].bytes == Recorded(blocks[0], n)
      && Records(n, actions[1..], blocks[1..])
    else Records(n, actions[1..], blocks)
  }

  lemma {:induction false} WrittenIsRecorded(n: nat, actions: seq<Action>, blocks: seq<seq<int>>)
    requires 1 <= n <= 2 && Records(n, actions, blocks)
    ensures Written(8 * n, actions) == Flat(blocks)
    decreases |actions|
  {
    hide Samples, Recorded, InRange;
    if actions != [] {
      if actions[0].CallWrite? {
        SamplesAreThoseRecorded(blocks[0], n);
        WrittenIsRecorded(n, actions[1..], blocks[1..]);
      } else {
        WrittenIsRecorded(n, actions[1..], blocks);
      }
    }
  }

  /**
   In every run without failures: what the encoder got are the first of the samples recorded, in order, and the rest is
   on its way; once the writer thread has ended, they are all of them.
   */
  lemma {:induction false} EncodedIsRecorded(n: nat, actions: seq<Action>, blocks: seq<seq<int>>, s: State)
    requires 1 <= n <= 2 && Records(n, actions, blocks)
    requires Reaches(Initial(8 * n), actions, s) && Encode(false) !in actions
    ensures s.current <= |s.batch|
    ensures Flat(blocks)
         == s.encoded + Flat(s.batch[s.current..]) + Flat(s.fifo) + Held(s.next) + Held(s.buffer) + Pending(s.todo)
    ensures s.encoded <= Flat(blocks)
    ensures s.place == Exited ==> s.encoded == Flat(blocks)
  {
    hide Reaches, Records, Written, Flat, Pending;
    WrittenIsRecorded(n, actions, blocks);
    NothingLostOnTheWay(8 * n, actions, s);
    if s.place == Exited {
      ShutdownLosesNothing(8 * n, actions, s);
    }
  }
}
