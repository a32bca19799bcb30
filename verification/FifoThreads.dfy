/** FLACStreamEncoder's write buffer, linked list and writer loop, step by step on the heap. */
module FifoThreads {
  import opened Bytes
  import opened WriteFifo
  import opened FifoSafety
  import opened Sequences
  import opened JniAlone

  /** write_fifo_t: owns its buffer. */
  class Node {
    var next: Node?
    const buffer: array<int>
    const fillSize: nat

    constructor (buffer: array<int>, fillSize: nat)
      requires fillSize <= buffer.Length
      ensures next == null && this.buffer == buffer && this.fillSize == fillSize
    {
      next := null;
      this.buffer := buffer;
      this.fillSize := fillSize;
    }
  }

  function After(nodes: seq<Node>, i: nat): Node? {
    if i + 1 < |nodes| then nodes[i + 1] else null
  }

  /** The nodes are the list that starts at head, no node in it twice. */
  ghost predicate IsList(head: Node?, nodes: seq<Node>)
    reads nodes
  {
    && head == (if nodes == [] then null else nodes[0])
    && (forall i :: 0 <= i < |nodes| ==> nodes[i].next == After(nodes, i))
    && (forall i, j :: 0 <= i < j < |nodes| ==> nodes[i] != nodes[j])
    && (forall i :: 0 <= i < |nodes| ==> nodes[i].fillSize <= nodes[i].buffer.Length)
  }

  /** A node that is in no list yet. */
  ghost predicate Loose(node: Node)
    reads node
  {
    node.next == null && node.fillSize <= node.buffer.Length
  }

  ghost predicate Disjoint(a: seq<Node>, b: seq<Node>) {
    forall i, j :: 0 <= i < |a| && 0 <= j < |b| ==> a[i] != b[j]
  }

  /** The write buffer belongs to none of the nodes. */
  ghost predicate Apart(nodes: seq<Node>, writeBuffer: array?<int>) {
    forall i :: 0 <= i < |nodes| ==> nodes[i].buffer != writeBuffer
  }

  function Samples32(node: Node): (data: Entry)
    reads node.buffer
  {
    if node.fillSize <= node.buffer.Length then node.buffer[..node.fillSize] else []
  }

  /** What the entries of a list hold. */
  function Contents(nodes: seq<Node>): (entries: seq<Entry>)
    reads set i | 0 <= i < |nodes| :: nodes[i].buffer
    ensures |entries| == |nodes|
  {
    if nodes == [] then [] else Contents(nodes[..|nodes| - 1]) + [Samples32(nodes[|nodes| - 1])]
  }

  /** write_fifo_t::last. */
  method Last(head: Node, ghost nodes: seq<Node>) returns (last: Node)
    requires IsList(head, nodes)
    ensures nodes != [] && last == nodes[|nodes| - 1]
  {
    last := head;
    ghost var i := 0;
    while last.next != null
      invariant 0 <= i < |nodes| && last == nodes[i]
      decreases |nodes| - i
    {
      assert last.next == After(nodes, i);
      last := last.next;
      i := i + 1;
    }
  }

  /** Puts the node behind the last one; another list that has no node in common stays a list. */
  method Link(head: Node?, node: Node, ghost nodes: seq<Node>, ghost otherHead: Node?, ghost others: seq<Node>)
      returns (first: Node)
    requires IsList(otherHead, others) && Disjoint(nodes, others)
    requires IsList(head, nodes) && node !in nodes && Loose(node)
    modifies nodes`next
    ensures IsList(first, nodes + [node]) && node.next == null && IsList(otherHead, others)
  {
    if head != null {
      var last := Last(head, nodes);
      last.next := node;
      first := head;
    } else {
      first := node;
    }
  }

  class FLACStreamEncoder {
    const bitsPerSample: nat
    var writeBuffer: array?<int>
    var writeBufferOffset: nat
    var next: Node?          // the local of flush_to_fifo
    var fifo: Node?
    var batch: Node?         // the local fifo of writer_thread
    var encoded: seq<int>    // what process_interleaved has accepted
    ghost var shared: seq<Node>
    ghost var owned: seq<Node>

    ghost predicate Valid()
      reads this, shared, owned, next
    {
      && IsList(fifo, shared) && IsList(batch, owned) && Disjoint(shared, owned)
      && (next != null ==> Loose(next) && next !in shared && next !in owned && next.buffer != writeBuffer)
      && (writeBuffer != null ==> writeBufferOffset <= writeBuffer.Length)
      && Apart(shared, writeBuffer) && Apart(owned, writeBuffer)
    }

    function Current(): Buffer
      reads this, writeBuffer
    {
      if writeBuffer == null || writeBufferOffset > writeBuffer.Length then None
      else Some(writeBuffer.Length, writeBuffer[..writeBufferOffset])
    }

    function Next(): Entry
      reads this, if next == null then {} else {next.buffer}
    {
      if next == null then [] else Samples32(next)
    }

    constructor (bitsPerSample: nat)
      ensures Valid() && this.bitsPerSample == bitsPerSample
      ensures Current() == None && next == null && shared == [] && owned == [] && encoded == []
    {
      this.bitsPerSample := bitsPerSample;
      writeBuffer, next, fifo, batch := null, null, null, null;
      writeBufferOffset := 0;
      encoded := [];
      shared, owned := [], [];
    }

    /** flush_to_fifo before the lock: the write buffer goes to a new entry. */
    method Detach()
      requires Valid() && writeBuffer != null && next == null
      modifies this`writeBuffer, this`next
      ensures Valid() && Current() == None
      ensures next != null && fresh(next) && Next() == old(Current()).data
    {
      next := new Node(writeBuffer, writeBufferOffset);
      writeBuffer := null;
    }

    /** flush_to_fifo under the lock: the only node it can write to is the last one of the list. */
    method Append()
      requires Valid() && next != null
      modifies this`fifo, this`next, this`shared, shared`next
      ensures Valid() && next == null
      ensures shared == old(shared) + [old(next)] && owned == old(owned)
      ensures Contents(shared) == old(Contents(shared)) + [old(Next())]
      ensures forall n <- owned :: n.next == old(n.next)
    {
      hide Samples32, IsList;
      assert (shared + [next])[..|shared|] == shared;
      fifo := Link(fifo, next, shared, batch, owned);
      shared := shared + [next];
      next := null;
    }

    /** A new write buffer of n samples. */
    method NewBuffer(n: nat)
      requires Valid() && writeBuffer == null
      modifies this`writeBuffer, this`writeBufferOffset
      ensures Valid() && Current() == Some(n, []) && fresh(writeBuffer)
    {
      writeBuffer := new int[n];
      writeBufferOffset := 0;
    }

    /** The loop of copyBuffer. */
    method StoreSamples(bytes: seq<Byte>, n: nat)
      requires writeBuffer != null && n == |Samples(bitsPerSample, bytes)|
      requires bitsPerSample == 8 || bitsPerSample == 16
      requires writeBufferOffset + n <= writeBuffer.Length
      modifies writeBuffer
      ensures writeBuffer[..writeBufferOffset] == old(writeBuffer[..writeBufferOffset])
      ensures writeBuffer[writeBufferOffset..writeBufferOffset + n] == Samples(bitsPerSample, bytes)
    {
      hide FromLittleEndian, Signed;
      ghost var samples := Samples(bitsPerSample, bytes);
      for i := 0 to n
        invariant forall j :: 0 <= j < writeBufferOffset ==> writeBuffer[j] == old(writeBuffer[j])
        invariant forall j :: 0 <= j < i ==> writeBuffer[writeBufferOffset + j] == samples[j]
      {
        writeBuffer[writeBufferOffset + i] :=
          if bitsPerSample == 8 then Signed(bytes[i], 1) else Signed(FromLittleEndian(bytes[2 * i..2 * i + 2]), 2);
      }
    }

    /** copyBuffer; yields what write returns. */
    method CopyBuffer(bytes: seq<Byte>) returns (ret: nat)
      requires Valid() && writeBuffer != null
      requires writeBufferOffset + |Samples(bitsPerSample, bytes)| <= writeBuffer.Length
      modifies this`writeBufferOffset, writeBuffer
      ensures Valid() && writeBuffer == old(writeBuffer)
      ensures Current() == Some(writeBuffer.Length, old(Current()).data + Samples(bitsPerSample, bytes))
      ensures ret == if bitsPerSample == 8 || bitsPerSample == 16 then |bytes| else 0
    {
      ghost var samples, before := Samples(bitsPerSample, bytes), Current().data;
      if bitsPerSample == 8 || bitsPerSample == 16 {
        var n := |bytes| / (bitsPerSample / 8);
        StoreSamples(bytes, n);
        assert writeBuffer[..writeBufferOffset + n] == before + samples;
        writeBufferOffset := writeBufferOffset + n;
        ret := |bytes|;
      } else {
        ret := 0;
      }
    }

    /** flush_to_fifo. */
    method FlushToFifo()
      requires Valid() && next == null
      modifies this`writeBuffer, this`next, this`fifo, this`shared, shared`next
      ensures Valid() && next == null && Current() == None && writeBuffer == null && owned == old(owned)
      ensures Contents(shared) == old(Contents(shared)) + if old(Current()).Some? then [old(Current()).data] else []
      ensures fresh(set n | n in shared && n !in old(shared))
    {
      hide IsList, Contents, Samples32;
      if writeBuffer == null {
        return;
      }
      Detach();
      Append();
    }

    /** The state between two calls, nothing but the JNI thread's part in it. */
    ghost function View(): State
      reads this, writeBuffer, set i | 0 <= i < |shared| :: shared[i].buffer
    {
      Initial(bitsPerSample).(fifo := Contents(shared), buffer := Current())
    }

    /** write, when the writer thread does nothing in the meantime: its branches take the steps of WriteSteps. */
    method Write(bytes: seq<Byte>) returns (ret: nat)
      requires Valid() && next == null && bitsPerSample >= 8 && Kept(Current())
      modifies this`writeBuffer, this`writeBufferOffset, this`next, this`fifo, this`shared, shared`next, writeBuffer
      ensures Valid() && next == null && Kept(Current()) && owned == old(owned)
      ensures View() == RunAlone(old(View()).(todo := WriteSteps(bitsPerSample, old(Current()), bytes)))
      ensures ret == if bitsPerSample == 8 || bitsPerSample == 16 then |bytes| else 0
    {
      hide Samples, Samples32, Contents, IsList, WriteSteps, RunAlone, Flushed;
      SamplesFit(bitsPerSample, bytes);
      var bufsize32 := |bytes| / (bitsPerSample / 8);
      WriteAlone(View(), bytes);
      if bufsize32 > CAPACITY {
        ret := WriteLarge(bytes, bufsize32);
      } else {
        ret := WriteSmall(bytes, bufsize32);
      }
    }

    /** More than a write buffer can hold. */
    method WriteLarge(bytes: seq<Byte>, bufsize32: nat) returns (ret: nat)
      requires Valid() && next == null && bufsize32 > CAPACITY && |Samples(bitsPerSample, bytes)| <= bufsize32
      modifies this`writeBuffer, this`writeBufferOffset, this`next, this`fifo, this`shared, shared`next, writeBuffer
      ensures Valid() && next == null && Current() == None && owned == old(owned)
      ensures View() == Flushed(Flushed(old(View())).(buffer := Some(bufsize32, Samples(bitsPerSample, bytes))))
      ensures ret == if bitsPerSample == 8 || bitsPerSample == 16 then |bytes| else 0
    {
      hide Samples, Samples32, Contents, IsList;
      FlushToFifo();
      NewBuffer(bufsize32);
      ret := CopyBuffer(bytes);
      assert Current() == Some(bufsize32, Samples(bitsPerSample, bytes));
      FlushToFifo();
    }

    method WriteSmall(bytes: seq<Byte>, bufsize32: nat) returns (ret: nat)
      requires Valid() && next == null && bufsize32 <= CAPACITY && |Samples(bitsPerSample, bytes)| <= bufsize32
      requires Kept(Current())
      modifies this`writeBuffer, this`writeBufferOffset, this`next, this`fifo, this`shared, shared`next, writeBuffer
      ensures Valid() && next == null && Kept(Current()) && owned == old(owned)
      ensures var s, data := old(View()), Samples(bitsPerSample, bytes);
        View() == if s.buffer.Some? && |s.buffer.data| + bufsize32 <= CAPACITY
                  then s.(buffer := s.buffer.(data := s.buffer.data + data))
                  else Flushed(s).(buffer := Some(CAPACITY, data))
      ensures ret == if bitsPerSample == 8 || bitsPerSample == 16 then |bytes| else 0
    {
      hide Samples, Samples32, Contents, IsList;
      if writeBuffer != null && writeBufferOffset + bufsize32 > CAPACITY {
        FlushToFifo();
      }
      if writeBuffer == null {
        NewBuffer(CAPACITY);
      }
      ret := CopyBuffer(bytes);
    }

    /** The writer, holding the lock, makes the list its own. */
    method TakeFifo()
      requires Valid() && owned == []
      modifies this`fifo, this`batch, this`shared, this`owned
      ensures Valid() && shared == [] && owned == old(shared)
      ensures Contents(owned) == old(Contents(shared))
    {
      batch := fifo;
      fifo := null;
      owned := shared;
      shared := [];
    }

    /** FLAC__stream_encoder_process_interleaved: it takes all of the buffer or fails. */
    method ProcessInterleaved(buffer: array<int>, size: nat) returns (ok: bool)
      requires size <= buffer.Length
      modifies this`encoded
      ensures encoded == old(encoded) + if ok then buffer[..size] else []
    {
      ok := *;
      if ok {
        encoded := encoded + buffer[..size];
      }
    }

    /** The inner loop of writer_thread, outside the lock, and the deletion of the batch. */
    method EncodeBatch() returns (ghost fate: Fate)
      requires Valid()
      modifies this`batch, this`owned, this`encoded
      ensures Valid() && batch == null && owned == [] && shared == old(shared)
      ensures Settled(fate) && fate.entries == old(Contents(owned))
      ensures encoded == old(encoded) + Flat(fate.entries[..fate.handed])
    {
      hide Settled, Contents, IsList, Flat;
      fate := EncodeEntries(batch, owned);
      batch := null;
      owned := [];
      assert IsList(batch, owned) by {
        EmptyList();
      }
    }

    method EncodeEntries(head: Node?, ghost nodes: seq<Node>) returns (ghost fate: Fate)
      requires IsList(head, nodes)
      modifies this`encoded
      ensures Settled(fate) && fate.entries == Contents(nodes)
      ensures encoded == old(encoded) + Flat(fate.entries[..fate.handed])
    {
      hide Worked, Flat, Contents, IsList, Samples32, Settled;
      ListStarts(head, nodes);
      var retry := 0;
      var current := head;
      ghost var entries, i, calls := Contents(nodes), 0, [];
      WorkedStart();
      NoEntries(entries);
      while current != null
        invariant i <= |nodes| && current == (if i < |nodes| then nodes[i] else null)
        invariant retry <= 3 && (i == |nodes| ==> retry == 0) && Worked(calls, i, retry)
        invariant encoded == old(encoded) + Flat(entries[..i])
        decreases |nodes| - i, 4 - retry
      {
        ContentsAt(nodes, i);
        ListGoesOn(head, nodes, i);
        FlatNext(entries, i);
        var ok := ProcessInterleaved(current.buffer, current.fillSize);
        WorkedCall(calls, i, retry, ok);
        calls := calls + [Call(i, ok)];
        if ok {
          retry := 0;
        } else {
          retry := retry + 1;
          if retry > 3 {
            break;
          }
          continue;
        }
        current := current.next;
        i := i + 1;
      }
      fate := Fate(entries, i, calls);
      BatchSettled(fate, if i < |nodes| then 4 else 0);
    }
  }

  lemma {:induction false} ListStarts(head: Node?, nodes: seq<Node>)
    requires IsList(head, nodes)
    ensures head == if nodes == [] then null else nodes[0]
  {}

  lemma {:induction false} ListGoesOn(head: Node?, nodes: seq<Node>, i: nat)
    requires IsList(head, nodes) && i < |nodes|
    ensures nodes[i].next == After(nodes, i) && nodes[i].fillSize <= nodes[i].buffer.Length
    ensures Samples32(nodes[i]) == nodes[i].buffer[..nodes[i].fillSize]
  {}

  lemma {:induction false} BatchSettled(f: Fate, failures: nat)
    requires f.handed <= |f.entries| && Worked(f.calls, f.handed, failures)
    requires failures == if f.handed < |f.entries| then 4 else 0
    ensures Settled(f)
  {}

  lemma {:induction false} EmptyList()
    ensures IsList(null, [])
  {}

  lemma {:induction false} NoEntries(entries: seq<Entry>)
    ensures Flat(entries[..0]) == []
  {}

  lemma {:induction false} ContentsAt(nodes: seq<Node>, i: nat)
    requires i < |nodes|
    ensures Contents(nodes)[i] == Samples32(nodes[i])
  {
    if i < |nodes| - 1 {
      ContentsAt(nodes[..|nodes| - 1], i);
    }
  }
}
