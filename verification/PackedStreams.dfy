/** Bit packers as streams of bits: what the calls of bitwise.c do to them. */
module PackedStreams {
  import opened BitOps
  import opened BitPacking
  import opened Bits
  import opened Bytes
  import opened Wrappers

  /** A packer being written: cleared after an error, otherwise the bits so far. */
  datatype Sink = Cleared | Open(bits: seq<bool>)

  /** oggpack_write and oggpackB_write. */
  function Put(s: Sink, v: nat, n: int, msb: bool): Sink {
    if n < 0 || n > 32 then Cleared
    else if s.Cleared? then Cleared
    else Open(s.bits + Encode(v, n, msb))
  }

  /** oggpack_writealign. */
  function Align(s: Sink, msb: bool): Sink {
    if s.Open? && |s.bits| % 8 != 0 then Put(s, 0, 8 - |s.bits| % 8, msb) else s
  }

  /** After it the length is a multiple of 8, and the fewer than 8 bits added are clear. */
  lemma {:induction false} AlignFills(s: Sink, msb: bool)
    requires s.Open?
    ensures var t := Align(s, msb);
      && t.Open? && |t.bits| % 8 == 0 && |s.bits| <= |t.bits| < |s.bits| + 8
      && t.bits[..|s.bits|] == s.bits
      && forall i :: |s.bits| <= i < |t.bits| ==> !t.bits[i]
  {
    if |s.bits| % 8 != 0 {
      var n := 8 - |s.bits| % 8;
      var more := Encode(0, n, msb);
      forall i | 0 <= i < n ensures !more[i] {
        ZeroBit(if msb then n - 1 - i else i);
      }
    }
  }

  /** Where a packer being read is, which after a failure is behind the end; and what came out. */
  datatype Got = Got(pos: nat, value: Option<nat>)

  function Look(bits: seq<bool>, pos: nat, n: int, msb: bool): Option<nat> {
    if 0 <= n <= 32 && pos + n <= |bits| then Some(Decode(bits[pos..pos + n], msb)) else None
  }

  /** oggpack_adv. */
  function Advance(bits: seq<bool>, pos: nat, n: nat): nat {
    if pos + n > |bits| then |bits| + 1 else pos + n
  }

  /** oggpack_read. */
  function Read(bits: seq<bool>, pos: nat, n: int, msb: bool): Got {
    if n < 0 || n > 32 || pos + n > |bits| then Got(|bits| + 1, None)
    else Got(pos + n, Some(Decode(bits[pos..pos + n], msb)))
  }

  /** A read is a look and an advance by the same width. */
  lemma {:induction false} ReadIsLookThenAdvance(bits: seq<bool>, pos: nat, n: nat, msb: bool)
    requires n <= 32
    ensures Read(bits, pos, n, msb) == Got(Advance(bits, pos, n), Look(bits, pos, n, msb))
  {}

  datatype Field = Field(value: nat, width: nat)

  function PutAll(s: Sink, fields: seq<Field>, msb: bool): Sink
    decreases |fields|
  {
    if fields == [] then s else PutAll(Put(s, fields[0].value, fields[0].width, msb), fields[1..], msb)
  }

  /** Reads of the given widths, one after the other. */
  function ReadAll(bits: seq<bool>, pos: nat, widths: seq<int>, msb: bool): (r: (nat, seq<Option<nat>>))
    ensures |r.1| == |widths|
    decreases |widths|
  {
    if widths == [] then (pos, [])
    else
      var first := Read(bits, pos, widths[0], msb);
      var rest := ReadAll(bits, first.pos, widths[1..], msb);
      (rest.0, [first.value] + rest.1)
  }

  function Widths(fields: seq<Field>): (widths: seq<int>)
    ensures |widths| == |fields|
  {
    seq(|fields|, i requires 0 <= i < |fields| => fields[i].width)
  }

  predicate Narrow(fields: seq<Field>) {
    forall i :: 0 <= i < |fields| ==> fields[i].width <= 32
  }

  /** After a failed read, a read of any width fails. */
  lemma {:induction false} OverflowSticks(bits: seq<bool>, pos: nat, widths: seq<int>, msb: bool, i: nat)
    requires pos > |bits| && i < |widths|
    ensures ReadAll(bits, pos, widths, msb).1[i] == None
    decreases |widths|
  {
    if i > 0 {
      OverflowSticks(bits, |bits| + 1, widths[1..], msb, i - 1);
    }
  }

  /** A width above 32 clears the packer, and nothing written later brings it back. */
  lemma {:induction false} BadWidthClears(s: Sink, fields: seq<Field>, msb: bool)
    ensures PutAll(s, fields, msb).Cleared? <==> s.Cleared? || !Narrow(fields)
    decreases |fields|
  {
    hide Encode;
    if fields != [] {
      var t := Put(s, fields[0].value, fields[0].width, msb);
      BadWidthClears(t, fields[1..], msb);
      assert Narrow(fields) <==> fields[0].width <= 32 && Narrow(fields[1..]) by {
        assert forall i :: 0 < i < |fields| ==> fields[i] == fields[1..][i - 1];
        assert forall i :: 0 <= i < |fields| - 1 ==> fields[1..][i] == fields[i + 1];
      }
    }
  }

  /** What is written stays in front of what is written later. */
  lemma {:induction false} PutAllExtends(s: Sink, fields: seq<Field>, msb: bool)
    requires s.Open? && Narrow(fields)
    ensures var t := PutAll(s, fields, msb); t.Open? && s.bits <= t.bits
    decreases |fields|
  {
    if fields != [] {
      PutAllExtends(Put(s, fields[0].value, fields[0].width, msb), fields[1..], msb);
    }
  }

  /**
   Fields written one after the other, then read with the same widths from any bits that start with what was written,
   come back masked to their widths.
   */
  lemma {:induction false} WrittenReadsBack(s: Sink, fields: seq<Field>, msb: bool, bits: seq<bool>)
    requires s.Open? && Narrow(fields)
    requires PutAll(s, fields, msb).Open? && PutAll(s, fields, msb).bits <= bits
    ensures var r := ReadAll(bits, |s.bits|, Widths(fields), msb);
      && r.0 == |PutAll(s, fields, msb).bits|
      && forall i :: 0 <= i < |fields| ==> r.1[i] == Some(fields[i].value % Pow2(fields[i].width))
    decreases |fields|
  {
    if fields != [] {
      var f := fields[0];
      var t := Put(s, f.value, f.width, msb);
      PutAllExtends(t, fields[1..], msb);
      OneReadsBack(s, f, msb, bits);
      hide Decode, Encode, Pow2, Read, Put;
      WrittenReadsBack(t, fields[1..], msb, bits);
      assert Widths(fields)[1..] == Widths(fields[1..]);
      var r := ReadAll(bits, |s.bits|, Widths(fields), msb);
      forall i | 0 <= i < |fields| ensures r.1[i] == Some(fields[i].value % Pow2(fields[i].width)) {
        if i > 0 {
          assert fields[i] == fields[1..][i - 1];
        }
      }
    }
  }

  lemma {:induction false} OneReadsBack(s: Sink, f: Field, msb: bool, bits: seq<bool>)
    requires s.Open? && f.width <= 32 && Put(s, f.value, f.width, msb).bits <= bits
    ensures Read(bits, |s.bits|, f.width, msb) == Got(|s.bits| + f.width, Some(f.value % Pow2(f.width)))
  {
    var t := Put(s, f.value, f.width, msb);
    assert t.bits[|s.bits|..] == Encode(f.value, f.width, msb);
    assert bits[|s.bits|..|s.bits| + f.width] == t.bits[|s.bits|..];
    DecodeEncode(f.value, f.width, msb);
  }

  /** The bytes oggpack_bytes counts. */
  function ByteCount(bits: nat): nat {
    (bits + 7) / 8
  }

  /**
   Round trip: any list of fields of up to 32 bits, written into a new packer, then read with the same widths from the
   oggpack_bytes bytes of its buffer, comes back masked to the widths. Behind it there is less than a byte; a read
   that asks for more fails, and so does every read after it.
   */
  lemma {:induction false} PackUnpack(fields: seq<Field>, msb: bool, buf: seq<Byte>, more: seq<int>)
    requires Narrow(fields)
    requires var t := PutAll(Open([]), fields, msb);
      t.Open? && |buf| == ByteCount(|t.bits|) && Content(buf, |t.bits|, msb) == t.bits
    ensures var bits := Content(buf, 8 * |buf|, msb);
      var r := ReadAll(bits, 0, Widths(fields), msb);
      && |bits| - 8 < r.0 <= |bits|
      && (forall i :: 0 <= i < |fields| ==> r.1[i] == Some(fields[i].value % Pow2(fields[i].width)))
      && (more != [] && !(0 <= more[0] <= |bits| - r.0 && more[0] <= 32) ==>
            forall i :: 0 <= i < |more| ==> ReadAll(bits, r.0, more, msb).1[i] == None)
  {
    hide PutAll, ReadAll, Content, Decode, Pow2;
    var t := PutAll(Open([]), fields, msb);
    var bits := Content(buf, 8 * |buf|, msb);
    ContentPrefix(buf, |t.bits|, 8 * |buf|, msb);
    assert t.bits <= bits;
    WrittenReadsBack(Open([]), fields, msb, bits);
    var r := ReadAll(bits, 0, Widths(fields), msb);
    if more != [] && !(0 <= more[0] <= |bits| - r.0 && more[0] <= 32) {
      forall i | 0 <= i < |more| ensures ReadAll(bits, r.0, more, msb).1[i] == None {
        FailureSticks(bits, r.0, more, msb, i);
      }
    }
  }

  lemma {:induction false} FailureSticks(bits: seq<bool>, pos: nat, more: seq<int>, msb: bool, i: nat)
    requires i < |more| && !(0 <= more[0] <= 32 && pos + more[0] <= |bits|)
    ensures ReadAll(bits, pos, more, msb).1[i] == None
  {
    if i > 0 {
      OverflowSticks(bits, |bits| + 1, more[1..], msb, i - 1);
    }
  }
}
