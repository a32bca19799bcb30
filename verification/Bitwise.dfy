/** oggpack_buffer: the bit packer's byte buffer and its position, written and read in place. */
module Bitwise {
  import opened BitOps
  import opened BitPacking
  import opened Bits
  import opened Buffers
  import opened Bytes
  import opened PackedStreams
  import opened Wrappers

  const BUFFER_INCREMENT := 256

  class OggPackBuffer {
    var endbyte: nat
    var endbit: nat
    var buffer: array<Byte>
    var ptr: int         // an index into buffer; -1 is NULL
    var storage: nat

    // Writing

    ghost predicate Writable(msb: bool)
      reads this, buffer
    {
      if ptr == -1 then endbyte == 0 && endbit == 0 && storage == 0
      else
        && ptr == endbyte < storage == buffer.Length && endbit < 8
        && ClearFrom(buffer[endbyte], endbit, msb)
    }

    ghost function Stream(msb: bool): Sink
      requires Writable(msb)
      reads this, buffer
    {
      if ptr == -1 then Cleared else Open(Content(buffer[..], 8 * endbyte + endbit, msb))
    }

    /** oggpack_writeinit. */
    constructor WriteInit()
      ensures Writable(false) && Stream(false) == Open([])
      ensures Writable(true) && Stream(true) == Open([])
      ensures fresh(buffer) && ptr == 0 && endbyte == 0 && endbit == 0 && storage == BUFFER_INCREMENT
    {
      endbyte, endbit, ptr, storage := 0, 0, 0, BUFFER_INCREMENT;
      buffer := new Byte[BUFFER_INCREMENT];
      new;
      buffer[0] := 0;
      ZeroIsClear(0, false);
      ZeroIsClear(0, true);
    }

    /** oggpack_writeclear. */
    method WriteClear()
      modifies this
      ensures Writable(false) && Stream(false) == Cleared
      ensures Writable(true) && Stream(true) == Cleared
      ensures fresh(buffer)
    {
      buffer := new Byte[0];
      endbyte, endbit, ptr, storage := 0, 0, -1, 0;
    }

    /** oggpack_reset. */
    method Reset(msb: bool)
      requires Writable(msb)
      modifies this`ptr, this`endbit, this`endbyte, buffer
      ensures Writable(msb) && Stream(msb) == if old(ptr) == -1 then Cleared else Open([])
    {
      if ptr == -1 {
        return;
      }
      ptr := 0;
      buffer[0] := 0;
      endbit, endbyte := 0, 0;
      ZeroIsClear(0, msb);
    }

    /** The growth of the write calls: four bytes behind the current one have to be there. */
    method Grow(msb: bool)
      requires Writable(msb) && ptr != -1
      modifies this`buffer, this`storage, this`ptr
      ensures Writable(msb) && Stream(msb) == old(Stream(msb))
      ensures ptr == endbyte && storage == old(storage) + BUFFER_INCREMENT
      ensures fresh(buffer)
    {
      var bigger := new Byte[storage + BUFFER_INCREMENT];
      CopyPrefix(buffer, bigger, storage);
      ContentSame(buffer[..], bigger[..], 8 * endbyte + endbit, msb) by {
        assert forall i :: 0 <= i < storage ==> bigger[i] == bigger[..storage][i];
      }
      buffer := bigger;
      storage := storage + BUFFER_INCREMENT;
      ptr := endbyte;
      assert buffer[endbyte] == old(buffer[endbyte]) by {
        assert buffer[..old(storage)][endbyte] == old(buffer[..])[endbyte];
      }
    }

    /** The byte stores of oggpack_write; v is masked already. */
    method StoreLsb(v: nat, bits: nat)
      requires 0 <= ptr && ptr + 4 < buffer.Length && endbit < 8 && bits <= 32 && v < Pow2(bits)
      modifies buffer
      ensures forall k :: 0 <= k <= (endbit + bits) / 8 ==>
        buffer[ptr + k] == LsbByte(old(buffer[ptr]), v, endbit, k)
      ensures forall i :: 0 <= i < ptr ==> buffer[i] == old(buffer[i])
    {
      hide Low, Shl, Shr, Or, Pow2, LowByte;
      var t := bits + endbit;
      buffer[ptr] := LowByte(Or(buffer[ptr], Shl(v, endbit)));
      if t >= 8 {
        buffer[ptr + 1] := LowByte(Shr(v, 8 - endbit));
        if t >= 16 {
          buffer[ptr + 2] := LowByte(Shr(v, 16 - endbit));
          if t >= 24 {
            buffer[ptr + 3] := LowByte(Shr(v, 24 - endbit));
            if t >= 32 {
              if endbit > 0 {
                buffer[ptr + 4] := LowByte(Shr(v, 32 - endbit));
              } else {
                buffer[ptr + 4] := 0;
                NothingShiftedIn(v, bits);
              }
            }
          }
        }
      }
    }

    /** The byte stores of oggpackB_write; v is at the top of 32 bits. */
    method StoreMsb(v: nat, bits: nat)
      requires 0 <= ptr && ptr + 4 < buffer.Length && endbit < 8 && bits <= 32
      modifies buffer
      ensures forall k :: 0 <= k <= (endbit + bits) / 8 ==>
        buffer[ptr + k] == MsbByte(old(buffer[ptr]), v, endbit, k)
      ensures forall i :: 0 <= i < ptr ==> buffer[i] == old(buffer[i])
    {
      hide Low, Shl, Shr, Or, Pow2, LowByte;
      var t := bits + endbit;
      buffer[ptr] := LowByte(Or(buffer[ptr], Shr(v, 24 + endbit)));
      if t >= 8 {
        buffer[ptr + 1] := LowByte(Shr(v, 16 + endbit));
        if t >= 16 {
          buffer[ptr + 2] := LowByte(Shr(v, 8 + endbit));
          if t >= 24 {
            buffer[ptr + 3] := LowByte(Shr(v, endbit));
            if t >= 32 {
              if endbit > 0 {
                buffer[ptr + 4] := LowByte(Shl(v, 8 - endbit));
              } else {
                buffer[ptr + 4] := 0;
                NothingShiftedOut(v);
              }
            }
          }
        }
      }
    }

    /** The bookkeeping at the end of a write. */
    method Wrote(bits: nat, ghost before: seq<Byte>, ghost v: nat, msb: bool)
      requires bits <= 32 && 0 <= ptr == endbyte && endbyte + 4 < storage == buffer.Length == |before| && endbit < 8
      requires Written(before, buffer[..], ptr, endbit, v, bits, msb) && ClearFrom(before[endbyte], endbit, msb)
      requires forall i :: 0 <= i < endbyte ==> buffer[i] == before[i]
      modifies this`endbyte, this`ptr, this`endbit
      ensures Writable(msb) && ptr != -1
      ensures Stream(msb) == Open(Content(before, old(8 * endbyte + endbit), msb) + Encode(v, bits, msb))
    {
      hide Content, Encode, Written, ClearFrom;
      WriteAppends(before, buffer[..], endbyte, endbit, v, bits, msb);
      var t := bits + endbit;
      endbyte := endbyte + t / 8;
      ptr := ptr + t / 8;
      endbit := t % 8;
    }

    /** oggpack_write. */
    method WriteLsb(value: nat, bits: int)
      requires Writable(false)
      modifies this, buffer
      ensures Writable(false) && Stream(false) == Put(old(Stream(false)), value, bits, false)
      ensures buffer == old(buffer) || fresh(buffer)
    {
      hide Content, Encode, Low, WrittenByte, LsbByte, ClearFrom;
      if bits < 0 || bits > 32 {
        WriteClear();
        return;
      }
      if endbyte >= storage - 4 {
        if ptr == -1 {
          return;
        }
        Grow(false);
      }
      ghost var before := buffer[..];
      StoreLsb(Low(value, bits), bits);
      assert Written(before, buffer[..], ptr, endbit, value, bits, false) by {
        WrittenLsb(before, buffer[..], ptr, endbit, value, bits);
      }
      Wrote(bits, before, value, false);
    }

    /** oggpackB_write. */
    method WriteMsb(value: nat, bits: int)
      requires Writable(true)
      modifies this, buffer
      ensures Writable(true) && Stream(true) == Put(old(Stream(true)), value, bits, true)
      ensures buffer == old(buffer) || fresh(buffer)
    {
      hide Content, Encode, Low, WrittenByte, MsbByte, ClearFrom;
      if bits < 0 || bits > 32 {
        WriteClear();
        return;
      }
      if endbyte >= storage - 4 {
        if ptr == -1 {
          return;
        }
        Grow(true);
      }
      ghost var before := buffer[..];
      StoreMsb(Top(value, bits), bits);
      assert Written(before, buffer[..], ptr, endbit, value, bits, true) by {
        WrittenMsb(before, buffer[..], ptr, endbit, value, bits);
      }
      Wrote(bits, before, value, true);
    }

    /** The one or the other, as writecopy's function argument says. */
    method Write(value: nat, bits: int, msb: bool)
      requires Writable(msb)
      modifies this, buffer
      ensures Writable(msb) && Stream(msb) == Put(old(Stream(msb)), value, bits, msb)
      ensures buffer == old(buffer) || fresh(buffer)
    {
      hide Content, Encode, ClearFrom, Put;
      if msb {
        WriteMsb(value, bits);
      } else {
        WriteLsb(value, bits);
      }
    }

    /** oggpack_writealign and oggpackB_writealign. */
    method WriteAlign(msb: bool)
      requires Writable(msb)
      modifies this, buffer
      ensures Writable(msb) && Stream(msb) == Align(old(Stream(msb)), msb)
    {
      hide Content, Encode, ClearFrom;
      assert old(Stream(msb)).Open? ==> |old(Stream(msb)).bits| % 8 == endbit;
      var bits := 8 - endbit;
      if bits < 8 {
        Write(0, bits, msb);
      }
    }

    /** oggpack_writetrunc and oggpackB_writetrunc, back to the first bits of what was written. */
    method WriteTrunc(bits: nat, msb: bool)
      requires Writable(msb) && (ptr != -1 ==> bits <= 8 * endbyte + endbit)
      modifies this`ptr, this`endbit, this`endbyte, buffer
      ensures Writable(msb)
      ensures Stream(msb) == if old(ptr) == -1 then Cleared else Open(old(Stream(msb)).bits[..bits])
    {
      hide KeepFirst, ByteBit;
      if ptr == -1 {
        return;
      }
      ghost var before := buffer[..];
      var bytes, rest := bits / 8, bits % 8;
      ContentPrefix(before, bits, 8 * endbyte + endbit, msb);
      ptr := bytes;
      endbit := rest;
      endbyte := bytes;
      buffer[ptr] := KeepFirst(buffer[ptr], rest, msb);
      TruncateContent(before, buffer[..], bits, msb);
    }

    /**
     oggpack_writecopy_helper. An aligned copy that finds no room clears the packer: its way to grow is never taken.
     */
    method WriteCopy(source: seq<Byte>, bits: nat, msb: bool)
      requires Writable(msb) && bits <= 8 * |source|
      modifies this, buffer
      ensures Writable(msb)
      ensures Stream(msb) ==
        if old(ptr) == -1 || (old(endbit) == 0 && old(endbyte) + bits / 8 + 1 >= old(storage)) then Cleared
        else Open(old(Stream(msb)).bits + Content(source, bits, msb))
    {
      hide Content, Encode, ClearFrom, ByteBit;
      var bytes, rest := bits / 8, bits % 8;
      var ok := true;
      ghost var was := if Stream(msb).Open? then Stream(msb).bits else [];
      if endbit > 0 {
        CopyByteByByte(source, bytes, msb);
      } else {
        ok := CopyBlock(source, bytes, msb);
      }
      if ok {
        CopyRest(source, bytes, rest, msb, was);
      }
    }

    method CopyByteByByte(source: seq<Byte>, bytes: nat, msb: bool)
      requires Writable(msb) && ptr != -1 && bytes <= |source|
      modifies this, buffer
      ensures Writable(msb) && ptr != -1 && (buffer == old(buffer) || fresh(buffer))
      ensures Stream(msb) == Open(old(Stream(msb)).bits + Content(source, 8 * bytes, msb))
    {
      hide Content, Encode, ClearFrom, ByteBit;
      ghost var was := Stream(msb).bits;
      assert Content(source, 0, msb) == [];
      for i := 0 to bytes
        invariant Writable(msb) && ptr != -1 && (buffer == old(buffer) || fresh(buffer))
        invariant Stream(msb) == Open(was + Content(source, 8 * i, msb))
      {
        Write(source[i], 8, msb);
        ContentNext(source, i, 8, source[i], msb) by {
          WholeByte(source[i], msb);
        }
        Regroup(was, Content(source, 8 * i, msb), Encode(source[i], 8, msb));
      }
    }

    method CopyBlock(source: seq<Byte>, bytes: nat, msb: bool) returns (ok: bool)
      requires Writable(msb) && endbit == 0 && bytes <= |source|
      modifies this, buffer
      ensures Writable(msb) && (ok ==> ptr != -1 && buffer == old(buffer)) && (!ok ==> Stream(msb) == Cleared)
      ensures ok == (old(ptr) != -1 && old(endbyte) + bytes + 1 < old(storage))
      ensures ok ==> Stream(msb) == Open(old(Stream(msb)).bits + Content(source, 8 * bytes, msb))
    {
      hide ByteBit;
      if endbyte + bytes + 1 >= storage {
        if ptr == -1 {
          WriteClear();
          return false;
        }
        if endbyte + bytes + BUFFER_INCREMENT > storage {
          WriteClear();
          return false;
        }
        assert false;
      }
      ghost var before := buffer[..];
      WriteAt(buffer, ptr, source[..bytes]);
      ghost var at := endbyte;
      ptr := ptr + bytes;
      endbyte := endbyte + bytes;
      buffer[ptr] := 0;
      ZeroIsClear(0, msb);
      assert buffer[at..at + bytes] == source[..bytes];
      BlockContent(before, buffer[..], source, at, bytes, msb);
      return true;
    }

    /** The bits of the last byte that are not a whole byte. */
    method CopyRest(source: seq<Byte>, bytes: nat, rest: nat, msb: bool, ghost pre: seq<bool>)
      requires Writable(msb) && ptr != -1 && rest < 8 && 8 * bytes + rest <= 8 * |source|
      requires Stream(msb) == Open(pre + Content(source, 8 * bytes, msb))
      modifies this, buffer
      ensures Writable(msb) && Stream(msb) == Open(pre + Content(source, 8 * bytes + rest, msb))
    {
      hide Content, Encode, ClearFrom, ByteBit;
      if rest > 0 {
        var v := if msb then Shr(source[bytes], 8 - rest) else source[bytes];
        Write(v, rest, msb);
        FirstBits(source[bytes], rest, msb);
        ContentNext(source, bytes, rest, v, msb);
        Regroup(pre, Content(source, 8 * bytes, msb), Encode(v, rest, msb));
      }
    }

    // Reading

    /** In front of the end the position is where ptr points; behind it nothing is read any more. */
    ghost predicate Readable()
      reads this
    {
      && storage <= buffer.Length && endbit < 8
      && (Pos() <= 8 * storage ==> ptr == endbyte)
    }

    /** oggpack_bits. */
    function Pos(): nat
      reads this
    {
      8 * endbyte + endbit
    }

    /** oggpack_bytes. */
    function ByteTotal(): (n: nat)
      requires endbit < 8
      reads this
      ensures n == ByteCount(Pos())
    {
      endbyte + (endbit + 7) / 8
    }

    ghost function Source(msb: bool): seq<bool>
      requires Readable()
      reads this, buffer
    {
      Content(buffer[..storage], 8 * storage, msb)
    }

    /** oggpack_readinit. */
    constructor ReadInit(buf: array<Byte>, bytes: nat)
      requires bytes <= buf.Length
      ensures Readable() && Pos() == 0 && buffer == buf && storage == bytes
      ensures forall msb :: Source(msb) == Content(buf[..bytes], 8 * bytes, msb)
    {
      buffer, ptr, storage, endbyte, endbit := buf, 0, bytes, 0, 0;
    }

    /** The bytes at ptr that hold t bits from the front of the first one on. */
    method WordLsb(t: nat) returns (ret: nat)
      requires endbit < 8 && t <= 32 + endbit && 0 <= ptr && ptr + Needed(t) <= buffer.Length
      ensures ret == Gather(buffer[ptr..ptr + Needed(t)], endbit, false)
    {
      hide Shl, Shr, Or, Gather;
      ret := Shr(buffer[ptr], endbit);
      GatherFirst(buffer[..], ptr, endbit, false);
      if t > 8 {
        ret := Or(ret, Shl(buffer[ptr + 1], 8 - endbit));
        GatherNext(buffer[..], ptr, 1, endbit, false);
        if t > 16 {
          ret := Or(ret, Shl(buffer[ptr + 2], 16 - endbit));
          GatherNext(buffer[..], ptr, 2, endbit, false);
          if t > 24 {
            ret := Or(ret, Shl(buffer[ptr + 3], 24 - endbit));
            GatherNext(buffer[..], ptr, 3, endbit, false);
            if t > 32 && endbit > 0 {
              ret := Or(ret, Shl(buffer[ptr + 4], 32 - endbit));
              GatherNext(buffer[..], ptr, 4, endbit, false);
            }
          }
        }
      }
      assert buffer[..][ptr..ptr + Needed(t)] == buffer[ptr..ptr + Needed(t)];
    }

    method WordMsb(t: nat) returns (ret: nat)
      requires endbit < 8 && t <= 32 + endbit && 0 <= ptr && ptr + Needed(t) <= buffer.Length
      ensures ret == Gather(buffer[ptr..ptr + Needed(t)], endbit, true)
    {
      hide Shl, Shr, Or, Gather;
      ret := Shl(buffer[ptr], 24 + endbit);
      GatherFirst(buffer[..], ptr, endbit, true);
      if t > 8 {
        ret := Or(ret, Shl(buffer[ptr + 1], 16 + endbit));
        GatherNext(buffer[..], ptr, 1, endbit, true);
        if t > 16 {
          ret := Or(ret, Shl(buffer[ptr + 2], 8 + endbit));
          GatherNext(buffer[..], ptr, 2, endbit, true);
          if t > 24 {
            ret := Or(ret, Shl(buffer[ptr + 3], endbit));
            GatherNext(buffer[..], ptr, 3, endbit, true);
            if t > 32 && endbit > 0 {
              ret := Or(ret, Shr(buffer[ptr + 4], 8 - endbit));
              GatherNext(buffer[..], ptr, 4, endbit, true);
            }
          }
        }
      }
      assert buffer[..][ptr..ptr + Needed(t)] == buffer[ptr..ptr + Needed(t)];
    }

    /** The field at the position, when it is all there. */
    method Peek(bits: nat, msb: bool) returns (v: nat)
      requires Readable() && bits <= 32 && Pos() + bits <= 8 * storage && endbyte < storage
      ensures v == Decode(Source(msb)[Pos()..Pos() + bits], msb)
    {
      hide Gather, Decode, ByteBit, Low, Shr, Content, Needed;
      var t := bits + endbit;
      ghost var c := Needed(t);
      assert c <= storage - endbyte by {
        NeededBound(t, storage - endbyte);
      }
      ghost var bytes := buffer[ptr..ptr + c];
      assert |bytes| == c;
      if msb {
        var ret := WordMsb(t);
        var m := 32 - bits;
        v := Shr(Shr(Low(ret, 32), m / 2), (m + 1) / 2);
      } else {
        var ret := WordLsb(t);
        v := Low(ret, bits);
      }
      ReadDecodes(bytes, endbit, bits, msb);
      PartOfPart(buffer[..], storage, endbyte, c);
      assert buffer[..][..storage] == buffer[..storage] && buffer[..][endbyte..endbyte + c] == bytes;
      ContentSlice(buffer[..storage], endbyte, bytes, t, msb);
      SliceTail(Source(msb), 8 * endbyte, t, endbit);
    }

    /** oggpack_look and oggpackB_look. */
    method Look(bits: int, msb: bool) returns (r: Option<nat>)
      requires Readable()
      ensures r == PackedStreams.Look(Source(msb), Pos(), bits, msb)
    {
      hide Content, Decode;
      if bits < 0 || bits > 32 {
        return None;
      }
      var t := bits + endbit;
      if endbyte >= storage - 4 {
        if endbyte > storage - (t + 7) / 8 {
          return None;
        } else if t == 0 {
          NothingDecodes(Source(msb)[Pos()..Pos()], msb);
          return Some(0);
        }
      }
      var v := Peek(bits, msb);
      return Some(v);
    }

    /** oggpack_adv. */
    method Adv(bits: nat)
      requires Readable()
      modifies this`ptr, this`endbyte, this`endbit
      ensures Readable() && forall msb :: Source(msb) == old(Source(msb))
      ensures Pos() == Advance(Source(false), old(Pos()), bits)
    {
      hide Content;
      var t := bits + endbit;
      if endbyte > storage - (t + 7) / 8 {
        Overflow();
        return;
      }
      ptr := ptr + t / 8;
      endbyte := endbyte + t / 8;
      endbit := t % 8;
    }

    /** Where every failed read ends up: behind the end of the buffer. */
    method Overflow()
      requires storage <= buffer.Length
      modifies this`ptr, this`endbyte, this`endbit
      ensures Readable() && Pos() == 8 * storage + 1
    {
      ptr := -1;
      endbyte := storage;
      endbit := 1;
    }

    /** oggpack_adv1: no look at the end of the buffer. */
    method Adv1()
      requires Readable()
      modifies this`ptr, this`endbyte, this`endbit
      ensures Readable() && Pos() == old(Pos()) + 1
    {
      endbit := endbit + 1;
      if endbit > 7 {
        endbit := 0;
        ptr := ptr + 1;
        endbyte := endbyte + 1;
      }
    }

    /** oggpack_read and oggpackB_read. */
    method Read(bits: int, msb: bool) returns (r: Option<nat>)
      requires Readable()
      modifies this`ptr, this`endbyte, this`endbit
      ensures Readable() && Source(msb) == old(Source(msb))
      ensures Got(Pos(), r) == PackedStreams.Read(old(Source(msb)), old(Pos()), bits, msb)
    {
      hide Content, Decode;
      if bits < 0 || bits > 32 {
        Overflow();
        return None;
      }
      var t := bits + endbit;
      if endbyte >= storage - 4 {
        if endbyte > storage - (t + 7) / 8 {
          Overflow();
          return None;
        } else if t == 0 {
          NothingDecodes(Source(msb)[Pos()..Pos()], msb);
          return Some(0);
        }
      }
      var v := Peek(bits, msb);
      ptr := ptr + t / 8;
      endbyte := endbyte + t / 8;
      endbit := t % 8;
      return Some(v);
    }

    /** oggpack_look1 and oggpackB_look1. */
    method Look1(msb: bool) returns (r: Option<nat>)
      requires Readable()
      ensures r == PackedStreams.Look(Source(msb), Pos(), 1, msb)
    {
      hide Decode, Content, Low, Shr;
      if endbyte >= storage {
        return None;
      }
      OneBit(buffer[..storage], endbyte, endbit, msb);
      return Some(Low(Shr(buffer[ptr], if msb then 7 - endbit else endbit), 1));
    }

    /** oggpack_read1 and oggpackB_read1. */
    method Read1(msb: bool) returns (r: Option<nat>)
      requires Readable()
      modifies this`ptr, this`endbyte, this`endbit
      ensures Readable() && Source(msb) == old(Source(msb))
      ensures Got(Pos(), r) == PackedStreams.Read(old(Source(msb)), old(Pos()), 1, msb)
    {
      hide Decode, Content, Low, Shr;
      if endbyte >= storage {
        Overflow();
        return None;
      }
      OneBit(buffer[..storage], endbyte, endbit, msb);
      var v := Low(Shr(buffer[ptr], if msb then 7 - endbit else endbit), 1);
      Adv1();
      return Some(v);
    }
  }

  /** An aligned copy of 255 bytes does not find room for one more in a new packer, and clears it. */
  method CopyIntoNew(source: seq<Byte>, msb: bool) returns (b: OggPackBuffer)
    requires |source| == 255
    ensures b.Writable(msb) && b.Stream(msb) == Cleared
  {
    b := new OggPackBuffer.WriteInit();
    b.WriteCopy(source, 8 * 255, msb);
  }

  lemma {:induction false} NothingShiftedIn(v: nat, bits: nat)
    requires v < Pow2(bits) && bits <= 32
    ensures LowByte(Shr(v, 32)) == 0
  {
    hide Pow2, Shr, Low;
    ShrToNothing(v, bits, 32);
    LowOfZero(8);
  }

  lemma {:induction false} NothingShiftedOut(v: nat)
    ensures LowByte(Shl(v, 8)) == 0
  {
    hide Shl, Low;
    LowOfShl(v, 8);
  }

  lemma {:induction false} WrittenLsb(before: seq<Byte>, after: seq<Byte>, at: nat, e: nat, v: nat, n: nat)
    requires n <= 32 && e < 8 && at + 4 < |before| && at + 4 < |after|
    requires forall k :: 0 <= k <= (e + n) / 8 ==> after[at + k] == LsbByte(before[at], Low(v, n), e, k)
    ensures Written(before, after, at, e, v, n, false)
  {}

  lemma {:induction false} WrittenMsb(before: seq<Byte>, after: seq<Byte>, at: nat, e: nat, v: nat, n: nat)
    requires n <= 32 && e < 8 && at + 4 < |before| && at + 4 < |after|
    requires forall k :: 0 <= k <= (e + n) / 8 ==> after[at + k] == MsbByte(before[at], Top(v, n), e, k)
    ensures Written(before, after, at, e, v, n, true)
  {}

  lemma {:induction false} ZeroIsClear(e: nat, msb: bool)
    ensures ClearFrom(0, e, msb)
  {
    forall j: nat | e <= j < 8 ensures !ByteBit(0, j, msb) {
      ZeroBit(if msb then 7 - j else j);
    }
  }

  lemma {:induction false} Regroup(a: seq<bool>, b: seq<bool>, c: seq<bool>)
    ensures (a + b) + c == a + (b + c)
  {}

  /** b & mask[n], or b & mask8B[n]: the first n bits in stream order. */
  function KeepFirst(b: Byte, n: nat, msb: bool): Byte
    requires n <= 8
  {
    if msb then LowByte(Shl(Shr(b, 8 - n), 8 - n)) else LowByte(Low(b, n))
  }

  lemma {:induction false} KeptBit(b: Byte, n: nat, msb: bool, j: nat)
    requires n <= 8 && j < 8
    ensures ByteBit(KeepFirst(b, n, msb), j, msb) == (j < n && ByteBit(b, j, msb))
  {
    hide BitAt, Shl, Shr, Low;
    if msb {
      var s := 8 - n;
      LowBit(Shl(Shr(b, s), s), 8, 7 - j);
      ShlBit(Shr(b, s), s, 7 - j);
      if 7 - j >= s {
        ShrBit(b, s, 7 - j - s);
      }
    } else {
      LowBit(Low(b, n), 8, j);
      LowBit(b, n, j);
    }
  }

  lemma {:induction false} TruncateContent(before: seq<Byte>, after: seq<Byte>, bits: nat, msb: bool)
    requires |before| == |after| && bits / 8 < |before|
    requires after == before[bits / 8 := KeepFirst(before[bits / 8], bits % 8, msb)]
    ensures Content(after, bits, msb) == Content(before, bits, msb)
    ensures ClearFrom(after[bits / 8], bits % 8, msb)
  {
    hide KeepFirst, ByteBit;
    var x, y := Content(after, bits, msb), Content(before, bits, msb);
    forall g | 0 <= g < bits ensures x[g] == y[g] {
      assert g / 8 <= bits / 8;
      if g / 8 == bits / 8 {
        KeptBit(before[g / 8], bits % 8, msb, g % 8);
      }
    }
    var last, n := after[bits / 8], bits % 8;
    forall j: nat | n <= j < 8 ensures !ByteBit(last, j, msb) {
      KeptBit(before[bits / 8], n, msb, j);
    }
  }

  /** Writing n bits of a number appends what the next byte of the source says, if the two agree. */
  lemma {:induction false} ContentNext(source: seq<Byte>, i: nat, n: nat, v: nat, msb: bool)
    requires i < |source| && n <= 8
    requires forall j :: 0 <= j < n ==> ByteBit(source[i], j, msb) == BitPacking.Field(v, n, msb, j)
    ensures Content(source, 8 * i + n, msb) == Content(source, 8 * i, msb) + Encode(v, n, msb)
  {
    hide ByteBit;
    var x, y := Content(source, 8 * i + n, msb), Content(source, 8 * i, msb) + Encode(v, n, msb);
    forall g | 0 <= g < 8 * i + n ensures x[g] == y[g] {
      if g >= 8 * i {
        assert g / 8 == i && g % 8 == g - 8 * i;
      }
    }
  }

  lemma {:induction false} WholeByte(b: Byte, msb: bool)
    ensures forall j :: 0 <= j < 8 ==> ByteBit(b, j, msb) == BitPacking.Field(b, 8, msb, j)
  {}

  lemma {:induction false} FirstBits(b: Byte, n: nat, msb: bool)
    requires n <= 8
    ensures forall j :: 0 <= j < n ==>
      ByteBit(b, j, msb) == BitPacking.Field(if msb then Shr(b, 8 - n) else b, n, msb, j)
  {
    hide BitAt, Shr;
    if msb {
      forall j | 0 <= j < n ensures ByteBit(b, j, msb) == BitPacking.Field(Shr(b, 8 - n), n, msb, j) {
        ShrBit(b, 8 - n, n - 1 - j);
      }
    }
  }

  lemma {:induction false} BlockContent(before: seq<Byte>, after: seq<Byte>, source: seq<Byte>, at: nat, bytes: nat,
                                        msb: bool)
    requires at + bytes <= |after| && at <= |before| && bytes <= |source|
    requires after[at..at + bytes] == source[..bytes]
    requires forall i :: 0 <= i < at ==> after[i] == before[i]
    ensures Content(after, 8 * (at + bytes), msb) == Content(before, 8 * at, msb) + Content(source, 8 * bytes, msb)
  {
    hide ByteBit;
    var x := Content(after, 8 * (at + bytes), msb);
    var y := Content(before, 8 * at, msb) + Content(source, 8 * bytes, msb);
    forall g | 0 <= g < 8 * (at + bytes) ensures x[g] == y[g] {
      if g >= 8 * at {
        var h := g - 8 * at;
        assert g / 8 == at + h / 8 && g % 8 == h % 8;
        assert after[at + h / 8] == after[at..at + bytes][h / 8];
      } else {
        assert g / 8 < at;
      }
    }
  }

  /** How many bytes a read touches that ends t bits behind the front of the first one. */
  function Needed(t: nat): (c: nat)
    ensures c >= 1 && t <= 8 * c && (t <= 40 ==> c <= 5)
  {
    if t <= 8 then 1 else (t + 7) / 8
  }

  lemma {:induction false} NeededBound(t: nat, there: nat)
    requires t <= 8 * there && there >= 1
    ensures Needed(t) <= there
  {}

  lemma {:induction false} PartOfPart(s: seq<Byte>, n: nat, at: nat, c: nat)
    requires at + c <= n <= |s|
    ensures s[..n][at..at + c] == s[at..at + c]
  {}

  lemma {:induction false} SliceTail(s: seq<bool>, at: nat, t: nat, e: nat)
    requires at + t <= |s| && e <= t
    ensures s[at..at + t][e..] == s[at + e..at + t]
  {}

  lemma {:induction false} GatherFirst(buf: seq<Byte>, at: nat, e: nat, msb: bool)
    requires e < 8 && at < |buf|
    ensures Gather(buf[at..at + 1], e, msb) == Part(buf[at], e, 0, msb)
  {
    hide Part;
  }

  lemma {:induction false} GatherNext(buf: seq<Byte>, at: nat, k: nat, e: nat, msb: bool)
    requires e < 8 && 1 <= k <= 4 && at + k < |buf|
    ensures Gather(buf[at..at + k + 1], e, msb) == Or(Gather(buf[at..at + k], e, msb), Part(buf[at + k], e, k, msb))
  {
    hide Part, Or;
    assert buf[at..at + k + 1][..k] == buf[at..at + k];
  }

  lemma {:induction false} ContentSlice(buf: seq<Byte>, at: nat, bytes: seq<Byte>, t: nat, msb: bool)
    requires at + |bytes| <= |buf| && bytes == buf[at..at + |bytes|] && t <= 8 * |bytes|
    ensures Content(bytes, t, msb) == Content(buf, 8 * |buf|, msb)[8 * at..8 * at + t]
  {
    hide ByteBit;
    var x, y := Content(bytes, t, msb), Content(buf, 8 * |buf|, msb)[8 * at..8 * at + t];
    forall g | 0 <= g < t ensures x[g] == y[g] {
      Placed(at, g);
      assert bytes[g / 8] == buf[at + g / 8];
      assert y[g] == StreamBit(buf, 8 * at + g, msb);
    }
  }

  lemma {:induction false} Placed(at: nat, g: nat)
    ensures (8 * at + g) / 8 == at + g / 8 && (8 * at + g) % 8 == g % 8
  {}

  lemma {:induction false} NothingDecodes(bits: seq<bool>, msb: bool)
    requires bits == []
    ensures Decode(bits, msb) == 0
  {}

  lemma {:induction false} OneBit(buf: seq<Byte>, at: nat, e: nat, msb: bool)
    requires at < |buf| && e < 8
    ensures var s := if msb then 7 - e else e;
      Low(Shr(buf[at], s), 1) == Decode(Content(buf, 8 * |buf|, msb)[8 * at + e..8 * at + e + 1], msb)
  {
    var s := if msb then 7 - e else e;
    var bits := Content(buf, 8 * |buf|, msb)[8 * at + e..8 * at + e + 1];
    var v := Low(Shr(buf[at], s), 1);
    ShrBit(buf[at], s, 0);
    assert (8 * at + e) / 8 == at && (8 * at + e) % 8 == e;
    hide Shr;
    LowBit(Shr(buf[at], s), 1, 0);
    DecodeIs(bits, msb, v);
  }
}
