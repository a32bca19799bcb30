/**
 The page checksum as framing.c computes it, a byte at a time through the table,
 and the proof that it is the remainder of Division.
 */
module Checksum {
  import opened Bits
  import opened Bytes
  import opened Division
  import opened Words
  import opened BitFacts
  import opened CrcTable

  /** The table index of one pass of the checksum loop. */
  function Index(r: bv32, b: Byte): (x: bv32)
    ensures x < 256
  {
    ((r >> 24) & 0xff) ^ (b as bv32)
  }

  /** One pass of the checksum loop. */
  function TableStep(r: bv32, b: Byte): bv32 {
    Advance(r, CrcLookup(Index(r, b)))
  }

  function Advance(r: bv32, word: bv32): bv32 {
    (r << 8) ^ word
  }

  function Fold(r: bv32, s: seq<Byte>): bv32
    decreases |s|
  {
    if s == [] then r else Fold(TableStep(r, s[0]), s[1..])
  }

  /** The register after the loops of ogg_page_checksum_set have passed over s. */
  function Crc(s: seq<Byte>): bv32 {
    Fold(0, s)
  }

  lemma {:induction false} EntryStepBits(r: bv32)
    ensures WordBits(EntryStep(r)) == Clock(WordBits(r))
  {
    Shift1Bits(r);
    GeneratorWord();
    XorBits(r << 1, 0x04c11db7);
    TopBit(r);
    ClockOfWord(WordBits(r));
  }

  lemma {:induction false} TopBit(r: bv32)
    ensures (r & 0x80000000 != 0) == WordBits(r)[0]
  {
    assert (r & 0x80000000 != 0) == Bit(r, 31);
  }

  lemma {:induction false} ClockOfWord(w: Word)
    ensures Clock(w) == if w[0] then Xor(w[1..] + Zeros(1), Generator()) else w[1..] + Zeros(1)
  {
    assert Zeros(1) == [false];
  }

  lemma {:induction false} GeneratorWord()
    ensures WordBits(0x04c11db7) == Generator()
  {
    var w, g := WordBits(0x04c11db7), Generator();
    forall i | 0 <= i < 32 ensures w[i] == g[i] {
      GeneratorLiteral(31 - i);
    }
    IsPrefix(w, g);
    assert g[..32] == g;
  }

  lemma {:induction false} GeneratorLiteral(k: nat)
    requires k < 32
    ensures Bit(0x04c11db7, k) == GeneratorTerm(k)
  {
    match k
    case 0 => case 1 => case 2 => case 3 => case 4 => case 5 => case 6 => case 7 =>
    case 8 => case 9 => case 10 => case 11 => case 12 => case 13 => case 14 => case 15 =>
    case 16 => case 17 => case 18 => case 19 => case 20 => case 21 => case 22 => case 23 =>
    case 24 => case 25 => case 26 => case 27 => case 28 => case 29 => case 30 => case _ =>
  }

  /** The bits of a table word: its index taken as a leading byte, divided. */
  lemma {:induction false} EntryBits(x: bv32)
    requires x < 256
    ensures WordBits(CrcEntry(x)) == ClockN(WordBits(x)[24..] + Zeros(24), 8)
  {
    Shift24Bits(x);
    StepsAreClocks(x << 24);
  }

  lemma {:induction false} StepsAreClocks(r: bv32)
    ensures WordBits(EntryStep(EntryStep(EntryStep(EntryStep(EntryStep(EntryStep(EntryStep(EntryStep(r)))))))))
         == ClockN(WordBits(r), 8)
  {
    var r4 := EntryStep(EntryStep(EntryStep(EntryStep(r))));
    FourSteps(r);
    FourSteps(r4);
    ClockNAdd(WordBits(r), 4, 4);
  }

  lemma {:induction false} FourSteps(r: bv32)
    ensures WordBits(EntryStep(EntryStep(EntryStep(EntryStep(r))))) == ClockN(WordBits(r), 4)
  {
    var r1 := EntryStep(r);
    var r2 := EntryStep(r1);
    var r3 := EntryStep(r2);
    EntryStepBits(r);
    EntryStepBits(r1);
    EntryStepBits(r2);
    EntryStepBits(r3);
    FourClocks(WordBits(r));
  }

  lemma {:induction false} FourClocks(w: Word)
    ensures ClockN(w, 4) == Clock(Clock(Clock(Clock(w))))
  {
    ClockNMore(w, 0);
    ClockNMore(w, 1);
    ClockNMore(w, 2);
    ClockNMore(w, 3);
  }

  lemma {:induction false} Shift24Bits(x: bv32)
    ensures WordBits(x << 24) == WordBits(x)[24..] + Zeros(24)
  {
    Shift8Bits(x);
    Shift8Bits(x << 8);
    Shift8Bits((x << 8) << 8);
    assert ((x << 8) << 8) << 8 == x << 24;
    ThreeShifts(WordBits(x));
  }

  lemma {:induction false} ThreeShifts(w: Word)
    ensures (((w[8..] + Zeros(8))[8..] + Zeros(8))[8..]) + Zeros(8) == w[24..] + Zeros(24)
  {}

  lemma {:induction false} IndexBits(r: bv32, b: Byte)
    ensures WordBits(Index(r, b))[24..] == Xor(WordBits(r)[..8], ByteBits(b))
  {
    var top := (r >> 24) & 0xff;
    XorBits(top, b as bv32);
    OctetBits(r >> 24);
    OctetsOfShifts(r, r >> 8, r >> 16, r >> 24);
    ByteWordBits(b);
    XorTail(WordBits(top), WordBits(b as bv32));
  }

  lemma {:induction false} XorTail(a: Word, b: Word)
    ensures Xor(a, b)[24..] == Xor(a[24..], b[24..])
  {}

  lemma {:induction false} LookupBits(x: bv32)
    requires x < 256
    ensures WordBits(CrcLookup(x)) == ClockN(WordBits(x)[24..] + Zeros(24), 8)
  {
    TableIsRight(x);
    EntryBits(x);
  }

  lemma {:induction false} TableStepBits(r: bv32, b: Byte)
    ensures WordBits(TableStep(r, b))
         == Xor(WordBits(r)[8..] + Zeros(8), ClockN(WordBits(Index(r, b))[24..] + Zeros(24), 8))
  {
    AdvanceBits(r, CrcLookup(Index(r, b)));
    LookupBits(Index(r, b));
  }

  lemma {:induction false} AdvanceBits(r: bv32, word: bv32)
    ensures WordBits(Advance(r, word)) == Xor(WordBits(r)[8..] + Zeros(8), WordBits(word))
  {
    Shift8Bits(r);
    XorBits(r << 8, word);
  }

  /** One table step divides the eight bits of one byte. */
  lemma {:induction false} TableStepDivides(r: bv32, b: Byte)
    ensures WordBits(TableStep(r, b)) == Divide(WordBits(r), ByteBits(b))
  {
    TableStepBits(r, b);
    IndexBits(r, b);
    DivideEight(WordBits(r), ByteBits(b));
  }

  lemma {:induction false} FoldDivides(r: bv32, s: seq<Byte>)
    ensures WordBits(Fold(r, s)) == Divide(WordBits(r), Stream(s))
    decreases |s|
  {
    if s != [] {
      TableStepDivides(r, s[0]);
      FoldDivides(TableStep(r, s[0]), s[1..]);
      DivideConcat(WordBits(r), ByteBits(s[0]), Stream(s[1..]));
    }
  }

  /** The checksum of a byte string is the remainder of its bits. */
  lemma {:induction false} CrcIsRemainder(s: seq<Byte>)
    ensures WordBits(Crc(s)) == Remainder(s)
  {
    FoldDivides(0, s);
    ZeroBits();
  }

  lemma {:induction false} ZeroBits()
    ensures WordBits(0) == Zeros(32)
  {
    assert forall k :: 0 <= k < 32 ==> !Bit(0, k);
  }
}
