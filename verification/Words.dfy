/** Single bits of 32-bit words under the operations of the checksum loop. */
module BitFacts {
  predicate Bit(w: bv32, k: nat)
    requires k < 32
  {
    (w >> k) & 1 == 1
  }

  lemma {:induction false} BitXor(a: bv32, b: bv32, k: nat)
    requires k < 32
    ensures Bit(a ^ b, k) == (Bit(a, k) != Bit(b, k))
  {
    RawXor(a, b, k);
  }

  lemma {:induction false} BitShift8(w: bv32, k: nat)
    requires k < 24
    ensures Bit(w << 8, k + 8) == Bit(w, k)
  {
    RawShift8(w, k);
  }

  lemma {:induction false} BitShift1(w: bv32, k: nat)
    requires k < 31
    ensures Bit(w << 1, k + 1) == Bit(w, k)
  {
    RawShift1(w, k);
  }

  lemma {:induction false} BitShiftedIn(w: bv32, k: nat)
    requires k < 8
    ensures !Bit(w << 8, k)
    ensures k == 0 ==> !Bit(w << 1, k)
  {
    RawShiftedIn(w, k);
  }

  lemma {:induction false} BitOfOctet(w: bv32, k: nat)
    requires k < 8
    ensures Bit(w & 0xff, k) == Bit(w, k)
  {
    RawOctet(w, k);
  }

  lemma {:induction false} BitShiftDown8(w: bv32, k: nat)
    requires k < 24
    ensures Bit(w >> 8, k) == Bit(w, k + 8)
  {
    RawShiftDown8(w, k);
  }

  lemma {:induction false} WordRoundTrip(x: bv32)
    ensures (x as int) as bv32 == x
  {}

  lemma {:induction false} MaskedByte(w: bv32)
    ensures w & 0xff < 256
    ensures ((w & 0xff) as int) as bv32 == w & 0xff
  {
    WordRoundTrip(w & 0xff);
  }

  lemma {:induction false} ShiftDownTwice(w: bv32, w1: bv32, w2: bv32, w3: bv32)
    requires w1 == w >> 8 && w2 == w >> 16 && w3 == w >> 24
    ensures w2 == w1 >> 8 && w3 == w2 >> 8
  {}

  lemma {:induction false} RawXor(a: bv32, b: bv32, k: nat)
    requires k < 32
    ensures ((a ^ b) >> k) & 1 == 1 <==> ((a >> k) & 1 == 1) != ((b >> k) & 1 == 1)
  {}

  lemma {:induction false} RawShiftedIn(w: bv32, k: nat)
    requires k < 8
    ensures ((w << 8) >> k) & 1 == 0
    ensures ((w << 1) >> 0) & 1 == 0
  {}

  lemma {:induction false} RawOctet(w: bv32, k: nat)
    requires k < 8
    ensures ((w & 0xff) >> k) & 1 == (w >> k) & 1
  {
    match k
    case 0 => case 1 => case 2 => case 3 => case 4 => case 5 => case 6 => case _ =>
  }

  lemma {:induction false} RawShiftDown8(w: bv32, k: nat)
    requires k < 24
    ensures ((w >> 8) >> k) & 1 == (w >> (k + 8)) & 1
  {
    match k
    case 0 => case 1 => case 2 => case 3 => case 4 => case 5 => case 6 => case 7 =>
    case 8 => case 9 => case 10 => case 11 => case 12 => case 13 => case 14 => case 15 =>
    case 16 => case 17 => case 18 => case 19 => case 20 => case 21 => case 22 => case _ =>
  }

  lemma {:induction false} RawShift8(w: bv32, k: nat)
    requires k < 24
    ensures ((w << 8) >> (k + 8)) & 1 == (w >> k) & 1
  {
    if k < 12 { RawShift8Low(w, k); } else { RawShift8High(w, k); }
  }

  lemma {:induction false} RawShift8Low(w: bv32, k: nat)
    requires k < 12
    ensures ((w << 8) >> (k + 8)) & 1 == (w >> k) & 1
  {
    match k
    case 0 => case 1 => case 2 => case 3 => case 4 => case 5 => case 6 => case 7 =>
    case 8 => case 9 => case 10 => case _ =>
  }

  lemma {:induction false} RawShift8High(w: bv32, k: nat)
    requires 12 <= k < 24
    ensures ((w << 8) >> (k + 8)) & 1 == (w >> k) & 1
  {
    match k
    case 12 => case 13 => case 14 => case 15 => case 16 => case 17 => case 18 => case 19 =>
    case 20 => case 21 => case 22 => case _ =>
  }

  lemma {:induction false} RawShift1(w: bv32, k: nat)
    requires k < 31
    ensures ((w << 1) >> (k + 1)) & 1 == (w >> k) & 1
  {
    if k < 11 { RawShift1Low(w, k); } else if k < 21 { RawShift1Middle(w, k); } else { RawShift1High(w, k); }
  }

  lemma {:induction false} RawShift1Low(w: bv32, k: nat)
    requires k < 11
    ensures ((w << 1) >> (k + 1)) & 1 == (w >> k) & 1
  {
    match k
    case 0 => case 1 => case 2 => case 3 => case 4 => case 5 => case 6 => case 7 => case 8 => case 9 => case _ =>
  }

  lemma {:induction false} RawShift1Middle(w: bv32, k: nat)
    requires 11 <= k < 21
    ensures ((w << 1) >> (k + 1)) & 1 == (w >> k) & 1
  {
    match k
    case 11 => case 12 => case 13 => case 14 => case 15 => case 16 => case 17 => case 18 => case 19 => case _ =>
  }

  lemma {:induction false} RawShift1High(w: bv32, k: nat)
    requires 21 <= k < 31
    ensures ((w << 1) >> (k + 1)) & 1 == (w >> k) & 1
  {
    match k
    case 21 => case 22 => case 23 => case 24 => case 25 => case 26 => case 27 => case 28 => case 29 => case _ =>
  }
}

/** 32-bit words as the bit sequences they hold, most significant bit first. */
module Words {
  import opened Bits
  import opened Bytes
  import opened Division
  import opened BitFacts

  function WordBits(w: bv32): (s: Word) {
    seq(32, i requires 0 <= i < 32 => Bit(w, 31 - i))
  }

  lemma {:induction false} XorBits(a: bv32, b: bv32)
    ensures WordBits(a ^ b) == Xor(WordBits(a), WordBits(b))
  {
    var x, y, z := WordBits(a ^ b), WordBits(a), WordBits(b);
    forall i | 0 <= i < 32 ensures x[i] == (y[i] != z[i]) {
      BitXor(a, b, 31 - i);
    }
    IsXor(x, y, z);
  }

  /** A byte and the word holding it have the same bits. */
  lemma {:induction false} ByteWordBits(b: Byte)
    ensures ByteBits(b) == WordBits(b as bv32)[24..]
  {
    var x, y := ByteBits(b), WordBits(b as bv32)[24..];
    forall i | 0 <= i < 8 ensures x[i] == y[i] {
      ToBitsAt(b, 8, 7 - i);
      ByteWordBit(b, 7 - i);
    }
    IsPrefix(x, y);
    assert y[..8] == y;
  }

  lemma {:induction false} ByteWordBit(b: Byte, k: nat)
    requires k < 8
    ensures Bit(b as bv32, k) == (Halved(b, k) % 2 == 1)
  {
    ByteHalves(b);
    match k
    case 0 => LowNibble(b);
    case 1 => LowNibble(b);
    case 2 => LowNibble(b);
    case 3 => LowNibble(b);
    case 4 => HighNibble(b);
    case 5 => HighNibble(b);
    case 6 => HighNibble(b);
    case _ => HighNibble(b);
  }

  lemma {:induction false} LowNibble(b: Byte)
    ensures Bit(b as bv32, 0) == (b % 2 == 1)
    ensures Bit(b as bv32, 1) == ((b / 2) % 2 == 1)
    ensures Bit(b as bv32, 2) == ((b / 4) % 2 == 1)
    ensures Bit(b as bv32, 3) == ((b / 8) % 2 == 1)
  {}

  lemma {:induction false} HighNibble(b: Byte)
    ensures Bit(b as bv32, 4) == ((b / 16) % 2 == 1)
    ensures Bit(b as bv32, 5) == ((b / 32) % 2 == 1)
    ensures Bit(b as bv32, 6) == ((b / 64) % 2 == 1)
    ensures Bit(b as bv32, 7) == ((b / 128) % 2 == 1)
  {}

  lemma {:induction false} OctetBits(w: bv32)
    ensures WordBits(w & 0xff)[24..] == WordBits(w)[24..]
  {
    var x, y := WordBits(w & 0xff)[24..], WordBits(w)[24..];
    forall i | 0 <= i < 8 ensures x[i] == y[i] {
      BitOfOctet(w, 7 - i);
    }
    IsPrefix(x, y);
    assert y[..8] == y;
  }

  lemma {:induction false} ShiftDown8Bits(w: bv32)
    ensures WordBits(w >> 8)[8..] == WordBits(w)[..24]
  {
    var x, y := WordBits(w >> 8)[8..], WordBits(w);
    forall i | 0 <= i < 24 ensures x[i] == y[i] {
      BitShiftDown8(w, 23 - i);
    }
    IsPrefix(x, y);
  }

  lemma {:induction false} ByteOfWord(b: Byte, x: bv32)
    requires b as bv32 == x
    ensures b == ByteFromBits(WordBits(x)[24..])
  {
    ByteWordBits(b);
    ByteFromByteBits(b);
  }

  /** The low octet of a word, as a byte. */
  lemma {:induction false} OctetByte(w: bv32)
    ensures (w & 0xff) as int == ByteFromBits(WordBits(w)[24..])
  {
    MaskedByte(w);
    OctetBits(w);
    ByteOfWord((w & 0xff) as int, w & 0xff);
  }

  /** The four octets of a word, lowest first. */
  lemma {:induction false} OctetBytes(w: bv32)
    ensures (w & 0xff) as int == ByteFromBits(WordBits(w)[24..])
    ensures ((w >> 8) & 0xff) as int == ByteFromBits(WordBits(w)[16..24])
    ensures ((w >> 16) & 0xff) as int == ByteFromBits(WordBits(w)[8..16])
    ensures ((w >> 24) & 0xff) as int == ByteFromBits(WordBits(w)[..8])
  {
    OctetByte(w);
    OctetByte(w >> 8);
    OctetByte(w >> 16);
    OctetByte(w >> 24);
    OctetsOfShifts(w, w >> 8, w >> 16, w >> 24);
  }

  lemma {:induction false} OctetsOfShifts(w: bv32, w1: bv32, w2: bv32, w3: bv32)
    requires w1 == w >> 8 && w2 == w >> 16 && w3 == w >> 24
    ensures WordBits(w1)[24..] == WordBits(w)[16..24]
    ensures WordBits(w2)[24..] == WordBits(w)[8..16]
    ensures WordBits(w3)[24..] == WordBits(w)[..8]
  {
    ShiftDownTwice(w, w1, w2, w3);
    ShiftDown8Bits(w);
    ShiftDown8Bits(w1);
    ShiftDown8Bits(w2);
    DownTwice(WordBits(w), WordBits(w1), WordBits(w2), WordBits(w3));
  }

  lemma {:induction false} DownTwice(a: Word, b: Word, c: Word, d: Word)
    requires b[8..] == a[..24] && c[8..] == b[..24] && d[8..] == c[..24]
    ensures b[24..] == a[16..24] && c[24..] == a[8..16] && d[24..] == a[..8]
  {
    assert b[8..][16..] == b[24..] && c[8..][16..] == c[24..] && d[8..][16..] == d[24..];
    assert b[8..][8..16] == b[16..24] && c[8..][8..16] == c[16..24];
    assert b[8..][..8] == b[8..16];
  }

  lemma {:induction false} Shift8Bits(w: bv32)
    ensures WordBits(w << 8) == WordBits(w)[8..] + Zeros(8)
  {
    var x, y := WordBits(w << 8), WordBits(w);
    forall i | 0 <= i < 24 ensures x[i] == y[8 + i] {
      BitShift8(w, 23 - i);
    }
    forall i | 24 <= i < 32 ensures !x[i] {
      BitShiftedIn(w, 31 - i);
    }
    IsShift(x, y, 8);
  }

  lemma {:induction false} Shift1Bits(w: bv32)
    ensures WordBits(w << 1) == WordBits(w)[1..] + Zeros(1)
  {
    var x, y := WordBits(w << 1), WordBits(w);
    forall i | 0 <= i < 31 ensures x[i] == y[1 + i] {
      BitShift1(w, 30 - i);
    }
    forall i | 31 <= i < 32 ensures !x[i] {
      BitShiftedIn(w, 31 - i);
    }
    IsShift(x, y, 1);
  }

  lemma {:induction false} IsXor(x: seq<bool>, a: seq<bool>, b: seq<bool>)
    requires |x| == |a| == |b|
    requires forall i :: 0 <= i < |x| ==> x[i] == (a[i] != b[i])
    ensures x == Xor(a, b)
  {}

  lemma {:induction false} IsShift(x: Word, y: Word, n: nat)
    requires n <= 32
    requires forall i :: 0 <= i < 32 - n ==> x[i] == y[n + i]
    requires forall i :: 32 - n <= i < 32 ==> !x[i]
    ensures x == y[n..] + Zeros(n)
  {}

  lemma {:induction false} IsPrefix(x: seq<bool>, y: seq<bool>)
    requires |x| <= |y| && forall i :: 0 <= i < |x| ==> x[i] == y[i]
    ensures x == y[..|x|]
  {}
}
