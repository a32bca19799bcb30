/** What packing fields of up to 32 bits into bytes means, least or most significant bit first. */
module BitPacking {
  import opened Bits
  import opened BitOps
  import opened Bytes

  /** Bit p of a field of n bits in the order it goes into the stream; false outside the field. */
  predicate Field(v: nat, n: nat, msb: bool, p: int) {
    0 <= p < n && BitAt(v, if msb then n - 1 - p else p)
  }

  function Encode(v: nat, n: nat, msb: bool): (bits: seq<bool>)
    ensures |bits| == n
  {
    seq(n, p requires 0 <= p < n => Field(v, n, msb, p))
  }

  function Decode(bits: seq<bool>, msb: bool): (v: nat)
    ensures v < Pow2(|bits|)
  {
    if bits == [] then 0
    else if msb then 2 * Decode(bits[..|bits| - 1], msb) + (if bits[|bits| - 1] then 1 else 0)
    else (if bits[0] then 1 else 0) + 2 * Decode(bits[1..], msb)
  }

  lemma {:induction false} DecodeBit(bits: seq<bool>, msb: bool, p: nat)
    requires p < |bits|
    ensures Field(Decode(bits, msb), |bits|, msb, p) == bits[p]
    decreases |bits|
  {
    var n, v := |bits|, Decode(bits, msb);
    if msb {
      var front := bits[..n - 1];
      Halves(v, Decode(front, msb), bits[n - 1]);
      if p < n - 1 {
        DecodeBit(front, msb, p);
        hide Decode;
        assert BitAt(v, n - 1 - p) == BitAt(v / 2, n - 2 - p);
      }
    } else {
      var rest := bits[1..];
      Halves(v, Decode(rest, msb), bits[0]);
      if p > 0 {
        DecodeBit(rest, msb, p - 1);
        hide Decode;
        assert BitAt(v, p) == BitAt(v / 2, p - 1);
      }
    }
  }

  lemma {:induction false} Halves(v: nat, h: nat, bit: bool)
    requires v == 2 * h + if bit then 1 else 0
    ensures v / 2 == h && (v % 2 == 1) == bit
  {}

  /** A number below 2 to the n is decoded from bits exactly when those are its bits. */
  lemma {:induction false} DecodeIs(bits: seq<bool>, msb: bool, v: nat)
    requires v < Pow2(|bits|)
    requires forall p :: 0 <= p < |bits| ==> Field(v, |bits|, msb, p) == bits[p]
    ensures Decode(bits, msb) == v
  {
    var n := |bits|;
    forall i | 0 <= i < n ensures BitAt(v, i) == BitAt(Decode(bits, msb), i) {
      var p := if msb then n - 1 - i else i;
      DecodeBit(bits, msb, p);
      assert Field(v, n, msb, p) == bits[p];
    }
    BitsDetermine(v, Decode(bits, msb), n);
  }

  /** Reading back a field gives the value masked to its width. */
  lemma {:induction false} DecodeEncode(v: nat, n: nat, msb: bool)
    ensures Decode(Encode(v, n, msb), msb) == v % Pow2(n)
  {
    ShrAndLowDivide(v, n);
    forall p | 0 <= p < n ensures Field(Low(v, n), n, msb, p) == Encode(v, n, msb)[p] {
      LowBit(v, n, if msb then n - 1 - p else p);
    }
    DecodeIs(Encode(v, n, msb), msb, Low(v, n));
  }

  // Bytes as bits

  predicate ByteBit(b: Byte, j: nat, msb: bool) {
    BitAt(b, if msb && j < 8 then 7 - j else j)
  }

  predicate StreamBit(buf: seq<Byte>, g: nat, msb: bool)
    requires g < 8 * |buf|
  {
    ByteBit(buf[g / 8], g % 8, msb)
  }

  /** The first total bits of a buffer. */
  function Content(buf: seq<Byte>, total: nat, msb: bool): (bits: seq<bool>)
    requires total <= 8 * |buf|
    ensures |bits| == total
  {
    seq(total, g requires 0 <= g < total => StreamBit(buf, g, msb))
  }

  lemma {:induction false} ContentPrefix(buf: seq<Byte>, a: nat, b: nat, msb: bool)
    requires a <= b <= 8 * |buf|
    ensures Content(buf, b, msb)[..a] == Content(buf, a, msb)
  {}

  lemma {:induction false} ContentSame(x: seq<Byte>, y: seq<Byte>, total: nat, msb: bool)
    requires total <= 8 * |x| && total <= 8 * |y|
    requires forall i :: 0 <= i < |x| && i < |y| && 8 * i < total ==> x[i] == y[i]
    ensures Content(x, total, msb) == Content(y, total, msb)
  {
    forall g | 0 <= g < total ensures StreamBit(x, g, msb) == StreamBit(y, g, msb) {
      assert 8 * (g / 8) <= g;
      assert x[g / 8] == y[g / 8];
    }
  }

  /** Nothing behind bit e of a byte. */
  predicate ClearFrom(b: Byte, e: nat, msb: bool) {
    forall j :: e <= j < 8 ==> !ByteBit(b, j, msb)
  }

  // One write

  /** Byte k behind the write position after a write of v at bit e, v already masked. */
  function LsbByte(old0: Byte, v: nat, e: nat, k: nat): Byte
    requires e < 8
  {
    if k == 0 then LowByte(Or(old0, Shl(v, e))) else LowByte(Shr(v, 8 * k - e))
  }

  /** The same most significant bit first; v has been moved to the top of 32 bits. */
  function MsbByte(old0: Byte, v: nat, e: nat, k: nat): Byte
    requires e < 8
  {
    if k == 0 then LowByte(Or(old0, Shr(v, 24 + e)))
    else if k <= 3 then LowByte(Shr(v, 24 - 8 * k + e))
    else LowByte(Shl(v, 8 - e))
  }

  lemma {:induction false} LsbByteBit(old0: Byte, v: nat, n: nat, e: nat, k: nat, j: nat)
    requires e < 8 && j < 8
    ensures ByteBit(LsbByte(old0, Low(v, n), e, k), j, false)
         == ((k == 0 && ByteBit(old0, j, false)) || Field(v, n, false, 8 * k + j - e))
  {
    hide BitAt, Shr, Shl, Low, Or;
    var w := Low(v, n);
    if k == 0 {
      LowBit(Or(old0, Shl(w, e)), 8, j);
      OrBit(old0, Shl(w, e), j);
      ShlBit(w, e, j);
      if j >= e {
        LowBit(v, n, j - e);
      }
    } else {
      LowBit(Shr(w, 8 * k - e), 8, j);
      ShrBit(w, 8 * k - e, j);
      LowBit(v, n, 8 * k - e + j);
    }
  }

  /** The value at the top of 32 bits. */
  function Top(v: nat, n: nat): nat
    requires n <= 32
  {
    Low(Shl(Low(v, n), 32 - n), 32)
  }

  lemma {:induction false} TopBit(v: nat, n: nat, p: int)
    requires n <= 32 && p <= 31
    ensures BitAt(Top(v, n), 31 - p) == Field(v, n, true, p)
  {
    hide BitAt, Shr, Shl, Low, Or;
    LowBit(Shl(Low(v, n), 32 - n), 32, 31 - p);
    ShlBit(Low(v, n), 32 - n, 31 - p);
    if 31 - p >= 32 - n {
      LowBit(v, n, n - 1 - p);
    }
  }

  lemma {:induction false} MsbByteBit(old0: Byte, v: nat, n: nat, e: nat, k: nat, j: nat)
    requires n <= 32 && e < 8 && j < 8 && k <= 4
    ensures ByteBit(MsbByte(old0, Top(v, n), e, k), j, true)
         == ((k == 0 && ByteBit(old0, j, true)) || Field(v, n, true, 8 * k + j - e))
  {
    hide BitAt, Shr, Shl, Low, Or, Top;
    var w := Top(v, n);
    var p := 8 * k + j - e;
    if k == 0 {
      LowBit(Or(old0, Shr(w, 24 + e)), 8, 7 - j);
      OrBit(old0, Shr(w, 24 + e), 7 - j);
      ShrBit(w, 24 + e, 7 - j);
      TopBit(v, n, p);
    } else if k <= 3 {
      LowBit(Shr(w, 24 - 8 * k + e), 8, 7 - j);
      ShrBit(w, 24 - 8 * k + e, 7 - j);
      TopBit(v, n, p);
    } else {
      LowBit(Shl(w, 8 - e), 8, 7 - j);
      ShlBit(w, 8 - e, 7 - j);
      if p <= 31 {
        TopBit(v, n, p);
      }
    }
  }

  function WrittenByte(old0: Byte, v: nat, n: nat, e: nat, k: nat, msb: bool): Byte
    requires n <= 32 && e < 8
  {
    if msb then MsbByte(old0, Top(v, n), e, k) else LsbByte(old0, Low(v, n), e, k)
  }

  /** The bytes from at on hold what a write leaves there. */
  predicate Written(before: seq<Byte>, after: seq<Byte>, at: nat, e: nat, v: nat, n: nat, msb: bool)
    requires n <= 32 && e < 8 && at + 4 < |before| && at + 4 < |after|
  {
    forall k :: 0 <= k <= (e + n) / 8 ==> after[at + k] == WrittenByte(before[at], v, n, e, k, msb)
  }

  lemma {:induction false} WrittenBit(before: seq<Byte>, after: seq<Byte>, at: nat, e: nat, v: nat, n: nat, msb: bool,
                                      k: nat, j: nat)
    requires n <= 32 && e < 8 && at + 4 < |before| && at + 4 < |after| && j < 8 && k <= (e + n) / 8
    requires Written(before, after, at, e, v, n, msb) && ClearFrom(before[at], e, msb)
    ensures ByteBit(after[at + k], j, msb)
         == if 8 * k + j < e then ByteBit(before[at], j, msb) else Field(v, n, msb, 8 * k + j - e)
  {
    assert after[at + k] == WrittenByte(before[at], v, n, e, k, msb);
    if msb {
      MsbByteBit(before[at], v, n, e, k, j);
    } else {
      LsbByteBit(before[at], v, n, e, k, j);
    }
  }

  /** A write appends the field to the content and leaves the rest of the last byte clear. */
  lemma {:induction false} WriteAppends(before: seq<Byte>, after: seq<Byte>, at: nat, e: nat, v: nat, n: nat, msb: bool)
    requires n <= 32 && e < 8 && at + 4 < |before| && at + 4 < |after|
    requires Written(before, after, at, e, v, n, msb) && ClearFrom(before[at], e, msb)
    requires forall i :: 0 <= i < at ==> after[i] == before[i]
    ensures Content(after, 8 * at + e + n, msb) == Content(before, 8 * at + e, msb) + Encode(v, n, msb)
    ensures ClearFrom(after[at + (e + n) / 8], (e + n) % 8, msb)
  {
    var x, y := Content(after, 8 * at + e + n, msb), Content(before, 8 * at + e, msb) + Encode(v, n, msb);
    forall g | 0 <= g < 8 * at + e + n ensures x[g] == y[g] {
      WriteAppendsBit(before, after, at, e, v, n, msb, g);
    }
    var m, f := (e + n) / 8, (e + n) % 8;
    var last := after[at + m];
    forall j: nat | f <= j < 8 ensures !ByteBit(last, j, msb) {
      WrittenBit(before, after, at, e, v, n, msb, m, j);
    }
  }

  lemma {:induction false} WriteAppendsBit(before: seq<Byte>, after: seq<Byte>, at: nat, e: nat, v: nat, n: nat,
                                           msb: bool, g: nat)
    requires n <= 32 && e < 8 && at + 4 < |before| && at + 4 < |after| && g < 8 * at + e + n
    requires Written(before, after, at, e, v, n, msb) && ClearFrom(before[at], e, msb)
    requires forall i :: 0 <= i < at ==> after[i] == before[i]
    ensures StreamBit(after, g, msb)
         == if g < 8 * at + e then StreamBit(before, g, msb) else Field(v, n, msb, g - 8 * at - e)
  {
    if g >= 8 * at {
      var k, j := g / 8 - at, g % 8;
      assert g == 8 * (at + k) + j;
      WrittenBit(before, after, at, e, v, n, msb, k, j);
    } else {
      assert g / 8 < at;
    }
  }

  // One read

  /** What byte k behind the read position adds to the word that is read. */
  function Part(b: Byte, e: nat, k: nat, msb: bool): nat
    requires e < 8 && k <= 4
  {
    if msb then if k <= 3 then Shl(b, 24 - 8 * k + e) else Shr(b, 8 - e)
    else if k == 0 then Shr(b, e) else Shl(b, 8 * k - e)
  }

  function Gather(bytes: seq<Byte>, e: nat, msb: bool): nat
    requires e < 8 && 1 <= |bytes| <= 5
  {
    var k := |bytes| - 1;
    if k == 0 then Part(bytes[0], e, 0, msb) else Or(Gather(bytes[..k], e, msb), Part(bytes[k], e, k, msb))
  }

  /** The field of n bits at the top or the bottom of the word. */
  function Extract(word: nat, n: nat, msb: bool): (v: nat)
    requires n <= 32
  {
    if msb then
      var m := 32 - n;
      Shr(Shr(Low(word, 32), m / 2), (m + 1) / 2)
    else Low(word, n)
  }

  lemma {:induction false} PartBit(b: Byte, e: nat, k: nat, msb: bool, p: nat)
    requires e < 8 && k <= 4 && p < 32
    ensures BitAt(Part(b, e, k, msb), if msb then 31 - p else p)
         == (8 * k <= p + e < 8 * k + 8 && ByteBit(b, p + e - 8 * k, msb))
  {
    EightBits();
    hide BitAt, Shr, Shl, Low, Or;
    if msb {
      var i := 31 - p;
      if k <= 3 {
        var s := 24 - 8 * k + e;
        ShlBit(b, s, i);
        if i >= s + 8 {
          HighBit(b, 8, i - s);
        }
      } else {
        ShrBit(b, 8 - e, i);
        if 8 - e + i >= 8 {
          HighBit(b, 8, 8 - e + i);
        }
      }
    } else if k == 0 {
      ShrBit(b, e, p);
      if e + p >= 8 {
        HighBit(b, 8, e + p);
      }
    } else {
      ShlBit(b, 8 * k - e, p);
      if p >= 8 * k - e + 8 {
        HighBit(b, 8, p - (8 * k - e));
      }
    }
  }

  lemma {:induction false} GatherBit(bytes: seq<Byte>, e: nat, msb: bool, p: nat)
    requires e < 8 && 1 <= |bytes| <= 5 && p < 32
    ensures BitAt(Gather(bytes, e, msb), if msb then 31 - p else p)
         == (p + e < 8 * |bytes| && StreamBit(bytes, p + e, msb))
    decreases |bytes|
  {
    hide BitAt, Shr, Shl, Low, Or, Part, ByteBit;
    var k := |bytes| - 1;
    PartBit(bytes[k], e, k, msb, p);
    if k > 0 {
      GatherBit(bytes[..k], e, msb, p);
      OrBit(Gather(bytes[..k], e, msb), Part(bytes[k], e, k, msb), if msb then 31 - p else p);
    }
  }

  lemma {:induction false} ExtractBit(word: nat, n: nat, msb: bool, p: nat)
    requires p < n <= 32
    ensures Field(Extract(word, n, msb), n, msb, p) == BitAt(word, if msb then 31 - p else p)
  {
    hide BitAt, Shr, Shl, Low, Or;
    if msb {
      var m := 32 - n;
      ShrTwice(Low(word, 32), m / 2, (m + 1) / 2);
      ShrBit(Low(word, 32), m, n - 1 - p);
      LowBit(word, 32, 31 - p);
    } else {
      LowBit(word, n, p);
    }
  }

  lemma {:induction false} ExtractBound(word: nat, n: nat, msb: bool)
    requires n <= 32
    ensures Extract(word, n, msb) < Pow2(n)
  {
    hide BitAt, Shr, Shl, Or;
    if msb {
      var m := 32 - n;
      ShrTwice(Low(word, 32), m / 2, (m + 1) / 2);
      ShrBound(Low(word, 32), m, n);
    }
  }

  /** What is read is the field that the bits in front of the read position encode. */
  lemma {:induction false} ReadDecodes(bytes: seq<Byte>, e: nat, n: nat, msb: bool)
    requires e < 8 && n <= 32 && 1 <= |bytes| <= 5 && e + n <= 8 * |bytes|
    ensures Extract(Gather(bytes, e, msb), n, msb) == Decode(Content(bytes, e + n, msb)[e..], msb)
  {
    hide Gather, Extract, BitAt, Decode, StreamBit;
    var word := Gather(bytes, e, msb);
    var v, bits := Extract(word, n, msb), Content(bytes, e + n, msb)[e..];
    ExtractBound(word, n, msb);
    forall p | 0 <= p < n ensures Field(v, n, msb, p) == bits[p] {
      ExtractBit(word, n, msb, p);
      GatherBit(bytes, e, msb, p);
    }
    DecodeIs(bits, msb, v);
  }

  // The order of bits and bytes

  lemma {:induction false} DecodeByte(b: Byte, msb: bool)
    ensures Decode(Content([b], 8, msb), msb) == b
  {
    var bits := Content([b], 8, msb);
    EightBits();
    forall p | 0 <= p < 8 ensures Field(b, 8, msb, p) == bits[p] {
      assert bits[p] == StreamBit([b], p, msb);
    }
    DecodeIs(bits, msb, b);
  }

  lemma {:induction false} DecodeLow(a: seq<bool>, b: seq<bool>)
    ensures Decode(a + b, false) == Decode(a, false) + Pow2(|a|) * Decode(b, false)
    decreases |a|
  {
    if a == [] {
      assert a + b == b;
    } else {
      assert (a + b)[1..] == a[1..] + b && (a + b)[0] == a[0];
      DecodeLow(a[1..], b);
      TwiceTimes(Pow2(|a| - 1), Decode(b, false));
    }
  }

  lemma {:induction false} DecodeHigh(a: seq<bool>, b: seq<bool>)
    ensures Decode(a + b, true) == Pow2(|b|) * Decode(a, true) + Decode(b, true)
    decreases |b|
  {
    if b == [] {
      assert a + b == a;
    } else {
      var n, all := |b| - 1, a + b;
      assert all[..|all| - 1] == a + b[..n] && all[|all| - 1] == b[n];
      DecodeHigh(a, b[..n]);
      TwiceTimes(Pow2(n), Decode(a, true));
    }
  }

  lemma {:induction false} TwiceTimes(p: int, v: int)
    ensures 2 * (p * v) == (2 * p) * v
  {}

  lemma {:induction false} ContentConcat(a: seq<Byte>, b: seq<Byte>, msb: bool)
    ensures Content(a + b, 8 * |a + b|, msb) == Content(a, 8 * |a|, msb) + Content(b, 8 * |b|, msb)
  {
    hide ByteBit;
    var all, x, y := Content(a + b, 8 * |a + b|, msb), Content(a, 8 * |a|, msb), Content(b, 8 * |b|, msb);
    forall g | 0 <= g < 8 * |a + b| ensures all[g] == (x + y)[g] {
      assert all[g] == StreamBit(a + b, g, msb);
      if g >= 8 * |a| {
        assert (x + y)[g] == y[g - 8 * |a|] == StreamBit(b, g - 8 * |a|, msb);
        assert g / 8 == |a| + (g - 8 * |a|) / 8;
      }
    }
  }

  /** Whole bytes are a little-endian number least significant bit first, and a big-endian one the other way. */
  lemma {:induction false} WholeBytes(buf: seq<Byte>, msb: bool)
    ensures Decode(Content(buf, 8 * |buf|, msb), msb) == if msb then FromBigEndian(buf) else FromLittleEndian(buf)
    decreases |buf|
  {
    hide Content;
    if buf == [] {
      assert Content(buf, 0, msb) == [];
    } else if msb {
      var n := |buf| - 1;
      var a, b := buf[..n], [buf[n]];
      assert buf == a + b;
      WholeBytes(a, msb);
      DecodeByte(buf[n], msb);
      ContentConcat(a, b, msb);
      DecodeHigh(Content(a, 8 * n, msb), Content(b, 8, msb));
      EightBits();
    } else {
      var a, b := [buf[0]], buf[1..];
      assert buf == a + b;
      WholeBytes(b, msb);
      DecodeByte(buf[0], msb);
      ContentConcat(a, b, msb);
      DecodeLow(Content(a, 8, msb), Content(b, 8 * |b|, msb));
      EightBits();
    }
  }
}
