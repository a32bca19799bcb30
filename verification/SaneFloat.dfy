/** Sample rates as 80-bit floating point numbers in AIFF headers. */
module SaneFloat {
  import opened Bits
  import opened BitOps
  import opened Bytes

  /** What read_sane_extended reports. */
  datatype Reading = Value(v: nat) | Nothing | UnexpectedEof | Invalid

  /** A number is as many bits away from the top of 32 bits as it can be shifted left. */
  predicate Normal(val: nat, shift: nat) {
    shift <= 31 && Shr(val, 31 - shift) == 1
  }

  /** What write_sane_extended writes: exponent, significand, and the second word it never uses. */
  function SaneBytes(val: nat, shift: nat): (s: seq<Byte>)
    requires shift <= 31
    ensures |s| == 10
  {
    BigEndian(31 - shift + 0x3FFF, 2) + BigEndian(Shl(val, shift), 4) + BigEndian(0, 4)
  }

  /** write_sane_extended: the loop looks for the highest bit. */
  method WriteSane(val: nat) returns (s: seq<Byte>)
    requires 0 < val < Pow2(32)
    ensures exists shift: nat :: Normal(val, shift) && s == SaneBytes(val, shift)
  {
    hide Pow2, Shr, Shl, Low, BigEndian;
    var n := 0;
    ShrZero(val);
    ShrToNothing(val, 32, 32);
    while Shr(val, 31 - n) == 0
      invariant n <= 31 && Shr(val, 32 - n) == 0
      decreases 32 - n
    {
      if n == 31 {
        assert false;
      }
      n := n + 1;
    }
    HighestBit(val, 31 - n);
    NoBitsLost(val, n);
    var exponent := 63 - (n + 32);
    s := BigEndian(exponent + 0x3FFF, 2) + BigEndian(Low(Shl(val, n), 32), 4) + BigEndian(0, 4);
  }

  lemma {:induction false} ShrZero(v: nat)
    ensures Shr(v, 0) == v
  {}

  /** Where a shift by one more leaves nothing, the highest bit is at the bottom. */
  lemma {:induction false} HighestBit(v: nat, s: nat)
    requires Shr(v, s + 1) == 0 && Shr(v, s) != 0
    ensures Shr(v, s) == 1
  {
    ShrTwice(v, s, 1);
    assert Shr(Shr(v, s), 1) == Shr(v, s) / 2;
  }

  lemma {:induction false} NoBitsLost(val: nat, shift: nat)
    requires Normal(val, shift)
    ensures Low(Shl(val, shift), 32) == Shl(val, shift) < Pow2(32)
  {
    hide Pow2, Shl, Shr, Low;
    var t := 31 - shift;
    LowOfShr(val, t);
    PowStep(t);
    PowSum(t + 1, shift);
    ShlIsTimes(val, shift);
    StrictTimes(val, Pow2(t + 1), Pow2(shift));
    FitsLow(Shl(val, shift), 32);
  }

  lemma {:induction false} StrictTimes(a: nat, b: nat, c: nat)
    requires a < b && c >= 1
    ensures a * c < b * c
  {
    Product(b - a - 1, c);
    assert b * c == a * c + (b - a - 1) * c + c;
  }

  lemma {:induction false} FitsLow(v: nat, n: nat)
    requires v < Pow2(n)
    ensures Low(v, n) == v
  {
    ShrAndLowDivide(v, n);
    RemainderUnique(v, Pow2(n), 0, v);
  }

  lemma {:induction false} PowStep(n: nat)
    ensures Pow2(n + 1) == 2 * Pow2(n)
  {}

  /** The exponent field without its bias, as a 16-bit signed number. */
  function Exponent(buf: seq<Byte>): int
    requires |buf| >= 2
  {
    var u := (256 * buf[0] as int + buf[1] as int - 0x3FFF) % 0x1_0000;
    if u >= 0x8000 then u - 0x1_0000 else u
  }

  /** A significand above 2 to the shift, rounded to the nearest whole number, half upwards. */
  function Rounded(p: nat, shift: nat): nat
    requires shift >= 1
  {
    Shr(p, shift) + Low(Shr(p, shift - 1), 1)
  }

  function NearestWhole(p: nat, one: nat): nat
    requires one > 0
  {
    (2 * p + one) / (2 * one)
  }

  /** The whole number nearest to p / one, half upwards. */
  lemma {:induction false} NearestIs(p: nat, one: nat)
    requires one > 0
    ensures 2 * p - one < 2 * NearestWhole(p, one) * one <= 2 * p + one
  {
    var n, m := NearestWhole(p, one), 2 * one;
    assert 2 * p + one == m * n + (2 * p + one) % m;
    assert m * n == 2 * n * one;
  }

  lemma {:induction false} RoundsToNearest(p: nat, shift: nat)
    requires shift >= 1
    ensures Rounded(p, shift) == NearestWhole(p, Pow2(shift))
  {
    var q, r, m := Shr(p, shift - 1), Low(p, shift - 1), Pow2(shift - 1);
    LowOfShr(p, shift - 1);
    ShrTwice(p, shift - 1, 1);
    assert Shr(q, 1) == q / 2 && Low(q, 1) == q % 2;
    PowStep(shift - 1);
    hide Shr, Low, Pow2;
    NearestOf(p, m, q, r);
  }

  lemma {:induction false} NearestOf(p: nat, m: nat, q: nat, r: nat)
    requires m > 0 && p == r + m * q && r < m
    ensures q / 2 + q % 2 == (2 * p + 2 * m) / (2 * (2 * m))
  {
    var h := q / 2;
    if q % 2 == 0 {
      Spread(m, h);
      QuotientUnique(2 * p + 2 * m, 4 * m, h, 2 * r + 2 * m);
    } else {
      Spread(m, h);
      assert m * (2 * h + 1) == m * (2 * h) + m;
      QuotientUnique(2 * p + 2 * m, 4 * m, h + 1, 2 * r);
    }
  }

  lemma {:induction false} Spread(m: nat, h: nat)
    ensures (4 * m) * h == 2 * (m * (2 * h)) && (4 * m) * (h + 1) == 2 * (m * (2 * h)) + 4 * m
  {}

  /**
   read_sane_extended on what is left of the file. Exponent 63 would shift by -1; that has no meaning in C and is not
   covered.
   */
  method ReadSane(buf: seq<Byte>, eofOk: bool) returns (r: Reading)
    requires |buf| >= 10 && buf[0] < 0x80 ==> Exponent(buf) != 63
    ensures r == SaneReading(buf, eofOk)
  {
    hide Shr, Shl, Low, Pow2, FromBigEndian, Or;
    if buf == [] && eofOk {
      return Nothing;
    } else if |buf| < 10 {
      return UnexpectedEof;
    }
    var e := Exponent(buf);
    if buf[0] / 128 == 1 || e < 0 || e > 63 {
      return Invalid;
    }
    var shift := 63 - e;
    var p := 0;
    ghost var word := buf[2..10];
    NoBytes(64);
    for i := 0 to 8
      invariant p == Shl(FromBigEndian(word[..i]), 64 - 8 * i)
    {
      NextByte(word, i);
      p := Or(p, Shl(buf[i + 2], 56 - i * 8));
    }
    assert word[..8] == word;
    ShlByNothing(FromBigEndian(word));
    r := Value(Low(Rounded(p, shift), 32));
  }

  function SaneReading(buf: seq<Byte>, eofOk: bool): Reading
    requires |buf| >= 10 && buf[0] < 0x80 ==> Exponent(buf) != 63
  {
    if buf == [] && eofOk then Nothing
    else if |buf| < 10 then UnexpectedEof
    else if buf[0] >= 0x80 || !(0 <= Exponent(buf) <= 62) then Invalid
    else Value(Low(Rounded(FromBigEndian(buf[2..10]), 63 - Exponent(buf)), 32))
  }

  /**
   What the ten bytes mean: a nonnegative number of at least 1, its exponent biased by 16383 and its significand with 63
   binary places, is read as the nearest whole number, half upwards, of which 32 bits are kept. With the sign set, below
   1, or from 2 to the 63 on it is invalid.
   */
  lemma {:induction false} ReadsNearest(buf: seq<Byte>, eofOk: bool)
    requires |buf| >= 10 && (buf[0] < 0x80 ==> Exponent(buf) != 63)
    ensures var biased := FromBigEndian(buf[..2]);
      SaneReading(buf, eofOk) == if buf[0] < 0x80 && 16383 <= biased < 16383 + 63
        then Value(NearestWhole(FromBigEndian(buf[2..10]), Pow2(63 - (biased - 16383))) % Pow2(32)) else Invalid
  {
    hide *;
    ReadingOf(buf, eofOk);
    var biased := FromBigEndian(buf[..2]);
    if buf[0] < 0x80 && 16383 <= biased < 16383 + 63 {
      KeptOf(FromBigEndian(buf[2..10]), 63 - (biased - 16383));
    }
  }

  lemma {:induction false} KeptOf(p: nat, shift: nat)
    requires shift >= 1
    ensures Low(Rounded(p, shift), 32) == NearestWhole(p, Pow2(shift)) % Pow2(32)
  {
    hide *;
    RoundsToNearest(p, shift);
    ShrAndLowDivide(Rounded(p, shift), 32);
  }

  lemma {:induction false} ReadingOf(buf: seq<Byte>, eofOk: bool)
    requires |buf| >= 10 && (buf[0] < 0x80 ==> Exponent(buf) != 63)
    ensures var biased := FromBigEndian(buf[..2]);
      SaneReading(buf, eofOk) == if buf[0] < 0x80 && 16383 <= biased < 16383 + 63
        then Value(Low(Rounded(FromBigEndian(buf[2..10]), 63 - (biased - 16383)), 32)) else Invalid
  {
    hide Exponent, FromBigEndian, Rounded, Low, Pow256, Pow2, Shr;
    ExponentIs(buf);
  }

  lemma {:induction false} ExponentIs(buf: seq<Byte>)
    requires |buf| >= 2
    ensures buf[0] < 0x80 ==> Exponent(buf) == FromBigEndian(buf[..2]) - 16383
  {
    TwoBytes(buf[..2]);
    hide FromBigEndian;
  }

  lemma {:induction false} TwoBytes(s: seq<Byte>)
    requires |s| == 2
    ensures FromBigEndian(s) == 256 * s[0] as int + s[1] as int
  {
    assert s[..1][..0] == [];
    assert FromBigEndian(s[..1]) == s[0];
  }

  lemma {:induction false} NoBytes(s: nat)
    ensures Shl(FromBigEndian([]), s) == 0
  {
    ShlIsTimes(0, s);
  }

  lemma {:induction false} ShlByNothing(v: nat)
    ensures Shl(v, 0) == v
  {}

  lemma {:induction false} OrIsSum(y: nat, n: nat, b: nat)
    requires b < Pow2(n)
    ensures Or(Shl(y, n), b) == Shl(y, n) + b
    decreases n
  {
    if n > 0 && b > 0 && Shl(y, n) > 0 {
      OrIsSum(y, n - 1, b / 2);
      assert Shl(y, n) / 2 == Shl(y, n - 1);
    }
  }

  lemma {:induction false} ShlTwice(v: nat, a: nat, b: nat)
    ensures Shl(Shl(v, a), b) == Shl(v, a + b)
    decreases b
  {
    if b > 0 {
      ShlTwice(v, a, b - 1);
    }
  }

  lemma {:induction false} ShlSum(v: nat, w: nat, s: nat)
    ensures Shl(v + w, s) == Shl(v, s) + Shl(w, s)
  {
    if s > 0 {
      ShlSum(v, w, s - 1);
    }
  }

  /** One more byte in the place it belongs to. */
  lemma {:induction false} NextByte(word: seq<Byte>, i: nat)
    requires i < 8 <= |word|
    ensures Or(Shl(FromBigEndian(word[..i]), 64 - 8 * i), Shl(word[i], 56 - i * 8))
         == Shl(FromBigEndian(word[..i + 1]), 64 - 8 * (i + 1))
  {
    var x, b, s := FromBigEndian(word[..i]), word[i], 56 - 8 * i;
    assert word[..i + 1][..i] == word[..i];
    assert FromBigEndian(word[..i + 1]) == 256 * x + b;
    ByteOver(x, b, s);
  }

  lemma {:induction false} ByteOver(x: nat, b: Byte, s: nat)
    ensures Or(Shl(x, s + 8), Shl(b, s)) == Shl(256 * x + b, s)
  {
    EightBits();
    hide Or, Shl, Pow2;
    ShlIsTimes(x, 8);
    ShlTwice(x, 8, s);
    ShlSum(256 * x, b, s);
    ShlIsTimes(b, s);
    PowSum(8, s);
    assert b * Pow2(s) < Pow2(8) * Pow2(s);
    OrIsSum(x, 8 + s, Shl(b, s));
  }

  // The round trip

  lemma {:induction false} ShrOfShl(v: nat, s: nat, t: nat)
    requires t <= s
    ensures Shr(Shl(v, s), t) == Shl(v, s - t)
    decreases t
  {
    if t > 0 {
      assert Shl(v, s) / 2 == Shl(v, s - 1);
      ShrOfShl(v, s - 1, t - 1);
    }
  }

  lemma {:induction false} TrailingZeros(s: seq<Byte>, n: nat)
    ensures FromBigEndian(s + BigEndian(0, n)) == Shl(FromBigEndian(s), 8 * n)
    decreases n
  {
    hide Pow256, Shl;
    if n == 0 {
      assert s + [] == s;
      ShlByNothing(FromBigEndian(s));
    } else {
      TrailingZeros(s, n - 1);
      var t := s + BigEndian(0, n);
      assert t[..|t| - 1] == s + BigEndian(0, n - 1);
      ShlByte(FromBigEndian(s), 8 * (n - 1));
    }
  }

  lemma {:induction false} ShlByte(x: nat, s: nat)
    ensures Shl(x, s + 8) == 256 * Shl(x, s)
  {
    ShlTwice(x, s, 8);
    EightBits();
    ShlIsTimes(Shl(x, s), 8);
  }

  lemma {:induction false} SaneParts(val: nat, shift: nat)
    requires Normal(val, shift)
    ensures var s := SaneBytes(val, shift);
      s[0] < 0x80 && Exponent(s) == 31 - shift && s[2..10] == BigEndian(Shl(val, shift), 4) + BigEndian(0, 4)
  {
    SaneExponent(31 - shift);
    hide BigEndian, Shl, Shr, Pow256;
    Cut(BigEndian(31 - shift + 0x3FFF, 2), BigEndian(Shl(val, shift), 4), BigEndian(0, 4));
  }

  lemma {:induction false} Cut(a: seq<Byte>, b: seq<Byte>, c: seq<Byte>)
    requires |a| == 2 && |b| == 4 && |c| == 4
    ensures (a + b + c)[0] == a[0] && (a + b + c)[1] == a[1] && (a + b + c)[2..10] == b + c
  {}

  lemma {:induction false} SaneWord(val: nat, shift: nat)
    requires Normal(val, shift)
    ensures FromBigEndian(SaneBytes(val, shift)[2..10]) == Shl(val, shift + 32)
  {
    SaneParts(val, shift);
    hide Shr, Shl, BigEndian, FromBigEndian, Pow2, Pow256, SaneBytes;
    NoBitsLost(val, shift);
    PowersOfBytes();
    BigFieldRoundTrip(Shl(val, shift), 4);
    RemainderUnique(Shl(val, shift), Pow256(4), 0, Shl(val, shift));
    TrailingZeros(BigEndian(Shl(val, shift), 4), 4);
    ShlTwice(val, shift, 32);
  }

  /** Every nonzero 32-bit rate comes back, with nothing to round. */
  lemma {:induction false} SaneRoundTrip(val: nat, shift: nat, eofOk: bool)
    requires 0 < val < Pow2(32) && Normal(val, shift)
    ensures var s := SaneBytes(val, shift);
      && s[0] < 0x80 && Exponent(s) == 31 - shift
      && SaneReading(s, eofOk) == Value(val)
      && Low(Shr(FromBigEndian(s[2..10]), 63 - Exponent(s) - 1), 1) == 0
  {
    SaneParts(val, shift);
    SaneWord(val, shift);
    NothingToRound(val, shift + 32);
    ShrAndLowDivide(val, 32);
    RemainderUnique(val, Pow2(32), 0, val);
    hide Shr, Shl, Low, FromBigEndian, Pow2, SaneBytes, Exponent, Rounded;
  }

  /** What write_sane_extended writes: the exponent biased by 16383, and the significand with 63 binary places. */
  lemma {:induction false} SaneMeans(val: nat, shift: nat)
    requires 0 < val < Pow2(32) && Normal(val, shift)
    ensures var s, e := SaneBytes(val, shift), 31 - shift;
      && FromBigEndian(s[..2]) == 16383 + e && Pow2(e) <= val < 2 * Pow2(e)
      && FromBigEndian(s[2..10]) == val * Pow2(63 - e)
  {
    hide *;
    HighestAt(val, shift);
    SaneParts(val, shift);
    SaneWord(val, shift);
    ExponentIs(SaneBytes(val, shift));
    ShlIsTimes(val, shift + 32);
  }

  lemma {:induction false} HighestAt(val: nat, shift: nat)
    requires Normal(val, shift)
    ensures shift <= 31 && Pow2(31 - shift) <= val < 2 * Pow2(31 - shift)
  {
    hide Shr, Low, Pow2;
    LowOfShr(val, 31 - shift);
  }

  lemma {:induction false} NothingToRound(val: nat, s: nat)
    requires s >= 1
    ensures Rounded(Shl(val, s), s) == val && Low(Shr(Shl(val, s), s - 1), 1) == 0
  {
    hide Shr, Shl, Low;
    ShrOfShl(val, s, s);
    ShrOfShl(val, s, s - 1);
    ShlByNothing(val);
    LowOfShl(val, 1);
  }

  lemma {:induction false} SaneExponent(e: nat)
    requires e <= 31
    ensures var h := BigEndian(e + 0x3FFF, 2); h[0] < 0x80 && 256 * h[0] as int + h[1] as int == e + 0x3FFF
  {
    var v := e + 0x3FFF;
    assert BigEndian(v / 256, 1) == BigEndian(v / 256 / 256, 0) + [v / 256 % 256];
    assert BigEndian(v, 2) == [v / 256 % 256, v % 256];
  }
}
