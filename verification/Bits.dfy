/** Numbers as bit strings, most significant bit first. */
module Bits {
  import opened Bytes

  function Pow2(n: nat): (p: int)
    ensures p >= 1
  {
    if n == 0 then 1 else 2 * Pow2(n - 1)
  }

  /** The n low-order bits of v. */
  function ToBits(v: nat, n: nat): (s: seq<bool>)
    ensures |s| == n
    decreases n
  {
    if n == 0 then [] else ToBits(v / 2, n - 1) + [v % 2 == 1]
  }

  function FromBits(s: seq<bool>): (v: nat)
    ensures v < Pow2(|s|)
  {
    if s == [] then 0 else 2 * FromBits(s[..|s| - 1]) + (if s[|s| - 1] then 1 else 0)
  }

  lemma {:induction false} FromToBits(v: nat, n: nat)
    requires v < Pow2(n)
    ensures FromBits(ToBits(v, n)) == v
    decreases n
  {
    if n > 0 {
      FromToBits(v / 2, n - 1);
      assert ToBits(v, n)[..n - 1] == ToBits(v / 2, n - 1);
    }
  }

  lemma {:induction false} FromBitsInjective(s: seq<bool>, t: seq<bool>)
    requires |s| == |t| && FromBits(s) == FromBits(t)
    ensures s == t
    decreases |s|
  {
    if s != [] {
      var n := |s| - 1;
      FromBitsInjective(s[..n], t[..n]);
      assert s == s[..n] + [s[n]] && t == t[..n] + [t[n]];
    }
  }

  function ByteBits(b: Byte): (s: seq<bool>)
    ensures |s| == 8
  {
    ToBits(b, 8)
  }

  function Halved(v: nat, k: nat): (w: nat)
    decreases k
  {
    if k == 0 then v else Halved(v / 2, k - 1)
  }

  lemma {:induction false} ToBitsAt(v: nat, n: nat, k: nat)
    requires k < n
    ensures ToBits(v, n)[n - 1 - k] == (Halved(v, k) % 2 == 1)
    decreases n
  {
    if k > 0 {
      ToBitsAt(v / 2, n - 1, k - 1);
    }
  }

  lemma {:induction false} ByteHalves(b: Byte)
    ensures Halved(b, 0) == b && Halved(b, 1) == b / 2 && Halved(b, 2) == b / 4 && Halved(b, 3) == b / 8
    ensures Halved(b, 4) == b / 16 && Halved(b, 5) == b / 32 && Halved(b, 6) == b / 64 && Halved(b, 7) == b / 128
  {
    HalvedTwice(b, 2);
    HalvedTwice(b, 3);
  }

  lemma {:induction false} HalvedTwice(v: nat, k: nat)
    ensures Halved(v, 0) == v && Halved(v, k + 1) == Halved(v / 2, k)
  {}

  function ByteFromBits(s: seq<bool>): (b: Byte)
    requires |s| == 8
  {
    EightBits();
    FromBits(s)
  }

  lemma {:induction false} EightBits()
    ensures Pow2(8) == 256
  {
    assert Pow2(4) == 16;
  }

  lemma {:induction false} ByteFromByteBits(b: Byte)
    ensures ByteFromBits(ByteBits(b)) == b
  {
    EightBits();
    FromToBits(b, 8);
  }

  /** The bits of a byte string in order. */
  function Stream(s: seq<Byte>): (bits: seq<bool>)
    ensures |bits| == 8 * |s|
  {
    if s == [] then [] else ByteBits(s[0]) + Stream(s[1..])
  }

  lemma {:induction false} StreamConcat(a: seq<Byte>, b: seq<Byte>)
    ensures Stream(a + b) == Stream(a) + Stream(b)
  {
    if a == [] {
      assert a + b == b;
    } else {
      assert (a + b)[1..] == a[1..] + b;
      StreamConcat(a[1..], b);
    }
  }
}
