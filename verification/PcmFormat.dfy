/** Samples in containers of one to three bytes, as WAVE, AIFF and raw files hold them. */
module PcmFormat {
  import opened Bits
  import opened BitOps
  import opened Bytes

  /** The n low-order bytes of v in either byte order; negative v in two's complement. */
  function Ordered(v: int, n: nat, big: bool): (s: seq<Byte>)
    ensures |s| == n
  {
    if big then BigEndian(v, n) else LittleEndian(v, n)
  }

  function FromOrdered(s: seq<Byte>, big: bool): int {
    if big then FromBigEndian(s) else FromLittleEndian(s)
  }

  /** What is added to samples that are written unsigned. */
  function Bias(n: nat, unsigned: bool): int {
    if unsigned then Pow256(n) / 2 else 0
  }

  /** A sample in its container. */
  function Code(v: int, n: nat, big: bool, unsigned: bool): (s: seq<Byte>)
    ensures |s| == n
  {
    Ordered(v + Bias(n, unsigned), n, big)
  }

  /** The sample in a container. */
  function Decoded(s: seq<Byte>, big: bool, unsigned: bool): int {
    var u := FromOrdered(s, big);
    if unsigned then u - Bias(|s|, true) else Signed(u, |s|)
  }

  lemma {:induction false} CodeRoundTrip(v: int, n: nat, big: bool, unsigned: bool)
    requires n >= 1 && -Pow256(n) <= 2 * v < Pow256(n)
    ensures Decoded(Code(v, n, big, unsigned), big, unsigned) == v
  {
    hide LittleEndian, FromLittleEndian, BigEndian, FromBigEndian, Pow256;
    var u := v + Bias(n, unsigned);
    FieldRoundTrip(u, n);
    BigFieldRoundTrip(u, n);
    if unsigned {
      HalfRange(n);
      RemainderUnique(u, Pow256(n), 0, u);
    } else {
      SignedFieldRoundTrip(v, n);
    }
  }

  lemma {:induction false} HalfRange(n: nat)
    requires n >= 1
    ensures Pow256(n) == 2 * (Pow256(n) / 2)
  {
    assert Pow256(n) == 2 * (128 * Pow256(n - 1));
  }

  /** The samples of all channels at one moment after those of the moment before. */
  function Interleaved(buffer: seq<seq<int>>, wide: nat): (samples: seq<int>)
    requires forall c :: 0 <= c < |buffer| ==> |buffer[c]| >= wide
    ensures |samples| == wide * |buffer|
  {
    if wide == 0 then [] else Interleaved(buffer, wide - 1) + Column(buffer, wide - 1)
  }

  function Column(buffer: seq<seq<int>>, w: nat): (samples: seq<int>)
    requires forall c :: 0 <= c < |buffer| ==> |buffer[c]| > w
    ensures |samples| == |buffer|
  {
    seq(|buffer|, c requires 0 <= c < |buffer| => buffer[c][w])
  }

  lemma {:induction false} InterleavedAt(buffer: seq<seq<int>>, wide: nat, c: nat, w: nat)
    requires c < |buffer| && w < wide && forall c :: 0 <= c < |buffer| ==> |buffer[c]| >= wide
    ensures 0 <= w * |buffer| + c < wide * |buffer|
    ensures Interleaved(buffer, wide)[w * |buffer| + c] == buffer[c][w]
    decreases wide
  {
    var front := Interleaved(buffer, wide - 1);
    Within(|buffer|, w, wide);
    assert |front| == (wide - 1) * |buffer|;
    if w < wide - 1 {
      InterleavedAt(buffer, wide - 1, c, w);
    } else {
      assert Column(buffer, w)[c] == buffer[c][w];
    }
  }

  lemma {:induction false} Within(n: nat, i: nat, m: nat)
    requires i < m
    ensures 0 <= n * i <= n * (i + 1) <= n * m && n * (i + 1) == n * i + n
  {
    assert n * m == n * (i + 1) + n * (m - i - 1);
    Product(n, m - i - 1);
    Product(n, i);
  }

  /** Numbers, with something added to each, one after the other in n bytes. */
  function Words(samples: seq<int>, n: nat, bias: int, big: bool): (bytes: seq<Byte>)
    ensures |bytes| == n * |samples|
  {
    if samples == [] then []
    else
      assert n * |samples| == n * (|samples| - 1) + n;
      Words(samples[..|samples| - 1], n, bias, big) + Ordered(samples[|samples| - 1] + bias, n, big)
  }

  /** Containers one after the other. */
  function Packed(samples: seq<int>, n: nat, big: bool, unsigned: bool): (bytes: seq<Byte>)
    ensures |bytes| == n * |samples|
  {
    Words(samples, n, Bias(n, unsigned), big)
  }

  lemma {:induction false} PackedConcat(a: seq<int>, b: seq<int>, n: nat, big: bool, unsigned: bool)
    ensures Packed(a + b, n, big, unsigned) == Packed(a, n, big, unsigned) + Packed(b, n, big, unsigned)
    decreases |b|
  {
    hide Ordered;
    if b == [] {
      assert a + b == a;
    } else {
      assert (a + b)[..|a + b| - 1] == a + b[..|b| - 1];
      PackedConcat(a, b[..|b| - 1], n, big, unsigned);
    }
  }

  lemma {:induction false} WordsAt(samples: seq<int>, n: nat, bias: int, big: bool, i: nat)
    requires i < |samples|
    ensures 0 <= n * i <= n * (i + 1) <= n * |samples|
    ensures Words(samples, n, bias, big)[n * i..n * (i + 1)] == Ordered(samples[i] + bias, n, big)
    decreases |samples|
  {
    hide Ordered;
    var k := |samples| - 1;
    Within(n, i, |samples|);
    Within(n, k, |samples|);
    var all, front, last := Words(samples, n, bias, big), Words(samples[..k], n, bias, big),
                            Ordered(samples[k] + bias, n, big);
    assert all == front + last;
    if i < k {
      Within(n, i, k);
      WordsAt(samples[..k], n, bias, big, i);
      hide Words;
      assert all[n * i..n * (i + 1)] == front[n * i..n * (i + 1)];
    }
  }

  /**
   The container of sample i: its bytes are those of the sample in two's complement, or with half of the range added,
   and the low-order one comes first or last.
   */
  lemma {:induction false} ContainerBytes(samples: seq<int>, n: nat, big: bool, unsigned: bool, i: nat, k: nat)
    requires i < |samples| && k < n <= 3
    ensures 0 <= n * i <= n * (i + 1) <= n * |samples|
    ensures
      var v := samples[i] + if !unsigned then 0 else if n == 1 then 0x80 else if n == 2 then 0x8000 else 0x80_0000;
      var container := Packed(samples, n, big, unsigned)[n * i..n * (i + 1)];
      container[if big then n - 1 - k else k] == v / Pow256(k) % 256
  {
    hide *;
    PackedAt(samples, n, big, unsigned, i);
    OrderedByte(samples[i] + Bias(n, unsigned), n, big, k);
    BiasIs(n);
  }

  lemma {:induction false} PackedAt(samples: seq<int>, n: nat, big: bool, unsigned: bool, i: nat)
    requires i < |samples|
    ensures 0 <= n * i <= n * (i + 1) <= n * |samples|
    ensures Packed(samples, n, big, unsigned)[n * i..n * (i + 1)] == Ordered(samples[i] + Bias(n, unsigned), n, big)
  {
    hide Words, Ordered, Bias;
    WordsAt(samples, n, Bias(n, unsigned), big, i);
  }

  lemma {:induction false} OrderedByte(v: int, n: nat, big: bool, k: nat)
    requires k < n
    ensures Ordered(v, n, big)[if big then n - 1 - k else k] == v / Pow256(k) % 256
  {
    hide LittleEndian, BigEndian, Pow256;
    EndianBytes(v, n, k);
  }

  lemma {:induction false} BiasIs(n: nat)
    requires 1 <= n <= 3
    ensures Bias(n, false) == 0
    ensures Bias(n, true) == if n == 1 then 0x80 else if n == 2 then 0x8000 else 0x80_0000
  {
    assert Pow256(1) == 256 && Pow256(2) == 0x1_0000;
  }

  function Unpacked(bytes: seq<Byte>, n: nat, big: bool, unsigned: bool): (samples: seq<int>)
    requires n >= 1
    decreases |bytes|
  {
    if |bytes| < n then []
    else
      var k := |bytes| - n;
      Unpacked(bytes[..k], n, big, unsigned) + [Decoded(bytes[k..], big, unsigned)]
  }

  function ShiftedUp(samples: seq<int>, shift: nat): (r: seq<int>)
    ensures |r| == |samples|
  {
    seq(|samples|, i requires 0 <= i < |samples| => samples[i] * Pow2(shift))
  }

  /** Taking the empty low-order bits off again, unless one of them is not empty. */
  datatype Result = Samples(samples: seq<int>) | LowBitsSet

  predicate Clean(samples: seq<int>, shift: nat) {
    forall i :: 0 <= i < |samples| ==> samples[i] % Pow2(shift) == 0
  }

  function ShiftedDown(samples: seq<int>, shift: nat): Result {
    if Clean(samples, shift) then Samples(seq(|samples|, i requires 0 <= i < |samples| => samples[i] / Pow2(shift)))
    else LowBitsSet
  }

  lemma {:induction false} UnpackPacked(samples: seq<int>, n: nat, big: bool, unsigned: bool)
    requires n >= 1 && forall i :: 0 <= i < |samples| ==> -Pow256(n) <= 2 * samples[i] < Pow256(n)
    ensures Unpacked(Packed(samples, n, big, unsigned), n, big, unsigned) == samples
  {
    if samples == [] {
    } else {
      var k := |samples| - 1;
      var bytes := Packed(samples, n, big, unsigned);
      var front := Packed(samples[..k], n, big, unsigned);
      assert bytes == front + Code(samples[k], n, big, unsigned);
      CodeRoundTrip(samples[k], n, big, unsigned);
      UnpackPacked(samples[..k], n, big, unsigned);
      hide Packed, Unpacked, Code, Decoded;
      LastContainer(bytes, front, samples, n, big, unsigned);
    }
  }

  lemma {:induction false} LastContainer(bytes: seq<Byte>, front: seq<Byte>, samples: seq<int>, n: nat, big: bool,
                                         unsigned: bool)
    requires n >= 1 && samples != [] && bytes == front + Code(samples[|samples| - 1], n, big, unsigned)
    requires Unpacked(front, n, big, unsigned) == samples[..|samples| - 1]
    requires Decoded(Code(samples[|samples| - 1], n, big, unsigned), big, unsigned) == samples[|samples| - 1]
    ensures Unpacked(bytes, n, big, unsigned) == samples
  {
    var k := |bytes| - n;
    assert bytes[..k] == front && bytes[k..] == Code(samples[|samples| - 1], n, big, unsigned);
  }

  lemma {:induction false} ShiftRoundTrip(samples: seq<int>, shift: nat)
    ensures ShiftedDown(ShiftedUp(samples, shift), shift) == Samples(samples)
  {
    var p := Pow2(shift);
    forall i | 0 <= i < |samples|
      ensures ShiftedUp(samples, shift)[i] % p == 0 && ShiftedUp(samples, shift)[i] / p == samples[i]
    {
      assert samples[i] * p == p * samples[i];
      RemainderUnique(samples[i] * p, p, samples[i], 0);
      QuotientUnique(samples[i] * p, p, samples[i], 0);
    }
  }

  /** A sample of bps bits, shifted to fill a container of n bytes, is in the container's range. */
  lemma {:induction false} InRange(v: int, bps: nat, shift: nat, n: nat)
    requires bps >= 1 && bps + shift == 8 * n && n <= 3
    requires -Pow2(bps - 1) <= v < Pow2(bps - 1)
    ensures -Pow256(n) <= 2 * (v * Pow2(shift)) < Pow256(n)
  {
    hide Pow256;
    PowersOfBytes();
    hide Pow2;
    PowSum(bps - 1, shift);
    PowSum(8 * n - 1, 1);
    PowOne();
    Scaled(v, Pow2(bps - 1), Pow2(shift));
  }

  lemma {:induction false} PowOne()
    ensures Pow2(1) == 2
  {
    assert Pow2(0) == 1;
  }

  lemma {:induction false} Scaled(v: int, q: int, p: nat)
    requires -q <= v < q && p >= 1
    ensures -(q * p) <= v * p < q * p
  {
    Product(q - v - 1, p);
    Product(v + q, p);
    assert (q - v - 1) * p == q * p - v * p - p;
    assert (v + q) * p == v * p + q * p;
  }

  /**
   Packing and unpacking are inverse: for containers of one to three bytes, either byte order, signed or unsigned, and
   samples of any width shifted to the top of the container, what is read is what was written.
   */
  lemma {:induction false} PcmRoundTrip(samples: seq<int>, bps: nat, shift: nat, n: nat, big: bool, unsigned: bool)
    requires 1 <= n <= 3 && bps >= 1 && bps + shift == 8 * n
    requires forall i :: 0 <= i < |samples| ==> -Pow2(bps - 1) <= samples[i] < Pow2(bps - 1)
    ensures ShiftedDown(Unpacked(Packed(ShiftedUp(samples, shift), n, big, unsigned), n, big, unsigned), shift)
         == Samples(samples)
  {
    var up := ShiftedUp(samples, shift);
    forall i | 0 <= i < |up| ensures -Pow256(n) <= 2 * up[i] < Pow256(n) {
      InRange(samples[i], bps, shift, n);
    }
    hide Pow2, Pow256, Packed, Unpacked, ShiftedDown, ShiftedUp;
    UnpackPacked(up, n, big, unsigned);
    ShiftRoundTrip(samples, shift);
  }

  /** No two blocks of samples are interleaved alike. */
  lemma {:induction false} InterleavedInjective(a: seq<seq<int>>, b: seq<seq<int>>, wide: nat, c: nat, w: nat)
    requires |a| == |b| && c < |a| && w < wide
    requires forall c :: 0 <= c < |a| ==> |a[c]| >= wide && |b[c]| >= wide
    requires Interleaved(a, wide) == Interleaved(b, wide)
    ensures a[c][w] == b[c][w]
    decreases wide
  {
    var x, y := Interleaved(a, wide - 1), Interleaved(b, wide - 1);
    assert x + Column(a, wide - 1) == y + Column(b, wide - 1);
    assert x == y && Column(a, wide - 1) == Column(b, wide - 1) by {
      SplitEqual(x, Column(a, wide - 1), y, Column(b, wide - 1));
    }
    if w < wide - 1 {
      InterleavedInjective(a, b, wide - 1, c, w);
    } else {
      assert Column(a, w)[c] == Column(b, w)[c];
    }
  }

  lemma {:induction false} SplitEqual(a: seq<int>, b: seq<int>, c: seq<int>, d: seq<int>)
    requires a + b == c + d && |a| == |c|
    ensures a == c && b == d
  {
    assert a == (a + b)[..|a|] && c == (c + d)[..|c|];
    assert b == (a + b)[|a|..] && d == (c + d)[|c|..];
  }
}
