/**
 Division of bit strings, read as polynomials over GF(2), by the generator 0x04c11db7:
 register initially zero, most significant bit first, no reflection, no final complement.
 */
module Division {
  import opened Bits
  import opened Bytes

  type Word = s: seq<bool> | |s| == 32 witness seq(32, i => false)

  function Zeros(n: nat): (s: seq<bool>)
    ensures |s| == n && forall i :: 0 <= i < n ==> !s[i]
  {
    seq(n, i => false)
  }

  /** The exponents of the generator below its leading term x^32. */
  predicate GeneratorTerm(k: nat) {
    k in {26, 23, 22, 16, 12, 11, 10, 8, 7, 5, 4, 2, 1, 0}
  }

  function Generator(): (g: Word) {
    seq(32, i requires 0 <= i < 32 => GeneratorTerm(31 - i))
  }

  function Xor(a: seq<bool>, b: seq<bool>): (s: seq<bool>)
    requires |a| == |b|
    ensures |s| == |a|
    ensures forall i :: 0 <= i < |a| ==> s[i] == (a[i] != b[i])
  {
    seq(|a|, i requires 0 <= i < |a| => a[i] != b[i])
  }

  /** Multiplies the register by x and reduces. */
  function Clock(r: Word): (s: Word) {
    if r[0] then Xor(r[1..] + [false], Generator()) else r[1..] + [false]
  }

  function ClockN(r: Word, n: nat): (s: Word)
    decreases n
  {
    if n == 0 then r else ClockN(Clock(r), n - 1)
  }

  /** The register after dividing the further bits of a message. */
  function Divide(r: Word, bits: seq<bool>): (s: Word)
    decreases |bits|
  {
    if bits == [] then r else Divide(Clock([r[0] != bits[0]] + r[1..]), bits[1..])
  }

  /** The checksum of a byte string (RFC 3533, section 6). */
  function Remainder(s: seq<Byte>): (w: Word) {
    Divide(Zeros(32), Stream(s))
  }

  lemma {:induction false} ClockLinear(a: Word, b: Word)
    ensures Clock(Xor(a, b)) == Xor(Clock(a), Clock(b))
  {}

  /** The step loses nothing: the generator is odd, so the bit shifted out shows in the result. */
  lemma {:induction false} ClockInjective(a: Word, b: Word)
    requires Clock(a) == Clock(b)
    ensures a == b
  {
    assert Clock(a)[31] == a[0] && Clock(b)[31] == b[0];
    forall i | 1 <= i < 32 ensures a[i] == b[i] {
      assert Clock(a)[i - 1] == Clock(b)[i - 1];
    }
  }

  lemma {:induction false} ClockNInjective(a: Word, b: Word, n: nat)
    requires ClockN(a, n) == ClockN(b, n)
    ensures a == b
    decreases n
  {
    if n > 0 {
      ClockNInjective(Clock(a), Clock(b), n - 1);
      ClockInjective(a, b);
    }
  }

  lemma {:induction false} ClockNLinear(a: Word, b: Word, n: nat)
    ensures ClockN(Xor(a, b), n) == Xor(ClockN(a, n), ClockN(b, n))
    decreases n
  {
    if n > 0 {
      ClockLinear(a, b);
      ClockNLinear(Clock(a), Clock(b), n - 1);
    }
  }

  lemma {:induction false} ClockNMore(r: Word, n: nat)
    ensures ClockN(r, n + 1) == Clock(ClockN(r, n))
    decreases n
  {
    if n > 0 {
      ClockNMore(Clock(r), n - 1);
    }
  }

  lemma {:induction false} ClockNAdd(r: Word, m: nat, n: nat)
    ensures ClockN(r, m + n) == ClockN(ClockN(r, m), n)
    decreases m
  {
    if m > 0 {
      ClockNAdd(Clock(r), m - 1, n);
    }
  }

  lemma {:induction false} ClockNZeros(r: Word, n: nat)
    requires n <= 32 && forall i :: 0 <= i < n ==> !r[i]
    ensures ClockN(r, n) == r[n..] + Zeros(n)
    decreases n
  {
    if n > 0 {
      ClockNZeros(Clock(r), n - 1);
    }
  }

  lemma {:induction false} DivideConcat(r: Word, a: seq<bool>, b: seq<bool>)
    ensures Divide(r, a + b) == Divide(Divide(r, a), b)
    decreases |a|
  {
    if a == [] {
      assert a + b == b;
    } else {
      assert (a + b)[1..] == a[1..] + b;
      DivideConcat(Clock([r[0] != a[0]] + r[1..]), a[1..], b);
    }
  }

  /** Different registers stay different under the same further bits. */
  lemma {:induction false} DivideInjective(r: Word, q: Word, bits: seq<bool>)
    requires Divide(r, bits) == Divide(q, bits)
    ensures r == q
    decreases |bits|
  {
    if bits != [] {
      var r', q' := [r[0] != bits[0]] + r[1..], [q[0] != bits[0]] + q[1..];
      DivideInjective(Clock(r'), Clock(q'), bits[1..]);
      ClockInjective(r', q');
      assert r == [r'[0] != bits[0]] + r'[1..];
      assert q == [q'[0] != bits[0]] + q'[1..];
    }
  }

  /** Dividing up to 32 bits one at a time is adding them to the register at once and clocking. */
  lemma {:induction false} DivideBlock(r: Word, w: seq<bool>)
    requires |w| <= 32
    ensures Divide(r, w) == ClockN(Xor(r, w + Zeros(32 - |w|)), |w|)
    decreases |w|
  {
    if w == [] {
      assert Xor(r, w + Zeros(32)) == r;
    } else {
      var fed: Word := [r[0] != w[0]] + r[1..];
      var all: Word := w + Zeros(32 - |w|);
      var rest: Word := [false] + all[1..];
      assert Xor(r, all) == Xor(fed, rest);
      ClockLinear(fed, rest);
      assert Clock(rest) == w[1..] + Zeros(32 - |w[1..]|);
      DivideBlock(Clock(fed), w[1..]);
    }
  }

  lemma {:induction false} BlockInjective(r: Word, u: seq<bool>, v: seq<bool>)
    requires |u| == |v| <= 32 && u != v
    ensures Divide(r, u) != Divide(r, v)
  {
    var x: Word, y: Word := u + Zeros(32 - |u|), v + Zeros(32 - |v|);
    var i :| 0 <= i < |u| && u[i] != v[i];
    assert x[i] != y[i];
    assert Xor(r, x)[i] != Xor(r, y)[i];
    DivideBlock(r, u);
    DivideBlock(r, v);
    if Divide(r, u) == Divide(r, v) {
      ClockNInjective(Xor(r, x), Xor(r, y), |u|);
    }
  }

  /**
   Two bit strings of one length that agree outside a window of at most 32 bits,
   and differ inside it, leave different remainders.
   */
  lemma {:induction false} BurstChangesRemainder(r: Word, before: seq<bool>, u: seq<bool>, v: seq<bool>,
      after: seq<bool>)
    requires |u| == |v| <= 32 && u != v
    ensures Divide(r, before + u + after) != Divide(r, before + v + after)
  {
    DivideConcat(r, before + u, after);
    DivideConcat(r, before + v, after);
    DivideConcat(r, before, u);
    DivideConcat(r, before, v);
    var q := Divide(r, before);
    BlockInjective(q, u, v);
    if Divide(Divide(q, u), after) == Divide(Divide(q, v), after) {
      DivideInjective(Divide(q, u), Divide(q, v), after);
    }
  }

  /** Eight bits at a time: the eight leading bits pick a table word, the others move up. */
  lemma {:induction false} DivideEight(r: Word, b: seq<bool>)
    requires |b| == 8
    ensures Divide(r, b) == Xor(r[8..] + Zeros(8), ClockN(Xor(r[..8], b) + Zeros(24), 8))
  {
    var index: Word := Xor(r[..8], b) + Zeros(24);
    var rest: Word := Zeros(8) + r[8..];
    calc {
      Divide(r, b);
      { DivideBlock(r, b); }
      ClockN(Xor(r, b + Zeros(24)), 8);
      { assert Xor(r, b + Zeros(24)) == Xor(rest, index); }
      ClockN(Xor(rest, index), 8);
      { ClockNLinear(rest, index, 8); }
      Xor(ClockN(rest, 8), ClockN(index, 8));
      { ClockNZeros(rest, 8); assert rest[8..] == r[8..]; }
      Xor(r[8..] + Zeros(8), ClockN(index, 8));
    }
  }
}
