/** Unsigned numbers under C's shifts, masks and bitwise or, described bit by bit. */
module BitOps {
  import opened Bits
  import opened Bytes

  /** Bit i of v, the least significant one being bit 0. */
  predicate BitAt(v: nat, i: nat)
    decreases i
  {
    if i == 0 then v % 2 == 1 else BitAt(v / 2, i - 1)
  }

  /** v >> s. */
  function Shr(v: nat, s: nat): (w: nat)
    decreases s
  {
    if s == 0 then v else Shr(v / 2, s - 1)
  }

  /** v << s. */
  function Shl(v: nat, s: nat): (w: nat)
  {
    if s == 0 then v else 2 * Shl(v, s - 1)
  }

  /** v & mask[n], and what is left of v in n bits. */
  function Low(v: nat, n: nat): (w: nat)
    ensures w < Pow2(n)
    decreases n
  {
    if n == 0 then 0 else v % 2 + 2 * Low(v / 2, n - 1)
  }

  function Or(a: nat, b: nat): (w: nat)
    decreases a + b
  {
    if a == 0 then b else if b == 0 then a
    else (if a % 2 == 1 || b % 2 == 1 then 1 else 0) + 2 * Or(a / 2, b / 2)
  }

  function LowByte(v: nat): (b: Byte) {
    EightBits();
    Low(v, 8)
  }

  lemma {:induction false} ShrBit(v: nat, s: nat, i: nat)
    ensures BitAt(Shr(v, s), i) == BitAt(v, s + i)
    decreases s
  {
    if s > 0 {
      ShrBit(v / 2, s - 1, i);
    }
  }

  lemma {:induction false} ShlBit(v: nat, s: nat, i: nat)
    ensures BitAt(Shl(v, s), i) == (i >= s && BitAt(v, i - s))
    decreases s
  {
    if s > 0 && i > 0 {
      ShlBit(v, s - 1, i - 1);
      assert Shl(v, s) / 2 == Shl(v, s - 1);
    }
  }

  lemma {:induction false} LowBit(v: nat, n: nat, i: nat)
    ensures BitAt(Low(v, n), i) == (i < n && BitAt(v, i))
    decreases n, i
  {
    if n == 0 {
      ZeroBit(i);
    } else if i > 0 {
      LowBit(v / 2, n - 1, i - 1);
      assert Low(v, n) / 2 == Low(v / 2, n - 1);
    }
  }

  lemma {:induction false} ZeroBit(i: nat)
    ensures !BitAt(0, i)
  {
    if i > 0 {
      ZeroBit(i - 1);
    }
  }

  lemma {:induction false} OrBit(a: nat, b: nat, i: nat)
    ensures BitAt(Or(a, b), i) == (BitAt(a, i) || BitAt(b, i))
    decreases a + b
  {
    ZeroBit(i);
    if a != 0 && b != 0 && i > 0 {
      OrBit(a / 2, b / 2, i - 1);
      assert Or(a, b) / 2 == Or(a / 2, b / 2);
    }
  }

  lemma {:induction false} ShrTwice(v: nat, a: nat, b: nat)
    ensures Shr(Shr(v, a), b) == Shr(v, a + b)
    decreases a
  {
    if a > 0 {
      ShrTwice(v / 2, a - 1, b);
    }
  }

  lemma {:induction false} ShrBound(v: nat, s: nat, n: nat)
    requires v < Pow2(s + n)
    ensures Shr(v, s) < Pow2(n)
    decreases s
  {
    if s > 0 {
      ShrBound(v / 2, s - 1, n);
    }
  }

  lemma {:induction false} ShrToNothing(v: nat, m: nat, n: nat)
    requires v < Pow2(m) && m <= n
    ensures Shr(v, n) == 0
  {
    PowersGrow(m, n);
    ShrBound(v, n, 0);
  }

  lemma {:induction false} PowersGrow(a: nat, b: nat)
    requires a <= b
    ensures Pow2(a) <= Pow2(b)
    decreases b
  {
    if a < b {
      PowersGrow(a, b - 1);
    }
  }

  lemma {:induction false} LowOfZero(n: nat)
    ensures Low(0, n) == 0
  {
    if n > 0 {
      LowOfZero(n - 1);
    }
  }

  lemma {:induction false} LowOfShl(v: nat, s: nat)
    ensures Low(Shl(v, s), s) == 0
  {
    if s > 0 {
      LowOfShl(v, s - 1);
      assert Shl(v, s) / 2 == Shl(v, s - 1);
    }
  }

  /** A number below 2 to the n has no bit from n on. */
  lemma {:induction false} HighBit(v: nat, n: nat, i: nat)
    requires v < Pow2(n) && i >= n
    ensures !BitAt(v, i)
    decreases n
  {
    if n == 0 {
      ZeroBit(i);
    } else {
      HighBit(v / 2, n - 1, i - 1);
    }
  }

  /** Numbers are equal when their bits are. */
  lemma {:induction false} BitsDetermine(v: nat, w: nat, n: nat)
    requires v < Pow2(n) && w < Pow2(n)
    requires forall i :: 0 <= i < n ==> BitAt(v, i) == BitAt(w, i)
    ensures v == w
    decreases n
  {
    if n > 0 {
      assert BitAt(v, 0) == BitAt(w, 0);
      forall i | 0 <= i < n - 1 ensures BitAt(v / 2, i) == BitAt(w / 2, i) {
        assert BitAt(v, i + 1) == BitAt(w, i + 1);
      }
      BitsDetermine(v / 2, w / 2, n - 1);
    }
  }

  lemma {:induction false} PowSum(a: nat, b: nat)
    ensures Pow2(a + b) == Pow2(a) * Pow2(b)
    decreases b
  {
    if b > 0 {
      PowSum(a, b - 1);
      assert Pow2(a) * (2 * Pow2(b - 1)) == 2 * (Pow2(a) * Pow2(b - 1));
    }
  }

  lemma {:induction false} Product(a: nat, b: nat)
    ensures a * b >= 0
  {}

  /** A byte is eight bits. */
  lemma {:induction false} PowersOfBytes()
    ensures Pow2(8) == Pow256(1) && Pow2(16) == Pow256(2) && Pow2(24) == Pow256(3) && Pow2(32) == Pow256(4)
  {
    EightBits();
    PowSum(8, 8);
    PowSum(16, 8);
    PowSum(16, 16);
    assert Pow256(1) == 256 && Pow256(2) == 0x1_0000 && Pow256(3) == 0x100_0000 && Pow256(4) == 0x1_0000_0000;
  }

  /** The shifts and the mask in terms of powers of two. */
  lemma {:induction false} ShlIsTimes(v: nat, s: nat)
    ensures Shl(v, s) == v * Pow2(s)
  {
    if s > 0 {
      ShlIsTimes(v, s - 1);
      assert 2 * (v * Pow2(s - 1)) == v * (2 * Pow2(s - 1));
    }
  }

  lemma {:induction false} Doubled(v: nat, low: nat, p: nat, q: nat)
    requires v / 2 == low + p * q
    ensures v == v % 2 + 2 * low + (2 * p) * q
  {
    assert (2 * p) * q == 2 * (p * q);
  }

  lemma {:induction false} LowOfShr(v: nat, n: nat)
    ensures v == Low(v, n) + Pow2(n) * Shr(v, n)
    decreases n
  {
    if n > 0 {
      LowOfShr(v / 2, n - 1);
      Doubled(v, Low(v / 2, n - 1), Pow2(n - 1), Shr(v / 2, n - 1));
    }
  }

  /** v >> n and v & mask[n] are quotient and remainder. */
  lemma {:induction false} ShrAndLowDivide(v: nat, n: nat)
    ensures Low(v, n) == v % Pow2(n)
    ensures Shr(v, n) == v / Pow2(n)
  {
    LowOfShr(v, n);
    RemainderUnique(v, Pow2(n), Shr(v, n), Low(v, n));
    QuotientUnique(v, Pow2(n), Shr(v, n), Low(v, n));
  }

  lemma {:induction false} QuotientUnique(v: int, m: int, q: int, r: int)
    requires 0 <= r < m
    requires v == m * q + r
    ensures v / m == q
  {
    RemainderUnique(v, m, q, r);
    assert v == m * (v / m) + v % m;
    assert m * (v / m - q) == 0 by {
      assert m * (v / m - q) == m * (v / m) - m * q;
    }
  }
}
