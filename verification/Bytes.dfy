/** Bytes and the fixed-width fields of binary headers. */
module Bytes {
  type Byte = x: int | 0 <= x < 256

  function Pow256(n: nat): (p: int)
    ensures p >= 1
  {
    if n == 0 then 1 else 256 * Pow256(n - 1)
  }

  /** The n low-order bytes of v, least significant first; negative v is read in two's complement. */
  function LittleEndian(v: int, n: nat): (s: seq<Byte>)
    ensures |s| == n
    decreases n
  {
    if n == 0 then [] else [v % 256] + LittleEndian(v / 256, n - 1)
  }

  function FromLittleEndian(s: seq<Byte>): (v: int)
    ensures 0 <= v < Pow256(|s|)
  {
    if s == [] then 0 else s[0] + 256 * FromLittleEndian(s[1..])
  }

  /** The two's complement reading of an unsigned field of n bytes. */
  function Signed(u: int, n: nat): int {
    if 2 * u >= Pow256(n) then u - Pow256(n) else u
  }

  /** The same with the most significant byte first. */
  function BigEndian(v: int, n: nat): (s: seq<Byte>)
    ensures |s| == n
    decreases n
  {
    if n == 0 then [] else BigEndian(v / 256, n - 1) + [v % 256]
  }

  function FromBigEndian(s: seq<Byte>): (v: int)
    ensures 0 <= v < Pow256(|s|)
  {
    if s == [] then 0 else 256 * FromBigEndian(s[..|s| - 1]) + s[|s| - 1]
  }

  lemma {:induction false} FieldStep(v: int, n: nat)
    requires n > 0
    ensures 256 * ((v / 256) % Pow256(n - 1)) + v % 256 == v % Pow256(n)
  {
    var p := Pow256(n - 1);
    assert v == 256 * (v / 256) + v % 256;
    var q, r := (v / 256) / p, (v / 256) % p;
    assert v / 256 == p * q + r;
    assert v == (256 * p) * q + (256 * r + v % 256) by {
      assert 256 * (p * q) == (256 * p) * q;
    }
    RemainderUnique(v, 256 * p, q, 256 * r + v % 256);
  }

  lemma {:induction false} FieldRoundTrip(v: int, n: nat)
    ensures FromLittleEndian(LittleEndian(v, n)) == v % Pow256(n)
    decreases n
  {
    if n > 0 {
      assert LittleEndian(v, n)[1..] == LittleEndian(v / 256, n - 1);
      FieldRoundTrip(v / 256, n - 1);
      FieldStep(v, n);
    }
  }

  lemma {:induction false} BigFieldRoundTrip(v: int, n: nat)
    ensures FromBigEndian(BigEndian(v, n)) == v % Pow256(n)
    decreases n
  {
    if n > 0 {
      assert BigEndian(v, n)[..n - 1] == BigEndian(v / 256, n - 1);
      BigFieldRoundTrip(v / 256, n - 1);
      FieldStep(v, n);
    }
  }

  lemma {:induction false} RemainderUnique(v: int, m: int, q: int, r: int)
    requires 0 <= r < m
    requires v == m * q + r
    ensures v % m == r
  {
    var d := v / m - q;
    assert v == m * (v / m) + v % m;
    assert m * d == r - v % m by {
      assert m * d == m * (v / m) - m * q;
    }
    assert d >= 1 ==> m * d >= m;
    assert d <= -1 ==> m * d <= -m;
  }

  /** A value in the signed range of n bytes survives the field. */
  lemma {:induction false} SignedFieldRoundTrip(v: int, n: nat)
    requires -Pow256(n) <= 2 * v < Pow256(n)
    ensures Signed(v % Pow256(n), n) == v
    ensures Signed(FromLittleEndian(LittleEndian(v, n)), n) == v
  {
    FieldRoundTrip(v, n);
    var p := Pow256(n);
    if v >= 0 {
      RemainderUnique(v, p, 0, v);
    } else {
      RemainderUnique(v, p, -1, v + p);
    }
  }

  lemma {:induction false} QuotientOfQuotient(v: int, p: nat)
    requires p > 0
    ensures (v / 256) / p == v / (256 * p)
  {
    var q, r, s := (v / 256) / p, (v / 256) % p, v % 256;
    assert v == (256 * p) * q + (256 * r + s) by {
      assert v / 256 == p * q + r;
      assert 256 * (p * q) == (256 * p) * q;
    }
    RemainderUnique(v, 256 * p, q, 256 * r + s);
    SameQuotient(256 * p, q, v / (256 * p));
  }

  lemma {:induction false} SameQuotient(m: nat, q: int, d: int)
    requires m > 0 && m * q == m * d
    ensures q == d
  {
    assert m * (q - d) == 0;
    assert q - d >= 1 ==> m * (q - d) >= m;
    assert q - d <= -1 ==> m * (q - d) <= 0 - m;
  }

  /** Byte i of the little-endian form has the bits from 8 i on; the big-endian form is the same read backwards. */
  lemma {:induction false} EndianBytes(v: int, n: nat, i: nat)
    requires i < n
    ensures LittleEndian(v, n)[i] == v / Pow256(i) % 256
    ensures BigEndian(v, n)[n - 1 - i] == v / Pow256(i) % 256
    decreases n
  {
    if i > 0 {
      EndianBytes(v / 256, n - 1, i - 1);
      QuotientOfQuotient(v, Pow256(i - 1));
    }
  }
}
