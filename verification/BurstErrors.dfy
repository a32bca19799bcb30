/** Damage the page checksum always catches: any burst of at most 32 bits. */
module BurstErrors {
  import opened Bits
  import opened Bytes
  import opened Division
  import opened PageFormat
  import opened Resync

  /** What the checksum is taken over. */
  function Covered(p: Page): seq<Byte>
    requires |p.header| >= 27
  {
    WithField(p.header, [0, 0, 0, 0]) + p.body
  }

  /** The two messages have the same length, differ, and agree outside n bits from bit i on. */
  ghost predicate Burst(a: seq<Byte>, b: seq<Byte>, i: nat, n: nat) {
    && |a| == |b| && a != b
    && forall j :: 0 <= j < 8 * |a| && !(i <= j < i + n) ==> Stream(a)[j] == Stream(b)[j]
  }

  lemma {:induction false} StreamInjective(a: seq<Byte>, b: seq<Byte>)
    requires |a| == |b| && Stream(a) == Stream(b)
    ensures a == b
    decreases |a|
  {
    if a != [] {
      assert Stream(a)[..8] == ByteBits(a[0]) && Stream(b)[..8] == ByteBits(b[0]);
      assert Stream(a)[8..] == Stream(a[1..]) && Stream(b)[8..] == Stream(b[1..]);
      StreamInjective(a[1..], b[1..]);
      ByteFromByteBits(a[0]);
      ByteFromByteBits(b[0]);
    }
  }

  lemma {:induction false} BurstChangesCrc(a: seq<Byte>, b: seq<Byte>, i: nat, n: nat)
    requires n <= 32 && Burst(a, b, i, n)
    ensures Remainder(a) != Remainder(b)
  {
    hide Divide, Stream;
    var x, y := Stream(a), Stream(b);
    if x == y {
      StreamInjective(a, b);
    }
    var lo := if i < |x| then i else |x|;
    var hi := if i + n < |x| then i + n else |x|;
    ThreeParts(x, lo, hi);
    ThreeParts(y, lo, hi);
    assert x[..lo] == y[..lo] && x[hi..] == y[hi..];
    BurstChangesRemainder(Zeros(32), x[..lo], x[lo..hi], y[lo..hi], x[hi..]);
  }

  lemma {:induction false} ThreeParts(x: seq<bool>, lo: nat, hi: nat)
    requires lo <= hi <= |x|
    ensures x == x[..lo] + x[lo..hi] + x[hi..]
  {}

  /**
   A page whose checksum holds is damaged by a burst anywhere but in the capture pattern, the checksum field
   and the segment table: the scanner does not take it for a page, whatever follows it.
   */
  lemma {:induction false} BurstIsRejected(p: Page, q: Page, i: nat, n: nat, rest: seq<Byte>)
    requires Sound(p) && |q.header| == |p.header| && |q.body| == |p.body|
    requires q.header[..4] == p.header[..4] && q.header[22..] == p.header[22..]
    requires n <= 32 && Burst(Covered(p), Covered(q), i, n)
    ensures Judge(q.header + q.body + rest) == NotAPage
    ensures Seek(q.header + q.body + rest).Skip?
  {
    hide Burst, Remainder;
    BurstChangesCrc(Covered(p), Covered(q), i, n);
    FieldsDiffer(p, q);
    assert q.header[26] == q.header[22..][4] && p.header[26] == p.header[22..][4];
    assert q.header[27..] == q.header[22..][5..] && p.header[27..] == p.header[22..][5..];
    DamagedIsNotAPage(q, rest);
  }

  lemma {:induction false} FieldsDiffer(p: Page, q: Page)
    requires |p.header| >= 27 && |q.header| == |p.header| && q.header[22..] == p.header[22..]
    requires ChecksumHolds(p) && Remainder(Covered(p)) != Remainder(Covered(q))
    ensures !ChecksumHolds(q)
  {
    hide Remainder, CrcField;
    if ChecksumHolds(q) {
      assert p.header[22..][..4] == p.header[22..26] && q.header[22..][..4] == q.header[22..26];
      CrcFieldInjective(Remainder(Covered(p)), Remainder(Covered(q)));
    }
  }

  lemma {:induction false} DamagedIsNotAPage(q: Page, rest: seq<Byte>)
    requires WellSized(q) && q.header[..4] == CAPTURE && !ChecksumHolds(q)
    ensures Judge(q.header + q.body + rest) == NotAPage
  {
    hide ChecksumHolds;
    var u, h := q.header + q.body, |q.header|;
    assert u[..4] == q.header[..4];
    assert u[26] == q.header[26];
    assert u[27..h] == q.header[27..];
    assert u[..h] == q.header && u[h..] == q.body;
    assert PageAt(u) == q;
    JudgeExtends(u, rest);
  }

  /** In particular, a burst in the body. */
  lemma {:induction false} BodyBurstIsRejected(p: Page, body: seq<Byte>, i: nat, n: nat, rest: seq<Byte>)
    requires Sound(p) && n <= 32 && Burst(p.body, body, i, n)
    ensures Seek(p.header + body + rest).Skip?
  {
    hide Remainder, Judge, Seek, ChecksumHolds, Stream;
    var q := Page(p.header, body);
    var h := WithField(p.header, [0, 0, 0, 0]);
    BurstBehind(h, p.body, body, i, n);
    BurstIsRejected(p, q, 8 * |h| + i, n, rest);
  }

  lemma {:induction false} BurstBehind(h: seq<Byte>, a: seq<Byte>, b: seq<Byte>, i: nat, n: nat)
    requires Burst(a, b, i, n)
    ensures Burst(h + a, h + b, 8 * |h| + i, n)
  {
    StreamConcat(h, a);
    StreamConcat(h, b);
    assert (h + a)[|h|..] == a && (h + b)[|h|..] == b;
    hide Stream;
  }
}
