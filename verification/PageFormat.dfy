/** Ogg pages: the fields of the header, the segment table, and the checksum field (RFC 3533, section 6). */
module PageFormat {
  import opened Bits
  import opened Bytes
  import opened Division

  /** A piece of a packet, as one entry of a segment table describes it. */
  type Segment = s: seq<Byte> | |s| <= 255

  /** ogg_page: a header and a body. */
  datatype Page = Page(header: seq<Byte>, body: seq<Byte>)

  /** What a page says. */
  datatype PageInfo = PageInfo(
    version: Byte, continued: bool, bos: bool, eos: bool,
    granulepos: int, serialno: int, pageno: int, segs: seq<Segment>)

  const CAPTURE: seq<Byte> := [0x4f, 0x67, 0x67, 0x53]  // "OggS"

  function Lacing(segs: seq<Segment>): (s: seq<Byte>)
    ensures |s| == |segs|
    ensures forall i :: 0 <= i < |s| ==> s[i] == |segs[i]|
  {
    seq(|segs|, i requires 0 <= i < |segs| => |segs[i]|)
  }

  function Sum(lacing: seq<Byte>): nat {
    if lacing == [] then 0 else lacing[0] + Sum(lacing[1..])
  }

  function Join(segs: seq<Segment>): seq<Byte> {
    if segs == [] then [] else segs[0] + Join(segs[1..])
  }

  /** The segments that a segment table cuts a body into. */
  function Split(lacing: seq<Byte>, body: seq<Byte>): (segs: seq<Segment>)
    requires |body| == Sum(lacing)
    ensures |segs| == |lacing|
    ensures forall i :: 0 <= i < |lacing| ==> |segs[i]| == lacing[i]
  {
    if lacing == [] then [] else [body[..lacing[0]]] + Split(lacing[1..], body[lacing[0]..])
  }

  lemma {:induction false} JoinSize(segs: seq<Segment>)
    ensures |Join(segs)| == Sum(Lacing(segs))
  {
    if segs != [] {
      JoinSize(segs[1..]);
      assert Lacing(segs)[1..] == Lacing(segs[1..]);
    }
  }

  lemma {:induction false} SplitJoin(segs: seq<Segment>)
    ensures |Join(segs)| == Sum(Lacing(segs))
    ensures Split(Lacing(segs), Join(segs)) == segs
  {
    JoinSize(segs);
    if segs != [] {
      SplitJoin(segs[1..]);
      assert Lacing(segs)[1..] == Lacing(segs[1..]);
      assert Join(segs)[..|segs[0]|] == segs[0];
      assert Join(segs)[|segs[0]|..] == Join(segs[1..]);
    }
  }

  lemma {:induction false} JoinSplit(lacing: seq<Byte>, body: seq<Byte>)
    requires |body| == Sum(lacing)
    ensures Join(Split(lacing, body)) == body
  {
    if lacing != [] {
      JoinSplit(lacing[1..], body[lacing[0]..]);
      assert Split(lacing, body)[1..] == Split(lacing[1..], body[lacing[0]..]);
    }
  }

  lemma {:induction false} SumConcat(a: seq<Byte>, b: seq<Byte>)
    ensures Sum(a + b) == Sum(a) + Sum(b)
  {
    if a == [] {
      assert a + b == b;
    } else {
      assert (a + b)[1..] == a[1..] + b;
      SumConcat(a[1..], b);
    }
  }

  lemma {:induction false} SplitConcat(a: seq<Byte>, b: seq<Byte>, x: seq<Byte>, y: seq<Byte>)
    requires |x| == Sum(a) && |y| == Sum(b)
    ensures Sum(a + b) == |x + y|
    ensures Split(a + b, x + y) == Split(a, x) + Split(b, y)
  {
    SumConcat(a, b);
    if a == [] {
      assert a + b == b && x + y == y;
    } else {
      assert (a + b)[1..] == a[1..] + b;
      assert (x + y)[..a[0]] == x[..a[0]];
      assert (x + y)[a[0]..] == x[a[0]..] + y;
      SplitConcat(a[1..], b, x[a[0]..], y);
    }
  }

  lemma {:induction false} JoinConcat(a: seq<Segment>, b: seq<Segment>)
    ensures Join(a + b) == Join(a) + Join(b)
  {
    if a == [] {
      assert a + b == b;
    } else {
      assert (a + b)[1..] == a[1..] + b;
      JoinConcat(a[1..], b);
    }
  }

  /** The header and body lengths agree with the segment table; the scanner only hands out such pages. */
  predicate WellSized(p: Page) {
    && |p.header| >= 27
    && |p.header| - 27 == p.header[26]
    && |p.body| == Sum(p.header[27..])
  }

  function Flags(continued: bool, bos: bool, eos: bool): (b: Byte) {
    (if continued then 1 else 0) + (if bos then 2 else 0) + (if eos then 4 else 0)
  }

  /** The sixteen bytes of granule position, serial number and page number. */
  function Numbers(granulepos: int, serialno: int, pageno: int): (s: seq<Byte>)
    ensures |s| == 16
    ensures s[..8] == LittleEndian(granulepos, 8)
    ensures s[8..12] == LittleEndian(serialno, 4)
    ensures s[12..] == LittleEndian(pageno, 4)
  {
    LittleEndian(granulepos, 8) + LittleEndian(serialno, 4) + LittleEndian(pageno, 4)
  }

  /** The first 22 bytes of a header. */
  function Preamble(info: PageInfo): (h: seq<Byte>)
    ensures |h| == 22
    ensures h[..4] == CAPTURE && h[4] == info.version && h[5] == Flags(info.continued, info.bos, info.eos)
    ensures h[6..] == Numbers(info.granulepos, info.serialno, info.pageno)
  {
    CAPTURE + [info.version, Flags(info.continued, info.bos, info.eos)]
    + Numbers(info.granulepos, info.serialno, info.pageno)
  }

  /** The header of a page, its checksum field still zero. */
  function RawHeader(info: PageInfo): (h: seq<Byte>)
    requires |info.segs| <= 255
    ensures |h| == 27 + |info.segs|
    ensures h[..22] == Preamble(info) && h[22..26] == [0, 0, 0, 0]
    ensures h[26] == |info.segs| && h[27..] == Lacing(info.segs)
  {
    Preamble(info) + [0, 0, 0, 0] + [|info.segs|] + Lacing(info.segs)
  }

  /** The four bytes of the checksum field, least significant first. */
  function CrcField(w: Word): (s: seq<Byte>)
    ensures |s| == 4
  {
    [ByteFromBits(w[24..]), ByteFromBits(w[16..24]), ByteFromBits(w[8..16]), ByteFromBits(w[..8])]
  }

  lemma {:induction false} CrcFieldInjective(a: Word, b: Word)
    requires CrcField(a) == CrcField(b)
    ensures a == b
  {
    var f, g := CrcField(a), CrcField(b);
    assert f[0] == g[0] && f[1] == g[1] && f[2] == g[2] && f[3] == g[3];
    FromBitsInjective(a[24..], b[24..]);
    FromBitsInjective(a[16..24], b[16..24]);
    FromBitsInjective(a[8..16], b[8..16]);
    FromBitsInjective(a[..8], b[..8]);
    assert a == a[..8] + a[8..16] + a[16..24] + a[24..];
    assert b == b[..8] + b[8..16] + b[16..24] + b[24..];
  }

  function WithField(header: seq<Byte>, field: seq<Byte>): (h: seq<Byte>)
    requires |header| >= 27 && |field| == 4
    ensures |h| == |header|
    ensures h[..22] == header[..22] && h[22..26] == field && h[26..] == header[26..]
  {
    header[..22] + field + header[26..]
  }

  /** ogg_page_checksum_set. */
  function ChecksumSet(p: Page): (q: Page)
    requires |p.header| >= 27
    ensures |q.header| == |p.header| && q.body == p.body
  {
    Page(WithField(p.header, CrcField(Remainder(WithField(p.header, [0, 0, 0, 0]) + p.body))), p.body)
  }

  predicate ChecksumHolds(p: Page)
    requires |p.header| >= 27
  {
    ChecksumSet(p) == p
  }

  function ToPage(info: PageInfo): (p: Page)
    requires |info.segs| <= 255
  {
    ChecksumSet(Page(RawHeader(info), Join(info.segs)))
  }

  function Version(p: Page): Byte
    requires |p.header| >= 27
  {
    p.header[4]
  }

  predicate Continued(p: Page)
    requires |p.header| >= 27
  {
    p.header[5] % 2 == 1
  }

  predicate Bos(p: Page)
    requires |p.header| >= 27
  {
    (p.header[5] / 2) % 2 == 1
  }

  predicate Eos(p: Page)
    requires |p.header| >= 27
  {
    (p.header[5] / 4) % 2 == 1
  }

  function Granulepos(p: Page): int
    requires |p.header| >= 27
  {
    Signed(FromLittleEndian(p.header[6..14]), 8)
  }

  function Serialno(p: Page): int
    requires |p.header| >= 27
  {
    Signed(FromLittleEndian(p.header[14..18]), 4)
  }

  function Pageno(p: Page): int
    requires |p.header| >= 27
  {
    Signed(FromLittleEndian(p.header[18..22]), 4)
  }

  /** What the accessors ogg_page_version to ogg_page_pageno say, and the body cut into segments. */
  function Info(p: Page): PageInfo
    requires WellSized(p)
  {
    PageInfo(Version(p), Continued(p), Bos(p), Eos(p), Granulepos(p), Serialno(p), Pageno(p),
             Split(p.header[27..], p.body))
  }

  /** The fields fit the header. */
  predicate Encodable(info: PageInfo) {
    && |info.segs| <= 255
    && -0x8000_0000_0000_0000 <= info.granulepos < 0x8000_0000_0000_0000
    && -0x8000_0000 <= info.serialno < 0x8000_0000
    && 0 <= info.pageno < 0x8000_0000
  }

  lemma {:induction false} Powers()
    ensures Pow256(4) == 0x1_0000_0000
    ensures Pow256(8) == 0x1_0000_0000_0000_0000
  {
    assert Pow256(8) == 256 * 256 * 256 * 256 * Pow256(4);
    assert Pow256(4) == 256 * 256 * 256 * 256 * Pow256(0);
  }

  lemma {:induction false} FieldsInRange(info: PageInfo)
    requires Encodable(info)
    ensures Signed(FromLittleEndian(LittleEndian(info.granulepos, 8)), 8) == info.granulepos
    ensures Signed(FromLittleEndian(LittleEndian(info.serialno, 4)), 4) == info.serialno
    ensures Signed(FromLittleEndian(LittleEndian(info.pageno, 4)), 4) == info.pageno
  {
    Powers();
    SignedFieldRoundTrip(info.granulepos, 8);
    SignedFieldRoundTrip(info.serialno, 4);
    SignedFieldRoundTrip(info.pageno, 4);
  }

  /** Setting the checksum leaves every other byte alone. */
  lemma {:induction false} ChecksumSetKeeps(p: Page)
    requires |p.header| >= 27
    ensures var h := ChecksumSet(p).header;
      h[..22] == p.header[..22] && h[26] == p.header[26] && h[27..] == p.header[27..]
    ensures ChecksumHolds(ChecksumSet(p))
  {
    var h := ChecksumSet(p).header;
    assert h[26..][0] == h[26] && p.header[26..][0] == p.header[26];
    assert h[26..][1..] == h[27..] && p.header[26..][1..] == p.header[27..];
    assert WithField(h, [0, 0, 0, 0]) == WithField(p.header, [0, 0, 0, 0]);
    assert WithField(h, h[22..26]) == h;
  }

  lemma {:induction false} NumbersInHeader(h: seq<Byte>, info: PageInfo)
    requires |h| >= 27 && h[..22] == Preamble(info)
    ensures h[..4] == CAPTURE && h[4] == info.version && h[5] == Flags(info.continued, info.bos, info.eos)
    ensures h[6..14] == LittleEndian(info.granulepos, 8)
    ensures h[14..18] == LittleEndian(info.serialno, 4)
    ensures h[18..22] == LittleEndian(info.pageno, 4)
  {
    hide LittleEndian, Numbers, Preamble, Flags;
    var p := Preamble(info);
    NumbersAt(h, p, Numbers(info.granulepos, info.serialno, info.pageno));
    assert h[4] == h[..22][4] && h[5] == h[..22][5];
  }

  lemma {:induction false} NumbersAt(h: seq<Byte>, p: seq<Byte>, n: seq<Byte>)
    requires |h| >= 27 && h[..22] == p && |p| == 22 && p[6..] == n && |n| == 16
    ensures h[..4] == p[..4] && h[6..14] == n[..8] && h[14..18] == n[8..12] && h[18..22] == n[12..]
  {
    assert forall i :: 0 <= i < 22 ==> h[i] == p[i];
    assert forall i :: 0 <= i < 16 ==> n[i] == p[6 + i];
  }

  lemma {:induction false} FlagsRead(continued: bool, bos: bool, eos: bool)
    ensures var f := Flags(continued, bos, eos);
      (f % 2 == 1) == continued && ((f / 2) % 2 == 1) == bos && ((f / 4) % 2 == 1) == eos
  {}

  lemma {:induction false} InfoRead(p: Page, info: PageInfo)
    requires WellSized(p) && p.header[..22] == Preamble(info)
    requires Encodable(info)
    requires Split(p.header[27..], p.body) == info.segs
    ensures Info(p) == info
  {
    NumbersInHeader(p.header, info);
    FieldsInRange(info);
    FlagsRead(info.continued, info.bos, info.eos);
  }

  /** A page built from its fields is well formed and says what it was built from. */
  lemma {:induction false} PageRoundTrip(info: PageInfo)
    requires Encodable(info)
    ensures WellSized(ToPage(info)) && ChecksumHolds(ToPage(info))
    ensures ToPage(info).header[..4] == CAPTURE
    ensures Info(ToPage(info)) == info
  {
    var raw := Page(RawHeader(info), Join(info.segs));
    ChecksumSetKeeps(raw);
    SplitJoin(info.segs);
    InfoRead(ToPage(info), info);
    NumbersInHeader(ToPage(info).header, info);
  }

  lemma {:induction false} Regroup(f: int, p: int, x: int, e: int)
    ensures 2 * (f * p + x) + e == f * (2 * p) + (2 * x + e)
  {}

  lemma {:induction false} FromBitsConcat(a: seq<bool>, b: seq<bool>)
    ensures FromBits(a + b) == FromBits(a) * Pow2(|b|) + FromBits(b)
    decreases |b|
  {
    if b == [] {
      assert a + b == a;
      assert FromBits(a) * 1 == FromBits(a);
    } else {
      var n := |b| - 1;
      var all := a + b;
      assert all[..|all| - 1] == a + b[..n] && all[|all| - 1] == b[n];
      FromBitsConcat(a, b[..n]);
      var e := if b[n] then 1 else 0;
      assert FromBits(all) == 2 * FromBits(a + b[..n]) + e && FromBits(b) == 2 * FromBits(b[..n]) + e;
      assert Pow2(|b|) == 2 * Pow2(n);
      hide FromBits, Pow2;
      Regroup(FromBits(a), Pow2(n), FromBits(b[..n]), e);
    }
  }

  lemma {:induction false} FourBytes(s: seq<Byte>)
    requires |s| == 4
    ensures FromLittleEndian(s) == s[0] as int + 256 * s[1] as int + 65536 * s[2] as int + 16777216 * s[3] as int
  {
    assert s[1..][1..] == s[2..] && s[2..][1..] == s[3..] && s[3..][1..] == [];
    assert FromLittleEndian(s[3..]) == s[3];
    assert FromLittleEndian(s[2..]) == s[2] as int + 256 * s[3] as int;
  }

  /** The checksum field is the remainder as a number, low-order byte first. */
  lemma {:induction false} CrcFieldValue(w: Word)
    ensures FromLittleEndian(CrcField(w)) == FromBits(w)
  {
    var a, b, c, d := w[..8], w[8..16], w[16..24], w[24..];
    assert w == a + b + c + d;
    FromBitsConcat(a + b + c, d);
    FromBitsConcat(a + b, c);
    FromBitsConcat(a, b);
    FourBytes(CrcField(w));
    EightBits();
    hide FromBits, FromLittleEndian, Pow2;
  }

  /**
   Every page, byte by byte: OggS, the version, the flags, the numbers with their low-order bytes first, the checksum of
   the page with zeros in its place, the number of segments and their sizes, and behind the header the segments.
   */
  lemma {:induction false} PageLayout(info: PageInfo)
    requires |info.segs| <= 255
    ensures var p := ToPage(info); var h := p.header;
      && |h| == 27 + |info.segs| && p.body == Join(info.segs)
      && h[..5] == [0x4f, 0x67, 0x67, 0x53, info.version]
      && h[5] == (if info.continued then 1 else 0) + (if info.bos then 2 else 0) + (if info.eos then 4 else 0)
      && (forall i :: 0 <= i < 8 ==> h[6 + i] == info.granulepos / Pow256(i) % 256)
      && (forall i :: 0 <= i < 4 ==> h[14 + i] == info.serialno / Pow256(i) % 256)
      && (forall i :: 0 <= i < 4 ==> h[18 + i] == info.pageno / Pow256(i) % 256)
      && FromLittleEndian(h[22..26]) == FromBits(Remainder(h[..22] + [0, 0, 0, 0] + h[26..] + p.body))
      && h[26] == |info.segs| && (forall i :: 0 <= i < |info.segs| ==> h[27 + i] == |info.segs[i]|)
  {
    hide *;
    FrontLayout(info);
    FieldLayout(info);
    TableLayout(info);
  }

  lemma {:induction false} FrontLayout(info: PageInfo)
    requires |info.segs| <= 255
    ensures var h := ToPage(info).header;
      && |h| >= 27 && h[..5] == [0x4f, 0x67, 0x67, 0x53, info.version]
      && h[5] == (if info.continued then 1 else 0) + (if info.bos then 2 else 0) + (if info.eos then 4 else 0)
      && (forall i :: 0 <= i < 8 ==> h[6 + i] == info.granulepos / Pow256(i) % 256)
      && (forall i :: 0 <= i < 4 ==> h[14 + i] == info.serialno / Pow256(i) % 256)
      && (forall i :: 0 <= i < 4 ==> h[18 + i] == info.pageno / Pow256(i) % 256)
  {
    hide LittleEndian, Remainder, Join, Lacing, CrcField, Pow256;
    var h := ToPage(info).header;
    ChecksumSetKeeps(Page(RawHeader(info), Join(info.segs)));
    NumbersInHeader(h, info);
    hide ToPage;
    NumberBytes(h, 6, info.granulepos, 8);
    NumberBytes(h, 14, info.serialno, 4);
    NumberBytes(h, 18, info.pageno, 4);
    assert h[..5] == h[..4] + [h[4]];
  }

  lemma {:induction false} FieldLayout(info: PageInfo)
    requires |info.segs| <= 255
    ensures var p := ToPage(info);
      && |p.header| >= 27
      && FromLittleEndian(p.header[22..26])
        == FromBits(Remainder(p.header[..22] + [0, 0, 0, 0] + p.header[26..] + p.body))
  {
    hide LittleEndian, FromLittleEndian, Remainder, Join, Lacing, CrcField, FromBits, RawHeader;
    var raw, h := Page(RawHeader(info), Join(info.segs)), ToPage(info).header;
    var zeroed := WithField(raw.header, [0, 0, 0, 0]);
    CrcFieldValue(Remainder(zeroed + raw.body));
    assert zeroed == h[..22] + [0, 0, 0, 0] + h[26..];
  }

  lemma {:induction false} TableLayout(info: PageInfo)
    requires |info.segs| <= 255
    ensures var p := ToPage(info); var h := p.header;
      && |h| == 27 + |info.segs| && p.body == Join(info.segs)
      && h[26] == |info.segs| && forall i :: 0 <= i < |info.segs| ==> h[27 + i] == |info.segs[i]|
  {
    hide LittleEndian, Remainder, Join, CrcField;
    var h := ToPage(info).header;
    ChecksumSetKeeps(Page(RawHeader(info), Join(info.segs)));
    assert forall i :: 0 <= i < |info.segs| ==> h[27 + i] == h[27..][i];
  }

  lemma {:induction false} NumberBytes(h: seq<Byte>, at: nat, v: int, n: nat)
    requires at + n <= |h| && h[at..at + n] == LittleEndian(v, n)
    ensures forall i :: 0 <= i < n ==> h[at + i] == v / Pow256(i) % 256
  {
    forall i | 0 <= i < n ensures h[at + i] == v / Pow256(i) % 256 {
      assert h[at + i] == h[at..at + n][i];
      EndianBytes(v, n, i);
    }
  }
}
