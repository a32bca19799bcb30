/** WAVE and AIFF output of the flac decoder: the sizes the header declares, and the bytes that follow. */
module IffFile {
  import opened Bits
  import opened BitOps
  import opened Bytes
  import opened PcmBuffers
  import opened PcmFormat
  import opened SaneFloat
  import opened Wrappers

  datatype Format = Format(wave: bool, bps: nat, channels: nat, sampleRate: nat, channelMask: nat)

  /** What the decoder supports, with a sample rate that can be written. */
  predicate Legal(f: Format) {
    4 <= f.bps <= 24 && 1 <= f.channels <= 8 && 0 < f.sampleRate < 0x1_0000_0000 && f.channelMask < 0x1_0000_0000
  }

  function BytesPerWide(f: Format): nat {
    f.channels * ((f.bps + 7) / 8)
  }

  predicate Extensible(f: Format) {
    f.wave && (f.channelMask == 2 || f.channelMask > 3 || f.bps % 8 != 0 || f.channels > 2)
  }

  function Aligned(n: nat): nat {
    n + n % 2
  }

  /** Four letters. */
  function Tag(s: string): (bytes: seq<Byte>)
    ensures |bytes| == |s|
  {
    seq(|s|, i requires 0 <= i < |s| => (s[i] as int) % 256)
  }

  lemma {:induction false} Letters()
    ensures Tag("RIFF") == [0x52, 0x49, 0x46, 0x46] && Tag("WAVE") == [0x57, 0x41, 0x56, 0x45]
    ensures Tag("fmt ") == [0x66, 0x6d, 0x74, 0x20] && Tag("data") == [0x64, 0x61, 0x74, 0x61]
    ensures Tag("FORM") == [0x46, 0x4f, 0x52, 0x4d] && Tag("AIFF") == [0x41, 0x49, 0x46, 0x46]
    ensures Tag("COMM") == [0x43, 0x4f, 0x4d, 0x4d] && Tag("SSND") == [0x53, 0x53, 0x4e, 0x44]
  {}

  const GUID: seq<Byte> := [1, 0, 0, 0, 0, 0, 0x10, 0, 0x80, 0, 0, 0xaa, 0, 0x38, 0x9b, 0x71]

  // --skip and --until

  datatype Until = Until(relative: bool, samples: int)

  /** canonicalize_until_specification: the sample to stop at, 0 for the end of the stream, or an error. */
  function CanonicalUntil(u: Until, skip: nat, total: nat): (r: Option<nat>)
    ensures r.Some? && r.value > 0 ==> skip < r.value <= total
    ensures r == Some(0) <==> u.relative && u.samples == 0
  {
    if u.relative && u.samples == 0 then Some(0)
    else if total == 0 then None
    else
      var v := if !u.relative then u.samples else if u.samples <= 0 then u.samples + total else u.samples + skip;
      if v < 0 || v <= skip || v > total then None else Some(v)
  }

  /** Which sample each of the three forms of --until means, and when it is an error. */
  lemma {:induction false} UntilMeans(u: Until, skip: nat, total: nat)
    ensures var r, n := CanonicalUntil(u, skip, total), u.samples;
      if !u.relative then r == if skip < n <= total then Some(n) else None
      else if n < 0 then r == if skip < total + n then Some(total + n) else None
      else if n > 0 then r == if skip + n <= total then Some(skip + n) else None
      else r == Some(0)
  {}

  /** metadata_callback: how many samples are to come out, and where to stop; nothing when it sets the abort flag. */
  function SamplesToDecode(u: Until, skip: nat, total: nat): (r: Option<(nat, nat)>)
    ensures r.Some? && total > 0 ==>
      r.value.0 > 0 && skip + r.value.0 == if r.value.1 > 0 then r.value.1 else total
    ensures r.None? <==> (skip >= total && skip + total > 0) || CanonicalUntil(u, skip, total).None?
  {
    if (total > 0 && skip >= total) || (total == 0 && skip > 0) then None
    else
      var until := CanonicalUntil(u, skip, total);
      if until.None? then None
      else Some((if until.value > 0 then until.value - skip else total - skip, until.value))
  }

  // The header

  /** The part of the fmt chunk that only its longer form has. */
  function FmtMore(f: Format): (s: seq<Byte>)
    ensures |s| == if Extensible(f) then 24 else 0
  {
    if Extensible(f) then LittleEndian(22, 2) + LittleEndian(f.bps, 2) + LittleEndian(f.channelMask, 4) + GUID else []
  }

  /** The fmt chunk. */
  function FmtChunk(f: Format): (s: seq<Byte>)
    ensures |s| == if Extensible(f) then 48 else 24
  {
    var bytes := (f.bps + 7) / 8;
    Tag("fmt ") + LittleEndian(if Extensible(f) then 40 else 16, 4)
    + LittleEndian(if Extensible(f) then 65534 else 1, 2) + LittleEndian(f.channels, 2)
    + LittleEndian(f.sampleRate, 4) + LittleEndian(f.sampleRate * f.channels * bytes, 4)
    + LittleEndian(f.channels * bytes, 2) + LittleEndian(bytes * 8, 2) + FmtMore(f)
  }

  /** The COMM chunk; shift is how the sample rate is normalised. */
  function CommChunk(f: Format, samples: nat, shift: nat): (s: seq<Byte>)
    requires shift <= 31
    ensures |s| == 26
  {
    Tag("COMM") + BigEndian(18, 4) + BigEndian(f.channels, 2) + BigEndian(samples, 4) + BigEndian(f.bps, 2)
    + SaneBytes(f.sampleRate, shift)
  }

  /** Where the fields of the fmt chunk are. */
  lemma {:induction false} FmtFields(f: Format)
    ensures var s, bytes := FmtChunk(f), (f.bps + 7) / 8;
      && s[..4] == Tag("fmt ") && s[4..8] == LittleEndian(if Extensible(f) then 40 else 16, 4)
      && s[8..10] == LittleEndian(if Extensible(f) then 65534 else 1, 2)
      && s[10..12] == LittleEndian(f.channels, 2) && s[12..16] == LittleEndian(f.sampleRate, 4)
      && s[16..20] == LittleEndian(f.sampleRate * f.channels * bytes, 4)
      && s[20..22] == LittleEndian(f.channels * bytes, 2) && s[22..24] == LittleEndian(bytes * 8, 2)
      && (Extensible(f) ==>
        && s[24..26] == LittleEndian(22, 2) && s[26..28] == LittleEndian(f.bps, 2)
        && s[28..32] == LittleEndian(f.channelMask, 4) && s[32..48] == GUID)
  {
    hide LittleEndian, Tag, Extensible;
    var bytes, ext := (f.bps + 7) / 8, Extensible(f);
    FmtCut(Tag("fmt "), LittleEndian(if ext then 40 else 16, 4), LittleEndian(if ext then 65534 else 1, 2),
           LittleEndian(f.channels, 2), LittleEndian(f.sampleRate, 4),
           LittleEndian(f.sampleRate * f.channels * bytes, 4), LittleEndian(f.channels * bytes, 2),
           LittleEndian(bytes * 8, 2), FmtMore(f));
    ExtCut(LittleEndian(22, 2), LittleEndian(f.bps, 2), LittleEndian(f.channelMask, 4), GUID);
  }

  /** The longer form is for channel masks a reader would not guess, odd sample sizes and more than two channels. */
  lemma {:induction false} FmtForms(f: Format)
    requires f.wave
    ensures |FmtChunk(f)| == if f.channels <= 2 && f.bps % 8 == 0 && f.channelMask in {0, 1, 3} then 24 else 48
  {
    hide LittleEndian;
  }

  /**
   A reader finds the format again: which of the two forms the chunk has, and every field of it. The number of bytes in
   a second is the remainder that four bytes hold.
   */
  lemma {:induction false} FmtChunkReadsBack(f: Format)
    requires f.wave && Legal(f)
    ensures var s := FmtChunk(f);
      && s[..4] == [0x66, 0x6d, 0x74, 0x20] && FromLittleEndian(s[4..8]) == |s| - 8
      && FromLittleEndian(s[8..10]) == (if |s| == 24 then 1 else 65534)
      && FromLittleEndian(s[10..12]) == f.channels && FromLittleEndian(s[12..16]) == f.sampleRate
      && FromLittleEndian(s[16..20]) == f.sampleRate * BytesPerWide(f) % 0x1_0000_0000
      && FromLittleEndian(s[20..22]) == BytesPerWide(f) && FromLittleEndian(s[22..24]) == (f.bps + 7) / 8 * 8
      && (|s| != 24 ==>
        && |s| == 48 && FromLittleEndian(s[24..26]) == |s| - 26
        && FromLittleEndian(s[26..28]) == f.bps && FromLittleEndian(s[28..32]) == f.channelMask
        && s[32..48] == [1, 0, 0, 0, 0, 0, 0x10, 0, 0x80, 0, 0, 0xaa, 0, 0x38, 0x9b, 0x71])
  {
    Letters();
    FmtFields(f);
    FmtForms(f);
    FmtHolds(f);
    hide LittleEndian, FromLittleEndian, FmtChunk, BytesPerWide, Tag, Legal;
  }

  /** Every number of the fmt chunk fits into its field, but for the number of bytes in a second. */
  lemma {:induction false} FmtHolds(f: Format)
    requires Legal(f)
    ensures var bytes := (f.bps + 7) / 8;
      && FromLittleEndian(LittleEndian(16, 4)) == 16 && FromLittleEndian(LittleEndian(40, 4)) == 40
      && FromLittleEndian(LittleEndian(1, 2)) == 1 && FromLittleEndian(LittleEndian(65534, 2)) == 65534
      && FromLittleEndian(LittleEndian(22, 2)) == 22
      && FromLittleEndian(LittleEndian(f.bps, 2)) == f.bps
      && FromLittleEndian(LittleEndian(f.channels, 2)) == f.channels
      && FromLittleEndian(LittleEndian(bytes * 8, 2)) == bytes * 8
      && FromLittleEndian(LittleEndian(f.sampleRate, 4)) == f.sampleRate
      && FromLittleEndian(LittleEndian(f.channelMask, 4)) == f.channelMask
      && FromLittleEndian(LittleEndian(f.channels * bytes, 2)) == BytesPerWide(f)
      && FromLittleEndian(LittleEndian(f.sampleRate * f.channels * bytes, 4))
        == f.sampleRate * BytesPerWide(f) % 0x1_0000_0000
  {
    var bytes := (f.bps + 7) / 8;
    Bounds(f);
    hide *;
    FieldHolds(16);
    FieldHolds(40);
    ShortHolds(1);
    ShortHolds(22);
    ShortHolds(65534);
    SmallHolds(f);
    BlockHolds(f);
    RateHolds(f);
  }

  lemma {:induction false} SmallHolds(f: Format)
    requires Legal(f)
    ensures FromLittleEndian(LittleEndian(f.bps, 2)) == f.bps
    ensures FromLittleEndian(LittleEndian(f.channels, 2)) == f.channels
    ensures FromLittleEndian(LittleEndian((f.bps + 7) / 8 * 8, 2)) == (f.bps + 7) / 8 * 8
  {
    hide LittleEndian, FromLittleEndian;
    ShortHolds(f.bps);
    ShortHolds(f.channels);
    ShortHolds((f.bps + 7) / 8 * 8);
  }

  lemma {:induction false} BlockHolds(f: Format)
    requires Legal(f)
    ensures FromLittleEndian(LittleEndian(f.channels * ((f.bps + 7) / 8), 2)) == BytesPerWide(f)
  {
    Bounds(f);
    hide LittleEndian, FromLittleEndian;
    ShortHolds(BytesPerWide(f));
  }

  lemma {:induction false} RateHolds(f: Format)
    requires Legal(f)
    ensures FromLittleEndian(LittleEndian(f.sampleRate, 4)) == f.sampleRate
    ensures FromLittleEndian(LittleEndian(f.channelMask, 4)) == f.channelMask
    ensures FromLittleEndian(LittleEndian(f.sampleRate * f.channels * ((f.bps + 7) / 8), 4))
      == f.sampleRate * BytesPerWide(f) % 0x1_0000_0000
  {
    hide LittleEndian, FromLittleEndian;
    FieldHolds(f.sampleRate);
    FieldHolds(f.channelMask);
    ByteRate(f.sampleRate, f.channels, (f.bps + 7) / 8);
  }

  lemma {:induction false} ByteRate(a: nat, b: nat, c: nat)
    ensures a * b * c == a * (b * c) && 0 <= a * (b * c)
    ensures FromLittleEndian(LittleEndian(a * b * c, 4)) == a * (b * c) % 0x1_0000_0000
  {
    hide LittleEndian, FromLittleEndian;
    Product(b, c);
    Product(a, b * c);
    Product3(a, b, c);
    FieldRemainder(a * (b * c));
  }

  lemma {:induction false} FmtCut(a: seq<Byte>, b: seq<Byte>, c: seq<Byte>, d: seq<Byte>, e: seq<Byte>, g: seq<Byte>,
                                  h: seq<Byte>, i: seq<Byte>, more: seq<Byte>)
    requires |a| == 4 && |b| == 4 && |c| == 2 && |d| == 2 && |e| == 4 && |g| == 4 && |h| == 2 && |i| == 2
    ensures var s := a + b + c + d + e + g + h + i + more;
      && s[..4] == a && s[4..8] == b && s[8..10] == c && s[10..12] == d && s[12..16] == e && s[16..20] == g
      && s[20..22] == h && s[22..24] == i
      && (|more| == 24 ==>
        s[24..26] == more[..2] && s[26..28] == more[2..4] && s[28..32] == more[4..8] && s[32..48] == more[8..])
  {}

  lemma {:induction false} ExtCut(a: seq<Byte>, b: seq<Byte>, c: seq<Byte>, d: seq<Byte>)
    requires |a| == 2 && |b| == 2 && |c| == 4
    ensures var s := a + b + c + d; s[..2] == a && s[2..4] == b && s[4..8] == c && s[8..] == d
  {}

  lemma {:induction false} Bounds(f: Format)
    requires Legal(f)
    ensures f.channels < 0x1_0000 && BytesPerWide(f) < 0x1_0000 && (f.bps + 7) / 8 <= 3
  {
    assert f.channels * ((f.bps + 7) / 8) <= 8 * 3;
  }

  lemma {:induction false} ShortHolds(v: nat)
    requires v < 0x1_0000
    ensures FromLittleEndian(LittleEndian(v, 2)) == v && FromBigEndian(BigEndian(v, 2)) == v
  {
    assert Pow256(2) == 0x1_0000 by {
      assert Pow256(1) == 256;
    }
    FieldRoundTrip(v, 2);
    BigFieldRoundTrip(v, 2);
    RemainderUnique(v, 0x1_0000, 0, v);
  }

  /** The same for the COMM chunk, the sample rate by way of its floating point form. */
  lemma {:induction false} CommChunkReadsBack(f: Format, samples: nat, shift: nat)
    requires Legal(f) && samples < 0x1_0000_0000 && Normal(f.sampleRate, shift)
    ensures var s := CommChunk(f, samples, shift);
      && s[..4] == [0x43, 0x4f, 0x4d, 0x4d] && FromBigEndian(s[4..8]) == |s| - 8
      && FromBigEndian(s[8..10]) == f.channels && FromBigEndian(s[10..14]) == samples
      && FromBigEndian(s[14..16]) == f.bps
      && s[16] < 0x80 && Exponent(s[16..26]) == 31 - shift && SaneReading(s[16..26], false) == Value(f.sampleRate)
  {
    RatePower();
    Letters();
    Bounds(f);
    FieldHolds(18);
    ShortHolds(f.channels);
    FieldHolds(samples);
    ShortHolds(f.bps);
    SaneRoundTrip(f.sampleRate, shift, false);
    hide BigEndian, FromBigEndian, Tag, SaneBytes, SaneReading, Exponent, Normal, Pow2;
    CommCut(Tag("COMM"), BigEndian(18, 4), BigEndian(f.channels, 2), BigEndian(samples, 4), BigEndian(f.bps, 2),
            SaneBytes(f.sampleRate, shift));
  }

  lemma {:induction false} CommCut(a: seq<Byte>, b: seq<Byte>, c: seq<Byte>, d: seq<Byte>, e: seq<Byte>, g: seq<Byte>)
    requires |a| == 4 && |b| == 4 && |c| == 2 && |d| == 4 && |e| == 2 && |g| == 10
    ensures var s := a + b + c + d + e + g;
      s[..4] == a && s[4..8] == b && s[8..10] == c && s[10..14] == d && s[14..16] == e && s[16..26] == g
  {}

  function DataSize(f: Format, samples: nat): nat {
    samples * BytesPerWide(f)
  }

  function Header(f: Format, samples: nat, shift: nat): (s: seq<Byte>)
    requires shift <= 31
  {
    var size := DataSize(f, samples);
    if f.wave then
      Tag("RIFF") + LittleEndian(Aligned(size) + (if Extensible(f) then 60 else 36), 4) + Tag("WAVE")
      + FmtChunk(f) + Tag("data") + LittleEndian(size, 4)
    else
      Tag("FORM") + BigEndian(Aligned(size) + 46, 4) + Tag("AIFF")
      + CommChunk(f, samples, shift) + Tag("SSND") + BigEndian(size + 8, 4) + BigEndian(0, 4) + BigEndian(0, 4)
  }

  /** The number in a field of four bytes of the header. */
  function Field(h: seq<Byte>, at: nat, f: Format): int
    requires at + 4 <= |h|
  {
    if f.wave then FromLittleEndian(h[at..at + 4]) else FromBigEndian(h[at..at + 4])
  }

  /** Where the size of the audio chunk is declared, and how many of its bytes come before the audio. */
  function SizeAt(f: Format): nat {
    if !f.wave then 42 else if Extensible(f) then 64 else 40
  }

  function Lead(f: Format): nat {
    if f.wave then 0 else 8
  }

  lemma {:induction false} FieldRemainder(v: nat)
    ensures FromLittleEndian(LittleEndian(v, 4)) == v % 0x1_0000_0000
    ensures FromBigEndian(BigEndian(v, 4)) == v % 0x1_0000_0000
  {
    assert Pow256(4) == 0x1_0000_0000 by {
      assert Pow256(1) == 256 && Pow256(2) == 0x1_0000 && Pow256(3) == 0x100_0000;
    }
    FieldRoundTrip(v, 4);
    BigFieldRoundTrip(v, 4);
  }

  lemma {:induction false} FieldHolds(v: nat)
    requires v < 0x1_0000_0000
    ensures FromLittleEndian(LittleEndian(v, 4)) == v && FromBigEndian(BigEndian(v, 4)) == v
  {
    FieldRemainder(v);
    RemainderUnique(v, 0x1_0000_0000, 0, v);
  }

  /**
   The first size counts everything behind itself, the audio with its pad byte included; the second counts the audio
   and what its chunk has in front of it. The audio starts where the header ends.
   */
  lemma {:induction false} HeaderDeclares(f: Format, samples: nat, shift: nat)
    requires shift <= 31 && DataSize(f, samples) + 60 < 0xFFFF_FFF4
    ensures var h, size := Header(f, samples, shift), DataSize(f, samples);
      && |h| == SizeAt(f) + 4 + Lead(f)
      && Field(h, 4, f) == |h| - 8 + Aligned(size)
      && Field(h, SizeAt(f), f) == Lead(f) + size
  {
    hide LittleEndian, BigEndian, FromLittleEndian, FromBigEndian, DataSize, FmtChunk, CommChunk, Tag, Header;
    var size := DataSize(f, samples);
    HeaderParts(f, samples, shift);
    FieldHolds(Aligned(size) + (if Extensible(f) then 60 else 36));
    FieldHolds(Aligned(size) + 46);
    FieldHolds(size);
    FieldHolds(size + 8);
  }

  /** The sections of the header by their letters, and how long it is in each of its forms. */
  lemma {:induction false} HeaderSections(f: Format, samples: nat, shift: nat)
    requires shift <= 31
    ensures var h := Header(f, samples, shift);
      if f.wave then
        && |h| == |FmtChunk(f)| + 20
        && h[..4] == [0x52, 0x49, 0x46, 0x46] && h[8..12] == [0x57, 0x41, 0x56, 0x45]
        && h[12..|h| - 8] == FmtChunk(f) && h[|h| - 8..|h| - 4] == [0x64, 0x61, 0x74, 0x61]
      else
        && |h| == 54
        && h[..4] == [0x46, 0x4f, 0x52, 0x4d] && h[8..12] == [0x41, 0x49, 0x46, 0x46]
        && h[12..38] == CommChunk(f, samples, shift) && h[38..42] == [0x53, 0x53, 0x4e, 0x44]
        && h[46..] == [0, 0, 0, 0, 0, 0, 0, 0]
  {
    hide LittleEndian, BigEndian, DataSize, FmtChunk, CommChunk, Tag, Header;
    Letters();
    NoOffset();
    HeaderParts(f, samples, shift);
  }

  lemma {:induction false} NoOffset()
    ensures BigEndian(0, 4) == [0, 0, 0, 0]
  {
    assert BigEndian(0, 1) == [0] && BigEndian(0, 2) == [0, 0] && BigEndian(0, 3) == [0, 0, 0];
  }

  lemma {:induction false} HeaderParts(f: Format, samples: nat, shift: nat)
    requires shift <= 31
    ensures var h, size := Header(f, samples, shift), DataSize(f, samples);
      && |h| == SizeAt(f) + 4 + Lead(f)
      && h[..4] == (if f.wave then Tag("RIFF") else Tag("FORM"))
      && h[8..12] == (if f.wave then Tag("WAVE") else Tag("AIFF"))
      && h[12..SizeAt(f) - 4] == (if f.wave then FmtChunk(f) else CommChunk(f, samples, shift))
      && h[SizeAt(f) - 4..SizeAt(f)] == (if f.wave then Tag("data") else Tag("SSND"))
      && h[SizeAt(f) + 4..] == (if f.wave then [] else BigEndian(0, 4) + BigEndian(0, 4))
      && h[4..8] == (if f.wave then LittleEndian(Aligned(size) + (if Extensible(f) then 60 else 36), 4)
                     else BigEndian(Aligned(size) + 46, 4))
      && h[SizeAt(f)..SizeAt(f) + 4] == (if f.wave then LittleEndian(size, 4) else BigEndian(size + 8, 4))
  {
    var size := DataSize(f, samples);
    hide LittleEndian, BigEndian, FromLittleEndian, FromBigEndian, DataSize, FmtChunk, CommChunk, Tag;
    if f.wave {
      Cut(Tag("RIFF"), LittleEndian(Aligned(size) + (if Extensible(f) then 60 else 36), 4), Tag("WAVE"), FmtChunk(f),
          Tag("data"), LittleEndian(size, 4), [], []);
      assert Header(f, samples, shift) == Header(f, samples, shift) + [] + [];
    } else {
      Cut(Tag("FORM"), BigEndian(Aligned(size) + 46, 4), Tag("AIFF"), CommChunk(f, samples, shift),
          Tag("SSND"), BigEndian(size + 8, 4), BigEndian(0, 4), BigEndian(0, 4));
    }
  }

  lemma {:induction false} Cut(a: seq<Byte>, b: seq<Byte>, c: seq<Byte>, d: seq<Byte>, e: seq<Byte>, g: seq<Byte>,
                               x: seq<Byte>, y: seq<Byte>)
    requires |a| == 4 && |b| == 4 && |c| == 4 && |e| == 4 && |g| == 4
    ensures var h := a + b + c + d + e + g + x + y;
      && |h| == 20 + |d| + |x| + |y|
      && h[..4] == a && h[4..8] == b && h[8..12] == c && h[12..12 + |d|] == d
      && h[12 + |d|..16 + |d|] == e && h[16 + |d|..20 + |d|] == g && h[20 + |d|..] == x + y
  {}

  // The audio

  /** What the decoder hands to write_callback: how many samples, and those of each channel. */
  datatype Frame = Frame(blocksize: nat, rows: seq<seq<int>>)

  predicate Block(f: Format, frame: Frame) {
    |frame.rows| == f.channels && forall c :: 0 <= c < f.channels ==> |frame.rows[c]| == frame.blocksize
  }

  predicate Proper(f: Format, frames: seq<Frame>) {
    forall i :: 0 <= i < |frames| ==> frames[i].blocksize > 0 && Block(f, frames[i])
  }

  /** How far samples that do not fill their containers are shifted to the top. */
  function UpShift(f: Format): (n: nat)
    ensures n < 8 && (f.bps + n) % 8 == 0 && (f.bps + n) / 8 == (f.bps + 7) / 8
  {
    if f.bps % 8 == 0 then 0 else 8 - f.bps % 8
  }

  /**
   Samples as they are in the file: little-endian and up to 8 bits unsigned in WAVE, big-endian and signed in AIFF.
   */
  function InFile(f: Format, samples: seq<int>): (s: seq<Byte>)
    ensures |s| == (f.bps + 7) / 8 * |samples|
  {
    Packed(ShiftedUp(samples, UpShift(f)), (f.bps + 7) / 8, !f.wave, f.wave && f.bps <= 8)
  }

  /** Byte k of sample i in the file, counted from its low-order byte: one to three bytes in either order. */
  lemma {:induction false} SampleInFile(f: Format, samples: seq<int>, i: nat, k: nat)
    requires Legal(f) && i < |samples| && k < (f.bps + 7) / 8
    ensures var n := (f.bps + 7) / 8;
      var v := samples[i] * Pow2(8 * n - f.bps) + if f.wave && f.bps <= 8 then 0x80 else 0;
      && 0 <= n * i <= n * (i + 1) <= |InFile(f, samples)|
      && InFile(f, samples)[n * i..n * (i + 1)][if f.wave then k else n - 1 - k] == v / Pow256(k) % 256
  {
    hide Packed, Pow2, Pow256;
    ContainerBytes(ShiftedUp(samples, UpShift(f)), (f.bps + 7) / 8, !f.wave, f.wave && f.bps <= 8, i, k);
  }

  lemma {:induction false} FrameSize(f: Format, wide: nat)
    ensures (f.bps + 7) / 8 * (wide * f.channels) == wide * BytesPerWide(f)
  {
    Product3(wide, f.channels, (f.bps + 7) / 8);
  }

  function FrameBytes(f: Format, frame: Frame): (s: seq<Byte>)
    requires Block(f, frame)
    ensures |s| == frame.blocksize * BytesPerWide(f)
  {
    FrameSize(f, frame.blocksize);
    InFile(f, Interleaved(frame.rows, frame.blocksize))
  }

  function Total(frames: seq<Frame>): nat {
    if frames == [] then 0 else Total(frames[..|frames| - 1]) + frames[|frames| - 1].blocksize
  }

  /** The samples of all channels of all frames in order. */
  function AllSamples(f: Format, frames: seq<Frame>): (samples: seq<int>)
    requires Proper(f, frames)
    ensures |samples| == Total(frames) * f.channels
  {
    if frames == [] then [] else
    var k := |frames| - 1;
    assert Total(frames) * f.channels == Total(frames[..k]) * f.channels + frames[k].blocksize * f.channels;
    AllSamples(f, frames[..k]) + Interleaved(frames[k].rows, frames[k].blocksize)
  }

  function Audio(f: Format, frames: seq<Frame>): (bytes: seq<Byte>)
    requires Proper(f, frames)
    ensures |bytes| == Total(frames) * BytesPerWide(f)
  {
    if frames == [] then [] else
    var k := |frames| - 1;
    assert Total(frames) * BytesPerWide(f)
        == Total(frames[..k]) * BytesPerWide(f) + frames[k].blocksize * BytesPerWide(f);
    Audio(f, frames[..k]) + FrameBytes(f, frames[k])
  }

  /** That is, all the samples in their containers. */
  lemma {:induction false} AudioIsInFile(f: Format, frames: seq<Frame>)
    requires Proper(f, frames)
    ensures Audio(f, frames) == InFile(f, AllSamples(f, frames))
  {
    if frames != [] {
      var k := |frames| - 1;
      AudioIsInFile(f, frames[..k]);
      InFileConcat(f, AllSamples(f, frames[..k]), Interleaved(frames[k].rows, frames[k].blocksize));
    }
  }

  lemma {:induction false} InFileConcat(f: Format, a: seq<int>, b: seq<int>)
    ensures InFile(f, a + b) == InFile(f, a) + InFile(f, b)
  {
    hide Packed;
    assert ShiftedUp(a + b, UpShift(f)) == ShiftedUp(a, UpShift(f)) + ShiftedUp(b, UpShift(f));
    PackedConcat(ShiftedUp(a, UpShift(f)), ShiftedUp(b, UpShift(f)), (f.bps + 7) / 8, !f.wave, f.wave && f.bps <= 8);
  }

  /** The first samples are in the first bytes. */
  lemma {:induction false} InFilePrefix(f: Format, samples: seq<int>, n: nat)
    requires n * f.channels <= |samples|
    ensures 0 <= n * BytesPerWide(f) <= |InFile(f, samples)|
    ensures InFile(f, samples)[..n * BytesPerWide(f)] == InFile(f, samples[..n * f.channels])
  {
    hide InFile;
    var m, b := n * f.channels, (f.bps + 7) / 8;
    InFileConcat(f, samples[..m], samples[m..]);
    assert samples == samples[..m] + samples[m..];
    Product3(n, f.channels, b);
    assert n * BytesPerWide(f) == b * m == |InFile(f, samples[..m])|;
  }

  lemma {:induction false} InterleavedPrefix(a: seq<seq<int>>, b: seq<seq<int>>, n: nat, wide: nat)
    requires |a| == |b| && n <= wide
    requires forall c :: 0 <= c < |a| ==> |a[c]| >= n && |b[c]| >= wide && a[c][..n] == b[c][..n]
    ensures 0 <= n * |b| <= wide * |b| && Interleaved(a, n) == Interleaved(b, wide)[..n * |b|]
    decreases n + wide
  {
    if n < wide {
      InterleavedPrefix(a, b, n, wide - 1);
      assert wide * |b| == (wide - 1) * |b| + |b|;
    } else if n > 0 {
      forall c | 0 <= c < |a| ensures a[c][..n - 1] == b[c][..n - 1] && a[c][n - 1] == b[c][n - 1] {
        assert a[c][..n][..n - 1] == a[c][..n - 1] && b[c][..n][..n - 1] == b[c][..n - 1];
        assert a[c][..n][n - 1] == b[c][..n][n - 1];
      }
      InterleavedPrefix(a, b, n - 1, n - 1);
      assert Interleaved(b, n - 1)[..(n - 1) * |b|] == Interleaved(b, n - 1);
      assert Interleaved(b, n)[..n * |b|] == Interleaved(b, n);
    }
  }

  /** A reader of the audio finds the samples again. */
  lemma {:induction false} AudioReadsBack(f: Format, samples: seq<int>)
    requires Legal(f) && forall i :: 0 <= i < |samples| ==> -Pow2(f.bps - 1) <= samples[i] < Pow2(f.bps - 1)
    ensures ShiftedDown(Unpacked(InFile(f, samples), (f.bps + 7) / 8, !f.wave, f.wave && f.bps <= 8), UpShift(f))
         == Samples(samples)
  {
    hide Pow2, Packed, Unpacked, ShiftedUp, ShiftedDown;
    PcmRoundTrip(samples, f.bps, UpShift(f), (f.bps + 7) / 8, !f.wave, f.wave && f.bps <= 8);
  }

  /** A block cut short is packed into the front of the bytes of the whole block. */
  lemma {:induction false} FrameCutShort(f: Format, a: seq<seq<int>>, b: seq<seq<int>>, n: nat, wide: nat)
    requires Block(f, Frame(wide, b)) && |a| == |b| && n <= wide
    requires forall c :: 0 <= c < |a| ==> |a[c]| == n && forall w :: 0 <= w < n ==> a[c][w] == b[c][w]
    ensures 0 <= n * BytesPerWide(f) <= |FrameBytes(f, Frame(wide, b))|
    ensures FrameBytes(f, Frame(wide, b))[..n * BytesPerWide(f)] == InFile(f, Interleaved(a, n))
  {
    hide InFile, Interleaved, BytesPerWide;
    forall c | 0 <= c < |a| ensures a[c][..n] == b[c][..n] {}
    InterleavedPrefix(a, b, n, wide);
    InFilePrefix(f, Interleaved(b, wide), n);
  }

  lemma {:induction false} InFileIs(f: Format, samples: seq<int>)
    ensures InFile(f, samples)
         == Packed(ShiftedUp(samples, UpShift(f)), (f.bps + UpShift(f)) / 8, !f.wave, f.wave && f.bps <= 8)
  {}

  lemma {:induction false} FramesNext(f: Format, frames: seq<Frame>, i: nat)
    requires i < |frames| && Proper(f, frames)
    ensures Total(frames[..i + 1]) == Total(frames[..i]) + frames[i].blocksize
    ensures Audio(f, frames[..i + 1]) == Audio(f, frames[..i]) + FrameBytes(f, frames[i])
  {
    assert frames[..i + 1][..i] == frames[..i];
  }

  lemma {:induction false} FramesGrow(f: Format, frames: seq<Frame>, i: nat)
    requires i <= |frames| && Proper(f, frames)
    ensures Total(frames[..i]) <= Total(frames) && Audio(f, frames[..i]) <= Audio(f, frames)
    decreases |frames|
  {
    if i < |frames| {
      FramesGrow(f, frames[..|frames| - 1], i);
      assert frames[..|frames| - 1][..i] == frames[..i];
    } else {
      assert frames[..i] == frames;
    }
  }

  class DecoderSession {
    const format: Format
    const skip: nat
    const until: nat
    const totalSamples: nat
    const bigEndianHost: bool
    var out: seq<Byte>
    var samplesProcessed: nat
    var abortFlag: bool
    var headersNeedFixup: bool

    /** What has been accepted never passes the place to stop at. */
    ghost predicate Valid()
      reads this
    {
      Legal(format) && (until > 0 ==> skip + samplesProcessed <= until)
    }

    constructor (format: Format, skip: nat, until: nat, totalSamples: nat, bigEndianHost: bool)
      requires Legal(format) && (until > 0 ==> skip < until)
      ensures Valid() && out == [] && samplesProcessed == 0 && !abortFlag
      ensures this.format == format && this.skip == skip && this.until == until && this.totalSamples == totalSamples
    {
      this.format, this.skip, this.until, this.totalSamples := format, skip, until, totalSamples;
      this.bigEndianHost := bigEndianHost;
      out, samplesProcessed, abortFlag, headersNeedFixup := [], 0, false, false;
    }

    /** write_riff_wave_fmt_chunk. */
    method WriteFmtChunk()
      modifies this`out
      ensures out == old(out) + FmtChunk(format)
    {
      hide LittleEndian, Tag;
      var extensible, bytes := Extensible(format), (format.bps + 7) / 8;
      var chunk := Tag("fmt ") + LittleEndian(if extensible then 40 else 16, 4);
      chunk := chunk + LittleEndian(if extensible then 65534 else 1, 2) + LittleEndian(format.channels, 2);
      chunk := chunk + LittleEndian(format.sampleRate, 4);
      chunk := chunk + LittleEndian(format.sampleRate * format.channels * bytes, 4);
      chunk := chunk + LittleEndian(format.channels * bytes, 2) + LittleEndian(bytes * 8, 2);
      if extensible {
        chunk := chunk
          + (LittleEndian(22, 2) + LittleEndian(format.bps, 2) + LittleEndian(format.channelMask, 4) + GUID);
      }
      assert chunk == FmtChunk(format);
      out := out + chunk;
    }

    /** write_aiff_form_comm_chunk. */
    method WriteCommChunk(samples: nat) returns (ghost shift: nat)
      requires Legal(format)
      modifies this`out
      ensures Normal(format.sampleRate, shift) && out == old(out) + CommChunk(format, samples, shift)
    {
      hide BigEndian, Tag;
      RatePower();
      var rate;
      rate := WriteSane(format.sampleRate);
      shift :| Normal(format.sampleRate, shift) && rate == SaneBytes(format.sampleRate, shift);
      var chunk := Tag("COMM") + BigEndian(18, 4) + BigEndian(format.channels, 2);
      chunk := chunk + BigEndian(samples, 4) + BigEndian(format.bps, 2) + rate;
      assert chunk == CommChunk(format, samples, shift);
      out := out + chunk;
    }

    /** write_iff_headers without foreign metadata. */
    method WriteIffHeaders(samples: nat, toStdout: bool, warningsAreErrors: bool) returns (ok: bool, ghost shift: nat)
      requires Legal(format) && out == []
      modifies this`out, this`headersNeedFixup
      ensures shift <= 31 && (!format.wave ==> ok ==> Normal(format.sampleRate, shift))
      ensures ok == (DataSize(format, samples) + 60 < 0xFFFF_FFF4 && !(samples == 0 && toStdout && warningsAreErrors))
      ensures out == if ok then Header(format, samples, shift) else []
      ensures ok ==> headersNeedFixup == (old(headersNeedFixup) || (samples == 0 && !toStdout))
    {
      hide FmtChunk, CommChunk, LittleEndian, BigEndian, Tag;
      shift := 0;
      var dataSize := samples * (format.channels * ((format.bps + 7) / 8));
      var aligned := dataSize + dataSize % 2;
      if samples == 0 {
        if toStdout {
          if warningsAreErrors {
            return false, 0;
          }
        } else {
          headersNeedFixup := true;
        }
      }
      if dataSize + 60 >= 0xFFFF_FFF4 {
        return false, 0;
      }
      if format.wave {
        out := Tag("RIFF") + LittleEndian(aligned + (if Extensible(format) then 60 else 36), 4) + Tag("WAVE");
        WriteFmtChunk();
        out := out + Tag("data") + LittleEndian(dataSize, 4);
      } else {
        out := Tag("FORM") + BigEndian(aligned + 46, 4) + Tag("AIFF");
        shift := WriteCommChunk(samples);
        out := out + Tag("SSND") + BigEndian(dataSize + 8, 4) + BigEndian(0, 4) + BigEndian(0, 4);
      }
      ok := true;
    }

    /** write_callback: what --until leaves of a block of samples is packed and written. */
    method WriteCallback(buffer: array2<int>, blocksize: nat) returns (proceed: bool)
      requires Valid() && buffer.Length0 == format.channels && blocksize <= buffer.Length1
      modifies this`out, this`samplesProcessed, this`abortFlag, buffer
      ensures Valid() && samplesProcessed >= old(samplesProcessed)
      ensures var n := if old(abortFlag) then 0
                       else if until > 0 && skip + old(samplesProcessed) + blocksize > until
                       then until - skip - old(samplesProcessed) else blocksize;
        var bytes := FrameBytes(format, Frame(blocksize, old(Rows(buffer, blocksize))));
        && samplesProcessed == old(samplesProcessed) + n
        && n <= blocksize && DataSize(format, n) <= |bytes|
        && out == old(out) + bytes[..DataSize(format, n)]
        && proceed == !abortFlag && abortFlag == (old(abortFlag) || (until > 0 && n == 0))
    {
      hide FrameBytes, BytesPerWide;
      assert 0 * BytesPerWide(format) == 0;
      if abortFlag {
        return false;
      }
      var wideSamples := blocksize;
      if until > 0 {
        var passed := skip + samplesProcessed;
        if passed + wideSamples > until {
          wideSamples := until - passed;
        }
        if wideSamples == 0 {
          abortFlag := true;
          return false;
        }
      }
      Part(wideSamples, blocksize, BytesPerWide(format));
      if wideSamples > 0 {
        samplesProcessed := samplesProcessed + wideSamples;
        var bytes := PackBlock(buffer, wideSamples, blocksize);
        out := out + bytes;
      }
      return true;
    }

    /** The packing, in a buffer of its own; a frame that was cut short is packed up to there. */
    method PackBlock(buffer: array2<int>, wideSamples: nat, ghost blocksize: nat) returns (bytes: seq<Byte>)
      requires Legal(format) && buffer.Length0 == format.channels && 0 < wideSamples <= blocksize <= buffer.Length1
      modifies buffer
      ensures var all := FrameBytes(format, Frame(blocksize, old(Rows(buffer, blocksize))));
        DataSize(format, wideSamples) <= |all| && bytes == all[..DataSize(format, wideSamples)]
    {
      hide Packed, Interleaved, ShiftedUp, FrameBytes, InFile, BytesPerWide;
      ghost var a, b := Rows(buffer, wideSamples), Rows(buffer, blocksize);
      FrameCutShort(format, a, b, wideSamples, blocksize);
      InFileIs(format, Interleaved(a, wideSamples));
      var u8 := new Byte[4 * (wideSamples * buffer.Length0)];
      var ok, n := PackFrame(u8, buffer, wideSamples, format.bps, UpShift(format), !format.wave,
                             format.wave && format.bps <= 8, bigEndianHost);
      bytes := u8[..n];
    }

    /** The buffer of the decoder. */
    method Decoded(frame: Frame) returns (buffer: array2<int>)
      requires Block(format, frame)
      ensures fresh(buffer) && buffer.Length0 == format.channels && buffer.Length1 == frame.blocksize
      ensures Frame(frame.blocksize, Rows(buffer, frame.blocksize)) == frame
    {
      buffer := new int[format.channels, frame.blocksize](
        (c, w) requires 0 <= c < |frame.rows| && 0 <= w < |frame.rows[c]| => frame.rows[c][w]);
      forall c | 0 <= c < format.channels ensures Rows(buffer, frame.blocksize)[c] == frame.rows[c] {}
      assert Rows(buffer, frame.blocksize) == frame.rows;
    }

    /** The frames until the callback wants no more. */
    method WriteFrames(frames: seq<Frame>)
      requires Valid() && samplesProcessed == 0 && !abortFlag && Proper(format, frames)
      requires until > 0 ==> skip < until <= skip + Total(frames)
      modifies this`out, this`samplesProcessed, this`abortFlag
      ensures Valid() && samplesProcessed == (if until > 0 then until - skip else Total(frames))
      ensures DataSize(format, samplesProcessed) <= |Audio(format, frames)|
      ensures out == old(out) + Audio(format, frames)[..DataSize(format, samplesProcessed)]
    {
      hide BytesPerWide, Legal, Audio, Total, FrameBytes;
      ghost var start := out;
      var i, proceed := 0, true;
      NoFrames(start);
      while i < |frames| && proceed
        invariant Valid() && i <= |frames| && Proper(format, frames) && Written(frames, i, start)
        invariant proceed == !abortFlag
        invariant abortFlag ==> samplesProcessed == until - skip && until > 0
      {
        FramesNext(format, frames, i);
        ghost var before, was := out, samplesProcessed;
        var buffer := Decoded(frames[i]);
        proceed := WriteCallback(buffer, frames[i].blocksize);
        FrameWritten(frames, i, start, before, was);
        i := i + 1;
      }
      FramesGrow(format, frames, i);
      assert i == |frames| ==> frames[..i] == frames;
      AudioGrows(frames, i);
    }

    /** So far the file has what was accepted of the frames so far. */
    ghost predicate Written(frames: seq<Frame>, i: nat, start: seq<Byte>)
      requires i <= |frames| && Proper(format, frames)
      reads this
    {
      var size := DataSize(format, samplesProcessed);
      && (samplesProcessed == Total(frames[..i])
          || (until > 0 && samplesProcessed == until - skip && samplesProcessed <= Total(frames[..i])))
      && size <= |Audio(format, frames[..i])| && out == start + Audio(format, frames[..i])[..size]
    }

    lemma {:induction false} FrameWritten(frames: seq<Frame>, i: nat, start: seq<Byte>, before: seq<Byte>, was: nat)
      requires Proper(format, frames) && i < |frames| && was <= samplesProcessed <= was + frames[i].blocksize
      requires Total(frames[..i + 1]) == Total(frames[..i]) + frames[i].blocksize
      requires Audio(format, frames[..i + 1]) == Audio(format, frames[..i]) + FrameBytes(format, frames[i])
      requires was == Total(frames[..i]) || (until > 0 && was == until - skip && was <= Total(frames[..i]))
      requires samplesProcessed == was + frames[i].blocksize || (until > 0 && samplesProcessed == until - skip)
      requires DataSize(format, was) <= |Audio(format, frames[..i])|
      requires before == start + Audio(format, frames[..i])[..DataSize(format, was)]
      requires var n := samplesProcessed - was;
        && DataSize(format, n) <= |FrameBytes(format, frames[i])|
        && out == before + FrameBytes(format, frames[i])[..DataSize(format, n)]
      requires until > 0 && was == until - skip ==> samplesProcessed == was
      ensures Written(frames, i + 1, start)
    {
      hide BytesPerWide, Audio, Total, FrameBytes;
      var n := samplesProcessed - was;
      Accepted(start, Audio(format, frames[..i]), FrameBytes(format, frames[i]), Total(frames[..i]), was, n,
               BytesPerWide(format));
    }

    lemma {:induction false} NoFrames(start: seq<Byte>)
      requires samplesProcessed == 0 && out == start
      ensures forall frames :: Proper(format, frames) ==> Written(frames, 0, start)
    {
      assert 0 * BytesPerWide(format) == 0;
    }

    lemma {:induction false} AudioGrows(frames: seq<Frame>, i: nat)
      requires i <= |frames| && Proper(format, frames) && Audio(format, frames[..i]) <= Audio(format, frames)
      ensures forall n: nat :: n <= |Audio(format, frames[..i])| ==>
        Audio(format, frames)[..n] == Audio(format, frames[..i])[..n]
    {}

    /**
     DecoderSession_process on all frames of a stream. The number of samples to come may be unknown, which is 0; then
     the header says 0 and there is no pad byte.
     */
    method Process(frames: seq<Frame>, toStdout: bool, warningsAreErrors: bool) returns (ok: bool, ghost shift: nat)
      requires Valid() && out == [] && samplesProcessed == 0 && !abortFlag && !headersNeedFixup
      requires Proper(format, frames) && Announced(frames)
      modifies this
      ensures Valid() && shift <= 31
      ensures ok == (DataSize(format, totalSamples) + 60 < 0xFFFF_FFF4
        && !(totalSamples == 0 && toStdout && warningsAreErrors))
      ensures ok && !format.wave ==> Normal(format.sampleRate, shift)
      ensures ok ==> headersNeedFixup == (totalSamples == 0 && !toStdout)
      ensures ok ==> samplesProcessed == if totalSamples > 0 then totalSamples else Total(frames)
      ensures ok ==> samplesProcessed * format.channels <= |AllSamples(format, frames)|
      ensures ok ==>
        out == Header(format, totalSamples, shift)
             + InFile(format, AllSamples(format, frames)[..samplesProcessed * format.channels])
             + if DataSize(format, totalSamples) % 2 == 1 then [0] else []
    {
      hide Audio, Total, Header, AllSamples, InFile, FmtChunk, CommChunk;
      ok, shift := WriteIffHeaders(totalSamples, toStdout, warningsAreErrors);
      if !ok {
        return;
      }
      WriteFrames(frames);
      AudioIsInFile(format, frames);
      Part(samplesProcessed, Total(frames), format.channels);
      InFilePrefix(format, AllSamples(format, frames), samplesProcessed);
      if (totalSamples * format.channels * ((format.bps + 7) / 8)) % 2 == 1 {
        out := out + [0];
      }
      Product3(totalSamples, format.channels, (format.bps + 7) / 8);
    }

    /** What metadata_callback worked out fits the frames that come. */
    ghost predicate Announced(frames: seq<Frame>) {
      if totalSamples == 0 then until == 0
      else
        && totalSamples == (if until > 0 then until - skip else Total(frames))
        && (until > 0 ==> until <= skip + Total(frames))
    }

    /** How many samples the header says there are: none when they are not known and the file cannot be gone back in. */
    ghost function Declared(frames: seq<Frame>, toStdout: bool): nat {
      if totalSamples == 0 && !toStdout then Total(frames) else totalSamples
    }

    /** fixup_iff_headers: the header is written over the one that is there, with what was processed. */
    method FixupIffHeaders(warningsAreErrors: bool) returns (ok: bool, ghost shift: nat)
      requires Legal(format) && |out| >= SizeAt(format) + 4 + Lead(format)
      modifies this`out, this`headersNeedFixup
      ensures shift <= 31 && (!format.wave ==> ok ==> Normal(format.sampleRate, shift))
      ensures ok == (DataSize(format, samplesProcessed) + 60 < 0xFFFF_FFF4)
      ensures out == if ok then Header(format, samplesProcessed, shift) + old(out)[SizeAt(format) + 4 + Lead(format)..]
                     else old(out)
    {
      var file := out;
      out := [];
      ok, shift := WriteIffHeaders(samplesProcessed, false, warningsAreErrors);
      hide *;
      HeaderLength(format, samplesProcessed, shift);
      if !ok {
        out := file;
      } else {
        out := out + file[|out|..];
      }
    }

    /**
     DecoderSession_process and what DecoderSession_finish_ok does to the file: a header that was written without the
     number of samples is written again.
     */
    method DecodeFile(frames: seq<Frame>, toStdout: bool, warningsAreErrors: bool) returns (ok: bool, ghost shift: nat)
      requires Valid() && out == [] && samplesProcessed == 0 && !abortFlag && !headersNeedFixup
      requires Proper(format, frames) && Announced(frames)
      modifies this
      ensures shift <= 31 && (ok && !format.wave ==> Normal(format.sampleRate, shift))
      ensures ok ==> samplesProcessed == if totalSamples > 0 then totalSamples else Total(frames)
      ensures ok ==> samplesProcessed * format.channels <= |AllSamples(format, frames)|
      ensures ok == (DataSize(format, Declared(frames, toStdout)) + 60 < 0xFFFF_FFF4
        && !(totalSamples == 0 && toStdout && warningsAreErrors))
      ensures ok ==>
        out == Header(format, Declared(frames, toStdout), shift)
             + InFile(format, AllSamples(format, frames)[..samplesProcessed * format.channels])
             + if DataSize(format, totalSamples) % 2 == 1 then [0] else []
    {
      hide Header, DataSize, AllSamples, InFile, Proper;
      NothingFits();
      ok, shift := Process(frames, toStdout, warningsAreErrors);
      HeaderLength(format, totalSamples, shift);
      if ok && headersNeedFixup {
        ghost var audio := InFile(format, AllSamples(format, frames)[..samplesProcessed * format.channels]);
        assert (Header(format, totalSamples, shift) + audio)[|Header(format, totalSamples, shift)|..] == audio;
        ok, shift := FixupIffHeaders(warningsAreErrors);
      }
    }

    lemma {:induction false} NothingFits()
      ensures DataSize(format, 0) == 0
    {
      Product(0, BytesPerWide(format));
    }
  }

  lemma {:induction false} HeaderLength(f: Format, samples: nat, shift: nat)
    requires shift <= 31
    ensures |Header(f, samples, shift)| == SizeAt(f) + 4 + Lead(f)
  {
    hide LittleEndian, BigEndian, FmtChunk, CommChunk, Tag;
  }

  /** The bytes of n more samples, which are those behind all there was before unless there are none. */
  lemma {:induction false} Accepted(start: seq<Byte>, audio: seq<Byte>, frame: seq<Byte>, total: nat, was: nat,
                                    n: nat, b: nat)
    requires |audio| == total * b && was <= total && 0 <= n * b <= |frame| && 0 <= was * b <= |audio|
    requires n == 0 || was == total
    ensures (was + n) * b == was * b + n * b && 0 <= (was + n) * b <= |audio + frame|
    ensures (start + audio[..was * b]) + frame[..n * b] == start + (audio + frame)[..(was + n) * b]
  {
    assert (was + n) * b == was * b + n * b;
    var w, m := was * b, n * b;
    if n == 0 {
      assert m == 0;
      assert (audio + frame)[..w] == audio[..w] && frame[..0] == [];
    } else {
      Extend(start, audio, frame, m);
    }
  }

  lemma {:induction false} Extend(s: seq<Byte>, a: seq<Byte>, b: seq<Byte>, n: nat)
    requires n <= |b|
    ensures a[..|a|] == a && (s + a) + b[..n] == s + (a + b)[..|a| + n]
  {}

  lemma {:induction false} Product3(a: nat, b: nat, c: nat)
    ensures (a * b) * c == a * (b * c)
  {}

  /** The file that is left: both declared sizes are those of what is there, pad byte included where it counts. */
  lemma {:induction false} DeclaredSizesMatch(f: Format, samples: nat, shift: nat, audio: seq<Byte>)
    requires shift <= 31 && |audio| == DataSize(f, samples) && DataSize(f, samples) + 60 < 0xFFFF_FFF4
    ensures var h := Header(f, samples, shift);
      var file := h + audio + if |audio| % 2 == 1 then [0] else [];
      && |h| == SizeAt(f) + 4 + Lead(f)
      && Field(file, 4, f) == |file| - 8
      && Field(file, SizeAt(f), f) == Lead(f) + |audio| && file[|h|..|h| + |audio|] == audio
      && |file| % 2 == 0
  {
    hide DataSize, Header, Field, Extensible;
    HeaderDeclares(f, samples, shift);
    var h, pad := Header(f, samples, shift), if |audio| % 2 == 1 then [0] else [];
    assert h + audio + pad == h + (audio + pad);
    FieldWithin(h, audio + pad, 4, f);
    FieldWithin(h, audio + pad, SizeAt(f), f);
    assert (h + audio + pad)[|h|..|h| + |audio|] == audio;
  }

  /**
   A file whose number of samples was not known at first: no pad byte is written, but the corrected header counts one.
   So the size of the whole file is right if and only if the audio has an even number of bytes.
   */
  lemma {:induction false} CorrectedSizesMatchIffEven(f: Format, samples: nat, shift: nat, audio: seq<Byte>)
    requires shift <= 31 && |audio| == DataSize(f, samples) && DataSize(f, samples) + 60 < 0xFFFF_FFF4
    ensures var file := Header(f, samples, shift) + audio;
      && |file| >= SizeAt(f) + 4
      && Field(file, SizeAt(f), f) == Lead(f) + |audio|
      && (Field(file, 4, f) == |file| - 8 <==> |audio| % 2 == 0)
  {
    hide DataSize, Header, Field, Extensible;
    HeaderDeclares(f, samples, shift);
    FieldWithin(Header(f, samples, shift), audio, 4, f);
    FieldWithin(Header(f, samples, shift), audio, SizeAt(f), f);
  }

  /** One sample of 8 bits: the header says that 38 bytes follow the first size, and there are 37. */
  lemma {:induction false} OddFileIsShort()
    ensures var f := Format(true, 8, 1, 44100, 1);
      var file := Header(f, 1, 0) + InFile(f, [0]);
      && |file| == 45 && Field(file, 4, f) == 38
  {
    var f := Format(true, 8, 1, 44100, 1);
    OneByte(f, [0]);
    hide InFile, Header, Field, DataSize, Extensible;
    HeaderLength(f, 1, 0);
    HeaderDeclares(f, 1, 0);
    FieldWithin(Header(f, 1, 0), InFile(f, [0]), 4, f);
  }

  lemma {:induction false} OneByte(f: Format, samples: seq<int>)
    requires f == Format(true, 8, 1, 44100, 1) && |samples| == 1
    ensures DataSize(f, 1) == 1 == |InFile(f, samples)| && !Extensible(f)
  {
    hide InFile;
  }

  lemma {:induction false} FieldWithin(h: seq<Byte>, rest: seq<Byte>, at: nat, f: Format)
    requires at + 4 <= |h|
    ensures Field(h + rest, at, f) == Field(h, at, f)
  {
    assert (h + rest)[at..at + 4] == h[at..at + 4];
  }

  lemma {:induction false} Part(a: nat, b: nat, c: nat)
    requires a <= b
    ensures 0 <= a * c <= b * c
  {
    assert b * c == a * c + (b - a) * c;
    Product(b - a, c);
    Product(a, c);
  }

  lemma {:induction false} RatePower()
    ensures Pow2(32) == 0x1_0000_0000
  {
    PowersOfBytes();
    assert Pow256(1) == 256 && Pow256(2) == 0x1_0000 && Pow256(3) == 0x100_0000;
  }
}
