/** Packets to pages: what ogg_stream_iovecin and the flushing calls do to a stream state. */
module Encoder {
  import opened Bytes
  import opened PageFormat

  /** An entry of lacing_vals with the body bytes it covers, its mark 0x100 and its granule_vals entry. */
  datatype Pend = Pend(seg: Segment, first: bool, granule: int)

  datatype EncState = EncState(
    pend: seq<Pend>, granulepos: int, bos: bool, eos: bool, pageno: int, packetno: int, serialno: int)

  function Init(serialno: int): EncState {
    EncState([], 0, false, false, 0, 0, serialno)
  }

  /** A packet as its segments: full ones of 255 bytes, then a shorter one, which may be empty. */
  function PacketSegs(data: seq<Byte>): (segs: seq<Segment>)
    ensures |segs| == |data| / 255 + 1
    ensures |segs[|segs| - 1]| == |data| % 255
    ensures forall i :: 0 <= i < |segs| - 1 ==> |segs[i]| == 255
  {
    if |data| < 255 then [data] else [data[..255]] + PacketSegs(data[255..])
  }

  function PacketEntries(data: seq<Byte>, before: int, granulepos: int): (pend: seq<Pend>)
    ensures |pend| == |data| / 255 + 1
  {
    var segs := PacketSegs(data);
    seq(|segs|, i requires 0 <= i < |segs| => Pend(segs[i], i == 0, if i == |segs| - 1 then granulepos else before))
  }

  /** The entries of a packet: its bytes, the mark on the first, and its granule position on the last only. */
  lemma {:induction false} EntriesOfPacket(data: seq<Byte>, before: int, granulepos: int)
    ensures var pend := PacketEntries(data, before, granulepos); var n := |data| / 255;
      && |pend| == n + 1 && pend[n].seg == data[255 * n..] && pend[n].granule == granulepos
      && (forall i :: 0 <= i < n ==> pend[i].seg == data[255 * i..255 * i + 255] && pend[i].granule == before)
      && (forall i :: 0 <= i <= n ==> pend[i].first == (i == 0))
  {
    SegsOfPacket(data);
  }

  lemma {:induction false} SegsOfPacket(data: seq<Byte>)
    ensures var segs := PacketSegs(data); var n := |data| / 255;
      && segs[n] == data[255 * n..]
      && forall i :: 0 <= i < n ==> segs[i] == data[255 * i..255 * i + 255]
    decreases |data|
  {
    if |data| >= 255 {
      var rest := data[255..];
      SegsOfPacket(rest);
      var segs, n := PacketSegs(data), |data| / 255;
      assert segs == [data[..255]] + PacketSegs(rest);
      assert |rest| / 255 == n - 1;
      forall i | 0 <= i < n ensures segs[i] == data[255 * i..255 * i + 255] {
        if i > 0 {
          assert rest[255 * (i - 1)..255 * (i - 1) + 255] == data[255 * i..255 * i + 255];
        }
      }
    }
  }

  /** ogg_stream_iovecin and ogg_stream_packetin. */
  function Submit(s: EncState, data: seq<Byte>, eos: bool, granulepos: int): EncState {
    s.(pend := s.pend + PacketEntries(data, s.granulepos, granulepos),
       granulepos := granulepos, packetno := s.packetno + 1, eos := s.eos || eos)
  }

  /** How many segments go on the page, its granule position, and whether the page goes out at all. */
  datatype Choice = Choice(vals: nat, granule: int, force: bool)

  function Limit(pend: seq<Pend>): (n: nat)
    ensures n <= |pend| && n <= 255 && (n == 255 || n == |pend|)
  {
    if |pend| > 255 then 255 else |pend|
  }

  /** The first page stops after the first packet. */
  function FirstVals(pend: seq<Pend>, vals: nat): (n: nat)
    requires vals <= Limit(pend)
    ensures vals <= n <= Limit(pend)
    ensures vals < Limit(pend) ==> vals < n
    ensures forall i :: vals <= i < n - 1 ==> |pend[i].seg| == 255
    decreases Limit(pend) - vals
  {
    if vals == Limit(pend) then vals
    else if |pend[vals].seg| < 255 then vals + 1
    else FirstVals(pend, vals + 1)
  }

  /** The counters of the loop over the segments of a later page. */
  datatype Scan = Scan(vals: nat, acc: int, done: nat, justDone: nat, granule: int, broke: bool)

  function ScanSegments(pend: seq<Pend>, nfill: int, s: Scan): (r: Scan)
    requires s.vals <= Limit(pend)
    ensures s.vals <= r.vals <= Limit(pend)
    ensures s.vals < Limit(pend) && s.justDone < 4 ==> s.vals < r.vals
    ensures !r.broke ==> r.vals == Limit(pend) || s.broke
    decreases Limit(pend) - s.vals
  {
    if s.vals == Limit(pend) then s
    else if s.acc > nfill && s.justDone >= 4 then s.(broke := true)
    else ScanSegments(pend, nfill, ScanOne(pend[s.vals], s))
  }

  function ScanOne(p: Pend, s: Scan): Scan {
    if |p.seg| < 255 then Scan(s.vals + 1, s.acc + |p.seg|, s.done + 1, s.done + 1, p.granule, s.broke)
    else Scan(s.vals + 1, s.acc + |p.seg|, s.done, 0, s.granule, s.broke)
  }

  const SCAN_START := Scan(0, 0, 0, 0, -1, false)

  function Choose(s: EncState, force: bool, nfill: int): (c: Choice)
    ensures c.vals <= |s.pend| && c.vals <= 255
    ensures s.pend != [] ==> c.vals > 0
  {
    if !s.bos then Choice(FirstVals(s.pend, 0), 0, force)
    else
      var r := ScanSegments(s.pend, nfill, SCAN_START);
      Choice(r.vals, r.granule, force || r.broke || r.vals == 255)
  }

  function Segs(pend: seq<Pend>): (segs: seq<Segment>)
    ensures |segs| == |pend|
    ensures forall i :: 0 <= i < |pend| ==> segs[i] == pend[i].seg
  {
    seq(|pend|, i requires 0 <= i < |pend| => pend[i].seg)
  }

  /** The page made of the first c.vals segments. */
  function PageOf(s: EncState, c: Choice): (page: PageInfo)
    requires 0 < c.vals <= |s.pend|
  {
    PageInfo(0, !s.pend[0].first, !s.bos, s.eos && |s.pend| == c.vals, c.granule, s.serialno,
             if s.pageno == -1 then 0 else s.pageno, Segs(s.pend[..c.vals]))
  }

  /** ogg_stream_flush_i: a page, or nothing. */
  function Flush(s: EncState, force: bool, nfill: int): (r: (EncState, seq<PageInfo>))
    ensures |r.1| <= 1
  {
    if s.pend == [] then (s, []) else
    var c := Choose(s, force, nfill);
    if !c.force then (s, []) else
    var page := PageOf(s, c);
    (s.(pend := s.pend[c.vals..], bos := true, pageno := page.pageno + 1), [page])
  }

  /** ogg_stream_pageout_fill; ogg_stream_pageout has nfill 4096. */
  function PageOut(s: EncState, nfill: int): (r: (EncState, seq<PageInfo>))
    ensures |r.1| <= 1
  {
    Flush(s, s.pend != [] && (s.eos || !s.bos), nfill)
  }

  // What the choice of segments means

  /** Index of the last segment before n that ends a packet, or -1. */
  function LastEnd(pend: seq<Pend>, n: nat): (i: int)
    requires n <= |pend|
    ensures -1 <= i < n
    ensures i >= 0 ==> |pend[i].seg| < 255
    ensures forall j :: i < j < n ==> |pend[j].seg| == 255
  {
    if n == 0 then -1 else if |pend[n - 1].seg| < 255 then n - 1 else LastEnd(pend, n - 1)
  }

  /** The granule position of that segment's packet, or -1. */
  function EndGranule(pend: seq<Pend>, n: nat): int
    requires n <= |pend|
  {
    if LastEnd(pend, n) >= 0 then pend[LastEnd(pend, n)].granule else -1
  }

  lemma {:induction false} EndGranuleNext(pend: seq<Pend>, n: nat)
    requires n < |pend|
    ensures EndGranule(pend, n + 1) == if |pend[n].seg| < 255 then pend[n].granule else EndGranule(pend, n)
  {}

  /** The loop carries the granule position of the last packet that ended, or -1. */
  lemma {:induction false} ScanGranule(pend: seq<Pend>, nfill: int, s: Scan)
    requires s.vals <= Limit(pend) && s.granule == EndGranule(pend, s.vals)
    ensures var r := ScanSegments(pend, nfill, s); r.granule == EndGranule(pend, r.vals)
    decreases Limit(pend) - s.vals
  {
    hide EndGranule;
    if s.vals < Limit(pend) && !(s.acc > nfill && s.justDone >= 4) {
      EndGranuleNext(pend, s.vals);
      ScanGranule(pend, nfill, ScanOne(pend[s.vals], s));
    }
  }

  /** After the first page: the granule position of the last packet that ends on the page, or -1. */
  lemma {:induction false} GranuleOfPage(s: EncState, force: bool, nfill: int)
    requires s.bos
    ensures var c := Choose(s, force, nfill); c.granule == EndGranule(s.pend, c.vals)
  {
    ScanGranule(s.pend, nfill, SCAN_START);
  }

  /** A later page ends inside a packet only when it is full or takes everything there is. */
  lemma {:induction false} ScanBreaksAtPackets(pend: seq<Pend>, nfill: int, s: Scan)
    requires s.vals <= Limit(pend) && !s.broke
    requires s.justDone > 0 ==> s.vals > 0 && |pend[s.vals - 1].seg| < 255
    requires s.justDone == 0 || s.justDone == s.done
    ensures var r := ScanSegments(pend, nfill, s);
      r.broke ==> 0 < r.vals && |pend[r.vals - 1].seg| < 255 && r.acc > nfill && r.done >= 4
    decreases Limit(pend) - s.vals
  {
    if s.vals < Limit(pend) && !(s.acc > nfill && s.justDone >= 4) {
      ScanBreaksAtPackets(pend, nfill, ScanOne(pend[s.vals], s));
    }
  }

  lemma {:induction false} PagesBreakAtPackets(s: EncState, force: bool, nfill: int)
    requires s.bos && s.pend != []
    ensures var v := Choose(s, force, nfill).vals;
      |s.pend[v - 1].seg| < 255 || v == 255 || v == |s.pend|
  {
    ScanBreaksAtPackets(s.pend, nfill, SCAN_START);
  }

  /** ogg_stream_flush returns a page whenever anything is left. */
  lemma {:induction false} FlushTakesSomething(s: EncState, nfill: int)
    ensures var (t, pages) := Flush(s, true, nfill);
      && (pages == [] <==> s.pend == [])
      && (s.pend != [] ==> |t.pend| < |s.pend|)
  {}
}
