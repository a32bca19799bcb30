/** Several logical streams in one physical stream: every decoder is given all pages and hears its own packets only. */
module Demux {
  import opened Bytes
  import opened PageFormat
  import opened Resync
  import opened Sequences
  import opened Decoder
  import opened RoundTrip
  import L = LossRecovery
  import M = Muxing

  /** A page of the stream with this serial number, of a version that is understood. */
  predicate Belongs(page: PageInfo, serialno: int) {
    page.serialno == serialno && page.version == 0
  }

  /** ogg_stream_pagein refuses a page of another stream or version, and nothing changes; it takes any other page. */
  lemma {:induction false} PageInTakesIffBelongs(s: DecState, page: PageInfo)
    requires Inv(s)
    ensures var t := PageIn(s, page);
      if Belongs(page, s.serialno)
      then t.pageno == page.pageno + 1 && t.eos == (s.eos || page.eos) && t.serialno == s.serialno
      else t == s
  {
    hide Entries, LastShort, Leading, MarkLast;
  }

  /** Every page goes to every decoder, and some decoder may be asked for a packet. */
  datatype Call = Page(page: PageInfo) | Packet(serialno: int)

  /** A decoder and what its caller was handed. */
  datatype Listener = Listener(dec: DecState, out: seq<Event>)

  function Hear(l: Listener, call: Call): (r: Listener)
    requires Inv(l.dec)
    ensures Inv(r.dec) && r.dec.serialno == l.dec.serialno
  {
    match call
    case Page(page) =>
      PageInKeepsInv(l.dec, page);
      PageInTakesIffBelongs(l.dec, page);
      l.(dec := PageIn(l.dec, page))
    case Packet(serialno) =>
      if serialno != l.dec.serialno then l else
      PacketOutTakesNext(l.dec);
      var (dec, out) := PacketOut(l.dec);
      Listener(dec, l.out + out)
  }

  function Listen(l: Listener, calls: seq<Call>): (r: Listener)
    requires Inv(l.dec)
    ensures Inv(r.dec)
    decreases |calls|
  {
    if calls == [] then l else Listen(Hear(l, calls[0]), calls[1..])
  }

  /** The pages that the calls give to the decoders. */
  function PagesIn(calls: seq<Call>): seq<PageInfo> {
    if calls == [] then []
    else (if calls[0].Page? then [calls[0].page] else []) + PagesIn(calls[1..])
  }

  /** Those of one stream. */
  function OfStream(pages: seq<PageInfo>, serialno: int): seq<PageInfo> {
    if pages == [] then []
    else (if Belongs(pages[0], serialno) then [pages[0]] else []) + OfStream(pages[1..], serialno)
  }

  /** The calls that make a difference to the decoder of one stream. */
  function Steps(calls: seq<Call>, serialno: int): seq<L.Step> {
    if calls == [] then []
    else StepOf(calls[0], serialno) + Steps(calls[1..], serialno)
  }

  function StepOf(call: Call, serialno: int): seq<L.Step> {
    match call
    case Page(page) => if Belongs(page, serialno) then [L.Deliver] else []
    case Packet(n) => if n == serialno then [L.Take] else []
  }

  lemma {:induction false} OfStreamNext(calls: seq<Call>, serialno: int)
    requires calls != []
    ensures var call, rest := calls[0], OfStream(PagesIn(calls[1..]), serialno);
      OfStream(PagesIn(calls), serialno)
        == if call.Page? && Belongs(call.page, serialno) then [call.page] + rest else rest
  {
    var rest := PagesIn(calls[1..]);
    if calls[0].Page? {
      assert ([calls[0].page] + rest)[1..] == rest;
    } else {
      assert [] + rest == rest;
    }
  }

  /** The decoder does on all the pages what it does on those of its stream alone. */
  lemma {:induction false} OthersMakeNoDifference(own: seq<PageInfo>, l: Listener, s: L.Session, calls: seq<Call>)
    requires Inv(s.dec) && l == Listener(s.dec, s.out) && |s.mask| <= |own|
    requires own[|s.mask|..] == OfStream(PagesIn(calls), l.dec.serialno)
    ensures var t := L.Run(own, s, Steps(calls, l.dec.serialno));
      Listen(l, calls) == Listener(t.dec, t.out) && |t.mask| == |own|
    ensures L.Lose !in Steps(calls, l.dec.serialno)
    decreases |calls|
  {
    hide Inv, Hear, L.Do, StepOf, OfStream, PagesIn;
    if calls == [] {
      NoPages(l.dec.serialno);
    } else {
      var serialno := l.dec.serialno;
      var rest := Steps(calls[1..], serialno);
      OfStreamNext(calls, serialno);
      var step := StepOf(calls[0], serialno);
      HeardAlike(own, l, s, calls[0], OfStream(PagesIn(calls[1..]), serialno));
      if step == [] {
        assert step + rest == rest;
        OthersMakeNoDifference(own, l, s, calls[1..]);
      } else {
        assert step == [step[0]];
        OneStep(own, s, step[0], rest);
        OthersMakeNoDifference(own, Hear(l, calls[0]), L.Do(own, s, step[0]), calls[1..]);
      }
    }
  }

  lemma {:induction false} NoPages(serialno: int)
    ensures OfStream(PagesIn([]), serialno) == []
  {}

  lemma {:induction false} HeardAlike(own: seq<PageInfo>, l: Listener, s: L.Session, call: Call, rest: seq<PageInfo>)
    requires Inv(s.dec) && l == Listener(s.dec, s.out) && |s.mask| <= |own|
    requires own[|s.mask|..]
      == if call.Page? && Belongs(call.page, l.dec.serialno) then [call.page] + rest else rest
    ensures var steps := StepOf(call, l.dec.serialno);
      if steps == [] then Hear(l, call) == l && own[|s.mask|..] == rest
      else
        && |steps| == 1 && steps[0] != L.Lose
        && var t := L.Do(own, s, steps[0]);
        && Hear(l, call) == Listener(t.dec, t.out)
        && own[|t.mask|..] == rest
  {
    if call.Page? {
      PageInTakesIffBelongs(l.dec, call.page);
      if Belongs(call.page, l.dec.serialno) {
        var left := own[|s.mask|..];
        assert left[0] == own[|s.mask|] == call.page;
        assert own[|s.mask| + 1..] == left[1..] == rest;
      }
    }
    hide Inv, PageIn, PacketOut;
  }

  /** A decoder from the start of the calls. */
  function Heard(serialno: int, calls: seq<Call>): Listener {
    Listen(Listener(Init(serialno), []), calls)
  }

  lemma {:induction false} HearsOnlyItsOwn(serialno: int, calls: seq<Call>)
    ensures var own, steps := OfStream(PagesIn(calls), serialno), Steps(calls, serialno);
      var s := L.Run(own, L.Start(serialno), steps);
      && L.Lose !in steps && |s.mask| == |own|
      && Heard(serialno, calls) == Listener(s.dec, s.out)
  {
    var own := OfStream(PagesIn(calls), serialno);
    assert own[0..] == own;
    OthersMakeNoDifference(own, Listener(Init(serialno), []), L.Start(serialno), calls);
  }

  /**
   Whatever pages of other streams come in between, in any order and with any calls, a decoder hears exactly the packets
   of its own stream all of whose pages came, and a hole report for each gap.
   */
  lemma {:induction false} EachHearsItsOwn(serialno: int, pages: seq<PageInfo>, mask: seq<bool>, calls: seq<Call>)
    requires L.WellFormed(pages, serialno) && |mask| == |pages|
    requires OfStream(PagesIn(calls), serialno) == Left(pages, mask)
    ensures var l := Heard(serialno, calls);
      var heard := l.out + Pending(l.dec);
      && L.PacketsOf(heard) == L.Survivors(L.Parse(pages, |pages|).done, mask)
      && L.Holes(heard) == L.Gaps(mask, |mask|)
  {
    hide L.WellFormed, L.Run, L.Parse, L.Survivors, Heard, Steps, OfStream, PagesIn;
    HearsOnlyItsOwn(serialno, calls);
    HeardOfLeft(pages, serialno, mask, Steps(calls, serialno));
  }

  // Two streams

  /** One list with the pages of two, each in order. */
  predicate Interleaved(all: seq<PageInfo>, a: seq<PageInfo>, b: seq<PageInfo>) {
    if all == [] then a == [] && b == []
    else
      || (a != [] && all[0] == a[0] && Interleaved(all[1..], a[1..], b))
      || (b != [] && all[0] == b[0] && Interleaved(all[1..], a, b[1..]))
  }

  predicate AllBelong(pages: seq<PageInfo>, serialno: int) {
    forall page :: page in pages ==> Belongs(page, serialno)
  }

  lemma {:induction false} Unravelled(all: seq<PageInfo>, a: seq<PageInfo>, b: seq<PageInfo>, m: int, n: int)
    requires Interleaved(all, a, b) && AllBelong(a, m) && AllBelong(b, n) && m != n
    ensures OfStream(all, m) == a && OfStream(all, n) == b
    decreases |all|
  {
    if all != [] {
      if a != [] && all[0] == a[0] && Interleaved(all[1..], a[1..], b) {
        Unravelled(all[1..], a[1..], b, m, n);
        OneMore(all, m, n);
        assert a == [a[0]] + a[1..];
      } else {
        Unravelled(all[1..], a, b[1..], m, n);
        OneMore(all, n, m);
        assert b == [b[0]] + b[1..];
      }
    }
  }

  lemma {:induction false} OneMore(all: seq<PageInfo>, m: int, n: int)
    requires all != [] && Belongs(all[0], m) && m != n
    ensures OfStream(all, m) == [all[0]] + OfStream(all[1..], m) && OfStream(all, n) == OfStream(all[1..], n)
  {}

  lemma {:induction false} LeftBelongs(pages: seq<PageInfo>, mask: seq<bool>, serialno: int)
    requires L.WellFormed(pages, serialno) && |mask| == |pages|
    ensures AllBelong(Left(pages, mask), serialno)
  {
    hide L.Parse;
    forall page | page in Left(pages, mask) ensures Belongs(page, serialno) {
      var k :| 0 <= k < |pages| && pages[k] == page;
      assert L.PageFits(pages, serialno, k);
    }
  }

  /**
   Two streams with different serial numbers, some pages of either lost and the rest interleaved in any way, every page
   given to both decoders: each hears the packets of its own stream.
   */
  lemma {:induction false} TwoStreams(m: int, a: seq<PageInfo>, maskA: seq<bool>,
                                      n: int, b: seq<PageInfo>, maskB: seq<bool>, calls: seq<Call>)
    requires m != n && L.WellFormed(a, m) && L.WellFormed(b, n) && |maskA| == |a| && |maskB| == |b|
    requires Interleaved(PagesIn(calls), Left(a, maskA), Left(b, maskB))
    ensures var l := Heard(m, calls);
      var heard := l.out + Pending(l.dec);
      && L.PacketsOf(heard) == L.Survivors(L.Parse(a, |a|).done, maskA)
      && L.Holes(heard) == L.Gaps(maskA, |maskA|)
    ensures var l := Heard(n, calls);
      var heard := l.out + Pending(l.dec);
      && L.PacketsOf(heard) == L.Survivors(L.Parse(b, |b|).done, maskB)
      && L.Holes(heard) == L.Gaps(maskB, |maskB|)
  {
    hide L.WellFormed, Left, Heard, L.Parse, L.Survivors, PagesIn, AllBelong, Interleaved;
    LeftBelongs(a, maskA, m);
    LeftBelongs(b, maskB, n);
    Unravelled(PagesIn(calls), Left(a, maskA), Left(b, maskB), m, n);
    EachHearsItsOwn(m, a, maskA, calls);
    EachHearsItsOwn(n, b, maskB, calls);
  }

  /** What a decoder has handed out and will hand out is what was submitted to its muxer. */
  ghost predicate HearsAll(l: Listener, mux: M.Mux)
    requires Inv(l.dec)
  {
    var heard := l.out + Pending(l.dec);
    && |heard| == |mux.submitted|
    && heard == L.Packets(L.Parse(mux.pages, |mux.pages|).done) && ReadsBack(mux.pages, mux.submitted)
  }

  lemma {:induction false} HearsWholeStream(serialno: int, ops: seq<M.Op>, nfill: int, calls: seq<Call>)
    requires Representable(serialno, ops, nfill)
    requires OfStream(PagesIn(calls), serialno) == Muxed(serialno, ops, nfill).pages
    ensures HearsAll(Heard(serialno, calls), Muxed(serialno, ops, nfill))
  {
    hide M.MuxInv, Muxed, L.WellFormed, L.Run, L.Parse, M.Restored, M.EndMarksRight, Heard, Steps, OfStream, PagesIn;
    var mux := Muxed(serialno, ops, nfill);
    MuxedFacts(serialno, ops, nfill);
    PagesEncodable(mux);
    HearsOnlyItsOwn(serialno, calls);
    M.DrainedPages(mux);
    DemuxAll(mux, serialno, Steps(calls, serialno));
  }

  /**
   The round trip with two streams in one: the pages of two muxers interleaved in any way, their bytes fed to the
   scanner in any pieces, and every page it finds given to both decoders, which may be asked for packets at any time.
   Each decoder hears what was submitted to its own muxer.
   */
  lemma {:induction false} MultiplexedRoundTrip(m: int, opsA: seq<M.Op>, n: int, opsB: seq<M.Op>, nfill: int,
      all: seq<PageInfo>, chunks: seq<seq<Byte>>, calls: seq<Call>)
    requires m != n && Representable(m, opsA, nfill) && Representable(n, opsB, nfill)
    requires Interleaved(all, Muxed(m, opsA, nfill).pages, Muxed(n, opsB, nfill).pages)
    requires Carried(chunks, all)
    ensures forall p :: p in PagesOf(Feed([], false, chunks)) ==> WellSized(p)
    ensures PagesIn(calls) == Infos(PagesOf(Feed([], false, chunks))) ==>
      && HearsAll(Heard(m, calls), Muxed(m, opsA, nfill)) && Muxed(m, opsA, nfill).submitted == Submissions(opsA)
      && HearsAll(Heard(n, calls), Muxed(n, opsB, nfill)) && Muxed(n, opsB, nfill).submitted == Submissions(opsB)
  {
    hide M.MuxInv, Muxed, Encodable, ToPages, L.WellFormed, HearsAll, Heard, PagesIn, Interleaved;
    var a, b := Muxed(m, opsA, nfill), Muxed(n, opsB, nfill);
    MuxedFacts(m, opsA, nfill);
    MuxedFacts(n, opsB, nfill);
    PagesEncodable(a);
    PagesEncodable(b);
    InterleavedEncodable(all, a.pages, b.pages);
    ScannedBack(all, chunks);
    if PagesIn(calls) == all {
      WholeBelongs(a.pages, m);
      WholeBelongs(b.pages, n);
      Unravelled(all, a.pages, b.pages, m, n);
      HearsWholeStream(m, opsA, nfill, calls);
      HearsWholeStream(n, opsB, nfill, calls);
    }
  }

  lemma {:induction false} WholeBelongs(pages: seq<PageInfo>, serialno: int)
    requires L.WellFormed(pages, serialno)
    ensures AllBelong(pages, serialno)
  {
    hide L.Parse;
    forall page | page in pages ensures Belongs(page, serialno) {
      var k :| 0 <= k < |pages| && pages[k] == page;
      assert L.PageFits(pages, serialno, k);
    }
  }

  lemma {:induction false} InterleavedEncodable(all: seq<PageInfo>, a: seq<PageInfo>, b: seq<PageInfo>)
    requires Interleaved(all, a, b)
    requires forall i :: 0 <= i < |a| ==> Encodable(a[i])
    requires forall i :: 0 <= i < |b| ==> Encodable(b[i])
    ensures forall i :: 0 <= i < |all| ==> Encodable(all[i])
    decreases |all|
  {
    hide Encodable;
    if all != [] {
      if a != [] && all[0] == a[0] && Interleaved(all[1..], a[1..], b) {
        InterleavedEncodable(all[1..], a[1..], b);
      } else {
        InterleavedEncodable(all[1..], a, b[1..]);
      }
      assert forall i :: 0 < i < |all| ==> all[i] == all[1..][i - 1];
    }
  }
}
