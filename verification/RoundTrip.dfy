/** Muxing, serialising, scanning and demuxing composed: what goes in comes out. */
module RoundTrip {
  import opened Bytes
  import opened PageFormat
  import opened Resync
  import opened Sequences
  import opened Decoder
  import opened Muxing
  import L = LossRecovery

  function ToPages(infos: seq<PageInfo>): (pages: seq<Page>)
    requires forall i :: 0 <= i < |infos| ==> |infos[i].segs| <= 255
    ensures |pages| == |infos|
  {
    seq(|infos|, i requires 0 <= i < |infos| => ToPage(infos[i]))
  }

  /** What the accessors say of pages from the scanner. */
  function Infos(pages: seq<Page>): (infos: seq<PageInfo>)
    requires forall p :: p in pages ==> WellSized(p)
    ensures |infos| == |pages|
  {
    seq(|pages|, i requires 0 <= i < |pages| => Info(pages[i]))
  }

  /** The packets that a list of calls submits. */
  function Submissions(ops: seq<Op>): seq<Submission> {
    if ops == [] then []
    else
      (if ops[0].Submit? then [Submission(ops[0].data, ops[0].eos, ops[0].granulepos)] else [])
      + Submissions(ops[1..])
  }

  /** At most the final packet is flagged as the last of the stream. */
  predicate EosOnlyAtEnd(packets: seq<Submission>) {
    forall i :: 0 <= i < |packets| - 1 ==> !packets[i].eos
  }

  lemma {:induction false} RunSubmits(m: Mux, ops: seq<Op>)
    ensures Muxing.Run(m, ops).submitted == m.submitted + Submissions(ops)
    ensures Muxing.Run(m, ops).enc.serialno == m.enc.serialno
    decreases |ops|
  {
    hide Muxing.Do;
    if ops == [] {
      assert m.submitted + [] == m.submitted;
    } else {
      var n := Muxing.Do(m, ops[0]);
      KeepsSerial(m, ops[0]);
      RunSubmits(n, ops[1..]);
      hide Submissions;
      SubmissionsNext(m.submitted, ops);
    }
  }

  lemma {:induction false} SubmissionsNext(before: seq<Submission>, ops: seq<Op>)
    requires ops != []
    ensures before + Submissions(ops) == (before
      + if ops[0].Submit? then [Submission(ops[0].data, ops[0].eos, ops[0].granulepos)] else []) + Submissions(ops[1..])
  {}

  lemma {:induction false} KeepsSerial(m: Mux, op: Op)
    ensures Muxing.Do(m, op).enc.serialno == m.enc.serialno
    ensures Muxing.Do(m, op).submitted
         == m.submitted + if op.Submit? then [Submission(op.data, op.eos, op.granulepos)] else []
  {}

  /** A packet after the end flag leaves a flag before the end. */
  ghost predicate LateSeen(m: Mux) {
    && (m.late ==> !EosOnlyAtEnd(m.submitted))
    && (m.enc.eos ==> exists i :: 0 <= i < |m.submitted| && m.submitted[i].eos)
  }

  lemma {:induction false} LateStep(m: Mux, op: Op)
    requires LateSeen(m)
    ensures LateSeen(Muxing.Do(m, op))
  {
    if op.Submit? {
      var n := Muxing.Do(m, op);
      assert forall i :: 0 <= i < |m.submitted| ==> n.submitted[i] == m.submitted[i];
      assert n.submitted[|m.submitted|].eos == op.eos;
    }
  }

  lemma {:induction false} LateRun(m: Mux, ops: seq<Op>)
    requires LateSeen(m)
    ensures LateSeen(Muxing.Run(m, ops))
    decreases |ops|
  {
    hide LateSeen, Muxing.Do;
    if ops != [] {
      LateStep(m, ops[0]);
      LateRun(Muxing.Do(m, ops[0]), ops[1..]);
    }
  }

  /** The mux after some calls and a drain. */
  function Muxed(serialno: int, ops: seq<Op>, nfill: int): (m: Mux)
    ensures m.enc.pend == []
  {
    Muxing.Drain(Muxing.Run(Begin(serialno), ops), nfill)
  }

  predicate Representable(serialno: int, ops: seq<Op>, nfill: int) {
    && -0x8000_0000 <= serialno < 0x8000_0000
    && (forall op :: op in ops ==> OpInRange(op))
    && |Muxed(serialno, ops, nfill).pages| <= 0x8000_0000
  }

  lemma {:induction false} MuxedFacts(serialno: int, ops: seq<Op>, nfill: int)
    requires forall op :: op in ops ==> OpInRange(op)
    ensures var m := Muxed(serialno, ops, nfill);
      && MuxInv(m) && m.submitted == Submissions(ops) && m.enc.serialno == serialno
      && (EosOnlyAtEnd(m.submitted) ==> !m.late)
  {
    hide MuxInv, Carries, Stamped, EosRight, Paged;
    BeginInv(serialno);
    Muxing.RunKeeps(Begin(serialno), ops);
    DrainKeeps(Muxing.Run(Begin(serialno), ops), nfill);
    RunSubmits(Begin(serialno), ops);
    LateRun(Begin(serialno), ops);
    assert [] + Submissions(ops) == Submissions(ops);
  }

  lemma {:induction false} PagesEncodable(m: Mux)
    requires MuxInv(m) && -0x8000_0000 <= m.enc.serialno < 0x8000_0000 && |m.pages| <= 0x8000_0000
    ensures L.WellFormed(m.pages, m.enc.serialno)
    ensures forall i :: 0 <= i < |m.pages| ==> Encodable(m.pages[i]) && |m.pages[i].segs| <= 255
  {
    hide Stamped, EosRight, L.Parse;
    forall i | 0 <= i < |m.pages| ensures Encodable(m.pages[i]) && |m.pages[i].segs| <= 255 {
      assert L.PageFits(m.pages, m.enc.serialno, i);
    }
  }

  /** The chunks are the bytes of the pages, cut up in some way. */
  predicate Carried(chunks: seq<seq<Byte>>, infos: seq<PageInfo>) {
    && (forall i :: 0 <= i < |infos| ==> |infos[i].segs| <= 255)
    && Flat(chunks) == Serialise(ToPages(infos))
  }

  /** Serialised pages are scanned back into themselves without a loss of sync, and say what they were made of. */
  lemma {:induction false} ScannedBack(infos: seq<PageInfo>, chunks: seq<seq<Byte>>)
    requires forall i :: 0 <= i < |infos| ==> Encodable(infos[i]) && |infos[i].segs| <= 255
    requires Flat(chunks) == Serialise(ToPages(infos))
    ensures Feed([], false, chunks) == AllGot(ToPages(infos))
    ensures PagesOf(Feed([], false, chunks)) == ToPages(infos)
    ensures forall p :: p in ToPages(infos) ==> WellSized(p)
    ensures Infos(ToPages(infos)) == infos
  {
    hide ToPage, Info, Encodable, Judge, ChecksumHolds;
    var pages := ToPages(infos);
    forall i | 0 <= i < |pages| ensures Sound(pages[i]) && Info(pages[i]) == infos[i] {
      PageRoundTrip(infos[i]);
    }
    ChunkIndependence(chunks);
    ScanOfPages(pages);
    PagesOfAllGot(pages);
  }

  lemma {:induction false} NothingLost(pages: seq<PageInfo>, s: L.Session, steps: seq<L.Step>)
    requires Inv(s.dec) && |s.mask| <= |pages|
    requires L.Lose !in steps && forall i :: 0 <= i < |s.mask| ==> s.mask[i]
    ensures forall i :: 0 <= i < |L.Run(pages, s, steps).mask| ==> L.Run(pages, s, steps).mask[i]
    decreases |steps|
  {
    hide Inv, PageIn, PacketOut;
    if steps != [] {
      assert steps[0] in steps;
      NothingLost(pages, L.Do(pages, s, steps[0]), steps[1..]);
    }
  }

  /** The pages read back as these packets, with their marks if only the final one may be flagged. */
  ghost predicate ReadsBack(pages: seq<PageInfo>, packets: seq<Submission>) {
    var done := L.Parse(pages, |pages|).done;
    && |done| == |packets| && (forall i :: 0 <= i < |packets| ==> Restored(pages, packets, i))
    && (EosOnlyAtEnd(packets) ==> EndMarksRight(done, packets))
  }

  /** Demuxing every page of a drained mux. */
  lemma {:induction false} DemuxAll(m: Mux, serialno: int, steps: seq<L.Step>)
    requires MuxInv(m) && m.enc.pend == [] && L.WellFormed(m.pages, serialno)
    ensures var s := L.Run(m.pages, L.Start(serialno), steps);
      var heard := s.out + Pending(s.dec);
      L.Lose !in steps && |s.mask| == |m.pages| ==>
        |heard| == |m.submitted| && heard == L.Packets(L.Parse(m.pages, |m.pages|).done)
  {
    hide MuxInv, Restored, EndMarksRight, L.WellFormed, L.Parse, L.Expected;
    var s := L.Run(m.pages, L.Start(serialno), steps);
    L.LossRecoveryTheorem(m.pages, serialno, steps);
    if L.Lose !in steps && |s.mask| == |m.pages| {
      NothingLost(m.pages, L.Start(serialno), steps);
      L.NoLoss(m.pages, s.mask, |m.pages|);
      DrainedPages(m);
      L.PacketsAt(L.Parse(m.pages, |m.pages|).done);
      assert s.out + Pending(s.dec) == L.Packets(L.Parse(m.pages, |m.pages|).done);
    }
  }

  /**
   The round trip: any packets, submitted with pages taken out in between in any way and the rest flushed;
   the bytes of the pages fed to a scanner in any pieces; the pages it finds delivered to a decoder that is
   asked for packets at any time. What the caller has been handed and what is still pending are the packets
   submitted, in order.
   */
  lemma {:induction false} MuxDemuxRoundTrip(serialno: int, ops: seq<Op>, nfill: int, chunks: seq<seq<Byte>>,
      steps: seq<L.Step>)
    requires Representable(serialno, ops, nfill)
    requires Carried(chunks, Muxed(serialno, ops, nfill).pages)
    ensures forall p :: p in PagesOf(Feed([], false, chunks)) ==> WellSized(p)
    ensures var infos := Infos(PagesOf(Feed([], false, chunks)));
      var s := L.Run(infos, L.Start(serialno), steps);
      var packets := Submissions(ops);
      var heard := s.out + Pending(s.dec);
      L.Lose !in steps && |s.mask| == |infos| ==>
        |heard| == |packets| && heard == L.Packets(L.Parse(infos, |infos|).done) && ReadsBack(infos, packets)
  {
    hide MuxInv, Muxed, Encodable, ToPages, L.WellFormed, L.Run, Restored, EndMarksRight, L.Parse;
    var m := Muxed(serialno, ops, nfill);
    MuxedFacts(serialno, ops, nfill);
    PagesEncodable(m);
    ScannedBack(m.pages, chunks);
    DrainedPages(m);
    DemuxAll(m, serialno, steps);
  }

  // Pages lost on the way

  /** The packets of the stream all of whose pages arrived, and a hole for each gap. */
  ghost predicate HeardOf(pages: seq<PageInfo>, mask: seq<bool>, s: L.Session)
    requires |mask| == |pages| && s.dec.ready <= |s.dec.items|
  {
    var heard := s.out + Pending(s.dec);
    L.PacketsOf(heard) == L.Survivors(L.Parse(pages, |pages|).done, mask) && L.Holes(heard) == L.Gaps(mask, |mask|)
  }

  /** The pages that are left. */
  function Left(infos: seq<PageInfo>, mask: seq<bool>): (left: seq<PageInfo>)
    requires |mask| == |infos|
    ensures forall p :: p in left ==> p in infos
  {
    if infos == [] then [] else (if mask[0] then [infos[0]] else []) + Left(infos[1..], mask[1..])
  }

  /** What is done with the pages that are left, with the losses put in. */
  function WithLosses(mask: seq<bool>, steps: seq<L.Step>): seq<L.Step>
    decreases |mask| + |steps|
  {
    if mask != [] && !mask[0] then [L.Lose] + WithLosses(mask[1..], steps)
    else if steps == [] then []
    else if mask != [] && steps[0].Deliver? then [L.Deliver] + WithLosses(mask[1..], steps[1..])
    else [steps[0]] + WithLosses(mask, steps[1..])
  }

  /** The decoder cannot tell: it does the same on the pages that are left as on all of them with some lost. */
  lemma {:induction false} SameHeard(pages: seq<PageInfo>, left: seq<PageInfo>, s: L.Session, t: L.Session,
                                     mask: seq<bool>, steps: seq<L.Step>)
    requires Inv(s.dec) && s.dec == t.dec && s.out == t.out && L.Lose !in steps
    requires |s.mask| + |mask| == |pages| && |t.mask| <= |left|
    requires left[|t.mask|..] == Left(pages[|s.mask|..], mask)
    ensures var u, v := L.Run(pages, s, WithLosses(mask, steps)), L.Run(left, t, steps);
      && u.dec == v.dec && u.out == v.out
      && (|v.mask| == |left| ==> u.mask == s.mask + mask)
    decreases |mask| + |steps|
  {
    hide Inv, L.Do, Left;
    LeftNext(pages[|s.mask|..], mask);
    if mask != [] {
      assert pages[|s.mask|..][1..] == pages[|s.mask| + 1..];
      assert s.mask + [mask[0]] + mask[1..] == s.mask + mask;
    }
    if mask != [] && !mask[0] {
      OneStep(pages, s, L.Lose, WithLosses(mask[1..], steps));
      LoseDoes(pages, s);
      SameHeard(pages, left, L.Do(pages, s, L.Lose), t, mask[1..], steps);
    } else if steps != [] && mask != [] && steps[0].Deliver? {
      OneStep(pages, s, L.Deliver, WithLosses(mask[1..], steps[1..]));
      DeliverDoes(pages, left, s, t);
      assert left[|t.mask|..][1..] == left[|t.mask| + 1..];
      SameHeard(pages, left, L.Do(pages, s, L.Deliver), L.Do(left, t, L.Deliver), mask[1..], steps[1..]);
    } else if steps != [] {
      assert steps[0] in steps;
      OneStep(pages, s, steps[0], WithLosses(mask, steps[1..]));
      OtherDoes(pages, left, s, t, steps[0]);
      SameHeard(pages, left, L.Do(pages, s, steps[0]), L.Do(left, t, steps[0]), mask, steps[1..]);
    }
  }

  lemma {:induction false} LeftNext(infos: seq<PageInfo>, mask: seq<bool>)
    requires |mask| == |infos|
    ensures mask == [] ==> Left(infos, mask) == []
    ensures mask != [] && !mask[0] ==> Left(infos, mask) == Left(infos[1..], mask[1..])
    ensures mask != [] && mask[0] ==>
      var left := Left(infos, mask); left != [] && left[0] == infos[0] && left[1..] == Left(infos[1..], mask[1..])
  {
    if mask != [] && mask[0] {
      assert Left(infos, mask) == [infos[0]] + Left(infos[1..], mask[1..]);
    }
  }

  lemma {:induction false} LoseDoes(pages: seq<PageInfo>, s: L.Session)
    requires Inv(s.dec) && |s.mask| < |pages|
    ensures L.Do(pages, s, L.Lose) == s.(mask := s.mask + [false])
  {}

  lemma {:induction false} DeliverDoes(pages: seq<PageInfo>, left: seq<PageInfo>, s: L.Session, t: L.Session)
    requires Inv(s.dec) && s.dec == t.dec && s.out == t.out && |s.mask| < |pages| && |t.mask| < |left|
    requires pages[|s.mask|] == left[|t.mask|]
    ensures var u, v := L.Do(pages, s, L.Deliver), L.Do(left, t, L.Deliver);
      u.dec == v.dec && u.out == v.out && u.mask == s.mask + [true] && v.mask == t.mask + [true]
  {}

  /** A packet call, or a delivery with no page left. */
  lemma {:induction false} OtherDoes(pages: seq<PageInfo>, left: seq<PageInfo>, s: L.Session, t: L.Session,
                                     step: L.Step)
    requires Inv(s.dec) && s.dec == t.dec && s.out == t.out && |s.mask| <= |pages| && |t.mask| <= |left|
    requires step.Take? || (step.Deliver? && |s.mask| == |pages| && |t.mask| == |left|)
    ensures var u, v := L.Do(pages, s, step), L.Do(left, t, step);
      u.dec == v.dec && u.out == v.out && u.mask == s.mask && v.mask == t.mask
  {}

  lemma {:induction false} OneStep(pages: seq<PageInfo>, s: L.Session, step: L.Step, steps: seq<L.Step>)
    requires Inv(s.dec) && |s.mask| <= |pages|
    ensures L.Run(pages, s, [step] + steps) == L.Run(pages, L.Do(pages, s, step), steps)
  {
    hide Inv, L.Do;
    assert ([step] + steps)[1..] == steps;
  }

  lemma {:induction false} LeftEncodable(pages: seq<PageInfo>, mask: seq<bool>)
    requires |mask| == |pages| && forall i :: 0 <= i < |pages| ==> Encodable(pages[i]) && |pages[i].segs| <= 255
    ensures var left := Left(pages, mask);
      forall i :: 0 <= i < |left| ==> Encodable(left[i]) && |left[i].segs| <= 255
  {
    hide Encodable;
    var left := Left(pages, mask);
    forall i | 0 <= i < |left| ensures Encodable(left[i]) && |left[i].segs| <= 255 {
      assert left[i] in left;
    }
  }

  /**
   The same with pages lost on the way: the bytes of those that are left in any pieces through the scanner and into a
   decoder asked at any time. What has been handed out and what is pending are the packets submitted, in order, less
   those with a segment on a lost page, and a hole report for each gap.
   */
  lemma {:induction false} DamagedRoundTrip(serialno: int, ops: seq<Op>, nfill: int, mask: seq<bool>,
      chunks: seq<seq<Byte>>, steps: seq<L.Step>)
    requires Representable(serialno, ops, nfill) && |mask| == |Muxed(serialno, ops, nfill).pages|
    requires Carried(chunks, Left(Muxed(serialno, ops, nfill).pages, mask))
    ensures forall p :: p in PagesOf(Feed([], false, chunks)) ==> WellSized(p)
    ensures var m := Muxed(serialno, ops, nfill);
      var infos := Infos(PagesOf(Feed([], false, chunks)));
      var s := L.Run(infos, L.Start(serialno), steps);
      && ReadsBack(m.pages, Submissions(ops))
      && (L.Lose !in steps && |s.mask| == |infos| ==> HeardOf(m.pages, mask, s))
  {
    hide MuxInv, Muxed, Encodable, ToPages, L.WellFormed, L.Parse, L.Survivors, L.Run, Restored, EndMarksRight;
    var m := Muxed(serialno, ops, nfill);
    MuxedFacts(serialno, ops, nfill);
    PagesEncodable(m);
    var left := Left(m.pages, mask);
    LeftEncodable(m.pages, mask);
    ScannedBack(left, chunks);
    DrainedPages(m);
    if L.Lose !in steps && |L.Run(left, L.Start(serialno), steps).mask| == |left| {
      HeardOfLeft(m.pages, serialno, mask, steps);
    }
  }

  lemma {:induction false} HeardOfLeft(pages: seq<PageInfo>, serialno: int, mask: seq<bool>, steps: seq<L.Step>)
    requires L.WellFormed(pages, serialno) && |mask| == |pages| && L.Lose !in steps
    requires |L.Run(Left(pages, mask), L.Start(serialno), steps).mask| == |Left(pages, mask)|
    ensures var s := L.Run(Left(pages, mask), L.Start(serialno), steps);
      HeardOf(pages, mask, s)
  {
    hide L.WellFormed, L.Parse, L.Survivors, L.Run, L.Expected;
    var left := Left(pages, mask);
    assert pages[0..] == pages && left[0..] == left && [] + mask == mask;
    SameHeard(pages, left, L.Start(serialno), L.Start(serialno), mask, steps);
    L.LossRecoveryTheorem(pages, serialno, WithLosses(mask, steps));
    L.ExpectedIsExact(pages, mask, |mask|);
  }
}
