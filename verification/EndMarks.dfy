/** Which packets of a muxed stream are marked as its end, when a packet may follow one that was flagged. */
module EndMarks {
  import opened PageFormat
  import opened LossRecovery
  import opened Muxing
  import opened RoundTrip
  import E = Encoder

  /** In every run, a packet is marked exactly when it is the last one that ends on a page with the flag. */
  lemma {:induction false} MarkedIffLastOnEndPage(serialno: int, ops: seq<Op>)
    requires forall op :: op in ops ==> OpInRange(op)
    ensures var m := Muxing.Run(Begin(serialno), ops);
      var done := Parse(m.pages, |m.pages|).done;
      forall i :: 0 <= i < |done| ==>
        && done[i].packet.Packet? && done[i].last < |m.pages|
        && (done[i].packet.eos <==> m.pages[done[i].last].eos && LastOnPage(done, i))
  {
    hide Muxing.Run, Begin, MuxInv, Carries, Parse;
    BeginInv(serialno);
    Muxing.RunKeeps(Begin(serialno), ops);
    var m := Muxing.Run(Begin(serialno), ops);
    MuxIsWellFormed(m);
    PacketMarks(m.pages, m.enc.serialno, |m.pages|);
    var done := Parse(m.pages, |m.pages|).done;
    assert forall i :: 0 <= i < |done| ==> MarkedByPage(m.pages, done, i);
  }

  lemma {:induction false} MuxIsWellFormed(m: Mux)
    requires MuxInv(m)
    ensures WellFormed(m.pages, m.enc.serialno)
  {
    hide Stamped, EosRight, Paged, WellFormed, Parse;
  }

  /** In every run, a page has the flag exactly when it empties the encoder and some packet so far was flagged. */
  lemma {:induction false} FlaggedIffEmptied(serialno: int, ops: seq<Op>, op: Op)
    requires forall o :: o in ops ==> OpInRange(o)
    ensures var m := Muxing.Run(Begin(serialno), ops);
      var n := Muxing.Do(m, op);
      n.pages != m.pages ==>
        && |n.pages| == |m.pages| + 1 && m.pages <= n.pages
        && (n.pages[|m.pages|].eos <==> n.enc.pend == [] && exists i :: 0 <= i < |m.submitted| && m.submitted[i].eos)
  {
    hide Muxing.Run, Begin, Carries, Stamped, Paged, Parse, E.Choose;
    BeginInv(serialno);
    Muxing.RunKeeps(Begin(serialno), ops);
    var m := Muxing.Run(Begin(serialno), ops);
    assert m.pages + [] == m.pages;
  }

  // The final packet

  ghost predicate Flagged(packets: seq<Submission>) {
    exists i :: 0 <= i < |packets| && packets[i].eos
  }

  /** A page on which the last packet so far ends has the flag exactly when some packet was flagged. */
  ghost predicate FinalRight(m: Mux) {
    forall k :: 0 <= k < |m.pages| && AllEndBy(m, k) ==> (m.pages[k].eos <==> Flagged(m.submitted))
  }

  predicate AllEndBy(m: Mux, k: nat)
    requires k < |m.pages|
  {
    Ending(m.pages, k) != [] && |Parse(m.pages, k + 1).done| == |m.submitted|
  }

  lemma {:induction false} DoneGrows(pages: seq<PageInfo>, j: nat, n: nat)
    requires j <= n <= |pages|
    ensures |Parse(pages, j).done| <= |Parse(pages, n).done|
    decreases n
  {
    hide ParsePage, PageItems;
    if j < n {
      DoneGrows(pages, j, n - 1);
    }
  }

  lemma {:induction false} DoKeepsFinal(m: Mux, op: Op)
    requires MuxInv(m) && FinalRight(m) && OpInRange(op)
    ensures FinalRight(Muxing.Do(m, op))
  {
    hide Carries, Stamped, EosRight, Paged, Parse, Ending, E.Choose, AllEndBy;
    var n := Muxing.Do(m, op);
    Muxing.DoKeeps(m, op);
    assert m.pages <= n.pages && (op.Submit? ==> n.pages == m.pages) && (!op.Submit? ==> n.submitted == m.submitted);
    var more := n.pages[|m.pages|..];
    assert n.pages == m.pages + more;
    forall k | 0 <= k < |n.pages| && AllEndBy(n, k) ensures n.pages[k].eos <==> Flagged(n.submitted) {
      if k < |m.pages| {
        OldPage(m, n, more, k);
      } else {
        NewPage(m, n, k);
      }
    }
  }

  lemma {:induction false} OldPage(m: Mux, n: Mux, more: seq<PageInfo>, k: nat)
    requires MuxInv(m) && k < |m.pages| && n.pages == m.pages + more && AllEndBy(n, k)
    requires n.submitted == m.submitted || |n.submitted| == |m.submitted| + 1
    ensures AllEndBy(m, k) && n.submitted == m.submitted
  {
    hide Carries, Stamped, Paged, Parse;
    ParsePrefix(m.pages, more, k);
    ParsePrefix(m.pages, more, k + 1);
    DoneGrows(m.pages, k + 1, |m.pages|);
  }

  lemma {:induction false} NewPage(m: Mux, n: Mux, k: nat)
    requires MuxInv(m) && MuxInv(n) && k < |n.pages| == k + 1 && AllEndBy(n, k)
    requires n.submitted == m.submitted && n.enc.eos == m.enc.eos
    requires n.pages[k].eos == (m.enc.eos && n.enc.pend == [])
    ensures n.pages[k].eos <==> Flagged(n.submitted)
  {
    hide Stamped, Paged, Parse, ItemSegs, AllSegs, Matches, Ordered, WellFormed;
    var p := Parse(n.pages, |n.pages|);
    LeftOver(p.open, n.enc.pend, n.submitted[|p.done|..]);
  }

  lemma {:induction false} RunKeepsFinal(m: Mux, ops: seq<Op>)
    requires MuxInv(m) && FinalRight(m) && forall op :: op in ops ==> OpInRange(op)
    ensures FinalRight(Muxing.Run(m, ops))
    decreases |ops|
  {
    hide MuxInv, FinalRight, Muxing.Do;
    if ops != [] {
      assert ops[0] in ops;
      Muxing.DoKeeps(m, ops[0]);
      DoKeepsFinal(m, ops[0]);
      RunKeepsFinal(Muxing.Do(m, ops[0]), ops[1..]);
    }
  }

  lemma {:induction false} DrainKeepsFinal(m: Mux, nfill: int)
    requires MuxInv(m) && FinalRight(m)
    ensures FinalRight(Drain(m, nfill))
    decreases |m.enc.pend|
  {
    hide MuxInv, FinalRight, Muxing.Do;
    if m.enc.pend != [] {
      Muxing.DoKeeps(m, Flush(nfill));
      DoKeepsFinal(m, Flush(nfill));
      Smaller(m, nfill);
      DrainKeepsFinal(Muxing.Do(m, Flush(nfill)), nfill);
    }
  }

  /** Whenever pages are taken out: the final packet is marked exactly when it or an earlier one was flagged. */
  lemma {:induction false} FinalPacketMarked(serialno: int, ops: seq<Op>, nfill: int)
    requires OpsInRange(ops) && Submissions(ops) != []
    ensures var m := Muxed(serialno, ops, nfill);
      var done := Parse(m.pages, |m.pages|).done;
      && |done| == |Submissions(ops)|
      && var x := done[|done| - 1].packet;
      x.Packet? && (x.eos <==> Flagged(Submissions(ops)))
  {
    hide MuxInv, Parse, WellFormed, FinalRight, Muxing.Run, Drain, Ending, EndMarksRight, Restored;
    var m := Muxed(serialno, ops, nfill);
    BeginInv(serialno);
    NoPagesYet(Begin(serialno));
    RunKeepsFinal(Begin(serialno), ops);
    Muxing.RunKeeps(Begin(serialno), ops);
    DrainKeepsFinal(Muxing.Run(Begin(serialno), ops), nfill);
    MuxedFacts(serialno, ops, nfill);
    DrainedPages(m);
    MuxIsWellFormed(m);
    PacketMarks(m.pages, m.enc.serialno, |m.pages|);
    var done := Parse(m.pages, |m.pages|).done;
    var i := |done| - 1;
    assert MarkedByPage(m.pages, done, i);
    PageOfPacket(m.pages, |m.pages|, i);
    FinalSays(m, done[i].last);
  }

  lemma {:induction false} FinalSays(m: Mux, k: nat)
    requires FinalRight(m) && k < |m.pages| && AllEndBy(m, k)
    ensures m.pages[k].eos <==> Flagged(m.submitted)
  {}

  lemma {:induction false} NoPagesYet(m: Mux)
    requires m.pages == []
    ensures FinalRight(m) && EndsCarryAll(m)
  {}

  // The marks are those submitted, however pages are taken out, exactly when only the final packet is flagged

  predicate OpsInRange(ops: seq<Op>) {
    forall op :: op in ops ==> OpInRange(op)
  }

  ghost predicate MarksRight(serialno: int, ops: seq<Op>, nfill: int) {
    var m := Muxed(serialno, ops, nfill);
    EndMarksRight(Parse(m.pages, |m.pages|).done, m.submitted)
  }

  function Submits(packets: seq<Submission>): (ops: seq<Op>)
    ensures |ops| == |packets|
    ensures forall i :: 0 <= i < |ops| ==> ops[i] == Submit(packets[i].data, packets[i].eos, packets[i].granulepos)
  {
    seq(|packets|, i requires 0 <= i < |packets| => Submit(packets[i].data, packets[i].eos, packets[i].granulepos))
  }

  lemma {:induction false} SubmitsSubmit(packets: seq<Submission>)
    ensures Submissions(Submits(packets)) == packets
  {
    if packets != [] {
      var ops := Submits(packets);
      assert ops[1..] == Submits(packets[1..]);
      SubmitsSubmit(packets[1..]);
      assert [packets[0]] + packets[1..] == packets;
    }
  }

  lemma {:induction false} SubmitsTakeNoPage(m: Mux, ops: seq<Op>)
    requires forall op :: op in ops ==> op.Submit?
    ensures Muxing.Run(m, ops).pages == m.pages
    decreases |ops|
  {
    if ops != [] {
      assert ops[0] in ops;
      SubmitsTakeNoPage(Muxing.Do(m, ops[0]), ops[1..]);
    }
  }

  /** With the flag only on pages that empty the encoder, and nothing submitted after the first of them. */
  ghost predicate EndsCarryAll(m: Mux) {
    forall k :: 0 <= k < |m.pages| && m.pages[k].eos ==> |Parse(m.pages, k + 1).done| == |m.submitted|
  }

  lemma {:induction false} FlushCarriesAll(m: Mux, nfill: int)
    requires MuxInv(m) && EndsCarryAll(m)
    ensures EndsCarryAll(Muxing.Do(m, Flush(nfill)))
  {
    hide Carries, Stamped, EosRight, Paged, Parse;
    var n := Muxing.Do(m, Flush(nfill));
    Muxing.DoKeeps(m, Flush(nfill));
    if m.enc.pend == [] {
      assert n.pages == m.pages;
    } else {
      assert m.pages <= n.pages && |n.pages| == |m.pages| + 1;
      var more := n.pages[|m.pages|..];
      assert n.pages == m.pages + more;
      forall k | 0 <= k < |n.pages| && n.pages[k].eos ensures |Parse(n.pages, k + 1).done| == |n.submitted| {
        if k < |m.pages| {
          ParsePrefix(m.pages, more, k + 1);
        } else {
          AllDone(n);
        }
      }
    }
  }

  lemma {:induction false} AllDone(m: Mux)
    requires MuxInv(m) && m.enc.pend == []
    ensures |Parse(m.pages, |m.pages|).done| == |m.submitted|
  {
    hide MuxInv, Parse, Restored, EndMarksRight;
    DrainedPages(m);
  }

  lemma {:induction false} DrainCarriesAll(m: Mux, nfill: int)
    requires MuxInv(m) && EndsCarryAll(m)
    ensures MuxInv(Drain(m, nfill)) && EndsCarryAll(Drain(m, nfill))
    decreases |m.enc.pend|
  {
    hide MuxInv, EndsCarryAll, Muxing.Do;
    if m.enc.pend != [] {
      Muxing.DoKeeps(m, Flush(nfill));
      FlushCarriesAll(m, nfill);
      Smaller(m, nfill);
      DrainCarriesAll(Muxing.Do(m, Flush(nfill)), nfill);
    }
  }

  lemma {:induction false} Smaller(m: Mux, nfill: int)
    requires m.enc.pend != []
    ensures |Muxing.Do(m, Flush(nfill)).enc.pend| < |m.enc.pend|
  {
    E.FlushTakesSomething(m.enc, nfill);
  }

  /** When everything is submitted before a page is taken, no packet but the last is marked. */
  lemma {:induction false} OnlyTheLastIsMarked(m: Mux, i: nat)
    requires MuxInv(m) && EndsCarryAll(m) && i + 1 < |Parse(m.pages, |m.pages|).done| == |m.submitted|
    ensures var x := Parse(m.pages, |m.pages|).done[i].packet; x.Packet? && !x.eos
  {
    hide MuxInv, Parse, WellFormed;
    var done := Parse(m.pages, |m.pages|).done;
    MuxIsWellFormed(m);
    PacketMarks(m.pages, m.enc.serialno, |m.pages|);
    assert MarkedByPage(m.pages, done, i);
    PageOfPacket(m.pages, |m.pages|, i);
  }

  /** Everything submitted first, then flushed. */
  lemma {:induction false} SubmittedFirst(serialno: int, packets: seq<Submission>)
    requires forall i :: 0 <= i < |packets| ==> InRange(packets[i].granulepos)
    ensures var m := Muxed(serialno, Submits(packets), 0);
      && MuxInv(m) && EndsCarryAll(m) && m.submitted == packets && Submissions(Submits(packets)) == packets
      && |Parse(m.pages, |m.pages|).done| == |packets|
  {
    hide MuxInv, EndsCarryAll, Parse, Muxing.Run, Drain;
    var ops := Submits(packets);
    SubmitsInRange(packets);
    var m := Muxing.Run(Begin(serialno), ops);
    SubmitsSubmit(packets);
    BeginInv(serialno);
    Muxing.RunKeeps(Begin(serialno), ops);
    RunSubmits(Begin(serialno), ops);
    SubmitsTakeNoPage(Begin(serialno), ops);
    NoPagesYet(m);
    DrainCarriesAll(m, 0);
    assert [] + packets == packets;
    AllDone(Drain(m, 0));
  }

  lemma {:induction false} SubmitsInRange(packets: seq<Submission>)
    requires forall i :: 0 <= i < |packets| ==> InRange(packets[i].granulepos)
    ensures OpsInRange(Submits(packets))
  {}

  /** Two packets, the first of them flagged: the mark is on the second. */
  lemma {:induction false} LateMarkMoves()
    ensures var packets := [Submission([], true, 0), Submission([1], false, 0)];
      var m := Muxed(1, Submits(packets), 0);
      var done := Parse(m.pages, |m.pages|).done;
      && m.submitted == packets && |done| == 2
      && done[0].packet.Packet? && done[1].packet.Packet? && !done[0].packet.eos && done[1].packet.eos
  {
    hide Parse, Muxed, MuxInv, Submits;
    var packets := [Submission([], true, 0), Submission([1], false, 0)];
    var m := Muxed(1, Submits(packets), 0);
    SubmittedFirst(1, packets);
    OnlyTheLastIsMarked(m, 0);
    SubmitsInRange(packets);
    FinalPacketMarked(1, Submits(packets), 0);
    assert packets[0].eos;
  }

  /**
   The marks are those submitted, whenever pages are taken out, if and only if no packet but the final one is flagged.
   */
  lemma {:induction false} MarksRightIffFlagAtEnd(serialno: int, packets: seq<Submission>)
    requires forall i :: 0 <= i < |packets| ==> InRange(packets[i].granulepos)
    ensures (forall ops, nfill :: OpsInRange(ops) && Submissions(ops) == packets ==> MarksRight(serialno, ops, nfill))
       <==> EosOnlyAtEnd(packets)
  {
    hide OpsInRange, Submits, Submissions, Muxed, Parse, MuxInv, EndsCarryAll;
    if EosOnlyAtEnd(packets) {
      forall ops, nfill | OpsInRange(ops) && Submissions(ops) == packets ensures MarksRight(serialno, ops, nfill) {
        FlagAtEndHolds(serialno, ops, nfill);
      }
    } else {
      var i :| 0 <= i < |packets| - 1 && packets[i].eos;
      SubmittedFirst(serialno, packets);
      SubmitsInRange(packets);
      OnlyTheLastIsMarked(Muxed(serialno, Submits(packets), 0), i);
      assert !MarksRight(serialno, Submits(packets), 0);
    }
  }

  lemma {:induction false} FlagAtEndHolds(serialno: int, ops: seq<Op>, nfill: int)
    requires OpsInRange(ops) && EosOnlyAtEnd(Submissions(ops))
    ensures MarksRight(serialno, ops, nfill)
  {
    hide MuxInv, Muxed, Parse, Restored, EndMarksRight, Submissions;
    MuxedFacts(serialno, ops, nfill);
    DrainedPages(Muxed(serialno, ops, nfill));
  }
}
