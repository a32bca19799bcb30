/** When the encoder hands out a page and how much goes on it, in terms of what it holds. */
module PageTiming {
  import opened PageFormat
  import opened Encoder
  import M = Muxing

  /** The bytes of the first k segments held. */
  function Held(pend: seq<Pend>, k: nat): nat
    requires k <= |pend|
  {
    if k == 0 then 0 else Held(pend, k - 1) + |pend[k - 1].seg|
  }

  /** How many packets end in the first k segments held. */
  function Ended(pend: seq<Pend>, k: nat): nat
    requires k <= |pend|
  {
    if k == 0 then 0 else Ended(pend, k - 1) + if |pend[k - 1].seg| < 255 then 1 else 0
  }

  /** Enough for a page: more than nfill bytes, and at least four packets, the last of which is complete. */
  predicate Enough(pend: seq<Pend>, nfill: int, k: nat)
    requires k <= |pend|
  {
    && 0 < k && |pend[k - 1].seg| < 255
    && Held(pend, k) > nfill && Ended(pend, k) >= 4
  }

  /** There is enough for a page in front of what would fill it anyway. */
  ghost predicate EnoughHeld(pend: seq<Pend>, nfill: int) {
    exists k: nat :: k < |pend| && k < 255 && Enough(pend, nfill, k)
  }

  /** The counters of the scan are those of the segments gone over. */
  ghost predicate Counts(pend: seq<Pend>, s: Scan) {
    && s.vals <= Limit(pend) && !s.broke
    && s.acc == Held(pend, s.vals) && s.done == Ended(pend, s.vals)
    && s.justDone == if s.vals > 0 && |pend[s.vals - 1].seg| < 255 then s.done else 0
  }

  /** The scan stops at the first place where there is enough, or goes over all that fits on a page. */
  lemma {:induction false} ScanStopsWhenEnough(pend: seq<Pend>, nfill: int, s: Scan)
    requires Counts(pend, s) && forall k: nat :: k < s.vals ==> !Enough(pend, nfill, k)
    ensures var r := ScanSegments(pend, nfill, s);
      && (r.broke <==> r.vals < Limit(pend))
      && (r.broke ==> Enough(pend, nfill, r.vals))
      && forall k: nat :: k < r.vals ==> !Enough(pend, nfill, k)
    decreases Limit(pend) - s.vals
  {
    if s.vals < Limit(pend) {
      assert Enough(pend, nfill, s.vals) <==> s.acc > nfill && s.justDone >= 4;
      if !Enough(pend, nfill, s.vals) {
        ScanStopsWhenEnough(pend, nfill, ScanOne(pend[s.vals], s));
      }
    }
  }

  /**
   ogg_stream_pageout gives a page if and only if something is held and it is the first page, or a packet was flagged
   as the last, or a page can be filled, or there is enough for one.
   */
  lemma {:induction false} PageOutIff(s: EncState, nfill: int)
    ensures PageOut(s, nfill).1 != []
      <==> s.pend != [] && (!s.bos || s.eos || |s.pend| >= 255 || EnoughHeld(s.pend, nfill))
  {
    ScanStopsWhenEnough(s.pend, nfill, SCAN_START);
  }

  /** The page has the first n segments held, and the rest stays. */
  predicate Takes(s: EncState, t: EncState, page: PageInfo, n: nat) {
    && n <= |s.pend| && t.pend == s.pend[n..] && |page.segs| == n
    && forall i :: 0 <= i < n ==> page.segs[i] == s.pend[i].seg
  }

  /** Where a page may end: the first one with its first packet, a later one where there is enough. */
  predicate Stops(s: EncState, nfill: int, k: nat)
    requires 0 < k <= |s.pend|
  {
    if s.bos then Enough(s.pend, nfill, k) else |s.pend[k - 1].seg| < 255
  }

  /** A page ends at the first such place, or else when it is full or has all there is. */
  ghost predicate RightSize(s: EncState, nfill: int, n: nat)
    requires n <= |s.pend|
  {
    && 0 < n <= 255
    && (n == 255 || n == |s.pend| || Stops(s, nfill, n))
    && forall k :: 0 < k < n ==> !Stops(s, nfill, k)
  }

  lemma {:induction false} FirstValsStops(pend: seq<Pend>, vals: nat)
    requires vals < Limit(pend)
    ensures var n := FirstVals(pend, vals); 0 < n && (n == Limit(pend) || |pend[n - 1].seg| < 255)
    decreases Limit(pend) - vals
  {
    if vals + 1 < Limit(pend) {
      FirstValsStops(pend, vals + 1);
    }
  }

  /** What goes on a page, however it is asked for. */
  lemma {:induction false} PageTakes(s: EncState, force: bool, nfill: int)
    ensures var (t, pages) := Flush(s, force, nfill);
      if pages == [] then t == s
      else Takes(s, t, pages[0], |pages[0].segs|) && RightSize(s, nfill, |pages[0].segs|)
  {
    if s.pend != [] {
      if s.bos {
        ScanStopsWhenEnough(s.pend, nfill, SCAN_START);
      } else {
        FirstValsStops(s.pend, 0);
      }
    }
  }

  /** There is just one right size. */
  lemma {:induction false} OneRightSize(s: EncState, nfill: int, n: nat, m: nat)
    requires n <= |s.pend| && m <= |s.pend| && RightSize(s, nfill, n) && RightSize(s, nfill, m)
    ensures n == m
  {
    RightSizeIsLeast(s, nfill, n, m);
    RightSizeIsLeast(s, nfill, m, n);
  }

  lemma {:induction false} EndsEarly(s: EncState, nfill: int, n: nat)
    requires n < |s.pend| && n < 255 && RightSize(s, nfill, n)
    ensures Stops(s, nfill, n)
  {}

  lemma {:induction false} RightSizeIsLeast(s: EncState, nfill: int, n: nat, m: nat)
    requires n <= |s.pend| && m <= |s.pend| && RightSize(s, nfill, n) && RightSize(s, nfill, m)
    ensures m <= n
  {
    if n < m {
      EndsEarly(s, nfill, n);
    }
  }

  // In runs

  /** packetno counts the packets submitted. */
  lemma {:induction false} PacketsCounted(m: M.Mux, ops: seq<M.Op>)
    ensures M.Run(m, ops).enc.packetno - |M.Run(m, ops).submitted| == m.enc.packetno - |m.submitted|
    decreases |ops|
  {
    if ops != [] {
      PacketsCounted(M.Do(m, ops[0]), ops[1..]);
    }
  }

  /** The first ogg_stream_pageout after the first packet gives a page. */
  lemma {:induction false} FirstPageAtOnce(serialno: int, ops: seq<M.Op>, nfill: int)
    requires forall op :: op in ops ==> M.OpInRange(op)
    ensures var m := M.Run(M.Begin(serialno), ops);
      m.submitted != [] && m.pages == [] ==>
        var n := M.Do(m, M.PageOut(nfill)); |n.pages| == 1 && n.pages[0].bos
  {
    hide M.Run, M.Begin;
    M.BeginInv(serialno);
    M.RunKeeps(M.Begin(serialno), ops);
    var m := M.Run(M.Begin(serialno), ops);
    if m.submitted != [] && m.pages == [] {
      HeldBeforeFirstPage(m);
      PageOutIff(m.enc, nfill);
      hide M.MuxInv;
      assert [] + PageOut(m.enc, nfill).1 == PageOut(m.enc, nfill).1;
    }
  }

  lemma {:induction false} HeldBeforeFirstPage(m: M.Mux)
    requires M.MuxInv(m) && m.submitted != [] && m.pages == []
    ensures m.enc.pend != [] && !m.enc.bos
  {
    hide M.Stamped, M.EosRight, M.Paged;
    assert m.submitted[0..] == m.submitted;
  }

  /** ogg_stream_pageout, called a number of times. */
  function PageOuts(m: M.Mux, nfill: int, times: nat): M.Mux
    decreases times
  {
    if times == 0 then m else PageOuts(M.Do(m, M.PageOut(nfill)), nfill, times - 1)
  }

  /** After a packet flagged as the last, every ogg_stream_pageout gives a page until nothing is held. */
  lemma {:induction false} PageOutsWhenEnded(m: M.Mux, nfill: int, times: nat)
    requires m.enc.eos
    ensures var n := PageOuts(m, nfill, times);
      && n.enc.eos && n.submitted == m.submitted
      && (n.enc.pend != [] ==> |n.pages| == |m.pages| + times && |n.enc.pend| + times <= |m.enc.pend|)
      && (m.enc.pend != [] && n.enc.pend == [] ==> n.pages != [] && n.pages[|n.pages| - 1].eos)
      && (m.enc.pend == [] ==> n.pages == m.pages && n.enc == m.enc)
    decreases times
  {
    hide M.Do;
    if times > 0 {
      PageOutWhenEnded(m, nfill);
      PageOutsWhenEnded(M.Do(m, M.PageOut(nfill)), nfill, times - 1);
    }
  }

  lemma {:induction false} PageOutWhenEnded(m: M.Mux, nfill: int)
    requires m.enc.eos
    ensures var n := M.Do(m, M.PageOut(nfill));
      && n.enc.eos && n.submitted == m.submitted
      && (m.enc.pend == [] ==> n.pages == m.pages && n.enc == m.enc)
      && (m.enc.pend != [] ==>
        && |n.enc.pend| < |m.enc.pend| && |n.pages| == |m.pages| + 1
        && (n.enc.pend == [] ==> n.pages[|m.pages|].eos))
  {
    hide Choose;
    PageOutIff(m.enc, nfill);
    PageTakes(m.enc, m.enc.pend != [], nfill);
    assert m.pages + [] == m.pages;
  }

  /** The calls are a run of their own. */
  lemma {:induction false} PageOutsRun(m: M.Mux, nfill: int, times: nat)
    ensures PageOuts(m, nfill, times) == M.Run(m, seq(times, i => M.PageOut(nfill)))
    decreases times
  {
    if times > 0 {
      assert seq(times, i => M.PageOut(nfill))[1..] == seq(times - 1, i => M.PageOut(nfill));
      PageOutsRun(M.Do(m, M.PageOut(nfill)), nfill, times - 1);
    }
  }

  lemma {:induction false} EosHeld(m: M.Mux)
    requires M.MuxInv(m)
    ensures m.enc.eos <==> exists i :: 0 <= i < |m.submitted| && m.submitted[i].eos
  {
    hide M.Carries, M.Stamped, M.Paged;
  }

  /**
   Once some packet was flagged as the last, ogg_stream_pageout alone, called as often as there are segments held, takes
   everything out: the last page is marked as the end, and the pages hold exactly the packets submitted.
   */
  lemma {:induction false} PageOutsFinish(serialno: int, ops: seq<M.Op>, nfill: int)
    requires forall op :: op in ops ==> M.OpInRange(op)
    requires exists i :: var x := M.Run(M.Begin(serialno), ops).submitted; 0 <= i < |x| && x[i].eos
    ensures var m := M.Run(M.Begin(serialno), ops);
      var n := PageOuts(m, nfill, |m.enc.pend|);
      && n.enc.pend == [] && n.submitted == m.submitted
      && (m.enc.pend != [] ==> n.pages != [] && n.pages[|n.pages| - 1].eos)
      && forall i :: 0 <= i < |m.submitted| ==> M.Restored(n.pages, m.submitted, i)
  {
    hide M.Run, M.Begin, M.MuxInv, M.Restored, M.EndMarksRight, M.LossRecovery.Parse;
    M.BeginInv(serialno);
    M.RunKeeps(M.Begin(serialno), ops);
    var m := M.Run(M.Begin(serialno), ops);
    EosHeld(m);
    PageOutsWhenEnded(m, nfill, |m.enc.pend|);
    PageOutsRun(m, nfill, |m.enc.pend|);
    M.RunKeeps(m, seq(|m.enc.pend|, i => M.PageOut(nfill)));
    M.DrainedPages(PageOuts(m, nfill, |m.enc.pend|));
  }
}
