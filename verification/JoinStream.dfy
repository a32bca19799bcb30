/** A decoder that joins a page stream in the middle: what it hears is what should be heard, without a hole in front. */
module JoinStream {
  import opened PageFormat
  import opened Decoder
  import opened LossRecovery

  /** A session of a decoder that was reset. */
  function Joined(serialno: int): Session {
    Session(Joining(serialno), [], [])
  }

  /** Nothing has arrived yet. */
  predicate Silent(mask: seq<bool>) {
    forall i :: 0 <= i < |mask| ==> !mask[i]
  }

  /** The hole that a decoder from the start of the stream reports for the pages before the first one it gets. */
  function HoleInFront(mask: seq<bool>): seq<Event> {
    if Silent(mask) || mask[0] then [] else [Hole]
  }

  /** What the caller was handed before has no influence. */
  lemma {:induction false} StepBefore(pages: seq<PageInfo>, s: Session, step: Step, x: seq<Event>)
    requires Inv(s.dec) && |s.mask| <= |pages|
    ensures Do(pages, s.(out := x + s.out), step) == var t := Do(pages, s, step); t.(out := x + t.out)
  {
    hide Inv, PageIn;
    if step.Take? {
      var (dec, out) := PacketOut(s.dec);
      assert x + (s.out + out) == x + s.out + out;
      hide PacketOut;
    }
  }

  /** Waiting for the first page, or as from the start of the stream but for the hole in front. */
  ghost predicate Joins(pages: seq<PageInfo>, serialno: int, s: Session) {
    && |s.mask| <= |pages|
    && if Silent(s.mask) then s.out == [] && Waiting(s.dec, serialno)
       else Good(pages, serialno, s.(out := HoleInFront(s.mask) + s.out))
  }

  predicate Waiting(d: DecState, serialno: int) {
    d.items == [] && d.ready == 0 && d.pageno == -1 && d.serialno == serialno
  }

  lemma {:induction false} WaitingIsInv(d: DecState, serialno: int)
    requires Waiting(d, serialno)
    ensures Inv(d) && Pending(d) == [] && PacketOut(d) == (d, [])
  {}

  lemma {:induction false} JoinsIsInv(pages: seq<PageInfo>, serialno: int, s: Session)
    requires Joins(pages, serialno, s)
    ensures Inv(s.dec) && |s.mask| <= |pages|
  {
    if Silent(s.mask) {
      WaitingIsInv(s.dec, serialno);
    }
  }

  lemma {:induction false} OpenUnfinished(pages: seq<PageInfo>, n: nat)
    requires n <= |pages|
    ensures var p := Parse(pages, n); Unfinished(p.open) && (p.open != [] ==> p.start < n)
    decreases n
  {
    hide ParsePage;
    if n > 0 {
      OpenUnfinished(pages, n - 1);
      OpenAfter(pages, n - 1);
    }
  }

  /** The first page that arrives: a packet that it is in the middle of is passed over. */
  lemma {:induction false} FirstPage(pages: seq<PageInfo>, serialno: int, s: Session)
    requires WellFormed(pages, serialno) && |s.mask| < |pages| && Silent(s.mask)
    requires s.out == [] && Waiting(s.dec, serialno)
    ensures Inv(s.dec) && Joins(pages, serialno, Do(pages, s, Deliver))
  {
    hide WellFormed, Parse, ParsePage, PageItems, Survivors, Append, Finish, Expected, Events;
    var k, page := |s.mask|, pages[|s.mask|];
    var mask := s.mask + [true];
    WaitingIsInv(s.dec, serialno);
    PageAtPlace(pages, serialno, k);
    OpenUnfinished(pages, k);
    PageInKeepsInv(s.dec, page);
    NothingExpected(pages, mask, k);
    ExpectedStep(pages, mask, k);
    var before := Parse(pages, k);
    ClosingOfEntries(page);
    if before.open == [] {
      DeliverWhole(page, before, k, mask, s.dec);
    } else {
      assert !Here(mask, before.start);
      DeliverSevered(page, before, k, mask, s.dec);
    }
    ParsedNext(pages, k);
    var e, x := Survivors(Ending(pages, k), mask), HoleInFront(mask);
    FirstIsHeard(pages, mask, k);
    hide Ending, LossRecovery.Heard, HoleInFront;
    assert [] + e == e && [] + (x + e) == x + e && x + [] == x;
    var r := PageIn(s.dec, page);
    assert r == Finish(Append(s.dec, page), page);
    assert mask[k] && Do(pages, s, Deliver) == Session(r, mask, []);
    assert Pending(r) == e;
    assert Expected(pages, mask, k + 1) == x + e;
    LinkedFromTail(pages, r, mask, k);
    SerialStays(s.dec, page);
    assert Good(pages, serialno, Session(r, mask, x + []));
  }

  lemma {:induction false} SerialStays(d: DecState, page: PageInfo)
    requires d.ready <= |d.items|
    ensures PageIn(d, page).serialno == d.serialno
  {}

  lemma {:induction false} LinkedFromTail(pages: seq<PageInfo>, r: DecState, mask: seq<bool>, k: nat)
    requires k < |pages| && |mask| == k + 1 && mask[k] && r.ready <= |r.items| && Segs(PageItems(pages[k]))
    requires var p := Parse(pages, k);
      LinkedTail(r, ParsePage(p.open, p.start, PageItems(pages[k]), k), k + 1, mask)
    ensures Linked(pages, r, mask)
  {
    ParsedNext(pages, k);
    hide ParsePage, PageItems;
  }

  lemma {:induction false} PageAtPlace(pages: seq<PageInfo>, serialno: int, k: nat)
    requires WellFormed(pages, serialno) && k < |pages|
    ensures var page := pages[k];
      && page.pageno == k && page.version == 0 && page.serialno == serialno
      && (page.continued <==> Parse(pages, k).open != [])
      && (page.eos ==> page.segs != [] && |page.segs[|page.segs| - 1]| < 255)
  {
    hide Parse;
    assert PageFits(pages, serialno, k);
  }

  lemma {:induction false} FirstIsHeard(pages: seq<PageInfo>, mask: seq<bool>, k: nat)
    requires k < |pages| && |mask| == k + 1 && mask[k] && forall i :: 0 <= i < k ==> !mask[i]
    ensures LossRecovery.Heard(pages, mask, k) == HoleInFront(mask) + Survivors(Ending(pages, k), mask)
  {
    hide Survivors, Ending;
    assert !Silent(mask);
  }

  lemma {:induction false} ParsedNext(pages: seq<PageInfo>, k: nat)
    requires k < |pages|
    ensures Segs(PageItems(pages[k]))
    ensures var p := Parse(pages, k);
      var here := ParsePage(p.open, p.start, PageItems(pages[k]), k);
      Parse(pages, k + 1) == here.(done := p.done + here.done) && Ending(pages, k) == here.done
  {
    hide ParsePage, PageItems;
    ClosingOfEntries(pages[k]);
  }

  lemma {:induction false} JoinKeeps(pages: seq<PageInfo>, serialno: int, s: Session, step: Step)
    requires WellFormed(pages, serialno) && Joins(pages, serialno, s)
    ensures Inv(s.dec) && Joins(pages, serialno, Do(pages, s, step))
  {
    hide WellFormed, Good, PageIn;
    JoinsIsInv(pages, serialno, s);
    if !Silent(s.mask) {
      var x := HoleInFront(s.mask);
      DoKeeps(pages, serialno, s.(out := x + s.out), step);
      StepBefore(pages, s, step, x);
      FrontStays(s.mask, Do(pages, s, step).mask);
    } else if step.Take? {
      WaitingIsInv(s.dec, serialno);
      hide PacketOut;
    } else if step.Deliver? && |s.mask| < |pages| {
      FirstPage(pages, serialno, s);
    }
  }

  lemma {:induction false} FrontStays(a: seq<bool>, b: seq<bool>)
    requires a <= b && !Silent(a)
    ensures !Silent(b) && HoleInFront(b) == HoleInFront(a)
  {
    var i :| 0 <= i < |a| && a[i];
    assert b[i];
  }

  lemma {:induction false} JoinRunKeeps(pages: seq<PageInfo>, serialno: int, s: Session, steps: seq<Step>)
    requires WellFormed(pages, serialno) && Joins(pages, serialno, s)
    ensures Inv(s.dec) && |s.mask| <= |pages| && Joins(pages, serialno, LossRecovery.Run(pages, s, steps))
    decreases |steps|
  {
    hide WellFormed, Joins, Inv, Do;
    JoinsIsInv(pages, serialno, s);
    if steps != [] {
      JoinKeeps(pages, serialno, s, steps[0]);
      JoinRunKeeps(pages, serialno, Do(pages, s, steps[0]), steps[1..]);
    }
  }

  /**
   A decoder that was reset and gets some of the pages of a stream: what it has handed out and what is pending are the
   packets all of whose pages arrived, in order, and a hole for every gap behind the first page that arrived.
   */
  lemma {:induction false} JoinRecovery(pages: seq<PageInfo>, serialno: int, steps: seq<Step>)
    requires WellFormed(pages, serialno)
    ensures Inv(Joining(serialno))
    ensures var s := LossRecovery.Run(pages, Joined(serialno), steps);
      var heard := s.out + Pending(s.dec);
      && HoleInFront(s.mask) + heard == Expected(pages, s.mask, |s.mask|)
      && PacketsOf(heard) == Survivors(Parse(pages, |s.mask|).done, s.mask)
      && |HoleInFront(s.mask)| + Holes(heard) == Gaps(s.mask, |s.mask|)
  {
    hide WellFormed, Expected, Parse, Survivors, Events, Joins;
    WaitingIsInv(Joining(serialno), serialno);
    JoinStarts(pages, serialno);
    JoinRunKeeps(pages, serialno, Joined(serialno), steps);
    var s := LossRecovery.Run(pages, Joined(serialno), steps);
    JoinHeard(pages, serialno, s);
    ExpectedIsExact(pages, s.mask, |s.mask|);
    var heard := s.out + Pending(s.dec);
    EventCounts(HoleInFront(s.mask), heard);
  }

  lemma {:induction false} JoinStarts(pages: seq<PageInfo>, serialno: int)
    ensures Joins(pages, serialno, Joined(serialno))
  {}

  lemma {:induction false} JoinHeard(pages: seq<PageInfo>, serialno: int, s: Session)
    requires Joins(pages, serialno, s)
    ensures Inv(s.dec) && |s.mask| <= |pages|
    ensures HoleInFront(s.mask) + (s.out + Pending(s.dec)) == Expected(pages, s.mask, |s.mask|)
  {
    hide Expected, Events, Linked;
    JoinsIsInv(pages, serialno, s);
    if Silent(s.mask) {
      WaitingIsInv(s.dec, serialno);
      NothingExpected(pages, s.mask, |s.mask|);
    } else {
      var x := HoleInFront(s.mask);
      assert x + s.out + Pending(s.dec) == x + (s.out + Pending(s.dec));
    }
  }

  // Joining at page a with nothing lost behind it

  function StartingFrom(ls: seq<Located>, a: nat): seq<Event> {
    if ls == [] then [] else (if ls[0].first >= a then [ls[0].packet] else []) + StartingFrom(ls[1..], a)
  }

  lemma {:induction false} SurvivorsStart(ls: seq<Located>, mask: seq<bool>, a: nat)
    requires forall i :: 0 <= i < |mask| ==> mask[i] == (i >= a)
    requires InRange(ls, |mask|)
    ensures Survivors(ls, mask) == StartingFrom(ls, a)
  {
    if ls != [] {
      var l := ls[0];
      assert l in ls;
      assert l.first < a ==> !Here(mask, l.first);
      SurvivorsStart(ls[1..], mask, a);
    }
  }

  /** The packets are on pages before n. */
  predicate InRange(ls: seq<Located>, n: nat) {
    forall l :: l in ls ==> l.first <= l.last < n
  }

  lemma {:induction false} NoneDone(pages: seq<PageInfo>)
    ensures Parse(pages, 0).done == [] && InRange([], 0)
  {}

  lemma {:induction false} DoneNext(pages: seq<PageInfo>, k: nat)
    requires k < |pages|
    ensures Parse(pages, k + 1).done == Parse(pages, k).done + Ending(pages, k)
  {
    hide ParsePage, PageItems;
  }

  lemma {:induction false} DoneInRange(pages: seq<PageInfo>, n: nat)
    requires n <= |pages|
    ensures InRange(Parse(pages, n).done, n)
    decreases n
  {
    hide *;
    if n > 0 {
      DoneNext(pages, n - 1);
      DoneInRange(pages, n - 1);
      EndingInRange(pages, n - 1);
      BothInRange(Parse(pages, n - 1).done, Ending(pages, n - 1), n - 1);
    } else {
      NoneDone(pages);
    }
  }

  lemma {:induction false} BothInRange(a: seq<Located>, b: seq<Located>, n: nat)
    requires InRange(a, n) && InRange(b, n + 1)
    ensures InRange(a + b, n + 1)
  {}

  lemma {:induction false} EndingInRange(pages: seq<PageInfo>, k: nat)
    requires k < |pages|
    ensures InRange(Ending(pages, k), k + 1)
  {
    OpenStarts(pages, k);
    ParsedNext(pages, k);
    var p, items := Parse(pages, k), PageItems(pages[k]);
    hide Parse, ParsePage, PageItems, Ending;
    PacketsBegin(p.open, p.start, items, k);
  }

  lemma {:induction false} NoGaps(mask: seq<bool>, a: nat, n: nat)
    requires n <= |mask| && forall i :: 0 <= i < |mask| ==> mask[i] == (i >= a)
    ensures Gaps(mask, n) == if 0 < a < n then 1 else 0
    decreases n
  {
    if n > 0 {
      NoGaps(mask, a, n - 1);
    }
  }

  lemma {:induction false} NoHoles(events: seq<Event>)
    ensures Holes(events) == 0 ==> PacketsOf(events) == events
  {
    if events != [] {
      NoHoles(events[1..]);
      assert events == [events[0]] + events[1..];
    }
  }

  /** A stream that is joined at page a: just the packets that start there or later are heard, and no hole. */
  lemma {:induction false} JoinAtPage(pages: seq<PageInfo>, serialno: int, a: nat, steps: seq<Step>)
    requires WellFormed(pages, serialno)
    ensures Inv(Joining(serialno))
    ensures var s := LossRecovery.Run(pages, Joined(serialno), steps);
      var heard := s.out + Pending(s.dec);
      (forall i :: 0 <= i < |s.mask| ==> s.mask[i] == (i >= a)) ==>
        heard == StartingFrom(Parse(pages, |s.mask|).done, a)
  {
    hide WellFormed, Expected, Parse, Survivors, StartingFrom, Events;
    JoinRecovery(pages, serialno, steps);
    var s := LossRecovery.Run(pages, Joined(serialno), steps);
    if forall i :: 0 <= i < |s.mask| ==> s.mask[i] == (i >= a) {
      DoneInRange(pages, |s.mask|);
      SurvivorsStart(Parse(pages, |s.mask|).done, s.mask, a);
      NoGaps(s.mask, a, |s.mask|);
      assert a < |s.mask| ==> s.mask[a];
      NoHoles(s.out + Pending(s.dec));
    }
  }
}
