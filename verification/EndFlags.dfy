/**
 End-of-stream flags in the middle of a stream, on pages that are empty or end inside a packet too: apart from end
 marks, packets and holes are those of the stream with all flags off, exactly unless a flag can cut a packet.
 */
module EndFlags {
  import opened Bytes
  import opened PageFormat
  import opened Decoder
  import opened LossRecovery

  function Unflagged(pages: seq<PageInfo>): (r: seq<PageInfo>)
    ensures |r| == |pages| && forall i :: 0 <= i < |r| ==> r[i] == pages[i].(eos := false)
  {
    seq(|pages|, i requires 0 <= i < |pages| => pages[i].(eos := false))
  }

  predicate AllFull(segs: seq<Segment>) {
    forall i :: 0 <= i < |segs| ==> |segs[i]| == 255
  }

  /** No packet ends on page k or later. */
  predicate RestFull(pages: seq<PageInfo>, k: nat) {
    forall j :: k <= j < |pages| ==> AllFull(pages[j].segs)
  }

  /** A page with the flag that holds nothing but the inside of a packet, which ends on a later page. */
  predicate FlagCuts(pages: seq<PageInfo>, k: nat)
    requires k < |pages|
  {
    pages[k].eos && Parse(Unflagged(pages), k).open != [] && AllFull(pages[k].segs) && !RestFull(pages, k + 1)
  }

  predicate SameEvent(a: Event, b: Event) {
    if a.Packet? then b.Packet? && a.(eos := b.eos) == b else b.Hole?
  }

  predicate SameButEnd(a: seq<Event>, b: seq<Event>) {
    |a| == |b| && forall i :: 0 <= i < |a| ==> SameEvent(a[i], b[i])
  }

  lemma {:induction false} SameConcat(a: seq<Event>, b: seq<Event>, c: seq<Event>, d: seq<Event>)
    requires SameButEnd(a, b) && SameButEnd(c, d)
    ensures SameButEnd(a + c, b + d)
  {
    hide SameEvent;
  }

  // Decoder states that differ in end marks

  predicate LikeItem(a: Item, b: Item) {
    a.Gap? == b.Gap? && a.(last := b.last) == b
  }

  predicate Like(a: seq<Item>, b: seq<Item>) {
    |a| == |b| && forall i :: 0 <= i < |a| ==> LikeItem(a[i], b[i])
  }

  lemma {:induction false} LikeEnd(a: seq<Item>, b: seq<Item>, k: nat)
    requires Like(a, b) && k <= |a|
    ensures End(a, k) == End(b, k)
    decreases |a| - k
  {
    if k < |a| {
      assert LikeItem(a[k], b[k]);
      LikeEnd(a, b, k + 1);
    }
  }

  lemma {:induction false} LikeData(a: seq<Item>, b: seq<Item>)
    requires Like(a, b)
    ensures Data(a) == Data(b)
  {
    if a != [] {
      assert LikeItem(a[0], b[0]);
      LikeData(a[1..], b[1..]);
    }
  }

  lemma {:induction false} LikePack(a: seq<Item>, b: seq<Item>)
    requires Like(a, b) && a != [] && a[0].Seg? && a[|a| - 1].Seg?
    ensures b[0].Seg? && b[|b| - 1].Seg? && SameEvent(Pack(a), Pack(b))
  {
    LikeData(a, b);
    assert LikeItem(a[0], b[0]) && LikeItem(a[|a| - 1], b[|b| - 1]);
    hide Data, AnyLast;
  }

  lemma {:induction false} LikeSlice(a: seq<Item>, b: seq<Item>, i: nat, j: nat)
    requires Like(a, b) && i <= j <= |a|
    ensures Like(a[i..j], b[i..j])
  {}

  lemma {:induction false} LikeEvents(a: seq<Item>, b: seq<Item>)
    requires Like(a, b)
    ensures SameButEnd(Events(a), Events(b))
    decreases |a|
  {
    hide Pack, Data, Like, SameButEnd, Events;
    LikeSize(a, b);
    if a == [] {
      NoEvents();
      SameNone();
    } else {
      EventsStep(a);
      EventsStep(b);
      FirstLike(a, b);
      var k := End(a, 0);
      if a[0].Gap? {
        LikeSlice(a, b, 1, |a|);
        assert a[1..|a|] == a[1..] && b[1..|a|] == b[1..];
        LikeEvents(a[1..], b[1..]);
        SameCons(Hole, Hole, Events(a[1..]), Events(b[1..]));
      } else if k < |a| && a[k].Seg? {
        LikeSlice(a, b, 0, k + 1);
        LikeSlice(a, b, k + 1, |a|);
        assert a[0..k + 1] == a[..k + 1] && b[0..k + 1] == b[..k + 1];
        assert a[k + 1..|a|] == a[k + 1..] && b[k + 1..|a|] == b[k + 1..];
        LikePack(a[..k + 1], b[..k + 1]);
        LikeEvents(a[k + 1..], b[k + 1..]);
        SameCons(Pack(a[..k + 1]), Pack(b[..k + 1]), Events(a[k + 1..]), Events(b[k + 1..]));
      } else {
        SameNone();
      }
    }
  }

  lemma {:induction false} EventsStep(a: seq<Item>)
    requires a != []
    ensures Events(a) ==
      if a[0].Gap? then [Hole] + Events(a[1..])
      else
        var k := End(a, 0);
        if k == |a| || a[k].Gap? then [] else [Pack(a[..k + 1])] + Events(a[k + 1..])
  {
    hide Pack;
  }

  lemma {:induction false} LikeSize(a: seq<Item>, b: seq<Item>)
    requires Like(a, b)
    ensures |a| == |b|
  {}

  lemma {:induction false} SameNone()
    ensures SameButEnd([], [])
  {}

  lemma {:induction false} SameCons(x: Event, y: Event, a: seq<Event>, b: seq<Event>)
    requires SameEvent(x, y) && SameButEnd(a, b)
    ensures SameButEnd([x] + a, [y] + b)
  {
    hide SameEvent;
  }

  lemma {:induction false} FirstLike(a: seq<Item>, b: seq<Item>)
    requires Like(a, b) && a != []
    ensures a[0].Gap? == b[0].Gap? && End(a, 0) == End(b, 0)
    ensures End(a, 0) < |a| ==> a[End(a, 0)].Gap? == b[End(a, 0)].Gap?
  {
    LikeEnd(a, b, 0);
    assert LikeItem(a[0], b[0]);
    assert End(a, 0) < |a| ==> LikeItem(a[End(a, 0)], b[End(a, 0)]);
  }

  /** What can be handed out is alike. */
  predicate FrontLike(s: DecState, t: DecState) {
    && s.ready == t.ready && s.ready <= |s.items| && t.ready <= |t.items|
    && Like(s.items[..s.ready], t.items[..t.ready])
    && s.pageno == t.pageno && s.serialno == t.serialno
  }

  /** All is alike, and a gap with an end mark, which no longer makes segments be skipped, need not make any be. */
  predicate WholeLike(pages: seq<PageInfo>, s: DecState, t: DecState) {
    && Like(s.items, t.items)
    && (forall i :: 0 <= i < |t.items| ==> !t.items[i].last)
    && (MarkedGap(s.items) && 0 <= s.pageno < |pages| ==> !pages[s.pageno].continued)
  }

  predicate MarkedGap(items: seq<Item>) {
    items != [] && items[|items| - 1] == Gap(true)
  }

  ghost predicate Sim(pages: seq<PageInfo>, serialno: int, s: Session, t: Session) {
    && s.dec.serialno == serialno && 0 <= s.dec.pageno
    && Inv(s.dec) && Inv(t.dec) && s.mask == t.mask && |s.mask| <= |pages|
    && SameButEnd(s.out, t.out) && FrontLike(s.dec, t.dec)
    && (WholeLike(pages, s.dec, t.dec) || RestFull(pages, |s.mask|))
  }

  lemma {:induction false} TakeSim(pages: seq<PageInfo>, serialno: int, s: Session, t: Session)
    requires Sim(pages, serialno, s, t)
    ensures Sim(pages, serialno, Do(pages, s, Take), Do(Unflagged(pages), t, Take))
  {
    hide PacketOut, Like, SameButEnd, FrontLike, Inv, Pending, RestFull, WholeLike;
    PacketOutTakesNext(s.dec);
    PacketOutTakesNext(t.dec);
    TakeLike(s.dec, t.dec);
    var (u, x) := PacketOut(s.dec);
    var (v, y) := PacketOut(t.dec);
    SameConcat(s.out, t.out, x, y);
    if WholeLike(pages, s.dec, t.dec) {
      WholeAfterTake(pages, s.dec, t.dec, u, v);
    }
  }

  lemma {:induction false} WholeAfterTake(pages: seq<PageInfo>, s: DecState, t: DecState, u: DecState, v: DecState)
    requires WholeLike(pages, s, t) && u.pageno == s.pageno
    requires Behind(s.items, u.items) && Behind(t.items, v.items) && |s.items| - |u.items| == |t.items| - |v.items|
    ensures WholeLike(pages, u, v)
  {
    LikeSlice(s.items, t.items, |s.items| - |u.items|, |s.items|);
    assert u.items != [] ==> u.items[|u.items| - 1] == s.items[|s.items| - 1];
  }

  /** What is left when something is taken off the front. */
  predicate Behind(a: seq<Item>, b: seq<Item>) {
    |b| <= |a| && b == a[|a| - |b|..]
  }

  /** How many items make up what comes first. */
  function FirstSize(s: DecState): (n: nat)
    requires Inv(s) && s.ready > 0
    ensures 0 < n <= s.ready
  {
    if s.items[0].Gap? then 1 else
      FirstPacketReady(s);
      End(s.items, 0) + 1
  }

  lemma {:induction false} TakesFirst(s: DecState)
    requires Inv(s) && s.ready > 0
    ensures var n, (u, x) := FirstSize(s), PacketOut(s);
      && u == s.(items := s.items[n..], ready := s.ready - n, packetno := s.packetno + 1)
      && (s.items[0].Gap? ==> x == [Hole])
      && (s.items[0].Seg? ==> s.items[n - 1].Seg? && x == [Pack(s.items[..n])])
  {
    hide Pack;
    if s.items[0].Seg? {
      FirstPacketReady(s);
    }
  }

  lemma {:induction false} TakeLike(s: DecState, t: DecState)
    requires Inv(s) && Inv(t) && FrontLike(s, t)
    ensures var (u, x), (v, y) := PacketOut(s), PacketOut(t);
      && FrontLike(u, v) && SameButEnd(x, y)
      && Behind(s.items, u.items) && Behind(t.items, v.items) && |s.items| - |u.items| == |t.items| - |v.items|
  {
    hide *;
    FrontsAlike(s, t);
    if s.ready > 0 {
      var k, n := FirstSize(s), s.ready;
      TakesFirst(s);
      TakesFirst(t);
      FirstSizeLike(s, t);
      FrontSlices(s.items, t.items, k, n);
      FrontOfRest(s, t, k, s.packetno + 1, t.packetno + 1);
      if s.items[0].Seg? {
        LikePack(s.items[..k], t.items[..k]);
        OneAlike(Pack(s.items[..k]), Pack(t.items[..k]));
      } else {
        HolesAlike();
        OneAlike(Hole, Hole);
      }
    } else {
      TakesNothing(s);
      TakesNothing(t);
      SameNone();
    }
  }

  lemma {:induction false} TakesNothing(s: DecState)
    requires Inv(s) && s.ready == 0
    ensures PacketOut(s) == (s, []) && Behind(s.items, s.items)
  {
    assert s.items[0..] == s.items;
  }

  lemma {:induction false} FrontsAlike(s: DecState, t: DecState)
    requires FrontLike(s, t)
    ensures s.ready == t.ready && s.ready <= |s.items| && t.ready <= |t.items|
    ensures Like(s.items[..s.ready], t.items[..t.ready])
  {}

  lemma {:induction false} FrontSlices(a: seq<Item>, b: seq<Item>, k: nat, n: nat)
    requires k <= n <= |a| && n <= |b| && Like(a[..n], b[..n])
    ensures Like(a[..k], b[..k]) && Like(a[k..][..n - k], b[k..][..n - k])
    ensures Behind(a, a[k..]) && Behind(b, b[k..])
  {
    hide Like;
    LikeSlice(a[..n], b[..n], 0, k);
    LikeSlice(a[..n], b[..n], k, n);
    assert a[..n][0..k] == a[..k] && b[..n][0..k] == b[..k];
    assert a[..n][k..n] == a[k..][..n - k] && b[..n][k..n] == b[k..][..n - k];
  }

  /** The states after k entries are taken off the front. */
  lemma {:induction false} FrontOfRest(s: DecState, t: DecState, k: nat, p: int, q: int)
    requires FrontLike(s, t) && k <= s.ready && k <= t.ready
    requires Like(s.items[k..][..s.ready - k], t.items[k..][..s.ready - k])
    ensures FrontLike(s.(items := s.items[k..], ready := s.ready - k, packetno := p),
                      t.(items := t.items[k..], ready := t.ready - k, packetno := q))
  {
    hide Like;
  }

  lemma {:induction false} OneAlike(x: Event, y: Event)
    requires SameEvent(x, y)
    ensures SameButEnd([x], [y])
  {
    hide SameEvent;
  }

  lemma {:induction false} HolesAlike()
    ensures SameEvent(Hole, Hole)
  {}

  lemma {:induction false} FirstSizeLike(s: DecState, t: DecState)
    requires Inv(s) && Inv(t) && FrontLike(s, t) && s.ready > 0
    ensures FirstSize(s) == FirstSize(t) && s.items[0].Gap? == t.items[0].Gap?
  {
    hide Closed, Unfinished, LikeItem;
    FirstLike(s.items[..s.ready], t.items[..t.ready]);
    if s.items[0].Seg? {
      FirstPacketReady(s);
      FirstPacketReady(t);
      EndWithin(s.items, 0, s.ready);
      EndWithin(t.items, 0, t.ready);
    }
  }

  // Delivering a page

  /** While all is alike, the same segments are skipped. */
  lemma {:induction false} ResequenceLike(pages: seq<PageInfo>, s: DecState, t: DecState, k: nat)
    requires FrontLike(s, t) && WholeLike(pages, s, t) && 0 <= s.pageno && k < |pages|
    ensures var u, v := Resequence(s, k), Resequence(t, k);
      && u.ready == v.ready <= |u.items| && v.ready <= |v.items|
      && Like(u.items, v.items) && (forall i :: 0 <= i < |v.items| ==> !v.items[i].last)
      && (MarkedGap(u.items) ==> !pages[k].continued)
      && MustSkip(u.items, pages[k].continued) == MustSkip(v.items, pages[k].continued)
  {
    var u, v := Resequence(s, k), Resequence(t, k);
    if s.pageno != k {
      var r := s.ready;
      assert forall i :: 0 <= i < r ==> u.items[i] == s.items[..r][i] && v.items[i] == t.items[..r][i];
      assert forall i :: 0 <= i < r ==> v.items[i] == t.items[i];
    }
    assert u.items != [] ==> LikeItem(u.items[|u.items| - 1], v.items[|u.items| - 1]);
  }

  lemma {:induction false} LikeMore(a: seq<Item>, b: seq<Item>, e: seq<Item>)
    requires Like(a, b)
    ensures Like(a + e, b + e) && Like(MarkLast(a + e), b + e)
  {}

  /** The segments that are kept, and the state after a page. */
  function Kept(t: DecState, page: PageInfo): seq<Segment> {
    if MustSkip(t.items, page.continued) then page.segs[Leading(page.segs)..] else page.segs
  }

  function Added(t: DecState, page: PageInfo): (e: seq<Item>)
    ensures |e| == |Kept(t, page)|
    ensures forall i :: 0 <= i < |e| ==> e[i].Seg? && !e[i].last
  {
    Entries(Kept(t, page), page.bos && !MustSkip(t.items, page.continued), page.granulepos)
  }

  lemma {:induction false} PageInIs(s: DecState, page: PageInfo)
    requires s.ready <= |s.items| && !Refused(s, page)
    ensures var t, r := Resequence(s, page.pageno), PageIn(s, page);
      && t.ready <= |t.items|
      && r.items == (if page.eos then MarkLast(t.items + Added(t, page)) else t.items + Added(t, page))
      && r.ready == (if LastShort(Kept(t, page)) >= 0 then |t.items| + LastShort(Kept(t, page)) + 1 else t.ready)
      && r.pageno == page.pageno + 1 && r.serialno == s.serialno
      && r.ready <= |r.items|
  {}

  lemma {:induction false} WholeAfterPage(pages: seq<PageInfo>, serialno: int, s: DecState, t: DecState, k: nat)
    requires WellFormed(Unflagged(pages), serialno) && k < |pages|
    requires s.serialno == serialno && 0 <= s.pageno && FrontLike(s, t) && WholeLike(pages, s, t)
    ensures !Refused(s, pages[k]) && !Refused(t, Unflagged(pages)[k])
    ensures var u, v := PageIn(s, pages[k]), PageIn(t, Unflagged(pages)[k]);
      && FrontLike(u, v) && (k + 1 == |pages| || !FlagCuts(pages, k) ==>
        WholeLike(pages, u, v) || RestFull(pages, k + 1))
  {
    hide WellFormed, Entries, LastShort, Leading, LikeItem, MarkLast, Append, Finish, PageIn, Added, Kept, FlagCuts,
         RestFull;
    var page, plain := pages[k], Unflagged(pages)[k];
    PlainFits(pages, serialno, k);
    PageInIs(s, page);
    PageInIs(t, plain);
    ResequenceLike(pages, s, t, k);
    var x, y := Resequence(s, k), Resequence(t, k);
    KeptSame(x, y, page);
    LikeMore(x.items, y.items, Added(x, page));
    var u, v := PageIn(s, page), PageIn(t, plain);
    assert Like(u.items, v.items);
    FrontOfLike(u.items, v.items, u.ready);
    if k + 1 == |pages| || !FlagCuts(pages, k) {
      GapStaysHarmless(pages, serialno, x, k);
    }
  }

  lemma {:induction false} FrontOfLike(a: seq<Item>, b: seq<Item>, n: nat)
    requires Like(a, b) && n <= |a|
    ensures Like(a[..n], b[..n])
  {}

  lemma {:induction false} KeptSame(x: DecState, y: DecState, page: PageInfo)
    requires MustSkip(x.items, page.continued) == MustSkip(y.items, page.continued)
    ensures Kept(x, page) == Kept(y, page.(eos := false)) && Added(x, page) == Added(y, page.(eos := false))
  {}

  lemma {:induction false} PlainFits(pages: seq<PageInfo>, serialno: int, k: nat)
    requires WellFormed(Unflagged(pages), serialno) && k < |pages|
    ensures pages[k].pageno == k && pages[k].version == 0 && pages[k].serialno == serialno
    ensures pages[k].continued <==> Parse(Unflagged(pages), k).open != []
  {
    hide Parse;
    assert PageFits(Unflagged(pages), serialno, k);
  }

  /** A gap marked by the flag of page k, or before, is not followed by a page that goes on with a packet. */
  lemma {:induction false} GapStaysHarmless(pages: seq<PageInfo>, serialno: int, x: DecState, k: nat)
    requires WellFormed(Unflagged(pages), serialno) && k < |pages|
    requires MarkedGap(x.items) ==> !pages[k].continued
    requires k + 1 == |pages| || !FlagCuts(pages, k)
    ensures var page := pages[k];
      var items := if page.eos then MarkLast(x.items + Added(x, page)) else x.items + Added(x, page);
      MarkedGap(items) && k + 1 < |pages| ==> !pages[k + 1].continued || RestFull(pages, k + 1)
  {
    hide WellFormed, Parse, Entries, Added, RestFull;
    var page := pages[k];
    if k + 1 < |pages| && Added(x, page) == [] {
      PlainFits(pages, serialno, k);
      PlainFits(pages, serialno, k + 1);
      assert Kept(x, page) == [];
      OpenNext(Unflagged(pages), k);
    }
  }

  /** A page leaves a packet open if it ends with a full segment, or has none and finds one open. */
  lemma {:induction false} OpenNext(pages: seq<PageInfo>, k: nat)
    requires k < |pages| && !pages[k].eos
    ensures var segs := pages[k].segs;
      Parse(pages, k + 1).open == [] <==> if segs == [] then Parse(pages, k).open == [] else |segs[|segs| - 1]| < 255
  {
    var before := Parse(pages, k);
    ClosingOfEntries(pages[k]);
    var items := PageItems(pages[k]);
    if items != [] {
      OpenAfterPage(before.open, before.start, items, k);
    }
  }

  /** When no packet ends any more, what can be handed out grows by holes only. */
  lemma {:induction false} FrontAfterFull(pages: seq<PageInfo>, serialno: int, s: DecState, t: DecState, k: nat)
    requires WellFormed(Unflagged(pages), serialno) && k < |pages| && RestFull(pages, k)
    requires s.serialno == serialno && 0 <= s.pageno && FrontLike(s, t)
    ensures !Refused(s, pages[k]) && !Refused(t, Unflagged(pages)[k])
    ensures FrontLike(PageIn(s, pages[k]), PageIn(t, Unflagged(pages)[k]))
  {
    hide WellFormed, Entries, LastShort, Leading, LikeItem, MarkLast, Append, Finish, PageIn, Added, Kept;
    var page, plain := pages[k], Unflagged(pages)[k];
    PlainFits(pages, serialno, k);
    PageInIs(s, page);
    PageInIs(t, plain);
    var x, y := Resequence(s, k), Resequence(t, k);
    KeptFull(x, page);
    KeptFull(y, plain);
    FrontResequenced(s, t, k);
    FrontMarked(x.items, Added(x, page), x.ready);
    LikeItself(y.items, Added(y, plain), y.ready);
    LikeChain(PageIn(s, page).items[..x.ready], x.items[..x.ready], y.items[..x.ready]);
  }

  lemma {:induction false} KeptFull(t: DecState, page: PageInfo)
    requires AllFull(page.segs)
    ensures LastShort(Kept(t, page)) == -1
  {}

  lemma {:induction false} FrontResequenced(s: DecState, t: DecState, k: nat)
    requires FrontLike(s, t) && 0 <= s.pageno
    ensures var x, y := Resequence(s, k), Resequence(t, k);
      x.ready == y.ready && x.ready <= |x.items| && y.ready <= |y.items| && Like(x.items[..x.ready], y.items[..y.ready])
  {
    var x, y, r := Resequence(s, k), Resequence(t, k), s.ready;
    assert forall i :: 0 <= i < r ==> x.items[i] == s.items[..r][i] && y.items[i] == t.items[..r][i];
  }

  lemma {:induction false} FrontMarked(items: seq<Item>, e: seq<Item>, n: nat)
    requires n <= |items|
    ensures Like(MarkLast(items + e)[..n], items[..n]) && Like((items + e)[..n], items[..n])
  {}

  lemma {:induction false} LikeItself(items: seq<Item>, e: seq<Item>, n: nat)
    requires n <= |items|
    ensures (items + e)[..n] == items[..n]
  {}

  lemma {:induction false} LikeChain(a: seq<Item>, b: seq<Item>, c: seq<Item>)
    requires Like(a, b) && Like(b, c)
    ensures Like(a, c)
  {}

  lemma {:induction false} DeliverSim(pages: seq<PageInfo>, serialno: int, s: Session, t: Session)
    requires WellFormed(Unflagged(pages), serialno) && Sim(pages, serialno, s, t) && |s.mask| < |pages|
    requires forall k :: 0 <= k < |pages| ==> !FlagCuts(pages, k)
    ensures Sim(pages, serialno, Do(pages, s, Deliver), Do(Unflagged(pages), t, Deliver))
  {
    hide WellFormed, PageIn, Inv, FlagCuts, FrontLike, WholeLike, SameButEnd, Refused;
    var k := |s.mask|;
    PageInKeepsInv(s.dec, pages[k]);
    PageInKeepsInv(t.dec, Unflagged(pages)[k]);
    if WholeLike(pages, s.dec, t.dec) {
      WholeAfterPage(pages, serialno, s.dec, t.dec, k);
    } else {
      FrontAfterFull(pages, serialno, s.dec, t.dec, k);
    }
    Ready(s.dec);
    NextNumber(pages, serialno, s.dec, k);
  }

  lemma {:induction false} Ready(s: DecState)
    requires Inv(s)
    ensures s.ready <= |s.items|
  {}

  lemma {:induction false} NextNumber(pages: seq<PageInfo>, serialno: int, s: DecState, k: nat)
    requires WellFormed(Unflagged(pages), serialno) && k < |pages| && s.ready <= |s.items| && s.serialno == serialno
    ensures PageIn(s, pages[k]).pageno == k + 1 && PageIn(s, pages[k]).serialno == serialno
  {
    hide WellFormed, PageIn;
    PlainFits(pages, serialno, k);
    PageInIs(s, pages[k]);
  }

  lemma {:induction false} RunSim(pages: seq<PageInfo>, serialno: int, s: Session, t: Session, steps: seq<Step>)
    requires WellFormed(Unflagged(pages), serialno) && Sim(pages, serialno, s, t)
    requires forall k :: 0 <= k < |pages| ==> !FlagCuts(pages, k)
    ensures Sim(pages, serialno, LossRecovery.Run(pages, s, steps), LossRecovery.Run(Unflagged(pages), t, steps))
    decreases |steps|
  {
    hide WellFormed, Sim, FlagCuts, Inv;
    SimIsInv(pages, serialno, s, t);
    if steps != [] {
      StepSim(pages, serialno, s, t, steps[0]);
      RunSim(pages, serialno, Do(pages, s, steps[0]), Do(Unflagged(pages), t, steps[0]), steps[1..]);
    }
  }

  lemma {:induction false} SimIsInv(pages: seq<PageInfo>, serialno: int, s: Session, t: Session)
    requires Sim(pages, serialno, s, t)
    ensures Inv(s.dec) && Inv(t.dec) && |s.mask| == |t.mask| <= |pages|
  {}

  lemma {:induction false} StepSim(pages: seq<PageInfo>, serialno: int, s: Session, t: Session, step: Step)
    requires WellFormed(Unflagged(pages), serialno) && Sim(pages, serialno, s, t)
    requires forall k :: 0 <= k < |pages| ==> !FlagCuts(pages, k)
    ensures Sim(pages, serialno, Do(pages, s, step), Do(Unflagged(pages), t, step))
  {
    if step.Take? {
      TakeSim(pages, serialno, s, t);
    } else if |s.mask| < |pages| && step.Deliver? {
      DeliverSim(pages, serialno, s, t);
    } else {
      hide WellFormed, FlagCuts, Inv, FrontLike, WholeLike, SameButEnd;
    }
  }

  /** What is heard of a stream is that of the stream with its flags off, end marks aside. */
  ghost predicate HeardButEnds(pages: seq<PageInfo>, serialno: int, steps: seq<Step>) {
    var s := LossRecovery.Run(pages, Start(serialno), steps);
    SameButEnd(s.out + Pending(s.dec), Expected(Unflagged(pages), s.mask, |s.mask|))
  }

  lemma {:induction false} NoCutNoHarm(pages: seq<PageInfo>, serialno: int, steps: seq<Step>)
    requires WellFormed(Unflagged(pages), serialno)
    requires forall k :: 0 <= k < |pages| ==> !FlagCuts(pages, k)
    ensures HeardButEnds(pages, serialno, steps)
  {
    hide WellFormed, FlagCuts, Expected, Like, SameButEnd, Events, WholeLike, Inv;
    StartSim(pages, serialno);
    RunSim(pages, serialno, Start(serialno), Start(serialno), steps);
    var s := LossRecovery.Run(pages, Start(serialno), steps);
    var t := LossRecovery.Run(Unflagged(pages), Start(serialno), steps);
    LossRecoveryTheorem(Unflagged(pages), serialno, steps);
    LikeEvents(s.dec.items[..s.dec.ready], t.dec.items[..t.dec.ready]);
    SameConcat(s.out, t.out, Pending(s.dec), Pending(t.dec));
  }

  lemma {:induction false} StartSim(pages: seq<PageInfo>, serialno: int)
    ensures Sim(pages, serialno, Start(serialno), Start(serialno))
  {}

  // A flag that cuts a packet: the pages before it lost, its end is handed out as a packet

  lemma {:induction false} RunNext(pages: seq<PageInfo>, s: Session, steps: seq<Step>, step: Step)
    requires Inv(s.dec) && |s.mask| <= |pages|
    ensures LossRecovery.Run(pages, s, steps + [step]) == Do(pages, LossRecovery.Run(pages, s, steps), step)
    decreases |steps|
  {
    hide Inv, Do;
    if steps == [] {
      assert [step][1..] == [];
    } else {
      assert (steps + [step])[1..] == steps[1..] + [step];
      RunNext(pages, Do(pages, s, steps[0]), steps[1..], step);
    }
  }

  function Lost(n: nat): (mask: seq<bool>)
    ensures |mask| == n && forall i :: 0 <= i < n ==> !mask[i]
  {
    seq(n, i => false)
  }

  lemma {:induction false} LoseFirst(pages: seq<PageInfo>, serialno: int, n: nat) returns (steps: seq<Step>)
    requires n <= |pages|
    ensures LossRecovery.Run(pages, Start(serialno), steps) == Session(Init(serialno), Lost(n), [])
    decreases n
  {
    steps := [];
    if n > 0 {
      var before := LoseFirst(pages, serialno, n - 1);
      RunNext(pages, Start(serialno), before, Lose);
      steps := before + [Lose];
      assert Lost(n) == Lost(n - 1) + [false];
    } else {
      assert Lost(0) == [];
    }
  }

  /** Pages k to i - 1 arrive, page k with the flag and none after it, and they end no packet. */
  predicate CutRun(pages: seq<PageInfo>, serialno: int, k: nat, i: nat) {
    && WellFormed(Unflagged(pages), serialno) && k < i <= |pages|
    && pages[k].eos && Parse(Unflagged(pages), k).open != []
    && (forall j :: k <= j < i ==> AllFull(pages[j].segs))
    && (forall j :: k < j < i ==> !pages[j].eos)
  }

  predicate Arriving(mask: seq<bool>, k: nat, i: nat) {
    |mask| == i && forall j :: 0 <= j < i ==> mask[j] == (j >= k)
  }

  /** The packet stays open, from where it was. */
  lemma {:induction false} OpenThroughout(pages: seq<PageInfo>, serialno: int, k: nat, i: nat)
    requires k <= i <= |pages| && Parse(Unflagged(pages), k).open != []
    requires forall j :: k <= j < i ==> AllFull(pages[j].segs)
    ensures var p := Parse(Unflagged(pages), i);
      p.open != [] && p.start == Parse(Unflagged(pages), k).start && p.start < k
    ensures k < i ==> Ending(Unflagged(pages), i - 1) == []
    decreases i
  {
    hide ParsePage, PageItems;
    var plain := Unflagged(pages);
    if i == k {
      OpenStarts(plain, k);
    } else {
      OpenThroughout(pages, serialno, k, i - 1);
      var p, page := Parse(plain, i - 1), plain[i - 1];
      ClosingOfEntries(page);
      PageItemSizes(page);
      ParseLeading(p.open, p.start, page.segs, PageItems(page), i - 1);
      assert pages[i - 1].segs == page.segs;
      FullLeads(page.segs);
    }
  }

  lemma {:induction false} FullLeads(segs: seq<Segment>)
    requires AllFull(segs)
    ensures Leading(segs) == |segs| && LastShort(segs) == -1
  {
    if Leading(segs) < |segs| {
      assert false;
    }
  }

  /** The bytes of pages i to j - 1. */
  function BytesOf(pages: seq<PageInfo>, i: nat, j: nat): seq<Byte>
    requires i <= j <= |pages|
  {
    if i == j then [] else BytesOf(pages, i, j - 1) + Join(pages[j - 1].segs)
  }

  /** What the decoder holds: the gap with the mark, and behind it segments of the packet whose start was lost. */
  ghost predicate Holds(d: DecState, serialno: int, i: nat, bytes: seq<Byte>) {
    && d.serialno == serialno && d.pageno == i && d.ready == 1
    && d.items != [] && d.items[0] == Gap(true) && Unfinished(d.items[1..]) && Data(d.items[1..]) == bytes
  }

  lemma {:induction false} DataConcat(a: seq<Item>, b: seq<Item>)
    ensures Data(a + b) == Data(a) + Data(b)
  {
    if a == [] {
      assert a + b == b;
    } else {
      assert (a + b)[1..] == a[1..] + b;
      DataConcat(a[1..], b);
    }
  }

  lemma {:induction false} DataOfSegs(items: seq<Item>, segs: seq<Segment>)
    requires |items| == |segs| && forall i :: 0 <= i < |items| ==> items[i].Seg? && items[i].bytes == segs[i]
    ensures Data(items) == Join(segs)
  {
    if items != [] {
      DataOfSegs(items[1..], segs[1..]);
    }
  }

  lemma {:induction false} CutReaches(pages: seq<PageInfo>, serialno: int, k: nat, i: nat) returns (steps: seq<Step>)
    requires CutRun(pages, serialno, k, i)
    ensures var s := LossRecovery.Run(pages, Start(serialno), steps);
      s.out == [] && Arriving(s.mask, k, i) && Holds(s.dec, serialno, i, BytesOf(pages, k + 1, i))
    decreases i
  {
    hide WellFormed, Parse, PageIn, Data, AllFull, Holds, LossRecovery.Run;
    var before;
    if i == k + 1 {
      before := LoseFirst(pages, serialno, k);
      OpenAtNone(pages);
      FlagMarksGap(pages, serialno, k);
    } else {
      assert CutRun(pages, serialno, k, i - 1);
      before := CutReaches(pages, serialno, k, i - 1);
      OpenThroughout(pages, serialno, k, i - 1);
      var s := LossRecovery.Run(pages, Start(serialno), before);
      FullAdds(pages, serialno, s.dec, i - 1, BytesOf(pages, k + 1, i - 1));
    }
    RunNext(pages, Start(serialno), before, Deliver);
    steps := before + [Deliver];
  }

  lemma {:induction false} OpenAtNone(pages: seq<PageInfo>)
    ensures Parse(Unflagged(pages), 0).open == []
  {}

  lemma {:induction false} FlagMarksGap(pages: seq<PageInfo>, serialno: int, k: nat)
    requires WellFormed(Unflagged(pages), serialno) && 0 < k < |pages|
    requires pages[k].eos && Parse(Unflagged(pages), k).open != [] && AllFull(pages[k].segs)
    ensures Holds(PageIn(Init(serialno), pages[k]), serialno, k + 1, [])
  {
    hide WellFormed, Parse, PageIn, Leading, LastShort;
    PlainFits(pages, serialno, k);
    PageInIs(Init(serialno), pages[k]);
    FullLeads(pages[k].segs);
    var t := Resequence(Init(serialno), k);
    assert t.items == [Gap(false)];
    assert Kept(t, pages[k]) == [];
    assert t.items + Added(t, pages[k]) == [Gap(false)];
    assert LastShort([]) == -1;
  }

  lemma {:induction false} FullAdds(pages: seq<PageInfo>, serialno: int, d: DecState, i: nat,
                                    bytes: seq<Byte>)
    requires WellFormed(Unflagged(pages), serialno) && i < |pages| && Holds(d, serialno, i, bytes)
    requires !pages[i].eos && AllFull(pages[i].segs)
    ensures Holds(PageIn(d, pages[i]), serialno, i + 1, bytes + Join(pages[i].segs))
  {
    hide WellFormed, Parse, PageIn, Leading, LastShort, Data, Join, MustSkip, Added;
    PlainFits(pages, serialno, i);
    PageInIs(d, pages[i]);
    FullLeads(pages[i].segs);
    NoSkip(d, pages[i].continued);
    AddedBytes(d, pages[i]);
    AddedFull(d, pages[i]);
    TailGrows(d.items, Added(d, pages[i]));
  }

  lemma {:induction false} TailGrows(items: seq<Item>, e: seq<Item>)
    requires items != [] && Unfinished(items[1..]) && Unfinished(e)
    ensures (items + e)[0] == items[0] && Unfinished((items + e)[1..])
    ensures Data((items + e)[1..]) == Data(items[1..]) + Data(e)
  {
    hide Data;
    assert (items + e)[1..] == items[1..] + e;
    DataConcat(items[1..], e);
  }

  lemma {:induction false} AddedFull(d: DecState, page: PageInfo)
    requires !MustSkip(d.items, page.continued) && AllFull(page.segs)
    ensures Unfinished(Added(d, page)) && Kept(d, page) == page.segs
  {}

  lemma {:induction false} AddedBytes(d: DecState, page: PageInfo)
    requires !MustSkip(d.items, page.continued)
    ensures Data(Added(d, page)) == Join(page.segs)
  {
    DataOfSegs(Added(d, page), page.segs);
  }

  lemma {:induction false} NoSkip(d: DecState, continued: bool)
    requires d.items != [] && d.items[0] == Gap(true) && Unfinished(d.items[1..])
    ensures !MustSkip(d.items, continued)
  {
    var n := |d.items| - 1;
    assert n > 0 ==> d.items[1..][n - 1].Seg?;
  }

  /** How many packets end on a page depends on the sizes of its segments only. */
  lemma {:induction false} EndCount(a: seq<Item>, b: seq<Item>, i: nat, j: nat, x: seq<Item>, y: seq<Item>, k: nat)
    requires Segs(a) && Segs(b) && Segs(x) && Segs(y) && |x| == |y|
    requires forall n :: 0 <= n < |x| ==> x[n].Size() == y[n].Size()
    ensures |ParsePage(a, i, x, k).done| == |ParsePage(b, j, y, k).done|
    decreases |x|
  {
    hide Pack;
    if x != [] {
      assert x[0].Size() == y[0].Size();
      if x[0].Closes() {
        EndCount([], [], k, k, x[1..], y[1..], k);
      } else {
        EndCount(a + [x[0]], b + [y[0]], if a == [] then k else i, if b == [] then k else j, x[1..], y[1..], k);
      }
    }
  }

  /** The first packet that ends among some segments has all of them up to the first short one. */
  lemma {:induction false} FirstDone(open: seq<Item>, start: nat, items: seq<Item>, segs: seq<Segment>, k: nat)
    requires Segs(open) && Segs(items) && |items| == |segs| && !AllFull(segs)
    requires forall i :: 0 <= i < |items| ==> items[i].Seg? && items[i].bytes == segs[i]
    ensures var done := ParsePage(open, start, items, k).done;
      done != [] && done[0].packet.Packet? && done[0].packet.data == Data(open) + Join(segs[..Leading(segs)])
    decreases |items|
  {
    hide Data, AnyLast;
    DataConcat(open, [items[0]]);
    assert [items[0]][1..] == [] && segs[..1] == [segs[0]] && [segs[0]][1..] == [];
    DataOfSegs([items[0]], [segs[0]]);
    if !items[0].Closes() {
      FirstDone(open + [items[0]], if open == [] then k else start, items[1..], segs[1..], k);
      var n := Leading(segs);
      assert segs[..n][1..] == segs[1..][..n - 1];
    }
  }

  /** The page on which the packet ends: every packet that ends there is handed out, the first one without its start. */
  lemma {:induction false} RestHandedOut(pages: seq<PageInfo>, serialno: int, d: DecState, j: nat, bytes: seq<Byte>)
    requires WellFormed(Unflagged(pages), serialno) && j < |pages| && Holds(d, serialno, j, bytes) && Inv(d)
    requires !AllFull(pages[j].segs)
    ensures Inv(PageIn(d, pages[j]))
    ensures var events := Pending(PageIn(d, pages[j]));
      && |events| == 1 + |Ending(Unflagged(pages), j)| && |events| > 1
      && events[0] == Hole && events[1].Packet?
      && events[1].data == bytes + Join(pages[j].segs[..Leading(pages[j].segs)])
  {
    hide WellFormed, Parse, ParsePage, PageItems, Events, Unfinished, Closed, Data, Leading;
    var page, plain := pages[j], Unflagged(pages)[j];
    PlainFits(pages, serialno, j);
    PageInKeepsInv(d, page);
    NoSkip(d, page.continued);
    TakenWhole(d, page, 0, j);
    assert PageIn(d, page) == Finish(Append(d, page), page);
    OneGap(d.items);
    var before := Parse(Unflagged(pages), j);
    ClosingOfEntries(page);
    ClosingOfEntries(plain);
    PageItemSizes(page);
    PageItemSizes(plain);
    UnfinishedSegs(d.items[1..]);
    EndCount(d.items[1..], before.open, 0, before.start, PageItems(page), PageItems(plain), j);
    PageItemBytes(page);
    FirstDone(d.items[1..], 0, PageItems(page), page.segs, j);
    var done := ParsePage(d.items[1..], 0, PageItems(page), j).done;
    PacketsAt(done);
  }

  lemma {:induction false} PageItemBytes(page: PageInfo)
    ensures forall i :: 0 <= i < |page.segs| ==> PageItems(page)[i].Seg? && PageItems(page)[i].bytes == page.segs[i]
  {}

  lemma {:induction false} UnfinishedSegs(items: seq<Item>)
    requires Unfinished(items)
    ensures Segs(items)
  {}

  lemma {:induction false} OneGap(items: seq<Item>)
    requires items != [] && items[0] == Gap(true)
    ensures Events(items[..1]) == [Hole]
  {
    GapFirst(Gap(true), []);
    NoEvents();
    assert items[..1] == [Gap(true)] + [];
  }

  /** What should be heard up to there is the hole and one packet less. */
  lemma {:induction false} CutExpected(pages: seq<PageInfo>, serialno: int, mask: seq<bool>, k: nat, i: nat)
    requires CutRun(pages, serialno, k, i) && i <= |mask| && k > 0
    requires forall n :: 0 <= n < |mask| ==> mask[n] == (n >= k)
    ensures |Expected(Unflagged(pages), mask, i)| == 1
    decreases i
  {
    hide WellFormed, Parse, ParsePage, PageItems, Survivors;
    OpenThroughout(pages, serialno, k, i);
    NoSurvivors(mask);
    if i == k + 1 {
      NothingExpected(Unflagged(pages), mask, k);
    } else {
      assert CutRun(pages, serialno, k, i - 1);
      CutExpected(pages, serialno, mask, k, i - 1);
    }
  }

  lemma {:induction false} FewerSurvive(ls: seq<Located>, mask: seq<bool>)
    ensures |Survivors(ls, mask)| <= |ls|
  {
    if ls != [] {
      FewerSurvive(ls[1..], mask);
    }
  }

  lemma {:induction false} LastExpected(pages: seq<PageInfo>, serialno: int, mask: seq<bool>, k: nat, j: nat)
    requires CutRun(pages, serialno, k, j) && j < |pages| && |mask| == j + 1 && 0 < k && !AllFull(pages[j].segs)
    requires forall n :: 0 <= n < |mask| ==> mask[n] == (n >= k)
    ensures |Expected(Unflagged(pages), mask, j + 1)| < 1 + |Ending(Unflagged(pages), j)|
  {
    CutExpected(pages, serialno, mask, k, j);
    OneIsLost(pages, serialno, mask, k, j);
    assert CutRun(pages, serialno, k, j) ==> k < j;
    hide WellFormed, Parse, Ending, Survivors, CutRun;
    ExpectedStep(Unflagged(pages), mask, j);
  }

  lemma {:induction false} OneIsLost(pages: seq<PageInfo>, serialno: int, mask: seq<bool>, k: nat, j: nat)
    requires k <= j < |pages| && Parse(Unflagged(pages), k).open != [] && !AllFull(pages[j].segs)
    requires forall i :: k <= i < j ==> AllFull(pages[i].segs)
    requires j < |mask| && forall n :: 0 <= n < |mask| ==> mask[n] == (n >= k)
    ensures |Survivors(Ending(Unflagged(pages), j), mask)| < |Ending(Unflagged(pages), j)|
  {
    hide Parse, ParsePage, PageItems, Leading, Survivors;
    OpenThroughout(pages, serialno, k, j);
    var plain := Unflagged(pages);
    var before, page := Parse(plain, j), plain[j];
    ClosingOfEntries(page);
    PageItemSizes(page);
    ParseLeading(before.open, before.start, page.segs, PageItems(page), j);
    ShortLeads(page.segs);
    PacketsBegin(before.open, before.start, PageItems(page), j);
    FirstLost(Ending(plain, j), mask, before.start);
  }

  lemma {:induction false} FirstLost(ls: seq<Located>, mask: seq<bool>, start: nat)
    requires ls != [] && ls[0].first == start <= ls[0].last && start < |mask| && !mask[start]
    ensures |Survivors(ls, mask)| < |ls|
  {
    assert !Here(mask, start);
    FewerSurvive(ls[1..], mask);
    SurvivorsFirst(ls, mask);
    hide Survivors;
  }

  lemma {:induction false} ShortLeads(segs: seq<Segment>)
    requires !AllFull(segs)
    ensures Leading(segs) > 0 && |segs[Leading(segs) - 1]| < 255
  {
    if Leading(segs) == 0 || |segs[Leading(segs) - 1]| == 255 {
      LeadingIsAll(segs);
    }
  }

  /**
   The pages before a cut are lost, the others arrive up to the one on which the packet ends. Then there is a hole, and
   as many packets as end on that page, one more than those all of whose pages arrived: the first has just the bytes
   behind the page with the flag.
   */
  lemma {:induction false} CutHarms(pages: seq<PageInfo>, serialno: int, k: nat, j: nat) returns (steps: seq<Step>)
    requires CutRun(pages, serialno, k, j) && j < |pages| && !AllFull(pages[j].segs)
    ensures var s := LossRecovery.Run(pages, Start(serialno), steps);
      var events, ending := Pending(s.dec), Ending(Unflagged(pages), j);
      && s.out == [] && Arriving(s.mask, k, j + 1)
      && |events| == 1 + |ending| && |events| > 1 && |Survivors(ending, s.mask)| < |ending|
      && events[0] == Hole && events[1].Packet?
      && events[1].data == BytesOf(pages, k + 1, j) + Join(pages[j].segs[..Leading(pages[j].segs)])
    ensures !HeardButEnds(pages, serialno, steps)
  {
    hide WellFormed, Parse, PageIn, Expected, Events, Holds, Ending, Survivors;
    OpenAtNone(pages);
    var before := CutReaches(pages, serialno, k, j);
    var s := LossRecovery.Run(pages, Start(serialno), before);
    HeldNumber(s.dec, serialno, j, BytesOf(pages, k + 1, j));
    RestHandedOut(pages, serialno, s.dec, j, BytesOf(pages, k + 1, j));
    RunNext(pages, Start(serialno), before, Deliver);
    steps := before + [Deliver];
    OneIsLost(pages, serialno, s.mask + [true], k, j);
    LastExpected(pages, serialno, s.mask + [true], k, j);
  }

  lemma {:induction false} HeldNumber(d: DecState, serialno: int, i: nat, bytes: seq<Byte>)
    requires Holds(d, serialno, i, bytes)
    ensures d.ready <= |d.items|
  {}

  /** The last flag before the page on which the packet ends. */
  lemma {:induction false} LastCut(pages: seq<PageInfo>, serialno: int, k: nat, j: nat) returns (m: nat)
    requires WellFormed(Unflagged(pages), serialno) && k < j < |pages|
    requires pages[k].eos && Parse(Unflagged(pages), k).open != []
    requires forall i :: k <= i < j ==> AllFull(pages[i].segs)
    ensures CutRun(pages, serialno, m, j)
    decreases j - k
  {
    hide WellFormed, Parse;
    if i :| k < i < j && pages[i].eos {
      OpenThroughout(pages, serialno, k, i);
      m := LastCut(pages, serialno, i, j);
    } else {
      m := k;
    }
  }

  /** The first page from k on that ends a packet. */
  lemma {:induction false} FirstEnd(pages: seq<PageInfo>, k: nat) returns (j: nat)
    requires k <= |pages| && !RestFull(pages, k)
    ensures k <= j < |pages| && !AllFull(pages[j].segs) && forall i :: k <= i < j ==> AllFull(pages[i].segs)
    decreases |pages| - k
  {
    if AllFull(pages[k].segs) {
      j := FirstEnd(pages, k + 1);
    } else {
      j := k;
    }
  }

  /**
   Whichever pages are lost and whenever packets are asked for, packets and holes are those of the stream without the
   flags, if and only if no flag is on a page inside a packet that ends on a later page.
   */
  lemma {:induction false} HeardIffNoFlagCuts(pages: seq<PageInfo>, serialno: int)
    requires WellFormed(Unflagged(pages), serialno)
    ensures (forall steps :: HeardButEnds(pages, serialno, steps))
       <==> (forall k :: 0 <= k < |pages| ==> !FlagCuts(pages, k))
  {
    hide WellFormed, HeardButEnds, Parse;
    if forall k :: 0 <= k < |pages| ==> !FlagCuts(pages, k) {
      forall steps ensures HeardButEnds(pages, serialno, steps) {
        NoCutNoHarm(pages, serialno, steps);
      }
    } else {
      var k :| 0 <= k < |pages| && FlagCuts(pages, k);
      var j := FirstEnd(pages, k + 1);
      var m := LastCut(pages, serialno, k, j);
      var steps := CutHarms(pages, serialno, m, j);
    }
  }

  function Filled(): (segs: seq<Segment>)
    ensures |segs| == 1 && AllFull(segs)
  {
    [seq(255, _ => 0)]
  }

  /** A packet on three pages, the second one with the flag. */
  function CutPages(): (pages: seq<PageInfo>) {
    [PageInfo(0, false, true, false, -1, 1, 0, Filled()),
     PageInfo(0, true, false, true, -1, 1, 1, Filled()),
     PageInfo(0, true, false, false, 0, 1, 2, [[9]])]
  }

  lemma {:induction false} CutPagesFit()
    ensures WellFormed(Unflagged(CutPages()), 1) && FlagCuts(CutPages(), 1)
    ensures |Ending(Unflagged(CutPages()), 2)| == 1
  {
    var pages := CutPages();
    var plain := Unflagged(pages);
    assert pages[1].segs == plain[1].segs == plain[0].segs == Filled() && plain[2].segs == [[9]];
    OpenNext(plain, 0);
    OpenNext(plain, 1);
    var p, items := Parse(plain, 2), PageItems(plain[2]);
    ClosingOfEntries(plain[2]);
    PageItemBytes(plain[2]);
    hide Parse, PageItems, Pack;
    forall k | 0 <= k < |plain| ensures PageFits(plain, 1, k) {
      OpenAtNone(pages);
    }
    assert !AllFull(pages[2].segs);
    assert items[1..] == [];
  }

  /** Its first page lost, the last byte is handed out as a packet. */
  lemma {:induction false} FlagCutsPacket()
    ensures WellFormed(Unflagged(CutPages()), 1) && FlagCuts(CutPages(), 1)
    ensures exists steps ::
      var s := LossRecovery.Run(CutPages(), Start(1), steps);
      && s.mask == [false, true, true] && s.out == [] && |Pending(s.dec)| == 2
      && Pending(s.dec)[0] == Hole && Pending(s.dec)[1].Packet? && Pending(s.dec)[1].data == [9]
      && !HeardButEnds(CutPages(), 1, steps)
  {
    hide WellFormed, Parse, FlagCuts, HeardButEnds, Pending, Ending, LossRecovery.Run, Survivors;
    CutPagesFit();
    var pages := CutPages();
    CutPagesRun();
    var steps := CutHarms(pages, 1, 1, 2);
    assert [[9]][..1] == [[9]] && [[9]][1..] == [];
    assert BytesOf(pages, 2, 2) == [] && Join(pages[2].segs[..Leading(pages[2].segs)]) == [9];
    assert LossRecovery.Run(pages, Start(1), steps).mask == [false, true, true];
  }

  lemma {:induction false} CutPagesRun()
    ensures CutRun(CutPages(), 1, 1, 2) && !AllFull(CutPages()[2].segs)
  {
    CutPagesFit();
    hide WellFormed, Parse, RestFull;
    assert |CutPages()[2].segs[0]| == 1;
  }
}
