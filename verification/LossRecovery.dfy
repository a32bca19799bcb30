/**
 What a decoder makes of a page stream of which some pages never arrive: exactly the packets all of whose
 pages arrived, and one hole report for each gap, however the calls to ogg_stream_packetout are interleaved.
 */
module LossRecovery {
  import opened PageFormat
  import opened Decoder

  /** A packet of a page stream and the pages its first and last segments are on. */
  datatype Located = Located(packet: Event, first: nat, last: nat)

  /** Packets that ended, and the segments of one that has not ended with the page it started on. */
  datatype Parsed = Parsed(done: seq<Located>, open: seq<Item>, start: nat)

  /** The segments of a page with what the page says about them. */
  function PageItems(page: PageInfo): (items: seq<Item>)
    ensures |items| == |page.segs|
  {
    var items := Entries(page.segs, page.bos, page.granulepos);
    if page.eos then MarkLast(items) else items
  }

  /** Reads the segments of page k on from an unfinished packet. */
  function ParsePage(open: seq<Item>, start: nat, items: seq<Item>, k: nat): Parsed
    requires Segs(open) && Segs(items)
    decreases |items|
  {
    if items == [] then Parsed([], open, start) else
    var run := open + [items[0]];
    var from := if open == [] then k else start;
    if items[0].Closes() then
      var rest := ParsePage([], k, items[1..], k);
      rest.(done := [Located(Pack(run), from, k)] + rest.done)
    else
      ParsePage(run, from, items[1..], k)
  }

  predicate Segs(items: seq<Item>) {
    forall i :: 0 <= i < |items| ==> items[i].Seg?
  }

  /** Reads the first n pages. */
  function Parse(pages: seq<PageInfo>, n: nat): (p: Parsed)
    requires n <= |pages|
    ensures Segs(p.open)
  {
    if n == 0 then Parsed([], [], 0) else
    var before := Parse(pages, n - 1);
    var here := ParsePage(before.open, before.start, PageItems(pages[n - 1]), n - 1);
    OpenSegs(before.open, before.start, PageItems(pages[n - 1]), n - 1);
    here.(done := before.done + here.done)
  }

  lemma {:induction false} OpenSegs(open: seq<Item>, start: nat, items: seq<Item>, k: nat)
    requires Segs(open) && Segs(items)
    ensures Segs(ParsePage(open, start, items, k).open)
    decreases |items|
  {
    if items != [] {
      var run := open + [items[0]];
      if items[0].Closes() {
        OpenSegs([], k, items[1..], k);
      } else {
        OpenSegs(run, if open == [] then k else start, items[1..], k);
      }
    }
  }

  /** The packets that end on page k. */
  function Ending(pages: seq<PageInfo>, k: nat): seq<Located>
    requires k < |pages|
  {
    var before := Parse(pages, k);
    ParsePage(before.open, before.start, PageItems(pages[k]), k).done
  }

  /**
   A logical stream as a muxer lays it out: pages numbered from zero, the continued flag set exactly on the
   pages that start inside a packet, and an end-of-stream page ending with a packet.
   */
  predicate WellFormed(pages: seq<PageInfo>, serialno: int) {
    forall k :: 0 <= k < |pages| ==> PageFits(pages, serialno, k)
  }

  predicate PageFits(pages: seq<PageInfo>, serialno: int, k: nat)
    requires k < |pages|
  {
    var page := pages[k];
    && page.pageno == k && page.version == 0 && page.serialno == serialno
    && (page.continued <==> Parse(pages, k).open != [])
    && (page.eos ==> page.segs != [] && |page.segs[|page.segs| - 1]| < 255)
  }

  /** Pages a to b - 1 arrived. */
  predicate Arrived(a: nat, b: nat, mask: seq<bool>) {
    forall i :: a <= i < b ==> Here(mask, i)
  }

  predicate Here(mask: seq<bool>, i: nat) {
    i < |mask| && mask[i]
  }

  /** The packets all of whose pages arrived. */
  function Survivors(packets: seq<Located>, mask: seq<bool>): seq<Event> {
    if packets == [] then [] else
    (if Arrived(packets[0].first, packets[0].last + 1, mask) then [packets[0].packet] else [])
    + Survivors(packets[1..], mask)
  }

  /** What page k adds: a hole report if pages before it are missing, then the packets it completes. */
  function Heard(pages: seq<PageInfo>, mask: seq<bool>, k: nat): seq<Event>
    requires k < |mask| && k < |pages|
  {
    if !mask[k] then [] else
    (if k > 0 && !mask[k - 1] then [Hole] else []) + Survivors(Ending(pages, k), mask)
  }

  function Expected(pages: seq<PageInfo>, mask: seq<bool>, n: nat): seq<Event>
    requires n <= |mask| && n <= |pages|
  {
    if n == 0 then [] else Expected(pages, mask, n - 1) + Heard(pages, mask, n - 1)
  }

  datatype Step = Deliver | Lose | Take

  /** mask says of each page so far whether it was delivered; out is what the caller was handed. */
  datatype Session = Session(dec: DecState, mask: seq<bool>, out: seq<Event>)

  function Start(serialno: int): Session {
    Session(Init(serialno), [], [])
  }

  /** The next page is delivered or lost, or the caller asks for a packet. */
  function Do(pages: seq<PageInfo>, s: Session, step: Step): (t: Session)
    requires Inv(s.dec) && |s.mask| <= |pages|
    ensures Inv(t.dec) && |t.mask| <= |pages|
  {
    match step
    case Take =>
      PacketOutTakesNext(s.dec);
      var (dec, out) := PacketOut(s.dec);
      s.(dec := dec, out := s.out + out)
    case Lose => if |s.mask| == |pages| then s else s.(mask := s.mask + [false])
    case Deliver =>
      if |s.mask| == |pages| then s else
      PageInKeepsInv(s.dec, pages[|s.mask|]);
      s.(dec := PageIn(s.dec, pages[|s.mask|]), mask := s.mask + [true])
  }

  function Run(pages: seq<PageInfo>, s: Session, steps: seq<Step>): (t: Session)
    requires Inv(s.dec) && |s.mask| <= |pages|
    ensures Inv(t.dec) && |t.mask| <= |pages|
    decreases |steps|
  {
    if steps == [] then s else Run(pages, Do(pages, s, steps[0]), steps[1..])
  }

  /** How the unfinished segments the decoder holds relate to the stream, when page k - 1 was delivered. */
  ghost predicate LinkedTail(dec: DecState, p: Parsed, k: nat, mask: seq<bool>)
    requires dec.ready <= |dec.items|
  {
    && dec.pageno == k
    && Unfinished(p.open) && (p.open != [] ==> p.start < k)
    && if p.open != [] && Arrived(p.start, k, mask) then dec.items[dec.ready..] == p.open
       else dec.ready == |dec.items| && (p.open != [] ==> Severed(dec.items))
  }

  ghost predicate Linked(pages: seq<PageInfo>, dec: DecState, mask: seq<bool>)
    requires dec.ready <= |dec.items| && |mask| <= |pages|
  {
    var k := |mask|;
    var p := Parse(pages, k);
    if k == 0 || mask[k - 1] then LinkedTail(dec, p, k, mask)
    else 0 <= dec.pageno < k && Unfinished(p.open) && (p.open != [] ==> p.start < k)
  }

  /** Nothing a continued page could continue. */
  ghost predicate Severed(items: seq<Item>) {
    items == [] || items[|items| - 1] == Gap(false)
  }

  ghost predicate Good(pages: seq<PageInfo>, serialno: int, s: Session) {
    && Inv(s.dec) && |s.mask| <= |pages| && s.dec.serialno == serialno
    && s.out + Pending(s.dec) == Expected(pages, s.mask, |s.mask|)
    && Linked(pages, s.dec, s.mask)
  }

  // Reading a page, seen from the decoder's side

  function Packets(ls: seq<Located>): seq<Event> {
    if ls == [] then [] else [ls[0].packet] + Packets(ls[1..])
  }

  /** Number of items up to the last one that ends a packet. */
  function Closing(items: seq<Item>): (c: nat)
    ensures c <= |items|
  {
    if items == [] then 0
    else if items[|items| - 1].Closes() then |items|
    else Closing(items[..|items| - 1])
  }

  lemma {:induction false} ClosingTail(items: seq<Item>)
    requires items != []
    ensures Closing(items) ==
      (if Closing(items[1..]) > 0 then Closing(items[1..]) + 1 else if items[0].Closes() then 1 else 0)
    decreases |items|
  {
    var n := |items| - 1;
    if !items[n].Closes() && n > 0 {
      ClosingTail(items[..n]);
      assert items[..n][1..] == items[1..][..n - 1];
    }
  }

  /** A finished packet at the front of a list of items. */
  lemma {:induction false} FirstPacket(open: seq<Item>, x: Item, rest: seq<Item>)
    requires Unfinished(open) && x.Seg? && x.Closes()
    ensures Segs(open + [x])
    ensures Events(open + [x] + rest) == [Pack(open + [x])] + Events(rest)
  {
    var all := open + [x] + rest;
    assert forall i :: 0 <= i < |open| ==> all[i] == open[i];
    assert all[|open|] == x;
    assert End(all, 0) == |open|;
    assert all[..|open| + 1] == open + [x] && all[|open| + 1..] == rest;
    assert all[0].Seg?;
  }

  /** The decoder's grouping of a list of segments and the reading of the same segments one at a time agree. */
  lemma {:induction false} ParseIsGrouping(open: seq<Item>, start: nat, items: seq<Item>, k: nat)
    requires Unfinished(open) && Segs(items)
    ensures Segs(open)
    ensures Grouped(open, items, ParsePage(open, start, items, k))
    ensures Unfinished(ParsePage(open, start, items, k).open)
    decreases |items|
  {
    hide Pack, Events, Grouped;
    if items == [] {
      NothingGrouped(open);
    } else {
      var x, rest := items[0], items[1..];
      var from := if open == [] then k else start;
      if x.Closes() {
        ParseIsGrouping([], k, rest, k);
        GroupingCloses(open, x, rest, Located(Pack(open + [x]), from, k), ParsePage([], k, rest, k));
      } else {
        ParseIsGrouping(open + [x], from, rest, k);
        GroupingContinues(open, x, rest, ParsePage(open + [x], from, rest, k));
      }
      assert items == [x] + rest;
    }
  }

  ghost predicate Grouped(open: seq<Item>, items: seq<Item>, p: Parsed) {
    var c := Closing(items);
    && Packets(p.done) == (if c > 0 then Events(open + items[..c]) else [])
    && p.open == (if c > 0 then items[c..] else open + items)
  }

  lemma {:induction false} GroupingCloses(open: seq<Item>, x: Item, rest: seq<Item>, l: Located, q: Parsed)
    requires Unfinished(open) && x.Seg? && x.Closes()
    requires l.packet == Pack(open + [x]) && Grouped([], rest, q)
    ensures Grouped(open, [x] + rest, q.(done := [l] + q.done))
  {
    hide *;
    var items, d := [x] + rest, Closing(rest);
    GroupedFromNothing(rest, q);
    ClosingTail(items);
    assert items[1..] == rest;
    FirstPacket(open, x, rest[..d]);
    TakenApart(open, x, rest, d);
    PacketsFirst(l, q.done);
    GroupsSo(open, items, q.(done := [l] + q.done), d + 1);
  }

  lemma {:induction false} TakenApart(open: seq<Item>, x: Item, rest: seq<Item>, d: nat)
    requires d <= |rest|
    ensures open + ([x] + rest)[..d + 1] == open + [x] + rest[..d] && ([x] + rest)[d + 1..] == rest[d..]
  {}

  lemma {:induction false} GroupedFromNothing(items: seq<Item>, p: Parsed)
    requires Grouped([], items, p)
    ensures Packets(p.done) == Events(items[..Closing(items)]) && p.open == items[Closing(items)..]
  {
    hide Events, Packets, Closing;
    var c := Closing(items);
    assert [] + items[..c] == items[..c] && [] + items == items;
    if c == 0 {
      NoEvents();
      assert items[..0] == [] && items[0..] == items;
    }
  }

  lemma {:induction false} GroupsSo(open: seq<Item>, items: seq<Item>, p: Parsed, c: nat)
    requires c == Closing(items) && c > 0 && Packets(p.done) == Events(open + items[..c]) && p.open == items[c..]
    ensures Grouped(open, items, p)
  {}

  lemma {:induction false} PacketsFirst(l: Located, ls: seq<Located>)
    ensures Packets([l] + ls) == [l.packet] + Packets(ls)
  {
    assert ([l] + ls)[1..] == ls;
  }

  lemma {:induction false} GroupingContinues(open: seq<Item>, x: Item, rest: seq<Item>, p: Parsed)
    requires !x.Closes() && Grouped(open + [x], rest, p)
    ensures Grouped(open, [x] + rest, p)
  {
    hide Pack, Events, Closing, Packets;
    var items, d := [x] + rest, Closing(rest);
    assert items[1..] == rest;
    ClosingTail(items);
    assert open + items == (open + [x]) + rest;
    if d > 0 {
      assert open + items[..d + 1] == (open + [x]) + rest[..d];
      assert items[d + 1..] == rest[d..];
    }
  }

  lemma {:induction false} NothingGrouped(open: seq<Item>)
    ensures forall start :: Grouped(open, [], Parsed([], open, start))
  {
    assert open + [] == open;
  }

  lemma {:induction false} NoEvents()
    ensures Events([]) == []
  {}

  lemma {:induction false} GapFirst(x: Item, rest: seq<Item>)
    requires x.Gap?
    ensures Events([x] + rest) == [Hole] + Events(rest)
  {
    assert ([x] + rest)[1..] == rest;
  }

  lemma {:induction false} EventsConcat(a: seq<Item>, b: seq<Item>)
    requires Closed(a)
    ensures Events(a + b) == Events(a) + Events(b)
    decreases |a|
  {
    hide Pack, Events;
    if a == [] {
      assert a + b == b;
      NoEvents();
    } else if a[0].Gap? {
      ClosedSuffix(a, 1);
      EventsConcat(a[1..], b);
      GapFirst(a[0], a[1..]);
      GapFirst(a[0], a[1..] + b);
      assert a == [a[0]] + a[1..];
      assert a + b == [a[0]] + (a[1..] + b);
    } else {
      var k := End(a, 0);
      ClosedRunEnds(a);
      ClosedSuffix(a, k + 1);
      EventsConcat(a[k + 1..], b);
      FirstPacket(a[..k], a[k], a[k + 1..]);
      FirstPacket(a[..k], a[k], a[k + 1..] + b);
      assert a == a[..k] + [a[k]] + a[k + 1..];
      assert a + b == a[..k] + [a[k]] + (a[k + 1..] + b);
    }
  }

  lemma {:induction false} ClosedRunEnds(a: seq<Item>)
    requires Closed(a) && a != [] && a[0].Seg?
    ensures End(a, 0) < |a| && a[End(a, 0)].Seg? && a[End(a, 0)].Closes()
    ensures Unfinished(a[..End(a, 0)])
  {
    var k := End(a, 0);
    assert forall i :: 0 <= i < k ==> !a[i].Closes();
    assert k > 0 ==> !a[k - 1].Closes();
  }

  lemma {:induction false} ClosedSuffix(a: seq<Item>, n: nat)
    requires Closed(a) && n <= |a|
    ensures Closed(a[n..])
  {
    var b := a[n..];
    forall i | 0 < i < |b| && b[i].Gap? ensures b[i - 1].Closes() {
      assert a[n + i].Gap? && a[n + i - 1].Closes();
    }
  }

  lemma {:induction false} ClosingOfEntries(page: PageInfo)
    ensures Segs(PageItems(page))
    ensures Closing(PageItems(page)) == LastShort(page.segs) + 1
  {
    var items := PageItems(page);
    ClosingIs(items, LastShort(page.segs) + 1);
  }

  lemma {:induction false} ClosingIs(items: seq<Item>, c: nat)
    requires c <= |items| && (c > 0 ==> items[c - 1].Closes())
    requires forall i :: c <= i < |items| ==> !items[i].Closes()
    ensures Closing(items) == c
    decreases |items|
  {
    if c < |items| {
      ClosingIs(items[..|items| - 1], c);
    }
  }

  lemma {:induction false} MarkLastOfSum(a: seq<Item>, b: seq<Item>)
    requires b != []
    ensures MarkLast(a + b) == a + MarkLast(b)
  {}

  /** A page none of whose segments are skipped. */
  lemma {:induction false} TakenWhole(t: DecState, page: PageInfo, start: nat, k: nat)
    requires Inv(t) && !MustSkip(t.items, page.continued)
    requires page.eos ==> page.segs != []
    ensures Unfinished(t.items[t.ready..])
    ensures var p := ParsePage(t.items[t.ready..], start, PageItems(page), k);
      var r := Finish(Append(t, page), page);
      && r.items == t.items + PageItems(page) && r.ready <= |r.items|
      && Pending(r) == Pending(t) + Packets(p.done)
      && r.items[r.ready..] == p.open && Unfinished(p.open)
  {
    hide Pack, Events, Closed, ParsePage, Closing, Grouped, LastShort;
    var tail, items := t.items[t.ready..], PageItems(page);
    ClosingOfEntries(page);
    MarkedEntries(t.items, page, page.segs, page.bos);
    ParseIsGrouping(tail, start, items, k);
    Appended(t.items, t.ready, items, ParsePage(tail, start, items, k));
  }

  /** Pending packets and unfinished segments after some items are appended. */
  lemma {:induction false} Appended(items: seq<Item>, ready: nat, more: seq<Item>, p: Parsed)
    requires ready <= |items| && Closed(items[..ready])
    requires Grouped(items[ready..], more, p)
    ensures var c := Closing(more);
      var ready' := if c > 0 then |items| + c else ready;
      && Events((items + more)[..ready']) == Events(items[..ready]) + Packets(p.done)
      && (items + more)[ready'..] == p.open
  {
    hide *;
    var c := Closing(more);
    if c > 0 {
      EventsConcat(items[..ready], items[ready..] + more[..c]);
      CutInside(items, ready, more, c);
    } else {
      CutBefore(items, ready, more);
    }
    GroupedIs(items[ready..], more, p);
  }

  lemma {:induction false} GroupedIs(open: seq<Item>, items: seq<Item>, p: Parsed)
    requires Grouped(open, items, p)
    ensures var c := Closing(items);
      && (c > 0 ==> Packets(p.done) == Events(open + items[..c]) && p.open == items[c..])
      && (c == 0 ==> Packets(p.done) == [] && p.open == open + items)
  {}

  lemma {:induction false} CutInside(items: seq<Item>, ready: nat, more: seq<Item>, c: nat)
    requires ready <= |items| && c <= |more|
    ensures (items + more)[..|items| + c] == items[..ready] + (items[ready..] + more[..c])
    ensures (items + more)[|items| + c..] == more[c..]
  {}

  lemma {:induction false} CutBefore(items: seq<Item>, ready: nat, more: seq<Item>)
    requires ready <= |items|
    ensures (items + more)[..ready] == items[..ready]
    ensures (items + more)[ready..] == items[ready..] + more
  {}

  lemma {:induction false} MarkedEntries(before: seq<Item>, page: PageInfo, segs: seq<Segment>, bos: bool)
    requires segs != [] || !page.eos
    ensures var e := Entries(segs, bos, page.granulepos);
      (if page.eos then MarkLast(before + e) else before + e) == before + (if page.eos then MarkLast(e) else e)
  {
    if page.eos {
      MarkLastOfSum(before, Entries(segs, bos, page.granulepos));
    }
  }

  /** What is left of a page whose leading segments were skipped, in the same terms as the whole page. */
  lemma {:induction false} SkippedEntries(page: PageInfo)
    requires page.eos ==> page.segs != []
    ensures var n := Leading(page.segs);
      var e := Entries(page.segs[n..], false, page.granulepos);
      PageItems(page)[n..] == if page.eos && e != [] then MarkLast(e) else e
  {
    var n := Leading(page.segs);
    if n < |page.segs| {
      LastShortOfSuffix(page.segs, n);
      EntriesOfSuffix(page.segs, n, page.bos, page.granulepos);
      MarkLastOfSuffix(Entries(page.segs, page.bos, page.granulepos), n);
    }
  }

  lemma {:induction false} EntriesOfSuffix(segs: seq<Segment>, n: nat, bos: bool, granulepos: int)
    requires 0 < n < |segs|
    requires LastShort(segs[n..]) == if LastShort(segs) >= n then LastShort(segs) - n else -1
    ensures Entries(segs, bos, granulepos)[n..] == Entries(segs[n..], false, granulepos)
  {
    hide LastShort;
  }

  lemma {:induction false} MarkLastOfSuffix(items: seq<Item>, n: nat)
    requires n < |items|
    ensures MarkLast(items)[n..] == MarkLast(items[n..])
  {}

  lemma {:induction false} LastShortOfSuffix(segs: seq<Segment>, n: nat)
    requires 0 < n < |segs| && |segs[n - 1]| < 255
    ensures LastShort(segs[n..]) == if LastShort(segs) >= n then LastShort(segs) - n else -1
  {
    var i, j := LastShort(segs), LastShort(segs[n..]);
    assert j >= 0 ==> |segs[n + j]| < 255;
    assert i >= n ==> |segs[n..][i - n]| < 255;
    assert forall m :: n <= m < |segs| ==> segs[m] == segs[n..][m - n];
  }

  /** Reading a page from an unfinished packet: its leading segments first, then the rest from nothing. */
  lemma {:induction false} ParseLeading(open: seq<Item>, start: nat, segs: seq<Segment>, items: seq<Item>, k: nat)
    requires open != [] && Segs(open) && Segs(items) && |items| == |segs|
    requires forall i :: 0 <= i < |items| ==> items[i].Size() == |segs[i]|
    ensures var n := Leading(segs);
      var p := ParsePage(open, start, items, k);
      if n > 0 && |segs[n - 1]| < 255 then
        var q := ParsePage([], k, items[n..], k);
        p.done != [] && p.done[0].first == start && p.done[1..] == q.done && p.open == q.open && p.start == q.start
      else p.done == [] && p.open == open + items && p.start == start
    decreases |items|
  {
    if items != [] {
      var run := open + [items[0]];
      assert run + items[1..] == open + items;
      if items[0].Closes() {
        assert items[Leading(segs)..] == items[1..];
      } else {
        ParseLeading(run, start, segs[1..], items[1..], k);
        assert items[1..][Leading(segs[1..])..] == items[Leading(segs)..];
      }
    }
  }

  lemma {:induction false} PacketsBegin(open: seq<Item>, start: nat, items: seq<Item>, k: nat)
    requires Segs(open) && Segs(items)
    ensures var p := ParsePage(open, start, items, k);
      && (forall l :: l in p.done ==> l.last == k && (l.first == k || (open != [] && l.first == start)))
      && (p.open != [] ==> p.start == k || (open != [] && p.start == start))
    decreases |items|
  {
    if items != [] {
      var run := open + [items[0]];
      if items[0].Closes() {
        PacketsBegin([], k, items[1..], k);
      } else {
        PacketsBegin(run, if open == [] then k else start, items[1..], k);
      }
    }
  }

  /** A packet stays open exactly when the last segment of the page is full. */
  lemma {:induction false} OpenAfterPage(open: seq<Item>, start: nat, items: seq<Item>, k: nat)
    requires Segs(open) && Segs(items) && items != []
    ensures (ParsePage(open, start, items, k).open == []) == items[|items| - 1].Closes()
    decreases |items|
  {
    hide Pack;
    if |items| > 1 {
      if items[0].Closes() {
        OpenAfterPage([], k, items[1..], k);
      } else {
        OpenAfterPage(open + [items[0]], if open == [] then k else start, items[1..], k);
      }
    }
  }

  lemma {:induction false} AllSurvive(ls: seq<Located>, mask: seq<bool>)
    requires forall l :: l in ls ==> Arrived(l.first, l.last + 1, mask)
    ensures Survivors(ls, mask) == Packets(ls)
  {
    if ls != [] {
      assert ls[0] in ls;
      AllSurvive(ls[1..], mask);
    }
  }

  /** A page that loses its leading segments. */
  lemma {:induction false} TakenInPart(t: DecState, page: PageInfo, k: nat)
    requires Inv(t) && t.ready == |t.items| && page.continued && Severed(t.items)
    requires page.eos ==> page.segs != [] && |page.segs[|page.segs| - 1]| < 255
    ensures Segs(PageItems(page))
    ensures var n := Leading(page.segs);
      var p := ParsePage([], k, PageItems(page)[n..], k);
      var r := Finish(Append(t, page), page);
      && r.ready <= |r.items|
      && Pending(r) == Pending(t) + Packets(p.done)
      && r.items[r.ready..] == p.open && Unfinished(p.open)
      && (n == |page.segs| && !page.eos ==> r.items == t.items)
  {
    hide Events, Pack, Finish, Append, Grouped, Inv;
    ClosingOfEntries(page);
    var n := Leading(page.segs);
    ParseIsGrouping([], k, PageItems(page)[n..], k);
    if n < |page.segs| {
      RestTaken(t, page, k);
    } else {
      NothingTaken(t, page, k);
    }
  }

  lemma {:induction false} RestTaken(t: DecState, page: PageInfo, k: nat)
    requires Inv(t) && t.ready == |t.items| && MustSkip(t.items, page.continued)
    requires Leading(page.segs) < |page.segs|
    ensures Segs(PageItems(page))
    ensures var p := ParsePage([], k, PageItems(page)[Leading(page.segs)..], k);
      var r := Finish(Append(t, page), page);
      && r.ready <= |r.items|
      && Pending(r) == Pending(t) + Packets(p.done)
      && r.items[r.ready..] == p.open
  {
    hide *;
    ClosingOfEntries(page);
    RestItems(t, page);
    var n := Leading(page.segs);
    var rest := PageItems(page)[n..];
    PartsOf(t, PageItems(page), n);
    var p, r := ParsePage([], k, rest, k), Finish(Append(t, page), page);
    ParseIsGrouping([], k, rest, k);
    ClosingOfRest(page, n);
    Appended(t.items, t.ready, rest, p);
    PendingOf(t);
    PendingOf(r);
  }

  lemma {:induction false} PartsOf(t: DecState, items: seq<Item>, n: nat)
    requires Inv(t) && t.ready == |t.items| && Segs(items) && n <= |items|
    ensures Closed(t.items[..t.ready]) && t.items[t.ready..] == []
    ensures Unfinished([]) && Segs([]) && Segs(items[n..])
  {}

  lemma {:induction false} PendingOf(t: DecState)
    requires t.ready <= |t.items|
    ensures Pending(t) == Events(t.items[..t.ready])
  {}

  /** What the decoder keeps of such a page. */
  lemma {:induction false} RestItems(t: DecState, page: PageInfo)
    requires t.ready <= |t.items| && MustSkip(t.items, page.continued) && Leading(page.segs) < |page.segs|
    ensures var n, r := Leading(page.segs), Finish(Append(t, page), page);
      && r.items == t.items + PageItems(page)[n..]
      && r.ready == (if LastShort(page.segs[n..]) >= 0 then |t.items| + LastShort(page.segs[n..]) + 1 else t.ready)
  {
    hide Leading, LastShort, Entries, MarkLast;
    SkippedEntries(page);
    MarkedEntries(t.items, page, page.segs[Leading(page.segs)..], false);
  }

  lemma {:induction false} NothingTaken(t: DecState, page: PageInfo, k: nat)
    requires Inv(t) && t.ready == |t.items| && page.continued && Severed(t.items)
    requires Leading(page.segs) == |page.segs|
    ensures Segs(PageItems(page))
    ensures var r := Finish(Append(t, page), page);
      && r.ready == |r.items|
      && Pending(r) == Pending(t)
      && (!page.eos ==> r.items == t.items)
    ensures PageItems(page)[Leading(page.segs)..] == []
  {
    hide Pack, Events;
    ClosingOfEntries(page);
    SeveredMark(t.items);
    assert page.segs[|page.segs|..] == [];
    assert Append(t, page).items == t.items;
    assert t.items[..|t.items|] == t.items && MarkLast(t.items)[..|t.items|] == MarkLast(t.items);
  }

  lemma {:induction false} ClosingOfRest(page: PageInfo, n: nat)
    requires n <= |page.segs|
    ensures Closing(PageItems(page)[n..]) == LastShort(page.segs[n..]) + 1
  {
    var items, segs := PageItems(page)[n..], page.segs[n..];
    assert forall i :: 0 <= i < |items| ==> items[i].Size() == |segs[i]|;
    ClosingIs(items, LastShort(segs) + 1);
  }

  /** The end-of-stream flag on a gap marker shows in no packet. */
  lemma {:induction false} SeveredMark(items: seq<Item>)
    requires Severed(items) && Closed(items)
    ensures Events(MarkLast(items)) == Events(items)
  {
    hide Pack, Events;
    if items != [] {
      var n := |items| - 1;
      ClosedPrefixOfGap(items);
      EventsConcat(items[..n], [Gap(false)]);
      EventsConcat(items[..n], [Gap(true)]);
      GapFirst(Gap(false), []);
      GapFirst(Gap(true), []);
      assert [Gap(false)] + [] == [Gap(false)] && [Gap(true)] + [] == [Gap(true)];
      assert items == items[..n] + [Gap(false)] && MarkLast(items) == items[..n] + [Gap(true)];
    }
  }

  lemma {:induction false} ClosedPrefixOfGap(items: seq<Item>)
    requires Closed(items) && items != [] && items[|items| - 1].Gap?
    ensures Closed(items[..|items| - 1])
  {}

  // The theorem

  lemma {:induction false} ArrivedExtends(a: nat, b: nat, mask: seq<bool>, x: bool)
    requires b <= |mask|
    ensures Arrived(a, b, mask + [x]) == Arrived(a, b, mask)
  {
    assert forall i :: a <= i < b ==> Here(mask + [x], i) == Here(mask, i);
  }

  lemma {:induction false} SurvivorsExtend(ls: seq<Located>, mask: seq<bool>, x: bool)
    requires forall l :: l in ls ==> l.last < |mask|
    ensures Survivors(ls, mask + [x]) == Survivors(ls, mask)
  {
    if ls != [] {
      assert ls[0] in ls;
      ArrivedExtends(ls[0].first, ls[0].last + 1, mask, x);
      SurvivorsExtend(ls[1..], mask, x);
    }
  }

  /** What page k adds does not depend on the pages after it. */
  lemma {:induction false} ExpectedExtends(pages: seq<PageInfo>, mask: seq<bool>, n: nat, x: bool)
    requires n <= |mask| && n <= |pages|
    ensures Expected(pages, mask + [x], n) == Expected(pages, mask, n)
    decreases n
  {
    hide Pack, ParsePage, Survivors, Arrived, Parse, PageItems;
    if n > 0 {
      var k := n - 1;
      ExpectedExtends(pages, mask, k, x);
      var before := Parse(pages, k);
      ClosingOfEntries(pages[k]);
      PacketsBegin(before.open, before.start, PageItems(pages[k]), k);
      SurvivorsExtend(Ending(pages, k), mask, x);
    }
  }

  /** A page out of turn: the unfinished packet is dropped and one hole report is due. */
  lemma {:induction false} OutOfTurn(s: DecState, pageno: int)
    requires Inv(s) && pageno != s.pageno && s.pageno != -1
    ensures var t := Resequence(s, pageno);
      && Inv(t) && t.ready == |t.items| && t.items[t.ready..] == [] && Severed(t.items)
      && Pending(t) == Pending(s) + [Hole]
  {
    hide Pack, Events;
    ResequenceKeepsInv(s, pageno);
    EventsConcat(s.items[..s.ready], [Gap(false)]);
    GapFirst(Gap(false), []);
    NoEvents();
    assert [Gap(false)] + [] == [Gap(false)];
    var t := Resequence(s, pageno);
    assert t.items[..t.ready] == t.items;
  }

  /** The packets that end on a page whose unfinished packet has arrived so far: all of them have. */
  lemma {:induction false} AllArrive(open: seq<Item>, start: nat, items: seq<Item>, k: nat, mask: seq<bool>)
    requires Segs(open) && Segs(items) && k + 1 == |mask| && mask[k]
    requires open != [] ==> start < k && Arrived(start, k, mask)
    ensures var p := ParsePage(open, start, items, k);
      && Survivors(p.done, mask) == Packets(p.done)
      && (p.open != [] ==> p.start <= k && Arrived(p.start, k + 1, mask))
  {
    PacketsBegin(open, start, items, k);
    AllSurvive(ParsePage(open, start, items, k).done, mask);
  }

  /** Delivering a page that starts a packet afresh, or continues one that has arrived so far. */
  lemma {:induction false} DeliverWhole(page: PageInfo, before: Parsed, k: nat, mask: seq<bool>, t: DecState)
    requires Inv(t) && k + 1 == |mask| && mask[k] && t.items[t.ready..] == before.open
    requires page.pageno == k && (page.eos ==> page.segs != [])
    requires before.open == [] ==> !page.continued
    requires before.open != [] ==> before.start < k && Arrived(before.start, k, mask)
    ensures Segs(before.open) && Segs(PageItems(page))
    ensures var r, p := Finish(Append(t, page), page), ParsePage(before.open, before.start, PageItems(page), k);
      && r.ready <= |r.items|
      && Pending(r) == Pending(t) + Survivors(p.done, mask)
      && LinkedTail(r, p, k + 1, mask)
  {
    hide Pack, Events, ParsePage, Entries, MarkLast, LastShort;
    assert before.open != [] ==> t.items[|t.items| - 1] == before.open[|before.open| - 1];
    ClosingOfEntries(page);
    TakenWhole(t, page, before.start, k);
    AllArrive(before.open, before.start, PageItems(page), k, mask);
  }

  /** Delivering a page that continues a packet some page of which was lost. */
  lemma {:induction false} DeliverSevered(page: PageInfo, before: Parsed, k: nat, mask: seq<bool>, t: DecState)
    requires Inv(t) && k + 1 == |mask| && mask[k] && t.ready == |t.items| && Severed(t.items) && page.continued
    requires page.pageno == k && (page.eos ==> page.segs != [] && |page.segs[|page.segs| - 1]| < 255)
    requires before.open != [] && Unfinished(before.open) && before.start < k && !Arrived(before.start, k, mask)
    ensures Segs(before.open) && Segs(PageItems(page))
    ensures var r, p := Finish(Append(t, page), page), ParsePage(before.open, before.start, PageItems(page), k);
      && r.ready <= |r.items|
      && Pending(r) == Pending(t) + Survivors(p.done, mask)
      && LinkedTail(r, p, k + 1, mask)
  {
    hide Pack, Events, ParsePage, Entries, MarkLast, LastShort, Leading, Survivors, Append, PageItems;
    TakenInPart(t, page, k);
    SeveredReading(page, before, k, mask);
  }

  /** The same page read by the reference: the severed packet is lost with it, the rest is read from nothing. */
  lemma {:induction false} SeveredReading(page: PageInfo, before: Parsed, k: nat, mask: seq<bool>)
    requires k + 1 == |mask| && mask[k]
    requires page.eos ==> page.segs != [] && |page.segs[|page.segs| - 1]| < 255
    requires before.open != [] && Unfinished(before.open) && before.start < k && !Arrived(before.start, k, mask)
    ensures Segs(before.open) && Segs(PageItems(page))
    ensures var n := Leading(page.segs);
      var p, q := ParsePage(before.open, before.start, PageItems(page), k), ParsePage([], k, PageItems(page)[n..], k);
      && Survivors(p.done, mask) == Packets(q.done)
      && Unfinished(p.open)
      && if n > 0 && |page.segs[n - 1]| < 255
         then p.open == q.open && (p.open != [] ==> p.start == k)
         else n == |page.segs| && !page.eos && q.open == [] && p.start == before.start
  {
    hide Pack, Events, ParsePage, Entries, MarkLast, LastShort, Leading, Survivors, Packets, Closing, Grouped, Arrived;
    var items, n := PageItems(page), Leading(page.segs);
    ClosingOfEntries(page);
    PageItemSizes(page);
    ParseIsGrouping(before.open, before.start, items, k);
    ParseLeading(before.open, before.start, page.segs, items, k);
    PacketsBegin(before.open, before.start, items, k);
    if n > 0 && |page.segs[n - 1]| < 255 {
      LostAndRest(ParsePage(before.open, before.start, items, k), ParsePage([], k, items[n..], k),
                  before.start, k, mask, items[n..]);
    } else {
      LeadingIsAll(page.segs);
      assert items[n..] == [];
      NoItems(k);
      NoSurvivors(mask);
      NoPackets();
    }
  }

  lemma {:induction false} LostAndRest(p: Parsed, q: Parsed, start: nat, k: nat, mask: seq<bool>, rest: seq<Item>)
    requires k + 1 == |mask| && mask[k] && Segs(rest) && q == ParsePage([], k, rest, k)
    requires p.done != [] && p.done[0].first == start && p.done[0].last == k && p.done[1..] == q.done
    requires !Arrived(start, k, mask)
    ensures Survivors(p.done, mask) == Packets(q.done)
    ensures q.open != [] ==> q.start == k
  {
    hide Pack, ParsePage;
    FirstIsLost(p.done, start, k, mask);
    PacketsBegin([], k, rest, k);
    AllArrive([], k, rest, k, mask);
  }

  lemma {:induction false} LeadingIsAll(segs: seq<Segment>)
    requires Leading(segs) == 0 || |segs[Leading(segs) - 1]| == 255
    ensures Leading(segs) == |segs|
  {}

  lemma {:induction false} NoItems(k: nat)
    ensures ParsePage([], k, [], k) == Parsed([], [], k)
  {}

  lemma {:induction false} PageItemSizes(page: PageInfo)
    ensures forall i :: 0 <= i < |page.segs| ==> PageItems(page)[i].Size() == |page.segs[i]|
  {}

  lemma {:induction false} ArrivedBefore(a: nat, b: nat, c: nat, mask: seq<bool>)
    requires b <= c
    ensures Arrived(a, c, mask) ==> Arrived(a, b, mask)
  {}

  lemma {:induction false} FirstIsLost(ls: seq<Located>, start: nat, k: nat, mask: seq<bool>)
    requires ls != [] ==> ls[0].last == k
    requires !Arrived(start, k, mask)
    ensures ls != [] && ls[0].first == start ==> Survivors(ls, mask) == Survivors(ls[1..], mask)
  {
    ArrivedBefore(start, k, k + 1, mask);
  }

  lemma {:induction false} DeliverKeeps(pages: seq<PageInfo>, serialno: int, s: Session)
    requires WellFormed(pages, serialno) && Good(pages, serialno, s) && |s.mask| < |pages|
    ensures Good(pages, serialno, Do(pages, s, Deliver))
  {
    hide Pack, Events, ParsePage, Append, Expected, PageItems;
    var k, page := |s.mask|, pages[|s.mask|];
    assert PageFits(pages, serialno, k);
    var before := Parse(pages, k);
    var t := Resequence(s.dec, k);
    var mask := s.mask + [true];
    PageInKeepsInv(s.dec, page);
    ExpectedExtends(pages, s.mask, k, true);
    ArrivedExtends(before.start, k, s.mask, true);
    assert k > 0 && !mask[k - 1] ==> !Here(mask, k - 1);
    if page.pageno != s.dec.pageno {
      OutOfTurn(s.dec, k);
    }
    assert Pending(t) == Pending(s.dec) + (if k > 0 && !mask[k - 1] then [Hole] else []);
    if before.open == [] || t.items[t.ready..] == before.open {
      DeliverWhole(page, before, k, mask, t);
    } else {
      DeliverSevered(page, before, k, mask, t);
    }
    var r := Finish(Append(t, page), page);
    assert Do(pages, s, Deliver) == s.(dec := r, mask := mask);
    ExpectedStep(pages, mask, k);
    assert Linked(pages, r, mask);
    assert s.out + Pending(r) == Expected(pages, mask, k + 1);
  }

  lemma {:induction false} ExpectedStep(pages: seq<PageInfo>, mask: seq<bool>, k: nat)
    requires k < |mask| && k < |pages|
    ensures Expected(pages, mask, k + 1) == Expected(pages, mask, k) + Heard(pages, mask, k)
  {}

  lemma {:induction false} LoseKeeps(pages: seq<PageInfo>, serialno: int, s: Session)
    requires Good(pages, serialno, s) && |s.mask| < |pages|
    requires WellFormed(pages, serialno)
    ensures Good(pages, serialno, Do(pages, s, Lose))
  {
    hide Events, ParsePage, Expected, PageItems;
    var k := |s.mask|;
    OpenAfter(pages, k);
    ExpectedExtends(pages, s.mask, k, false);
    ExpectedStep(pages, s.mask + [false], k);
  }

  lemma {:induction false} OpenAfter(pages: seq<PageInfo>, k: nat)
    requires k < |pages| && Unfinished(Parse(pages, k).open)
    requires Parse(pages, k).open != [] ==> Parse(pages, k).start < k
    ensures var p := Parse(pages, k + 1);
      Unfinished(p.open) && (p.open != [] ==> p.start < k + 1)
  {
    hide ParsePage;
    var before := Parse(pages, k);
    ClosingOfEntries(pages[k]);
    ParseIsGrouping(before.open, before.start, PageItems(pages[k]), k);
    PacketsBegin(before.open, before.start, PageItems(pages[k]), k);
  }

  lemma {:induction false} TakeKeeps(pages: seq<PageInfo>, serialno: int, s: Session)
    requires Good(pages, serialno, s)
    ensures Good(pages, serialno, Do(pages, s, Take))
  {
    hide Events, Expected, Parse, Pack, Closed, Unfinished;
    PacketOutTakesNext(s.dec);
    var (dec, out) := PacketOut(s.dec);
    assert s.out + (out + Pending(dec)) == (s.out + out) + Pending(dec);
    TakeKeepsTail(s.dec);
  }

  lemma {:induction false} TakeKeepsTail(s: DecState)
    requires Inv(s)
    ensures var t := PacketOut(s).0;
      && (Severed(s.items) ==> Severed(t.items))
      && (s.ready == |s.items| ==> t.ready == |t.items|)
  {
    hide Pack, Closed, Unfinished;
  }

  lemma {:induction false} RunKeeps(pages: seq<PageInfo>, serialno: int, s: Session, steps: seq<Step>)
    requires WellFormed(pages, serialno) && Good(pages, serialno, s)
    ensures Good(pages, serialno, Run(pages, s, steps))
    decreases |steps|
  {
    hide Good, WellFormed, Inv;
    if steps != [] {
      DoKeeps(pages, serialno, s, steps[0]);
      GoodIsInv(pages, serialno, s);
      RunKeeps(pages, serialno, Do(pages, s, steps[0]), steps[1..]);
    }
  }

  lemma {:induction false} GoodIsInv(pages: seq<PageInfo>, serialno: int, s: Session)
    requires Good(pages, serialno, s)
    ensures Inv(s.dec) && |s.mask| <= |pages|
  {}

  lemma {:induction false} DoKeeps(pages: seq<PageInfo>, serialno: int, s: Session, step: Step)
    requires WellFormed(pages, serialno) && Good(pages, serialno, s)
    ensures Good(pages, serialno, Do(pages, s, step))
  {
    if step.Take? {
      TakeKeeps(pages, serialno, s);
    } else if |s.mask| < |pages| {
      if step.Lose? { LoseKeeps(pages, serialno, s); } else { DeliverKeeps(pages, serialno, s); }
    }
  }

  /**
   Loss recovery: whichever pages are lost and whenever the caller asks for packets, what the caller has been
   handed and what is still pending is exactly what should be heard of the pages so far.
   */
  lemma {:induction false} LossRecoveryTheorem(pages: seq<PageInfo>, serialno: int, steps: seq<Step>)
    requires WellFormed(pages, serialno)
    ensures var s := Run(pages, Start(serialno), steps);
      s.out + Pending(s.dec) == Expected(pages, s.mask, |s.mask|)
  {
    StartIsGood(pages, serialno);
    RunKeeps(pages, serialno, Start(serialno), steps);
  }

  lemma {:induction false} StartIsGood(pages: seq<PageInfo>, serialno: int)
    ensures Good(pages, serialno, Start(serialno))
  {}

  function PacketsOf(events: seq<Event>): seq<Event> {
    if events == [] then [] else (if events[0].Hole? then [] else [events[0]]) + PacketsOf(events[1..])
  }

  function Holes(events: seq<Event>): nat {
    if events == [] then 0 else (if events[0].Hole? then 1 else 0) + Holes(events[1..])
  }

  /** Delivered pages whose predecessor was lost. */
  function Gaps(mask: seq<bool>, n: nat): nat
    requires n <= |mask|
  {
    if n == 0 then 0 else Gaps(mask, n - 1) + (if n > 1 && mask[n - 1] && !mask[n - 2] then 1 else 0)
  }

  lemma {:induction false} EventCounts(a: seq<Event>, b: seq<Event>)
    ensures PacketsOf(a + b) == PacketsOf(a) + PacketsOf(b)
    ensures Holes(a + b) == Holes(a) + Holes(b)
    decreases |a|
  {
    if a == [] {
      assert a + b == b;
    } else {
      assert (a + b)[1..] == a[1..] + b;
      EventCounts(a[1..], b);
    }
  }

  lemma {:induction false} SurvivorsArePackets(ls: seq<Located>, mask: seq<bool>)
    requires forall l :: l in ls ==> l.packet.Packet?
    ensures PacketsOf(Survivors(ls, mask)) == Survivors(ls, mask) && Holes(Survivors(ls, mask)) == 0
  {
    if ls != [] {
      assert ls[0] in ls;
      SurvivorsArePackets(ls[1..], mask);
      var rest := Survivors(ls[1..], mask);
      assert ([ls[0].packet] + rest)[1..] == rest && [] + rest == rest;
    }
  }

  lemma {:induction false} SurvivorsFirst(ls: seq<Located>, mask: seq<bool>)
    requires ls != []
    ensures Survivors(ls, mask)
         == (if Arrived(ls[0].first, ls[0].last + 1, mask) then [ls[0].packet] else []) + Survivors(ls[1..], mask)
  {}

  lemma {:induction false} SurvivorsConcat(a: seq<Located>, b: seq<Located>, mask: seq<bool>)
    ensures Survivors(a + b, mask) == Survivors(a, mask) + Survivors(b, mask)
    decreases |a|
  {
    if a == [] {
      assert a + b == b;
    } else {
      hide Survivors;
      assert (a + b)[1..] == a[1..] + b;
      SurvivorsFirst(a, mask);
      SurvivorsFirst(a + b, mask);
      SurvivorsConcat(a[1..], b, mask);
    }
  }

  lemma {:induction false} DoneArePackets(open: seq<Item>, start: nat, items: seq<Item>, k: nat)
    requires Segs(open) && Segs(items)
    ensures forall l :: l in ParsePage(open, start, items, k).done ==> l.packet.Packet?
    decreases |items|
  {
    if items != [] {
      if items[0].Closes() {
        DoneArePackets([], k, items[1..], k);
      } else {
        DoneArePackets(open + [items[0]], if open == [] then k else start, items[1..], k);
      }
    }
  }

  lemma {:induction false} LostSurviveNot(ls: seq<Located>, k: nat, mask: seq<bool>)
    requires k < |mask| && !mask[k] && forall l :: l in ls ==> l.first <= k && l.last == k
    ensures Survivors(ls, mask) == []
  {
    if ls != [] {
      assert ls[0] in ls && !Here(mask, k);
      LostSurviveNot(ls[1..], k, mask);
    }
  }

  /** The packets heard are those of the whole stream all of whose pages arrived; each gap is reported once. */
  lemma {:induction false} ExpectedIsExact(pages: seq<PageInfo>, mask: seq<bool>, n: nat)
    requires n <= |mask| && n <= |pages|
    ensures PacketsOf(Expected(pages, mask, n)) == Survivors(Parse(pages, n).done, mask)
    ensures Holes(Expected(pages, mask, n)) == Gaps(mask, n)
    decreases n
  {
    hide ParsePage, Survivors;
    if n == 0 {
      NoSurvivors(mask);
    } else {
      ExpectedIsExact(pages, mask, n - 1);
      HeardIsExact(pages, mask, n - 1);
      EventCounts(Expected(pages, mask, n - 1), Heard(pages, mask, n - 1));
      SurvivorsConcat(Parse(pages, n - 1).done, Ending(pages, n - 1), mask);
    }
  }

  lemma {:induction false} NoSurvivors(mask: seq<bool>)
    ensures Survivors([], mask) == []
  {}

  lemma {:induction false} HeardIsExact(pages: seq<PageInfo>, mask: seq<bool>, k: nat)
    requires k < |mask| && k < |pages|
    ensures PacketsOf(Heard(pages, mask, k)) == Survivors(Ending(pages, k), mask)
    ensures Holes(Heard(pages, mask, k)) == if k > 0 && mask[k] && !mask[k - 1] then 1 else 0
  {
    hide ParsePage, Survivors, Parse, PageItems;
    var before := Parse(pages, k);
    ClosingOfEntries(pages[k]);
    var items, ls := PageItems(pages[k]), Ending(pages, k);
    OpenStarts(pages, k);
    PacketsBegin(before.open, before.start, items, k);
    DoneArePackets(before.open, before.start, items, k);
    SurvivorsArePackets(ls, mask);
    assert ls == ParsePage(before.open, before.start, items, k).done;
    hide Ending;
    if mask[k] {
      EventCounts(if k > 0 && !mask[k - 1] then [Hole] else [], Survivors(ls, mask));
    } else {
      LostSurviveNot(ls, k, mask);
    }
  }

  lemma {:induction false} OpenStarts(pages: seq<PageInfo>, n: nat)
    requires n <= |pages|
    ensures Parse(pages, n).open != [] ==> Parse(pages, n).start < n
    decreases n
  {
    if n > 0 {
      hide ParsePage, PageItems;
      OpenStarts(pages, n - 1);
      var before := Parse(pages, n - 1);
      ClosingOfEntries(pages[n - 1]);
      PacketsBegin(before.open, before.start, PageItems(pages[n - 1]), n - 1);
    }
  }

  /** Nothing is heard until a page arrives. */
  lemma {:induction false} NothingExpected(pages: seq<PageInfo>, mask: seq<bool>, n: nat)
    requires n <= |mask| && n <= |pages| && forall i :: 0 <= i < n ==> !mask[i]
    ensures Expected(pages, mask, n) == []
    decreases n
  {
    hide ParsePage, PageItems, Survivors;
    if n > 0 {
      NothingExpected(pages, mask, n - 1);
    }
  }

  /** With nothing lost every packet is heard, in order, and no hole. */
  lemma {:induction false} NoLoss(pages: seq<PageInfo>, mask: seq<bool>, n: nat)
    requires n <= |mask| && n <= |pages| && forall i :: 0 <= i < |mask| ==> mask[i]
    ensures Expected(pages, mask, n) == Packets(Parse(pages, n).done)
    decreases n
  {
    hide ParsePage, Survivors, PageItems, Packets, Pack, Events, Heard;
    if n == 0 {
      NoPackets();
    } else {
      NoLoss(pages, mask, n - 1);
      AllHeard(pages, mask, n - 1);
      PacketsConcat(Parse(pages, n - 1).done, Ending(pages, n - 1));
    }
  }

  lemma {:induction false} NoPackets()
    ensures Packets([]) == []
  {}

  lemma {:induction false} AllHeard(pages: seq<PageInfo>, mask: seq<bool>, k: nat)
    requires k < |mask| && k < |pages| && forall i :: 0 <= i < |mask| ==> mask[i]
    ensures Heard(pages, mask, k) == Packets(Ending(pages, k))
  {
    hide ParsePage;
    var before := Parse(pages, k);
    ClosingOfEntries(pages[k]);
    OpenStarts(pages, k);
    PacketsBegin(before.open, before.start, PageItems(pages[k]), k);
    AllSurvive(Ending(pages, k), mask);
  }

  lemma {:induction false} PacketsAt(ls: seq<Located>)
    ensures |Packets(ls)| == |ls| && forall i :: 0 <= i < |ls| ==> Packets(ls)[i] == ls[i].packet
  {
    if ls != [] {
      PacketsAt(ls[1..]);
    }
  }

  lemma {:induction false} PacketsConcat(a: seq<Located>, b: seq<Located>)
    ensures Packets(a + b) == Packets(a) + Packets(b)
    decreases |a|
  {
    if a == [] {
      assert a + b == b;
    } else {
      assert (a + b)[1..] == a[1..] + b;
      PacketsConcat(a[1..], b);
    }
  }
}
