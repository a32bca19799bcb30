/** Every page stream that the encoder emits, over all interleavings of submissions and flushes. */
module Muxing {
  import opened Bytes
  import opened PageFormat
  import opened Decoder
  import opened LossRecovery
  import E = Encoder

  datatype Op = Submit(data: seq<Byte>, eos: bool, granulepos: int) | PageOut(nfill: int) | Flush(nfill: int)

  datatype Submission = Submission(data: seq<Byte>, eos: bool, granulepos: int)

  /** late: a packet was submitted after one flagged as the last. */
  datatype Mux = Mux(enc: E.EncState, submitted: seq<Submission>, pages: seq<PageInfo>, late: bool)

  function Begin(serialno: int): Mux {
    Mux(E.Init(serialno), [], [], false)
  }

  function Do(m: Mux, op: Op): Mux {
    match op
    case Submit(data, eos, granulepos) =>
      Mux(E.Submit(m.enc, data, eos, granulepos), m.submitted + [Submission(data, eos, granulepos)],
          m.pages, m.late || m.enc.eos)
    case PageOut(nfill) =>
      var (enc, pages) := E.PageOut(m.enc, nfill);
      m.(enc := enc, pages := m.pages + pages)
    case Flush(nfill) =>
      var (enc, pages) := E.Flush(m.enc, true, nfill);
      m.(enc := enc, pages := m.pages + pages)
  }

  function Run(m: Mux, ops: seq<Op>): Mux
    decreases |ops|
  {
    if ops == [] then m else Run(Do(m, ops[0]), ops[1..])
  }

  /** The segments of a list of packets, one packet after the other. */
  function AllSegs(packets: seq<Submission>): seq<Segment> {
    if packets == [] then [] else E.PacketSegs(packets[0].data) + AllSegs(packets[1..])
  }

  function ItemSegs(items: seq<Item>): (segs: seq<Segment>)
    requires LossRecovery.Segs(items)
    ensures |segs| == |items|
    ensures forall i :: 0 <= i < |items| ==> segs[i] == items[i].bytes
  {
    seq(|items|, i requires 0 <= i < |items| => items[i].bytes)
  }

  lemma {:induction false} PacketSegsJoin(data: seq<Byte>)
    ensures Join(E.PacketSegs(data)) == data
    decreases |data|
  {
    if |data| < 255 {
      assert [data][1..] == [];
      assert data + [] == data;
    } else {
      var rest := E.PacketSegs(data[255..]);
      assert E.PacketSegs(data)[1..] == rest;
      PacketSegsJoin(data[255..]);
    }
  }

  /** Full segments followed by a short one can only be the segments of the first packet. */
  lemma {:induction false} SegsOfFirst(full: seq<Segment>, x: Segment, rest: seq<Segment>, data: seq<Byte>,
                                       later: seq<Segment>)
    requires forall i :: 0 <= i < |full| ==> |full[i]| == 255
    requires |x| < 255
    requires full + [x] + rest == E.PacketSegs(data) + later
    ensures full + [x] == E.PacketSegs(data) && rest == later
    decreases |full|
  {
    var all := full + [x] + rest;
    var segs := E.PacketSegs(data);
    assert all[0] == segs[0];
    if full == [] {
      assert segs == [x];
      assert rest == all[1..] && later == (segs + later)[1..];
    } else {
      assert full[0] == all[0];
      assert segs[1..] == E.PacketSegs(data[255..]);
      assert all[1..] == full[1..] + [x] + rest;
      assert all[1..] == segs[1..] + later;
      SegsOfFirst(full[1..], x, rest, data[255..], later);
      assert full + [x] == [full[0]] + (full[1..] + [x]);
    }
  }

  /** The packets read from a page are the next ones submitted, and what is left over still adds up. */
  ghost predicate Matches(done: seq<Located>, packets: seq<Submission>) {
    |done| <= |packets| && forall i :: 0 <= i < |done| ==>
      done[i].packet.Packet? && done[i].packet.data == packets[i].data
  }

  lemma {:induction false} Consume(open: seq<Item>, start: nat, items: seq<Item>, k: nat, rest: seq<Segment>,
                                   packets: seq<Submission>)
    requires Unfinished(open) && LossRecovery.Segs(items)
    requires ItemSegs(open) + ItemSegs(items) + rest == AllSegs(packets)
    ensures LossRecovery.Segs(open)
    ensures var p := ParsePage(open, start, items, k);
      && Unfinished(p.open) && Matches(p.done, packets)
      && ItemSegs(p.open) + rest == AllSegs(packets[|p.done|..])
    decreases |items|
  {
    hide Pack, AllSegs, Matches, ItemSegs;
    if items == [] {
      ItemSegsNone(open, rest);
      assert packets[0..] == packets;
      MatchesNone(packets);
    } else {
      var x, tail := items[0], items[1..];
      var from := if open == [] then k else start;
      ItemSegsMove(open, x, tail, rest);
      assert [x] + tail == items;
      if x.Closes() {
        ConsumeFirst(open, x, ItemSegs(tail) + rest, packets);
        Consume([], k, tail, k, rest, packets[1..]);
        var q := ParsePage([], k, tail, k);
        assert packets[1..][|q.done|..] == packets[|q.done| + 1..] by { MatchesSize(q.done, packets[1..]); }
        MatchesCons(Located(Pack(open + [x]), from, k), q.done, packets);
      } else {
        Consume(open + [x], from, tail, k, rest, packets);
      }
    }
  }

  lemma {:induction false} ItemSegsNone(open: seq<Item>, rest: seq<Segment>)
    requires LossRecovery.Segs(open)
    ensures ItemSegs(open) + ItemSegs([]) + rest == ItemSegs(open) + rest
  {}

  lemma {:induction false} MatchesNone(packets: seq<Submission>)
    ensures Matches([], packets)
  {}

  lemma {:induction false} MatchesSize(done: seq<Located>, packets: seq<Submission>)
    requires Matches(done, packets)
    ensures |done| <= |packets|
  {}

  lemma {:induction false} ItemSegsMove(open: seq<Item>, x: Item, tail: seq<Item>, rest: seq<Segment>)
    requires LossRecovery.Segs(open) && x.Seg? && LossRecovery.Segs(tail)
    ensures LossRecovery.Segs(open + [x]) && LossRecovery.Segs([x] + tail)
    ensures var all := ItemSegs(open) + ItemSegs([x] + tail) + rest;
      && all == ItemSegs(open + [x]) + ItemSegs(tail) + rest
      && all == ItemSegs(open) + ([x.bytes] + (ItemSegs(tail) + rest))
    ensures ItemSegs([]) + ItemSegs(tail) + rest == ItemSegs(tail) + rest
  {
    assert ItemSegs([x] + tail) == [x.bytes] + ItemSegs(tail);
    assert ItemSegs(open + [x]) == ItemSegs(open) + [x.bytes];
  }

  lemma {:induction false} MatchesCons(l: Located, done: seq<Located>, packets: seq<Submission>)
    requires packets != [] && l.packet.Packet? && l.packet.data == packets[0].data && Matches(done, packets[1..])
    ensures Matches([l] + done, packets)
  {
    forall i | 0 <= i < |done| + 1 ensures ([l] + done)[i].packet.Packet?
      && ([l] + done)[i].packet.data == packets[i].data {
      if i > 0 {
        assert done[i - 1].packet.data == packets[1..][i - 1].data;
      }
    }
  }

  lemma {:induction false} ConsumeFirst(open: seq<Item>, x: Item, rest: seq<Segment>, packets: seq<Submission>)
    requires Unfinished(open) && x.Seg? && x.Closes()
    requires ItemSegs(open) + ([x.bytes] + rest) == AllSegs(packets)
    ensures LossRecovery.Segs(open + [x]) && packets != []
    ensures Pack(open + [x]).data == packets[0].data
    ensures rest == AllSegs(packets[1..])
  {
    var full := ItemSegs(open);
    assert full + [x.bytes] + rest == full + ([x.bytes] + rest);
    assert AllSegs(packets) != [];
    SegsOfFirst(full, x.bytes, rest, packets[0].data, AllSegs(packets[1..]));
    PacketSegsJoin(packets[0].data);
    JoinOfItems(open + [x]);
    assert ItemSegs(open + [x]) == full + [x.bytes];
  }

  lemma {:induction false} JoinOfItems(items: seq<Item>)
    requires LossRecovery.Segs(items)
    ensures Data(items) == Join(ItemSegs(items))
    decreases |items|
  {
    if items != [] {
      assert ItemSegs(items)[1..] == ItemSegs(items[1..]);
      JoinOfItems(items[1..]);
    }
  }

  // Marks of the packets read from a page

  /** Only the front item may be marked 0x100, only the end item 0x200, and then it ends a packet. */
  ghost predicate Marks(items: seq<Item>, bos: bool, eos: bool) {
    && (forall i :: 0 <= i < |items| ==> items[i].Seg? && items[i].first == (bos && i == 0))
    && (forall i :: 0 <= i < |items| ==> items[i].last == (eos && i == |items| - 1))
    && (eos ==> items != [] && items[|items| - 1].Closes())
  }

  lemma {:induction false} MarksOfPage(page: PageInfo)
    requires page.eos ==> page.segs != [] && |page.segs[|page.segs| - 1]| < 255
    ensures Marks(PageItems(page), page.bos, page.eos)
  {}

  lemma {:induction false} AnyLastConcat(a: seq<Item>, x: Item)
    ensures AnyLast(a + [x]) == (AnyLast(a) || x.last)
  {
    assert (a + [x])[|a|] == x;
    assert forall i :: 0 <= i < |a| ==> (a + [x])[i] == a[i];
  }

  /** No packet read from the page has the mark of the end of the stream, except the last when the page has it. */
  lemma {:induction false} EosOfPackets(open: seq<Item>, start: nat, items: seq<Item>, k: nat, eos: bool)
    requires LossRecovery.Segs(open) && LossRecovery.Segs(items) && !AnyLast(open)
    requires exists bos :: Marks(items, bos, eos)
    ensures var p := ParsePage(open, start, items, k);
      && (forall i :: 0 <= i < |p.done| ==>
        p.done[i].packet.Packet? && p.done[i].packet.eos == (eos && i == |p.done| - 1))
      && !AnyLast(p.open)
      && (eos ==> p.done != [] && p.open == [])
    decreases |items|
  {
    hide Data;
    if items != [] {
      var x, tail := items[0], items[1..];
      var from := if open == [] then k else start;
      AnyLastConcat(open, x);
      MarksTail(items, eos);
      if x.Closes() {
        if tail != [] {
          EosOfPackets([], k, tail, k, eos);
        }
      } else {
        EosOfPackets(open + [x], from, tail, k, eos);
      }
    }
  }

  lemma {:induction false} MarksTail(items: seq<Item>, eos: bool)
    requires items != [] && exists bos :: Marks(items, bos, eos)
    ensures |items| > 1 ==> Marks(items[1..], false, eos)
    ensures |items| == 1 ==> items[0].last == eos && Marks(items[1..], false, false)
    ensures |items| > 1 ==> !items[0].last
    ensures |items| == 1 && eos ==> items[0].Closes()
  {}

  /** The mark of the first packet of the stream goes with the segments it was on. */
  lemma {:induction false} BosOfPackets(open: seq<Item>, start: nat, items: seq<Item>, k: nat)
    requires LossRecovery.Segs(open) && LossRecovery.Segs(items)
    requires forall i :: 0 <= i < |items| ==> !items[i].first
    ensures LossRecovery.Segs(ParsePage(open, start, items, k).open)
    ensures var p := ParsePage(open, start, items, k);
      && (forall i :: 0 <= i < |p.done| ==>
        p.done[i].packet.Packet? && p.done[i].packet.bos == (i == 0 && open != [] && open[0].first))
      && (p.open != [] ==> p.open[0].first == (p.done == [] && open != [] && open[0].first))
    decreases |items|
  {
    hide Data, AnyLast;
    if items != [] {
      var x, tail := items[0], items[1..];
      if x.Closes() {
        BosOfPackets([], k, tail, k);
      } else {
        BosOfPackets(open + [x], if open == [] then k else start, tail, k);
      }
    }
  }

  /** The first page: segments of one packet only. */
  lemma {:induction false} FirstPageRead(open: seq<Item>, start: nat, items: seq<Item>, k: nat)
    requires LossRecovery.Segs(open) && LossRecovery.Segs(items) && open + items != []
    requires forall i :: 0 <= i < |items| - 1 ==> !items[i].Closes()
    ensures var p := ParsePage(open, start, items, k);
      if items != [] && items[|items| - 1].Closes()
      then |p.done| == 1 && p.done[0].packet == Pack(open + items) && p.open == []
      else p.done == [] && p.open == open + items
    decreases |items|
  {
    hide Pack;
    if items != [] {
      assert open + [items[0]] + items[1..] == open + items;
      if |items| == 1 {
        assert items[1..] == [] && open + items == open + [items[0]];
      } else {
        FirstPageRead(open + [items[0]], if open == [] then k else start, items[1..], k);
      }
    }
  }

  /** Of the packets that end on a page only the last gets the granule position of the page. */
  lemma {:induction false} GranulesOfPackets(open: seq<Item>, start: nat, items: seq<Item>, k: nat, g: int)
    requires LossRecovery.Segs(open) && LossRecovery.Segs(items)
    requires forall i :: 0 <= i < |items| ==> items[i].granule == if i == Closing(items) - 1 then g else -1
    ensures var p := ParsePage(open, start, items, k);
      forall i :: 0 <= i < |p.done| ==>
        p.done[i].packet.Packet? && p.done[i].packet.granulepos == if i == |p.done| - 1 then g else -1
    ensures (Closing(items) == 0) == (ParsePage(open, start, items, k).done == [])
    decreases |items|
  {
    hide Data, AnyLast, Closing;
    if items != [] {
      var x, tail := items[0], items[1..];
      ClosingTail(items);
      NoClosing();
      assert forall i :: 0 <= i < |tail| ==> tail[i].granule == items[i + 1].granule;
      if x.Closes() {
        GranulesOfPackets([], k, tail, k, g);
      } else {
        GranulesOfPackets(open + [x], if open == [] then k else start, tail, k, g);
      }
    } else {
      NoClosing();
    }
  }

  lemma {:induction false} NoClosing()
    ensures Closing([]) == 0
  {}

  /** The granule positions still to come: those of the segments that end packets. */
  function ShortGranules(pend: seq<E.Pend>): seq<int> {
    if pend == [] then []
    else if |pend[|pend| - 1].seg| < 255 then ShortGranules(pend[..|pend| - 1]) + [pend[|pend| - 1].granule]
    else ShortGranules(pend[..|pend| - 1])
  }

  function Granules(packets: seq<Submission>): (g: seq<int>)
    ensures |g| == |packets|
  {
    seq(|packets|, i requires 0 <= i < |packets| => packets[i].granulepos)
  }

  lemma {:induction false} ShortGranulesConcat(a: seq<E.Pend>, b: seq<E.Pend>)
    ensures ShortGranules(a + b) == ShortGranules(a) + ShortGranules(b)
    decreases |b|
  {
    if b == [] {
      assert a + b == a;
    } else {
      assert (a + b)[..|a + b| - 1] == a + b[..|b| - 1];
      ShortGranulesConcat(a, b[..|b| - 1]);
    }
  }

  lemma {:induction false} GranulesOfEntries(data: seq<Byte>, before: int, granulepos: int)
    ensures ShortGranules(E.PacketEntries(data, before, granulepos)) == [granulepos]
  {
    var pend := E.PacketEntries(data, before, granulepos);
    NoShort(pend[..|pend| - 1]);
  }

  lemma {:induction false} NoShort(pend: seq<E.Pend>)
    requires forall i :: 0 <= i < |pend| ==> |pend[i].seg| == 255
    ensures ShortGranules(pend) == []
    decreases |pend|
  {
    if pend != [] {
      NoShort(pend[..|pend| - 1]);
    }
  }

  /** The last granule position among the first n entries. */
  lemma {:induction false} LastEndGranule(pend: seq<E.Pend>, n: nat)
    requires n <= |pend|
    ensures var g := ShortGranules(pend[..n]);
      if E.LastEnd(pend, n) >= 0 then g != [] && g[|g| - 1] == pend[E.LastEnd(pend, n)].granule else g == []
    decreases n
  {
    if n > 0 {
      assert pend[..n][..n - 1] == pend[..n - 1];
      LastEndGranule(pend, n - 1);
    }
  }

  /** As many packets end on the page as there are short segments on it. */
  lemma {:induction false} CountOfPackets(open: seq<Item>, start: nat, items: seq<Item>, k: nat, pend: seq<E.Pend>)
    requires LossRecovery.Segs(open) && LossRecovery.Segs(items) && |items| == |pend|
    requires forall i :: 0 <= i < |items| ==> items[i].bytes == pend[i].seg
    ensures |ParsePage(open, start, items, k).done| == |ShortGranules(pend)|
    decreases |items|
  {
    hide Pack;
    if items != [] {
      assert pend == [pend[0]] + pend[1..];
      ShortGranulesConcat([pend[0]], pend[1..]);
      assert [pend[0]][..0] == [];
      if items[0].Closes() {
        CountOfPackets([], k, items[1..], k, pend[1..]);
      } else {
        CountOfPackets(open + [items[0]], if open == [] then k else start, items[1..], k, pend[1..]);
      }
    }
  }

  // The invariant of every run

  predicate Short(pend: E.Pend) {
    |pend.seg| < 255
  }

  predicate StartsPacket(pend: seq<E.Pend>, start: bool, i: nat)
    requires i < |pend|
  {
    if i == 0 then start else Short(pend[i - 1])
  }

  /** Entries are marked 0x100 exactly where a packet starts, and the last packet submitted is complete. */
  ghost predicate Ordered(pend: seq<E.Pend>, start: bool) {
    && (forall i :: 0 <= i < |pend| ==> pend[i].first == StartsPacket(pend, start, i))
    && (if pend == [] then start else Short(pend[|pend| - 1]))
  }

  /** The pages so far and the entries still held are the packets submitted, cut up. */
  ghost predicate Carries(m: Mux) {
    var p := Parse(m.pages, |m.pages|);
    && m.enc.pageno == |m.pages| && (m.enc.bos <==> m.pages != [])
    && WellFormed(m.pages, m.enc.serialno)
    && Unfinished(p.open) && Matches(p.done, m.submitted)
    && ItemSegs(p.open) + E.Segs(m.enc.pend) == AllSegs(m.submitted[|p.done|..])
    && Ordered(m.enc.pend, p.open == [])
  }

  /** The first packet is marked as such, and every page has the granule position it should have. */
  ghost predicate Stamped(m: Mux) {
    var p := Parse(m.pages, |m.pages|);
    && |p.done| <= |m.submitted|
    && (forall i :: 0 <= i < |p.done| ==> BosRight(p.done, i))
    && (forall k :: 0 <= k < |m.pages| ==> PageStamped(m.pages, m.submitted, k))
    && (p.open != [] ==> p.open[0].first == (p.done == []))
    && (m.pages != [] ==> p.done != [] || p.open != [])
    && ShortGranules(m.enc.pend) == Granules(m.submitted[|p.done|..])
  }

  ghost predicate BosRight(done: seq<Located>, i: nat)
    requires i < |done|
  {
    done[i].packet.Packet? && done[i].packet.bos == (i == 0)
  }

  /** 0 on the first page, then the position of the last packet that ends on the page, or -1. */
  predicate PageStamped(pages: seq<PageInfo>, submitted: seq<Submission>, k: nat)
    requires k < |pages|
  {
    if k == 0 then pages[k].granulepos == 0
    else if Ending(pages, k) == [] then pages[k].granulepos == -1
    else
      var n := |Parse(pages, k + 1).done|;
      0 < n <= |submitted| && pages[k].granulepos == submitted[n - 1].granulepos
  }

  /**
   An end page has the last of the packets submitted so far, one of which was flagged. Unless packets were submitted
   after the one flagged as last, that one alone is marked as the end.
   */
  ghost predicate EosRight(m: Mux) {
    var p := Parse(m.pages, |m.pages|);
    && |p.done| <= |m.submitted|
    && !AnyLast(p.open)
    && (forall k :: 0 <= k < |m.pages| && m.pages[k].eos ==> EndPage(m.pages, m.submitted, k))
    && (m.enc.eos <==> exists i :: 0 <= i < |m.submitted| && m.submitted[i].eos)
    && (!m.late ==>
      && (forall i :: 0 <= i < |m.submitted| - 1 ==> !m.submitted[i].eos)
      && (forall i :: 0 <= i < |p.done| ==> p.done[i].packet.Packet? && p.done[i].packet.eos == m.submitted[i].eos))
  }

  ghost predicate EndPage(pages: seq<PageInfo>, submitted: seq<Submission>, k: nat)
    requires k < |pages|
  {
    var p := Parse(pages, k + 1);
    p.open == [] && exists i :: 0 <= i < |p.done| && i < |submitted| && submitted[i].eos
  }

  lemma {:induction false} ParsePrefix(pages: seq<PageInfo>, more: seq<PageInfo>, n: nat)
    requires n <= |pages|
    ensures Parse(pages + more, n) == Parse(pages, n)
    decreases n
  {
    hide ParsePage, PageItems;
    if n > 0 {
      ParsePrefix(pages, more, n - 1);
    }
  }

  lemma {:induction false} ParseNext(pages: seq<PageInfo>, page: PageInfo)
    ensures LossRecovery.Segs(PageItems(page))
    ensures var p, q := Parse(pages, |pages|), Parse(pages + [page], |pages| + 1);
      var here := ParsePage(p.open, p.start, PageItems(page), |pages|);
      q == here.(done := p.done + here.done)
  {
    hide ParsePage, PageItems;
    ClosingOfEntries(page);
    ParsePrefix(pages, [page], |pages|);
    assert (pages + [page])[|pages|] == page;
  }

  /** What was said of a page stays when more pages and packets follow. */
  lemma {:induction false} SaidBefore(pages: seq<PageInfo>, more: seq<PageInfo>, a: seq<Submission>, b: seq<Submission>,
                                      k: nat)
    requires k < |pages|
    ensures PageStamped(pages, a, k) ==> PageStamped(pages + more, a + b, k)
    ensures EndPage(pages, a, k) ==> EndPage(pages + more, a + b, k)
  {
    ParsePrefix(pages, more, k);
    ParsePrefix(pages, more, k + 1);
    hide Parse, ParsePage, PageItems;
    if EndPage(pages, a, k) {
      var i :| 0 <= i < |Parse(pages, k + 1).done| && i < |a| && a[i].eos;
      assert (a + b)[i].eos;
    }
  }

  lemma {:induction false} AllSegsConcat(a: seq<Submission>, b: seq<Submission>)
    ensures AllSegs(a + b) == AllSegs(a) + AllSegs(b)
  {
    if a == [] {
      assert a + b == b;
    } else {
      assert (a + b)[1..] == a[1..] + b;
      AllSegsConcat(a[1..], b);
    }
  }

  lemma {:induction false} SegsConcat(a: seq<E.Pend>, b: seq<E.Pend>)
    ensures E.Segs(a + b) == E.Segs(a) + E.Segs(b)
  {}

  lemma {:induction false} SubmitCarries(m: Mux, op: Op)
    requires Carries(m) && op.Submit?
    ensures Carries(Do(m, op))
  {
    hide Parse, WellFormed, Matches, Ordered, ItemSegs, AllSegs;
    var p := Parse(m.pages, |m.pages|);
    var x := Submission(op.data, op.eos, op.granulepos);
    MatchesSize(p.done, m.submitted);
    MatchesMore(p.done, m.submitted, x);
    OrderedMore(m.enc.pend, p.open == [], op.data, m.enc.granulepos, op.granulepos);
    SubmitAdds(m.enc.pend, ItemSegs(p.open), m.submitted, |p.done|, x, m.enc.granulepos);
  }

  lemma {:induction false} SubmitAdds(pend: seq<E.Pend>, open: seq<Segment>, submitted: seq<Submission>, d: nat,
                                      x: Submission, before: int)
    requires d <= |submitted| && open + E.Segs(pend) == AllSegs(submitted[d..])
    ensures open + E.Segs(pend + E.PacketEntries(x.data, before, x.granulepos)) == AllSegs((submitted + [x])[d..])
  {
    hide AllSegs, E.Segs, E.PacketEntries, E.PacketSegs;
    var entries := E.PacketEntries(x.data, before, x.granulepos);
    SegsConcat(pend, entries);
    EntriesSegs(x.data, before, x.granulepos);
    AllSegsConcat(submitted[d..], [x]);
    OneSubmission(x);
    assert (submitted + [x])[d..] == submitted[d..] + [x];
    assert open + (E.Segs(pend) + E.PacketSegs(x.data)) == open + E.Segs(pend) + E.PacketSegs(x.data);
  }

  lemma {:induction false} OrderedMore(pend: seq<E.Pend>, start: bool, data: seq<Byte>, before: int, granulepos: int)
    requires Ordered(pend, start)
    ensures Ordered(pend + E.PacketEntries(data, before, granulepos), start)
  {
    var entries := E.PacketEntries(data, before, granulepos);
    var all := pend + entries;
    forall i | 0 <= i < |all| ensures all[i].first == StartsPacket(all, start, i) {
      if i < |pend| {
        assert all[i] == pend[i] && StartsPacket(all, start, i) == StartsPacket(pend, start, i);
      } else {
        assert all[i] == entries[i - |pend|];
        assert i > |pend| ==> all[i - 1] == entries[i - 1 - |pend|];
      }
    }
    assert all[|all| - 1] == entries[|entries| - 1];
  }

  lemma {:induction false} EntriesSegs(data: seq<Byte>, before: int, granulepos: int)
    ensures E.Segs(E.PacketEntries(data, before, granulepos)) == E.PacketSegs(data)
  {}

  lemma {:induction false} OneSubmission(x: Submission)
    ensures AllSegs([x]) == E.PacketSegs(x.data)
  {
    assert [x][1..] == [];
    assert E.PacketSegs(x.data) + [] == E.PacketSegs(x.data);
  }

  lemma {:induction false} MatchesMore(done: seq<Located>, packets: seq<Submission>, x: Submission)
    requires Matches(done, packets)
    ensures Matches(done, packets + [x])
  {}

  /** Appending a page that fits keeps the stream well formed. */
  lemma {:induction false} WellFormedNext(pages: seq<PageInfo>, page: PageInfo, serialno: int)
    requires WellFormed(pages, serialno)
    requires page.pageno == |pages| && page.version == 0 && page.serialno == serialno
    requires page.continued <==> Parse(pages, |pages|).open != []
    requires page.eos ==> page.segs != [] && |page.segs[|page.segs| - 1]| < 255
    ensures WellFormed(pages + [page], serialno)
  {
    hide Parse;
    var all := pages + [page];
    forall k | 0 <= k < |all| ensures PageFits(all, serialno, k) {
      ParsePrefix(pages, [page], k);
      assert k < |pages| ==> all[k] == pages[k] && PageFits(pages, serialno, k);
    }
  }

  /** A page taken from the entries. */
  lemma {:induction false} PageCarries(m: Mux, c: E.Choice)
    requires Carries(m) && 0 < c.vals <= |m.enc.pend|
    ensures var page := E.PageOf(m.enc, c);
      Carries(m.(enc := m.enc.(pend := m.enc.pend[c.vals..], bos := true, pageno := page.pageno + 1),
                 pages := m.pages + [page]))
  {
    hide Parse, WellFormed, Matches, ParsePage, PageItems, AllSegs, Ordered, ItemSegs, E.Segs, Unfinished,
         LossRecovery.Segs;
    var page := E.PageOf(m.enc, c);
    var p, pend := Parse(m.pages, |m.pages|), m.enc.pend;
    OrderedPage(pend, p.open == [], c.vals);
    ParseNext(m.pages, page);
    WellFormedNext(m.pages, page, m.enc.serialno);
    MatchesSize(p.done, m.submitted);
    PageConsumes(p, pend, c.vals, PageItems(page), page, |m.pages|, m.submitted);
    var here := ParsePage(p.open, p.start, PageItems(page), |m.pages|);
    OrderedRest(pend, p.open == [], c.vals, here.open == []);
  }

  /** What the marks say about the page made of the first v entries. */
  lemma {:induction false} OrderedPage(pend: seq<E.Pend>, start: bool, v: nat)
    requires Ordered(pend, start) && 0 < v <= |pend|
    ensures pend[0].first == start && (v == |pend| ==> |E.Segs(pend[..v])[v - 1]| < 255)
  {
    assert pend[0].first == StartsPacket(pend, start, 0);
  }

  lemma {:induction false} OrderedRest(pend: seq<E.Pend>, start: bool, v: nat, start': bool)
    requires Ordered(pend, start) && 0 < v <= |pend| && start' == Short(pend[v - 1])
    ensures Ordered(pend[v..], start')
  {
    var rest := pend[v..];
    forall i | 0 <= i < |rest| ensures rest[i].first == StartsPacket(rest, start', i) {
      assert pend[v + i].first == StartsPacket(pend, start, v + i);
    }
  }

  lemma {:induction false} PageConsumes(p: Parsed, pend: seq<E.Pend>, v: nat, items: seq<Item>, page: PageInfo,
                                        k: nat, submitted: seq<Submission>)
    requires 0 < v <= |pend| && items == PageItems(page) && page.segs == E.Segs(pend[..v])
    requires LossRecovery.Segs(p.open) && Unfinished(p.open) && |p.done| <= |submitted| && Matches(p.done, submitted)
    requires ItemSegs(p.open) + E.Segs(pend) == AllSegs(submitted[|p.done|..])
    ensures LossRecovery.Segs(items)
    ensures var here := ParsePage(p.open, p.start, items, k);
      && LossRecovery.Segs(here.open) && Unfinished(here.open)
      && |p.done + here.done| <= |submitted| && Matches(p.done + here.done, submitted)
      && ItemSegs(here.open) + E.Segs(pend[v..]) == AllSegs(submitted[|p.done + here.done|..])
      && (here.open == []) == Short(pend[v - 1])
  {
    hide Matches, ParsePage, PageItems, AllSegs, ItemSegs, E.Segs, Pack;
    var left := submitted[|p.done|..];
    SegsConcat(pend[..v], pend[v..]);
    assert pend == pend[..v] + pend[v..];
    ItemsOfPage(page);
    assert ItemSegs(p.open) + ItemSegs(items) + E.Segs(pend[v..]) == ItemSegs(p.open) + E.Segs(pend);
    Consume(p.open, p.start, items, k, E.Segs(pend[v..]), left);
    var here := ParsePage(p.open, p.start, items, k);
    MatchesSize(here.done, left);
    MatchesConcat(p.done, here.done, submitted);
    assert left[|here.done|..] == submitted[|p.done + here.done|..];
    OpenAfterPage(p.open, p.start, items, k);
    assert items[v - 1].bytes == ItemSegs(items)[v - 1];
  }

  lemma {:induction false} ItemsOfPage(page: PageInfo)
    ensures LossRecovery.Segs(PageItems(page)) && ItemSegs(PageItems(page)) == page.segs
  {}

  lemma {:induction false} MatchesConcat(a: seq<Located>, b: seq<Located>, packets: seq<Submission>)
    requires Matches(a, packets) && Matches(b, packets[|a|..])
    ensures Matches(a + b, packets)
  {
    forall i | 0 <= i < |a + b| ensures (a + b)[i].packet.Packet? && (a + b)[i].packet.data == packets[i].data {
      if i >= |a| {
        assert b[i - |a|].packet.data == packets[|a|..][i - |a|].data;
      }
    }
  }

  /** Splitting the entries splits the granule positions still to come. */
  lemma {:induction false} GranulesSplit(pend: seq<E.Pend>, v: nat, left: seq<Submission>, count: nat)
    requires v <= |pend| && ShortGranules(pend) == Granules(left) && count == |ShortGranules(pend[..v])|
    ensures count <= |left| && ShortGranules(pend[v..]) == Granules(left[count..])
    ensures count > 0 ==> ShortGranules(pend[..v])[count - 1] == left[count - 1].granulepos
  {
    assert pend == pend[..v] + pend[v..];
    ShortGranulesConcat(pend[..v], pend[v..]);
    var a, b := ShortGranules(pend[..v]), ShortGranules(pend[v..]);
    assert a + b == Granules(left);
    assert b == Granules(left)[count..] == Granules(left[count..]);
    assert count > 0 ==> (a + b)[count - 1] == a[count - 1];
  }

  lemma {:induction false} GranulesOfItems(page: PageInfo)
    ensures LossRecovery.Segs(PageItems(page))
    ensures var items := PageItems(page);
      forall i :: 0 <= i < |items| ==> items[i].granule == if i == Closing(items) - 1 then page.granulepos else -1
  {
    ClosingOfEntries(page);
  }

  /** The granule positions of the packets read from a page. */
  lemma {:induction false} PageGranules(p: Parsed, pend: seq<E.Pend>, v: nat, page: PageInfo, k: nat,
                                        submitted: seq<Submission>)
    requires 0 < v <= |pend| && page.segs == E.Segs(pend[..v])
    requires LossRecovery.Segs(p.open) && |p.done| <= |submitted|
    requires ShortGranules(pend) == Granules(submitted[|p.done|..])
    ensures LossRecovery.Segs(PageItems(page))
    ensures var here := ParsePage(p.open, p.start, PageItems(page), k);
      && |p.done + here.done| <= |submitted|
      && ShortGranules(pend[v..]) == Granules(submitted[|p.done + here.done|..])
      && (forall i :: 0 <= i < |here.done| ==>
        && here.done[i].packet.Packet?
        && here.done[i].packet.granulepos == if i == |here.done| - 1 then page.granulepos else -1)
      && |here.done| == |ShortGranules(pend[..v])|
      && (here.done != [] ==>
        ShortGranules(pend[..v])[|here.done| - 1] == submitted[|p.done| + |here.done| - 1].granulepos)
  {
    hide ParsePage, PageItems, ShortGranules, Closing;
    var items := PageItems(page);
    GranulesOfItems(page);
    ItemsOfPage(page);
    assert forall i :: 0 <= i < |items| ==> items[i].bytes == ItemSegs(items)[i];
    CountOfPackets(p.open, p.start, items, k, pend[..v]);
    GranulesOfPackets(p.open, p.start, items, k, page.granulepos);
    var left := submitted[|p.done|..];
    var here := ParsePage(p.open, p.start, items, k);
    GranulesSplit(pend, v, left, |here.done|);
    assert left[|here.done|..] == submitted[|p.done + here.done|..];
  }

  /** The packets of a later page. */
  lemma {:induction false} LaterBos(p: Parsed, here: Parsed)
    requires forall i :: 0 <= i < |p.done| ==> BosRight(p.done, i)
    requires p.done != [] || p.open != []
    requires LossRecovery.Segs(p.open)
    requires p.open != [] ==> p.open[0].first == (p.done == [])
    requires forall i :: 0 <= i < |here.done| ==>
      here.done[i].packet.Packet? && here.done[i].packet.bos == (i == 0 && p.open != [] && p.open[0].first)
    ensures forall i :: 0 <= i < |p.done + here.done| ==> BosRight(p.done + here.done, i)
  {
    var all := p.done + here.done;
    forall i | 0 <= i < |all| ensures BosRight(all, i) {
      if i < |p.done| {
        assert BosRight(p.done, i) && all[i] == p.done[i];
      } else {
        assert all[i] == here.done[i - |p.done|];
      }
    }
  }

  /** The first page holds segments of the first packet only. */
  lemma {:induction false} FirstBos(m: Mux, c: E.Choice)
    requires Carries(m) && m.pages == [] && m.enc.pend != []
    requires c.vals == E.FirstVals(m.enc.pend, 0)
    ensures var page := E.PageOf(m.enc, c);
      var here := ParsePage([], 0, PageItems(page), 0);
      && (forall i :: 0 <= i < |here.done| ==> BosRight(here.done, i))
      && LossRecovery.Segs(here.open) && (here.open != [] ==> here.open[0].first == (here.done == []))
      && (here.done != [] || here.open != [])
  {
    hide ParsePage, PageItems, WellFormed, Matches, Ordered, AllSegs, Data, AnyLast, E.FirstVals, ItemSegs, E.Segs;
    var page := E.PageOf(m.enc, c);
    var items := PageItems(page);
    ItemsOfPage(page);
    FirstPageItems(page, m.enc.pend, c.vals);
    FirstPageRead([], 0, items, 0);
    assert [] + items == items;
  }

  lemma {:induction false} FirstPageItems(page: PageInfo, pend: seq<E.Pend>, v: nat)
    requires 0 < v <= |pend| && page.segs == E.Segs(pend[..v]) && page.bos
    requires forall i :: 0 <= i < v - 1 ==> |pend[i].seg| == 255
    ensures var items := PageItems(page);
      && |items| == v && items[0].Seg? && items[0].first
      && forall i :: 0 <= i < v - 1 ==> !items[i].Closes()
  {
    var items := PageItems(page);
    assert forall i :: 0 <= i < v ==> items[i].Seg? && items[i].bytes == pend[i].seg;
  }

  lemma {:induction false} StampedPage(m: Mux, c: E.Choice, force: bool, nfill: int)
    requires Carries(m) && Stamped(m) && m.enc.pend != [] && c == E.Choose(m.enc, force, nfill)
    ensures var page := E.PageOf(m.enc, c);
      Stamped(m.(enc := m.enc.(pend := m.enc.pend[c.vals..], bos := true, pageno := page.pageno + 1),
                 pages := m.pages + [page]))
  {
    hide ParsePage, PageItems, ShortGranules, WellFormed, Matches, Ordered, AllSegs, Pack, Granules;
    var page := E.PageOf(m.enc, c);
    var p, pend, k := Parse(m.pages, |m.pages|), m.enc.pend, |m.pages|;
    ParseNext(m.pages, page);
    var here := ParsePage(p.open, p.start, PageItems(page), k);
    PageGranules(p, pend, c.vals, page, k, m.submitted);
    if m.pages == [] {
      FirstBos(m, c);
      assert p.done + here.done == here.done;
    } else {
      GranuleOfPage(m, c, force, nfill, here);
      NotFirst(page);
      BosOfPackets(p.open, p.start, PageItems(page), k);
      LaterBos(p, here);
      HeardSomething(p.open, p.start, PageItems(page), k);
    }
    NextStamp(m.pages, page, m.submitted);
  }

  lemma {:induction false} NextStamp(pages: seq<PageInfo>, page: PageInfo, submitted: seq<Submission>)
    requires forall i :: 0 <= i < |pages| ==> PageStamped(pages, submitted, i)
    requires var p, k := Parse(pages, |pages|), |pages|;
      && LossRecovery.Segs(PageItems(page))
      && var here := ParsePage(p.open, p.start, PageItems(page), k);
      && |p.done + here.done| <= |submitted|
      && page.granulepos == if k == 0 then 0 else if here.done == [] then -1
                            else submitted[|p.done + here.done| - 1].granulepos
    ensures forall i :: 0 <= i <= |pages| ==> PageStamped(pages + [page], submitted, i)
  {
    hide ParsePage, PageItems, Parse;
    ParseNext(pages, page);
    ParsePrefix(pages, [page], |pages|);
    assert submitted + [] == submitted;
    forall i | 0 <= i <= |pages| ensures PageStamped(pages + [page], submitted, i) {
      if i < |pages| {
        SaidBefore(pages, [page], submitted, [], i);
      } else {
        assert (pages + [page])[i] == page;
      }
    }
  }

  lemma {:induction false} NotFirst(page: PageInfo)
    requires !page.bos
    ensures LossRecovery.Segs(PageItems(page))
    ensures forall i :: 0 <= i < |page.segs| ==> !PageItems(page)[i].first
  {}

  lemma {:induction false} HeardSomething(open: seq<Item>, start: nat, items: seq<Item>, k: nat)
    requires LossRecovery.Segs(open) && LossRecovery.Segs(items)
    ensures items != [] || open != [] ==>
      ParsePage(open, start, items, k).done != [] || ParsePage(open, start, items, k).open != []
    decreases |items|
  {
    hide Pack;
    if items != [] && !items[0].Closes() {
      HeardSomething(open + [items[0]], if open == [] then k else start, items[1..], k);
    }
  }

  lemma {:induction false} GranuleOfPage(m: Mux, c: E.Choice, force: bool, nfill: int, here: Parsed)
    requires Stamped(m) && m.enc.bos && m.enc.pend != [] && c == E.Choose(m.enc, force, nfill)
    requires var d := |Parse(m.pages, |m.pages|).done|;
      && |here.done| == |ShortGranules(m.enc.pend[..c.vals])|
      && d + |here.done| <= |m.submitted|
      && (here.done != [] ==>
        ShortGranules(m.enc.pend[..c.vals])[|here.done| - 1] == m.submitted[d + |here.done| - 1].granulepos)
    ensures c.granule == if here.done == [] then -1
                         else m.submitted[|Parse(m.pages, |m.pages|).done| + |here.done| - 1].granulepos
  {
    hide ShortGranules, Parse;
    E.GranuleOfPage(m.enc, force, nfill);
    LastEndGranule(m.enc.pend, c.vals);
  }

  lemma {:induction false} SubmitStamped(m: Mux, op: Op)
    requires Carries(m) && Stamped(m) && op.Submit?
    ensures Stamped(Do(m, op))
  {
    hide Parse, ShortGranules, Carries;
    var p := Parse(m.pages, |m.pages|);
    var x := Submission(op.data, op.eos, op.granulepos);
    ShortGranulesConcat(m.enc.pend, E.PacketEntries(op.data, m.enc.granulepos, op.granulepos));
    GranulesOfEntries(op.data, m.enc.granulepos, op.granulepos);
    assert Granules((m.submitted + [x])[|p.done|..]) == Granules(m.submitted[|p.done|..]) + [op.granulepos];
    assert m.pages + [] == m.pages;
    forall k | 0 <= k < |m.pages| ensures PageStamped(m.pages, m.submitted + [x], k) {
      SaidBefore(m.pages, [], m.submitted, [x], k);
    }
  }

  // The end of the stream

  lemma {:induction false} SomethingLeft(packets: seq<Submission>)
    ensures packets != [] ==> AllSegs(packets) != []
  {
    assert packets != [] ==> |E.PacketSegs(packets[0].data)| > 0;
  }

  lemma {:induction false} EosPage(m: Mux, c: E.Choice)
    requires Carries(m) && EosRight(m) && 0 < c.vals <= |m.enc.pend|
    ensures var page := E.PageOf(m.enc, c);
      EosRight(m.(enc := m.enc.(pend := m.enc.pend[c.vals..], bos := true, pageno := page.pageno + 1),
                  pages := m.pages + [page]))
  {
    hide ParsePage, PageItems, WellFormed, Matches, AllSegs, Ordered, ItemSegs;
    var page := E.PageOf(m.enc, c);
    var p, k := Parse(m.pages, |m.pages|), |m.pages|;
    ParseNext(m.pages, page);
    OrderedPage(m.enc.pend, p.open == [], c.vals);
    MarksOfPage(page);
    EosOfPackets(p.open, p.start, PageItems(page), k, page.eos);
    var here := ParsePage(p.open, p.start, PageItems(page), k);
    MatchesSize(p.done, m.submitted);
    PageConsumes(p, m.enc.pend, c.vals, PageItems(page), page, k, m.submitted);
    var done := p.done + here.done;
    LeftOver(here.open, m.enc.pend[c.vals..], m.submitted[|done|..]);
    EosOfAll(p.done, here.done, m.submitted, page.eos, m.late);
    NextEnd(m.pages, page, m.submitted);
  }

  lemma {:induction false} NextEnd(pages: seq<PageInfo>, page: PageInfo, submitted: seq<Submission>)
    requires forall k :: 0 <= k < |pages| && pages[k].eos ==> EndPage(pages, submitted, k)
    requires var p := Parse(pages, |pages|);
      && LossRecovery.Segs(PageItems(page))
      && var here := ParsePage(p.open, p.start, PageItems(page), |pages|);
      page.eos ==>
        && here.open == [] && |p.done + here.done| == |submitted|
        && exists i :: 0 <= i < |submitted| && submitted[i].eos
    ensures var all := pages + [page]; forall k :: 0 <= k < |all| && all[k].eos ==> EndPage(all, submitted, k)
  {
    hide ParsePage, PageItems, Parse;
    var all := pages + [page];
    ParseNext(pages, page);
    assert submitted + [] == submitted;
    forall k | 0 <= k < |all| && all[k].eos ensures EndPage(all, submitted, k) {
      if k < |pages| {
        SaidBefore(pages, [page], submitted, [], k);
      }
    }
  }

  lemma {:induction false} LeftOver(open: seq<Item>, pend: seq<E.Pend>, left: seq<Submission>)
    requires LossRecovery.Segs(open) && ItemSegs(open) + E.Segs(pend) == AllSegs(left)
    ensures open == [] && pend == [] ==> left == []
    ensures pend != [] ==> left != []
  {
    hide ItemSegs;
    if open == [] && pend == [] {
      NoItemSegs();
      SomethingLeft(left);
    }
  }

  lemma {:induction false} NoItemSegs()
    ensures ItemSegs([]) == [] && E.Segs([]) == []
  {}

  lemma {:induction false} EosOfAll(a: seq<Located>, b: seq<Located>, submitted: seq<Submission>, eos: bool, late: bool)
    requires |a + b| <= |submitted|
    requires !late ==> forall i :: 0 <= i < |a| ==> a[i].packet.Packet? && a[i].packet.eos == submitted[i].eos
    requires !late ==> forall i :: 0 <= i < |submitted| - 1 ==> !submitted[i].eos
    requires forall i :: 0 <= i < |b| ==> b[i].packet.Packet? && b[i].packet.eos == (eos && i == |b| - 1)
    requires eos ==> |a + b| == |submitted| && exists i :: 0 <= i < |submitted| && submitted[i].eos
    requires !eos && |a + b| == |submitted| ==> forall i :: 0 <= i < |submitted| ==> !submitted[i].eos
    ensures !late ==> forall i :: 0 <= i < |a + b| ==>
      (a + b)[i].packet.Packet? && (a + b)[i].packet.eos == submitted[i].eos
  {
    if !late {
      forall i | 0 <= i < |a + b| ensures (a + b)[i].packet.Packet? && (a + b)[i].packet.eos == submitted[i].eos {
        if i >= |a| {
          assert (a + b)[i] == b[i - |a|];
        }
      }
    }
  }

  lemma {:induction false} SubmitEos(m: Mux, op: Op)
    requires Carries(m) && EosRight(m) && op.Submit?
    ensures EosRight(Do(m, op))
  {
    hide Parse, Carries;
    var x := Submission(op.data, op.eos, op.granulepos);
    var n := Do(m, op);
    assert n.submitted[|m.submitted|] == x;
    assert forall i :: 0 <= i < |m.submitted| ==> n.submitted[i] == m.submitted[i];
    assert m.pages + [] == m.pages;
    forall k | 0 <= k < |m.pages| && m.pages[k].eos ensures EndPage(m.pages, n.submitted, k) {
      SaidBefore(m.pages, [], m.submitted, [x], k);
    }
  }

  // Segments and header fields

  function PageSegs(pages: seq<PageInfo>): seq<Segment> {
    if pages == [] then [] else PageSegs(pages[..|pages| - 1]) + pages[|pages| - 1].segs
  }

  predicate InRange(granulepos: int) {
    -0x8000_0000_0000_0000 <= granulepos < 0x8000_0000_0000_0000
  }

  predicate OpInRange(op: Op) {
    op.Submit? ==> InRange(op.granulepos)
  }

  /** Every page has between 1 and 255 segments, the first only those of one packet, and no byte is lost. */
  ghost predicate Paged(m: Mux) {
    && (forall i :: 0 <= i < |m.pages| ==> 0 < |m.pages[i].segs| <= 255 && InRange(m.pages[i].granulepos))
    && (m.pages != [] ==> forall j :: 0 <= j < |m.pages[0].segs| - 1 ==> |m.pages[0].segs[j]| == 255)
    && (forall i :: 0 <= i < |m.enc.pend| ==> InRange(m.enc.pend[i].granule))
    && InRange(m.enc.granulepos)
    && (m.enc.bos <==> m.pages != [])
    && (forall i :: 0 <= i < |m.pages| ==> m.pages[i].bos == (i == 0))
    && PageSegs(m.pages) + E.Segs(m.enc.pend) == AllSegs(m.submitted)
  }

  lemma {:induction false} PagedPage(m: Mux, c: E.Choice, force: bool, nfill: int)
    requires Paged(m) && m.enc.pend != [] && c == E.Choose(m.enc, force, nfill)
    ensures var page := E.PageOf(m.enc, c);
      Paged(m.(enc := m.enc.(pend := m.enc.pend[c.vals..], bos := true, pageno := page.pageno + 1),
               pages := m.pages + [page]))
  {
    hide AllSegs, PageSegs, E.Choose, E.Segs;
    var page, pend := E.PageOf(m.enc, c), m.enc.pend;
    var pages := m.pages + [page];
    PageSegsNext(m.pages, page);
    SegsConcat(pend[..c.vals], pend[c.vals..]);
    assert pend == pend[..c.vals] + pend[c.vals..];
    assert PageSegs(pages) + E.Segs(pend[c.vals..]) == PageSegs(m.pages) + E.Segs(pend);
    ChosenFits(m.enc, c, force, nfill);
    assert forall i :: 0 <= i < |pages| ==> pages[i] == if i < |m.pages| then m.pages[i] else page;
  }

  lemma {:induction false} PageSegsNext(pages: seq<PageInfo>, page: PageInfo)
    ensures PageSegs(pages + [page]) == PageSegs(pages) + page.segs
  {
    assert (pages + [page])[..|pages|] == pages;
  }

  lemma {:induction false} ChosenFits(s: E.EncState, c: E.Choice, force: bool, nfill: int)
    requires s.pend != [] && c == E.Choose(s, force, nfill)
    requires forall i :: 0 <= i < |s.pend| ==> InRange(s.pend[i].granule)
    ensures InRange(c.granule) && 0 < |E.PageOf(s, c).segs| <= 255
    ensures !s.bos ==> forall j :: 0 <= j < c.vals - 1 ==> |E.PageOf(s, c).segs[j]| == 255
  {
    hide E.ScanSegments;
    if s.bos {
      E.GranuleOfPage(s, force, nfill);
    }
  }

  lemma {:induction false} EntriesInRange(pend: seq<E.Pend>, data: seq<Byte>, before: int, granulepos: int)
    requires forall i :: 0 <= i < |pend| ==> InRange(pend[i].granule)
    requires InRange(before) && InRange(granulepos)
    ensures var all := pend + E.PacketEntries(data, before, granulepos);
      forall i :: 0 <= i < |all| ==> InRange(all[i].granule)
  {
    hide InRange;
    var entries := E.PacketEntries(data, before, granulepos);
    assert forall i :: 0 <= i < |entries| ==> entries[i].granule == before || entries[i].granule == granulepos;
  }

  lemma {:induction false} SubmitPaged(m: Mux, op: Op)
    requires Paged(m) && op.Submit? && OpInRange(op)
    ensures Paged(Do(m, op))
  {
    var x := Submission(op.data, op.eos, op.granulepos);
    EntriesInRange(m.enc.pend, op.data, m.enc.granulepos, op.granulepos);
    assert m.submitted[0..] == m.submitted && (m.submitted + [x])[0..] == m.submitted + [x];
    SubmitAdds(m.enc.pend, PageSegs(m.pages), m.submitted, 0, x, m.enc.granulepos);
    hide PageSegs, AllSegs, E.Segs, E.PacketEntries, InRange;
  }

  ghost predicate MuxInv(m: Mux) {
    Carries(m) && Stamped(m) && EosRight(m) && Paged(m)
  }

  lemma {:induction false} BeginInv(serialno: int)
    ensures MuxInv(Begin(serialno))
  {
    hide Carries, Stamped, EosRight, Paged;
    BeginCarries(serialno);
    BeginMarked(serialno);
  }

  lemma {:induction false} BeginCarries(serialno: int)
    ensures Carries(Begin(serialno)) && Paged(Begin(serialno))
  {
    hide ParsePage, ItemSegs, PageItems;
    NoItemSegs();
    assert Begin(serialno).submitted[0..] == [];
  }

  lemma {:induction false} BeginMarked(serialno: int)
    ensures Stamped(Begin(serialno)) && EosRight(Begin(serialno))
  {}

  lemma {:induction false} FlushKeeps(m: Mux, force: bool, nfill: int)
    requires MuxInv(m)
    ensures var (enc, pages) := E.Flush(m.enc, force, nfill);
      MuxInv(m.(enc := enc, pages := m.pages + pages))
  {
    hide Carries, Stamped, EosRight, Paged, E.Choose;
    if m.enc.pend != [] {
      var c := E.Choose(m.enc, force, nfill);
      if c.force {
        PageCarries(m, c);
        StampedPage(m, c, force, nfill);
        EosPage(m, c);
        PagedPage(m, c, force, nfill);
      } else {
        assert m.pages + [] == m.pages;
      }
    } else {
      assert m.pages + [] == m.pages;
    }
  }

  lemma {:induction false} DoKeeps(m: Mux, op: Op)
    requires MuxInv(m) && OpInRange(op)
    ensures MuxInv(Do(m, op))
  {
    hide Carries, Stamped, EosRight, Paged, E.Flush;
    match op
    case Submit(data, eos, granulepos) =>
      SubmitCarries(m, op);
      SubmitStamped(m, op);
      SubmitEos(m, op);
      SubmitPaged(m, op);
    case PageOut(nfill) =>
      FlushKeeps(m, m.enc.pend != [] && (m.enc.eos || !m.enc.bos), nfill);
    case Flush(nfill) =>
      FlushKeeps(m, true, nfill);
  }

  /** What every run of submissions and flushes keeps. */
  lemma {:induction false} RunKeeps(m: Mux, ops: seq<Op>)
    requires MuxInv(m) && forall op :: op in ops ==> OpInRange(op)
    ensures MuxInv(Run(m, ops))
    decreases |ops|
  {
    hide MuxInv, Do;
    if ops != [] {
      assert ops[0] in ops;
      DoKeeps(m, ops[0]);
      RunKeeps(Do(m, ops[0]), ops[1..]);
    }
  }

  /** The bytes of a list of packets. */
  function AllBytes(packets: seq<Submission>): seq<Byte> {
    if packets == [] then [] else packets[0].data + AllBytes(packets[1..])
  }

  lemma {:induction false} AllSegsJoin(packets: seq<Submission>)
    ensures Join(AllSegs(packets)) == AllBytes(packets)
  {
    if packets != [] {
      AllSegsJoin(packets[1..]);
      PacketSegsJoin(packets[0].data);
      JoinConcat(E.PacketSegs(packets[0].data), AllSegs(packets[1..]));
    }
  }

  /**
   Paging, for every run: the bodies of the pages so far are the front of the bytes submitted and what is still held is
   the rest; every page has between 1 and 255 segments and its number; just the first one is marked as such and has
   segments of the first packet only; a page is marked as continued exactly when it starts inside a packet; the first
   page has granule position 0 and every later one that of the last packet that ends on it, or -1 if none does.
   */
  lemma {:induction false} EncoderPaging(serialno: int, ops: seq<Op>)
    requires forall op :: op in ops ==> OpInRange(op)
    ensures var m := Run(Begin(serialno), ops);
      && Join(PageSegs(m.pages)) + Join(E.Segs(m.enc.pend)) == AllBytes(m.submitted)
      && (forall k :: 0 <= k < |m.pages| ==>
        && 0 < |m.pages[k].segs| <= 255 && m.pages[k].pageno == k && m.pages[k].bos == (k == 0)
        && (m.pages[k].continued <==> Parse(m.pages, k).open != [])
        && PageStamped(m.pages, m.submitted, k))
      && (m.pages != [] ==> forall j :: 0 <= j < |m.pages[0].segs| - 1 ==> |m.pages[0].segs[j]| == 255)
  {
    hide Run, Begin, EosRight, Parse, AllSegs, Ordered, Matches, PageStamped, ShortGranules;
    BeginInv(serialno);
    RunKeeps(Begin(serialno), ops);
    var m := Run(Begin(serialno), ops);
    AllSegsJoin(m.submitted);
    JoinConcat(PageSegs(m.pages), E.Segs(m.enc.pend));
    forall k | 0 <= k < |m.pages|
      ensures m.pages[k].pageno == k && (m.pages[k].continued <==> Parse(m.pages, k).open != [])
    {
      assert LossRecovery.PageFits(m.pages, m.enc.serialno, k);
    }
  }

  /** Calling ogg_stream_flush until it returns 0. */
  function Drain(m: Mux, nfill: int): (r: Mux)
    ensures r.enc.pend == [] && r.submitted == m.submitted && r.late == m.late
    ensures r.enc.serialno == m.enc.serialno
    decreases |m.enc.pend|
  {
    if m.enc.pend == [] then m else
    E.FlushTakesSomething(m.enc, nfill);
    Drain(Do(m, Flush(nfill)), nfill)
  }

  lemma {:induction false} DrainKeeps(m: Mux, nfill: int)
    requires MuxInv(m)
    ensures MuxInv(Drain(m, nfill))
    decreases |m.enc.pend|
  {
    hide MuxInv;
    if m.enc.pend != [] {
      DoKeeps(m, Flush(nfill));
      E.FlushTakesSomething(m.enc, nfill);
      DrainKeeps(Do(m, Flush(nfill)), nfill);
    }
  }

  // What a reader of the pages sees

  /** Packet i is the last one that ends on its page. */
  predicate LastOnPage(done: seq<Located>, i: nat)
    requires i < |done|
  {
    i + 1 == |done| || done[i + 1].last != done[i].last
  }

  /** Of the packets that end on a page just the last has its granule position, and its end mark if it has one. */
  ghost predicate MarkedByPage(pages: seq<PageInfo>, done: seq<Located>, i: nat)
    requires i < |done|
  {
    var packet, k := done[i].packet, done[i].last;
    && packet.Packet? && k < |pages|
    && packet.granulepos == (if LastOnPage(done, i) then pages[k].granulepos else -1)
    && packet.eos == (pages[k].eos && LastOnPage(done, i))
  }

  lemma {:induction false} PacketMarks(pages: seq<PageInfo>, serialno: int, n: nat)
    requires WellFormed(pages, serialno) && n <= |pages|
    ensures var p := Parse(pages, n);
      && !AnyLast(p.open)
      && forall i :: 0 <= i < |p.done| ==> MarkedByPage(pages, p.done, i) && p.done[i].last < n
    decreases n
  {
    hide ParsePage, PageItems;
    if n > 0 {
      var k := n - 1;
      var p, page := Parse(pages, k), pages[k];
      PacketMarks(pages, serialno, k);
      assert PageFits(pages, serialno, k);
      ClosingOfEntries(page);
      var items := PageItems(page);
      GranulesOfItems(page);
      MarksOfPage(page);
      PacketsBegin(p.open, p.start, items, k);
      GranulesOfPackets(p.open, p.start, items, k, page.granulepos);
      EosOfPackets(p.open, p.start, items, k, page.eos);
      MarksAdded(pages, p.done, ParsePage(p.open, p.start, items, k).done, k);
    }
  }

  lemma {:induction false} MarksAdded(pages: seq<PageInfo>, a: seq<Located>, b: seq<Located>, k: nat)
    requires k < |pages|
    requires forall i :: 0 <= i < |a| ==> MarkedByPage(pages, a, i) && a[i].last < k
    requires forall l :: l in b ==> l.last == k
    requires forall i :: 0 <= i < |b| ==>
      && b[i].packet.Packet?
      && b[i].packet.granulepos == (if i == |b| - 1 then pages[k].granulepos else -1)
      && b[i].packet.eos == (pages[k].eos && i == |b| - 1)
    ensures forall i :: 0 <= i < |a + b| ==> MarkedByPage(pages, a + b, i) && (a + b)[i].last < k + 1
  {
    var all := a + b;
    forall i | 0 <= i < |all| ensures MarkedByPage(pages, all, i) && all[i].last < k + 1 {
      if i < |a| {
        assert all[i] == a[i] && MarkedByPage(pages, a, i);
        assert i + 1 < |all| ==> all[i + 1] == if i + 1 < |a| then a[i + 1] else b[0];
      } else {
        assert all[i] == b[i - |a|];
        assert i + 1 < |all| ==> all[i + 1] == b[i + 1 - |a|];
      }
    }
  }

  /** As many packets end on page k and before as there are up to the last one that ends there. */
  lemma {:induction false} PageOfPacket(pages: seq<PageInfo>, n: nat, i: nat)
    requires n <= |pages| && i < |Parse(pages, n).done|
    ensures var done := Parse(pages, n).done; var k := done[i].last;
      && k < n && Ending(pages, k) != []
      && (LastOnPage(done, i) ==> |Parse(pages, k + 1).done| == i + 1)
    decreases n
  {
    hide ParsePage, PageItems;
    var k := n - 1;
    var p, items := Parse(pages, k), PageItems(pages[k]);
    ClosingOfEntries(pages[k]);
    PacketsBegin(p.open, p.start, items, k);
    var here := ParsePage(p.open, p.start, items, k);
    var done := Parse(pages, n).done;
    assert done == p.done + here.done;
    if i < |p.done| {
      PageOfPacket(pages, k, i);
      assert done[i] == p.done[i];
      assert i + 1 < |done| ==> done[i + 1] == if i + 1 < |p.done| then p.done[i + 1] else here.done[0];
    } else {
      assert done[i] == here.done[i - |p.done|];
      assert i + 1 < |done| ==> done[i + 1] == here.done[i + 1 - |p.done|];
    }
  }

  /**
   Submission i as a reader of the pages sees it. The last packet that ends on a page has the end mark of the page, and
   its own granule position unless the page is the first one; the others have neither.
   */
  ghost predicate Restored(pages: seq<PageInfo>, submitted: seq<Submission>, i: nat)
    requires i < |submitted|
  {
    var done := Parse(pages, |pages|).done;
    && i < |done| && done[i].last < |pages|
    && var (packet, last) := (done[i].packet, LastOnPage(done, i));
    && packet.Packet? && packet.data == submitted[i].data && packet.bos == (i == 0)
    && packet.granulepos == (if !last then -1 else if done[i].last == 0 then 0 else submitted[i].granulepos)
    && packet.eos == (last && pages[done[i].last].eos)
  }

  /** Just the packets that were flagged are marked as the end of the stream. */
  ghost predicate EndMarksRight(done: seq<Located>, submitted: seq<Submission>) {
    |done| == |submitted|
    && forall i :: 0 <= i < |done| ==> done[i].packet.Packet? && done[i].packet.eos == submitted[i].eos
  }

  /** Once everything is flushed, the pages hold exactly the packets submitted. */
  lemma {:induction false} DrainedPages(m: Mux)
    requires MuxInv(m) && m.enc.pend == []
    ensures |Parse(m.pages, |m.pages|).done| == |m.submitted|
    ensures forall i :: 0 <= i < |m.submitted| ==> Restored(m.pages, m.submitted, i)
    ensures !m.late ==> EndMarksRight(Parse(m.pages, |m.pages|).done, m.submitted)
  {
    hide Parse, AllSegs, WellFormed, Ending, PageStamped, MarkedByPage, BosRight, Restored, EndPage, ItemSegs,
         ShortGranules;
    var p, n := Parse(m.pages, |m.pages|), |m.pages|;
    LeftOver(p.open, [], m.submitted[|p.done|..]);
    PacketMarks(m.pages, m.enc.serialno, n);
    forall i | 0 <= i < |m.submitted| ensures Restored(m.pages, m.submitted, i) {
      PageOfPacket(m.pages, n, i);
      PacketRestored(m.pages, m.submitted, i);
    }
  }

  lemma {:induction false} PacketRestored(pages: seq<PageInfo>, submitted: seq<Submission>, i: nat)
    requires var done := Parse(pages, |pages|).done;
      && i < |done| == |submitted|
      && done[i].packet.Packet? && done[i].packet.data == submitted[i].data && BosRight(done, i)
      && MarkedByPage(pages, done, i)
      && var k := done[i].last;
      && PageStamped(pages, submitted, k) && Ending(pages, k) != []
      && (LastOnPage(done, i) ==> |Parse(pages, k + 1).done| == i + 1)
    ensures Restored(pages, submitted, i)
  {
    hide Parse, Ending;
  }
}
