/** Pages to packets: what ogg_stream_pagein and ogg_stream_packetout do to a stream state. */
module Decoder {
  import opened Bytes
  import opened PageFormat

  /**
   One entry of lacing_vals with the body bytes it covers and its granule_vals entry:
   a segment, flagged 0x100 (first) and 0x200 (last), or the gap marker 0x400, perhaps flagged 0x200.
   */
  datatype Item =
    | Seg(bytes: Segment, first: bool, last: bool, granule: int)
    | Gap(last: bool)
  {
    function Size(): nat {
      if Seg? then |bytes| else 0
    }

    /** A packet ends here, or there is nothing to continue. */
    predicate Closes() {
      Size() < 255
    }

    function Data(): seq<Byte> {
      if Seg? then bytes else []
    }
  }

  datatype Event = Hole | Packet(data: seq<Byte>, bos: bool, eos: bool, granulepos: int)

  /** items is lacing_vals from lacing_returned on; the first ready of them lie before lacing_packet. */
  datatype DecState = DecState(
    items: seq<Item>, ready: nat, pageno: int, packetno: int, eos: bool, serialno: int)

  /** The state after ogg_stream_init. */
  function Init(serialno: int): DecState {
    DecState([], 0, 0, 0, false, serialno)
  }

  /** The state after ogg_stream_reset, which takes any page as the next one. */
  function Joining(serialno: int): DecState {
    Init(serialno).(pageno := -1)
  }

  /** What every run of ogg_stream_pagein and ogg_stream_packetout keeps, whatever the pages. */
  ghost predicate Inv(s: DecState) {
    && s.ready <= |s.items|
    && Closed(s.items[..s.ready])
    && Unfinished(s.items[s.ready..])
  }

  /** Whole packets and gap markers: every packet ends before the next gap and before the end. */
  ghost predicate Closed(items: seq<Item>) {
    && (items != [] ==> items[|items| - 1].Closes())
    && forall i :: 0 < i < |items| && items[i].Gap? ==> items[i - 1].Closes()
  }

  /** The start of a packet whose end has not come yet. */
  ghost predicate Unfinished(items: seq<Item>) {
    forall i :: 0 <= i < |items| ==> items[i].Seg? && |items[i].bytes| == 255
  }

  /** Index of the last segment that ends a packet, or -1. */
  function LastShort(segs: seq<Segment>): (i: int)
    ensures -1 <= i < |segs|
    ensures i >= 0 ==> |segs[i]| < 255
    ensures forall j :: i < j < |segs| ==> |segs[j]| == 255
  {
    if segs == [] then -1
    else if |segs[|segs| - 1]| < 255 then |segs| - 1
    else LastShort(segs[..|segs| - 1])
  }

  /** The segments of a broken-off packet at the front: up to and including the first short one. */
  function Leading(segs: seq<Segment>): (n: nat)
    ensures n <= |segs|
    ensures forall j :: 0 <= j < n - 1 ==> |segs[j]| == 255
    ensures n < |segs| ==> n > 0 && |segs[n - 1]| < 255
    ensures segs != [] ==> n > 0
  {
    if segs == [] then 0 else if |segs[0]| < 255 then 1 else 1 + Leading(segs[1..])
  }

  function Entries(segs: seq<Segment>, bos: bool, granulepos: int): (items: seq<Item>)
    ensures |items| == |segs|
  {
    seq(|segs|, i requires 0 <= i < |segs| =>
      Seg(segs[i], bos && i == 0, false, if i == LastShort(segs) then granulepos else -1))
  }

  function MarkLast(items: seq<Item>): (r: seq<Item>)
    ensures |r| == |items|
  {
    if items == [] then [] else items[|items| - 1 := items[|items| - 1].(last := true)]
  }

  /** The state with an unfinished packet dropped and the gap noted, when the page is not the next one. */
  function Resequence(s: DecState, pageno: int): (r: DecState)
    requires s.ready <= |s.items|
  {
    if pageno == s.pageno then s
    else if s.pageno == -1 then s.(items := s.items[..s.ready])
    else s.(items := s.items[..s.ready] + [Gap(false)], ready := s.ready + 1)
  }

  /** A page that continues a packet whose start is not there loses its leading segments. */
  predicate MustSkip(items: seq<Item>, continued: bool) {
    continued && (items == [] || items[|items| - 1] == Gap(false))
  }

  /** The segments of the page that are kept, as new entries. */
  function Append(t: DecState, page: PageInfo): (r: DecState)
    requires t.ready <= |t.items|
    ensures r.serialno == t.serialno && r.packetno == t.packetno
  {
    var skip := MustSkip(t.items, page.continued);
    var segs := if skip then page.segs[Leading(page.segs)..] else page.segs;
    var last := LastShort(segs);
    t.(items := t.items + Entries(segs, page.bos && !skip, page.granulepos),
       ready := if last >= 0 then |t.items| + last + 1 else t.ready)
  }

  function Finish(t: DecState, page: PageInfo): (r: DecState) {
    t.(items := if page.eos then MarkLast(t.items) else t.items,
       eos := t.eos || page.eos,
       pageno := page.pageno + 1)
  }

  predicate Refused(s: DecState, page: PageInfo) {
    page.serialno != s.serialno || page.version > 0
  }

  /** ogg_stream_pagein; a page of another stream or version is refused and changes nothing. */
  function PageIn(s: DecState, page: PageInfo): (r: DecState)
    requires s.ready <= |s.items|
  {
    if Refused(s, page) then s else Finish(Append(Resequence(s, page.pageno), page), page)
  }

  /** Index of the first item from k on that ends a packet, or the number of items. */
  function End(items: seq<Item>, k: nat): (n: nat)
    requires k <= |items|
    ensures k <= n <= |items|
    ensures forall i :: k <= i < n ==> !items[i].Closes()
    ensures n < |items| ==> items[n].Closes()
    decreases |items| - k
  {
    if k == |items| || items[k].Closes() then k else End(items, k + 1)
  }

  function Data(items: seq<Item>): seq<Byte> {
    if items == [] then [] else items[0].Data() + Data(items[1..])
  }

  predicate AnyLast(items: seq<Item>) {
    exists i :: 0 <= i < |items| && items[i].last
  }

  /** The packet that a run of segments makes up. */
  function Pack(items: seq<Item>): (p: Event)
    requires items != [] && items[0].Seg? && items[|items| - 1].Seg?
    ensures p.Packet?
  {
    Packet(Data(items), items[0].first, AnyLast(items), items[|items| - 1].granule)
  }

  /** ogg_stream_packetout: a packet or a hole report, or nothing yet. */
  function PacketOut(s: DecState): (r: (DecState, seq<Event>))
    requires Inv(s)
  {
    if s.ready == 0 then (s, [])
    else if s.items[0].Gap? then
      (s.(items := s.items[1..], ready := s.ready - 1, packetno := s.packetno + 1), [Hole])
    else
      var k := End(s.items, 0);
      FirstPacketReady(s);
      (s.(items := s.items[k + 1..], ready := s.ready - (k + 1), packetno := s.packetno + 1),
       [Pack(s.items[..k + 1])])
  }

  /** The gathering loop of _packetout stops before lacing_packet, on a segment and not on a gap marker. */
  lemma {:induction false} FirstPacketReady(s: DecState)
    requires Inv(s) && s.ready > 0 && s.items[0].Seg?
    ensures End(s.items, 0) < s.ready
    ensures s.items[End(s.items, 0)].Seg?
  {
    var r := s.items[..s.ready];
    assert r[s.ready - 1].Closes();
    var k := End(s.items, 0);
    assert k > 0 ==> r[k] == s.items[k] && r[k - 1] == s.items[k - 1];
  }

  /** What is still to be handed out of a list of items. */
  function Events(items: seq<Item>): seq<Event> {
    if items == [] then []
    else if items[0].Gap? then [Hole] + Events(items[1..])
    else
      var k := End(items, 0);
      if k == |items| || items[k].Gap? then [] else [Pack(items[..k + 1])] + Events(items[k + 1..])
  }

  function Pending(s: DecState): seq<Event>
    requires s.ready <= |s.items|
  {
    Events(s.items[..s.ready])
  }

  lemma {:induction false} EndWithin(items: seq<Item>, k: nat, n: nat)
    requires k <= n <= |items| && End(items, k) < n
    ensures End(items[..n], k) == End(items, k)
    decreases n - k
  {
    if !items[k].Closes() {
      EndWithin(items, k + 1, n);
    }
  }

  /** Every call hands out the next pending event, and nothing exactly when nothing is pending. */
  lemma {:induction false} PacketOutTakesNext(s: DecState)
    requires Inv(s)
    ensures var (t, out) := PacketOut(s);
      && Inv(t) && out + Pending(t) == Pending(s)
      && (out == [] <==> Pending(s) == []) && |out| <= 1
      && t.pageno == s.pageno && t.serialno == s.serialno && t.packetno == s.packetno + |out|
      && t.items[t.ready..] == s.items[s.ready..]
  {
    if s.ready > 0 {
      var n := if s.items[0].Gap? then 1 else End(s.items, 0) + 1;
      if s.items[0].Seg? {
        FirstPacketReady(s);
      }
      FirstEvent(s, n);
      ClosedRest(s, n);
      hide Events, Pack, Closed, Unfinished, End;
    }
  }

  /** What is pending begins with the packet or hole that comes first. */
  lemma {:induction false} FirstEvent(s: DecState, n: nat)
    requires Inv(s) && s.ready > 0
    requires n == (if s.items[0].Gap? then 1 else End(s.items, 0) + 1) && n <= s.ready
    requires s.items[0].Seg? ==> s.items[n - 1].Seg?
    ensures Pending(s) == [if s.items[0].Gap? then Hole else Pack(s.items[..n])] + Events(s.items[n..s.ready])
  {
    hide Pack, Closed, Unfinished;
    var r := s.items[..s.ready];
    assert r[n..] == s.items[n..s.ready] && r[..n] == s.items[..n];
    if s.items[0].Seg? {
      EndWithin(s.items, 0, s.ready);
    }
  }

  /** Taking whole packets off the front leaves whole packets. */
  lemma {:induction false} ClosedRest(s: DecState, n: nat)
    requires Inv(s) && n <= s.ready
    ensures s.items[n..][..s.ready - n] == s.items[n..s.ready] && s.items[n..][s.ready - n..] == s.items[s.ready..]
    ensures Closed(s.items[n..][..s.ready - n])
  {
    var r := s.items[..s.ready];
    assert s.items[n..][..s.ready - n] == r[n..];
  }

  lemma {:induction false} EntriesUnfinished(segs: seq<Segment>, bos: bool, granulepos: int)
    ensures Unfinished(Entries(segs, bos, granulepos)[LastShort(segs) + 1..])
  {}

  lemma {:induction false} MarkLastKeeps(items: seq<Item>, k: nat)
    requires k <= |items|
    requires Closed(items[..k]) && Unfinished(items[k..])
    ensures Closed(MarkLast(items)[..k]) && Unfinished(MarkLast(items)[k..])
  {
    var r := MarkLast(items);
    assert forall i :: 0 <= i < |items| ==>
      r[i].Size() == items[i].Size() && r[i].Gap? == items[i].Gap?;
    assert forall i :: 0 <= i < k ==>
      r[..k][i].Gap? == items[..k][i].Gap? && r[..k][i].Closes() == items[..k][i].Closes();
    assert forall i :: 0 <= i < |items| - k ==> items[k..][i].Size() == r[k..][i].Size();
  }

  lemma {:induction false} ResequenceKeepsInv(s: DecState, pageno: int)
    requires Inv(s)
    ensures Inv(Resequence(s, pageno))
  {
    var r := s.items[..s.ready];
    if pageno != s.pageno {
      assert (r + [Gap(false)])[..s.ready + 1] == r + [Gap(false)];
      assert r[..s.ready] == r;
    }
  }

  lemma {:induction false} AppendKeepsInv(items: seq<Item>, ready: nat, segs: seq<Segment>, bos: bool, granulepos: int)
    requires ready <= |items| && Closed(items[..ready]) && Unfinished(items[ready..])
    ensures var all := items + Entries(segs, bos, granulepos);
      var ready' := if LastShort(segs) >= 0 then |items| + LastShort(segs) + 1 else ready;
      Closed(all[..ready']) && Unfinished(all[ready'..])
  {
    var added := Entries(segs, bos, granulepos);
    var all := items + added;
    if LastShort(segs) >= 0 {
      var n := |items| + LastShort(segs) + 1;
      assert all[n - 1].Closes();
      assert forall j :: ready <= j < |items| ==> items[j] == items[ready..][j - ready];
      forall i | 0 < i < n && all[i].Gap? ensures all[i - 1].Closes() {
        assert i < |items|;
        assert items[..ready][i].Gap? && items[..ready][i - 1].Closes();
      }
      EntriesUnfinished(segs, bos, granulepos);
      assert all[n..] == added[LastShort(segs) + 1..];
    } else {
      assert all[..ready] == items[..ready];
      assert all[ready..] == items[ready..] + added;
    }
  }

  /** The decoder's indices stay in order for every page the scanner can hand over. */
  lemma {:induction false} PageInKeepsInv(s: DecState, page: PageInfo)
    requires Inv(s)
    ensures Inv(PageIn(s, page))
  {
    hide Closed, Unfinished, Entries, Leading, LastShort, MarkLast;
    if !Refused(s, page) {
      var t := Resequence(s, page.pageno);
      ResequenceKeepsInv(s, page.pageno);
      var skip := MustSkip(t.items, page.continued);
      var segs := if skip then page.segs[Leading(page.segs)..] else page.segs;
      AppendKeepsInv(t.items, t.ready, segs, page.bos && !skip, page.granulepos);
      var a := Append(t, page);
      assert Inv(a);
      MarkLastKeeps(a.items, a.ready);
    }
  }
}
