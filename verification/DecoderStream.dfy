/** ogg_stream_state on the decoding side: buffers of body bytes, lacing values and granule positions. */
module DecoderStream {
  import opened Bytes
  import opened PageFormat
  import opened Decoder
  import opened Buffers
  import opened LacingValues

  function ItemAt(lace: Lace, granule: int, bytes: Segment): Item {
    if lace.gap then Gap(lace.last) else Seg(bytes, lace.first, lace.last, granule)
  }

  /** The entries of the three buffers put together. */
  function Items(laces: seq<Lace>, granules: seq<int>, body: seq<Byte>): (items: seq<Item>)
    requires |laces| == |granules| && |body| == Sum(Sizes(laces))
    ensures |items| == |laces|
  {
    var segs := Split(Sizes(laces), body);
    seq(|laces|, i requires 0 <= i < |laces| => ItemAt(laces[i], granules[i], segs[i]))
  }

  lemma {:induction false} ItemsConcat(a: seq<Lace>, b: seq<Lace>, g: seq<int>, h: seq<int>, x: seq<Byte>, y: seq<Byte>)
    requires |a| == |g| && |x| == Sum(Sizes(a))
    requires |b| == |h| && |y| == Sum(Sizes(b))
    ensures |x + y| == Sum(Sizes(a + b))
    ensures Items(a + b, g + h, x + y) == Items(a, g, x) + Items(b, h, y)
  {
    hide Sum, Split;
    assert Sizes(a + b) == Sizes(a) + Sizes(b);
    SplitConcat(Sizes(a), Sizes(b), x, y);
  }

  /** Cutting the buffers after n entries cuts the items after n. */
  lemma {:induction false} ItemsCut(laces: seq<Lace>, granules: seq<int>, body: seq<Byte>, n: nat)
    requires |laces| == |granules| && |body| == Sum(Sizes(laces)) && n <= |laces|
    ensures Sum(Sizes(laces[..n])) <= |body|
    ensures var m := Sum(Sizes(laces[..n]));
      && |body[m..]| == Sum(Sizes(laces[n..]))
      && Items(laces[..n], granules[..n], body[..m]) == Items(laces, granules, body)[..n]
      && Items(laces[n..], granules[n..], body[m..]) == Items(laces, granules, body)[n..]
  {
    var a, b := laces[..n], laces[n..];
    var m := Sum(Sizes(a));
    assert laces == a + b && granules == granules[..n] + granules[n..];
    assert Sizes(laces) == Sizes(a) + Sizes(b);
    SumConcat(Sizes(a), Sizes(b));
    assert body == body[..m] + body[m..];
    ItemsConcat(a, b, granules[..n], granules[n..], body[..m], body[m..]);
  }

  lemma {:induction false} DataIsJoin(items: seq<Item>, segs: seq<Segment>)
    requires |items| == |segs| && forall i :: 0 <= i < |items| ==> items[i].Data() == segs[i]
    ensures Data(items) == Join(segs)
  {
    if items != [] {
      DataIsJoin(items[1..], segs[1..]);
    }
  }

  /** Gap markers cover no bytes. */
  ghost predicate GapsEmpty(laces: seq<Lace>) {
    forall i :: 0 <= i < |laces| && laces[i].gap ==> laces[i].size == 0 && !laces[i].first
  }

  lemma {:induction false} DataOfItems(laces: seq<Lace>, granules: seq<int>, body: seq<Byte>)
    requires |laces| == |granules| && |body| == Sum(Sizes(laces)) && GapsEmpty(laces)
    ensures Data(Items(laces, granules, body)) == body
  {
    DataIsJoin(Items(laces, granules, body), Split(Sizes(laces), body));
    JoinSplit(Sizes(laces), body);
  }

  class StreamState {
    var bodyData: array<Byte>
    var bodyFill: nat
    var bodyReturned: nat
    var lacingVals: array<Lace>
    var granuleVals: array<int>
    var lacingFill: nat
    var lacingPacket: nat
    var lacingReturned: nat
    var pageno: int
    var packetno: int
    var eos: bool
    var serialno: int

    ghost predicate Shape()
      reads this
    {
      && bodyReturned <= bodyFill <= bodyData.Length
      && lacingReturned <= lacingPacket <= lacingFill <= lacingVals.Length
      && granuleVals.Length == lacingVals.Length
      && bodyData as object != granuleVals
    }

    ghost function Laces(): seq<Lace>
      requires Shape()
      reads this, lacingVals
    {
      lacingVals[lacingReturned..lacingFill]
    }

    ghost function Granules(): seq<int>
      requires Shape()
      reads this, granuleVals
    {
      granuleVals[lacingReturned..lacingFill]
    }

    ghost function Body(): seq<Byte>
      requires Shape()
      reads this, bodyData
    {
      bodyData[bodyReturned..bodyFill]
    }

    ghost predicate Consistent()
      reads this, bodyData, lacingVals, granuleVals
    {
      Shape() && |Body()| == Sum(Sizes(Laces())) && GapsEmpty(Laces())
    }

    ghost function Abs(): (s: DecState)
      requires Consistent()
      reads this, bodyData, lacingVals, granuleVals
      ensures s.ready <= |s.items|
    {
      DecState(Items(Laces(), Granules(), Body()), lacingPacket - lacingReturned, pageno, packetno, eos, serialno)
    }

    ghost predicate Valid()
      reads this, bodyData, lacingVals, granuleVals
    {
      Consistent() && Inv(Abs())
    }

    /** ogg_stream_init. */
    constructor (serialno: int)
      ensures Valid() && Abs() == Init(serialno)
      ensures fresh(bodyData) && fresh(lacingVals) && fresh(granuleVals)
    {
      bodyData := new Byte[16 * 1024];
      lacingVals := new Lace[1024];
      granuleVals := new int[1024];
      bodyFill, bodyReturned, lacingFill, lacingPacket, lacingReturned := 0, 0, 0, 0, 0;
      pageno, packetno, eos := 0, 0, false;
      this.serialno := serialno;
    }

    /** Moves what is not yet returned down to the front of the buffers. */
    method Compact()
      requires Consistent()
      modifies this, bodyData, lacingVals, granuleVals
      ensures Consistent() && Abs() == old(Abs())
      ensures lacingReturned == 0 && bodyReturned == 0
      ensures bodyData == old(bodyData) && lacingVals == old(lacingVals) && granuleVals == old(granuleVals)
    {
      hide Items, GapsEmpty, Sizes;
      CompactBody();
      CompactLacing();
    }

    method CompactBody()
      requires Shape()
      modifies this`bodyFill, this`bodyReturned, bodyData
      ensures Shape() && bodyReturned == 0 && Body() == old(Body())
      ensures Laces() == old(Laces()) && Granules() == old(Granules())
    {
      ghost var body := Body();
      if bodyReturned > 0 {
        bodyFill := bodyFill - bodyReturned;
        MoveDown(bodyData, bodyReturned, bodyFill);
        bodyReturned := 0;
      }
      assert Body() == body;
    }

    method CompactLacing()
      requires Shape()
      modifies this`lacingFill, this`lacingPacket, this`lacingReturned, lacingVals, granuleVals
      ensures Shape() && lacingReturned == 0 && Body() == old(Body())
      ensures Laces() == old(Laces()) && Granules() == old(Granules())
      ensures lacingPacket == old(lacingPacket - lacingReturned)
    {
      ghost var laces, granules := Laces(), Granules();
      var n := lacingFill - lacingReturned;
      if lacingReturned > 0 {
        MoveDown(lacingVals, lacingReturned, n);
        MoveDown(granuleVals, lacingReturned, n);
        lacingFill := n;
        lacingPacket := lacingPacket - lacingReturned;
        lacingReturned := 0;
      }
      assert Laces() == laces && Granules() == granules;
    }

    /** _os_body_expand. */
    method ExpandBody(needed: nat)
      requires Consistent()
      modifies this`bodyData
      ensures Consistent() && Abs() == old(Abs()) && Body() == old(Body())
      ensures bodyFill + needed < bodyData.Length
      ensures bodyData == old(bodyData) || fresh(bodyData)
    {
      ghost var body := Body();
      bodyData := Grown(bodyData, bodyFill, needed, 1024);
      assert bodyData[..bodyFill][bodyReturned..] == Body();
      assert Body() == body;
    }

    /** _os_lacing_expand. */
    method ExpandLacing(needed: nat)
      requires Consistent()
      modifies this`lacingVals, this`granuleVals
      ensures Consistent() && Abs() == old(Abs()) && Laces() == old(Laces()) && Granules() == old(Granules())
      ensures lacingFill + needed < lacingVals.Length
      ensures lacingVals == old(lacingVals) || fresh(lacingVals)
      ensures granuleVals == old(granuleVals) || fresh(granuleVals)
    {
      ghost var laces, granules := Laces(), Granules();
      granuleVals := Grown(granuleVals, lacingFill, needed, 32);
      lacingVals := Grown(lacingVals, lacingFill, needed, 32);
      assert lacingVals[..lacingFill][lacingReturned..] == Laces();
      assert granuleVals[..lacingFill][lacingReturned..] == Granules();
      assert Laces() == laces && Granules() == granules;
    }

    /** A page out of turn: drops the unfinished packet and notes the gap. */
    method Unroll()
      requires Consistent() && lacingReturned == 0 && bodyReturned == 0 && lacingFill < lacingVals.Length
      modifies this`bodyFill, this`lacingFill, this`lacingPacket, lacingVals
      ensures Consistent()
      ensures Abs() == old(Abs()).(
        items := old(Abs().items[..Abs().ready]) + (if pageno == -1 then [] else [Gap(false)]),
        ready := old(Abs().ready) + (if pageno == -1 then 0 else 1))
      ensures lacingFill <= old(lacingFill) + 1
    {
      hide Items, Sizes;
      DropUnfinished();
      if pageno != -1 {
        NoteGap();
      }
    }

    method DropUnfinished()
      requires Consistent() && lacingReturned == 0 && bodyReturned == 0
      modifies this`bodyFill, this`lacingFill
      ensures Consistent() && lacingFill == lacingPacket <= old(lacingFill)
      ensures Abs() == old(Abs()).(items := old(Abs().items[..Abs().ready]))
    {
      hide Items, Sizes;
      ghost var laces, granules, body := Laces(), Granules(), Body();
      ItemsCut(laces, granules, body, lacingPacket);
      SizesSplit(laces, lacingPacket);
      ghost var m := Sum(Sizes(laces[..lacingPacket]));
      for i := lacingPacket to lacingFill
        modifies this`bodyFill
        invariant bodyFill == m + Sum(Sizes(laces[i..]))
      {
        SizesFirst(laces, i);
        bodyFill := bodyFill - lacingVals[i].size;
      }
      NoSizes(laces[lacingFill..]);
      lacingFill := lacingPacket;
      assert Laces() == laces[..lacingPacket] && Granules() == granules[..lacingPacket] && Body() == body[..m];
      assert Abs().items[..Abs().ready] == Abs().items;
    }

    method NoteGap()
      requires Consistent() && lacingReturned == 0 && lacingPacket == lacingFill < lacingVals.Length
      modifies this`lacingFill, this`lacingPacket, lacingVals
      ensures Consistent() && lacingFill == old(lacingFill) + 1
      ensures Abs() == old(Abs()).(items := old(Abs().items) + [Gap(false)], ready := old(Abs().ready) + 1)
    {
      hide Items, Sizes;
      ghost var laces, granules, body := Laces(), Granules(), Body();
      lacingVals[lacingFill] := GAP;
      lacingFill, lacingPacket := lacingFill + 1, lacingPacket + 1;
      GapAppended(laces, granules, body, granuleVals[lacingFill - 1]);
      assert Laces() == laces + [GAP] && Granules() == granules + [granuleVals[lacingFill - 1]] && Body() == body;
    }

    /** Copies in the kept part of a page: its body bytes, then a lacing entry for each segment. */
    method AppendSegments(table: seq<Byte>, data: seq<Byte>, bos: bool, granulepos: int)
      requires Consistent() && |data| == Sum(table) && lacingReturned == 0 && bodyReturned == 0
      requires lacingFill + |table| < lacingVals.Length
      modifies this, bodyData, lacingVals, granuleVals
      ensures Consistent()
      ensures var segs := Split(table, data);
        Abs() == old(Abs()).(
          items := old(Abs().items) + Entries(segs, bos, granulepos),
          ready := if LastShort(segs) >= 0 then |old(Abs().items)| + LastShort(segs) + 1 else old(Abs().ready))
      ensures lacingReturned == 0 && bodyReturned == 0
      ensures bodyData == old(bodyData) || fresh(bodyData)
      ensures lacingVals == old(lacingVals) && granuleVals == old(granuleVals)
    {
      hide Items, Sizes, Entries, NewLaces, NewGranules, LastBelow, LastShort, Split, GapsEmpty, Sum;
      ghost var laces, granules, body := Laces(), Granules(), Body();
      if |data| > 0 {
        CopyBody(data);
      }
      assert Body() == body + data;
      StoreLacing(table, bos, granulepos);
      NewItems(table, data, bos, granulepos);
      ItemsConcat(laces, NewLaces(table, bos), granules, NewGranules(table, granulepos), body, data);
      NewGapsEmpty(laces, table, bos);
      ShortSizes(table, data);
    }

    method CopyBody(data: seq<Byte>)
      requires Consistent() && bodyReturned == 0
      modifies this`bodyData, this`bodyFill, bodyData
      ensures Shape() && Body() == old(Body()) + data
      ensures bodyData == old(bodyData) || fresh(bodyData)
      ensures Laces() == old(Laces()) && Granules() == old(Granules())
    {
      ghost var body := Body();
      ExpandBody(|data|);
      WriteAt(bodyData, bodyFill, data);
      bodyFill := bodyFill + |data|;
      assert bodyData[..bodyFill] == body + data;
    }

    method StoreLacing(table: seq<Byte>, bos: bool, granulepos: int)
      requires Shape() && lacingReturned == 0 && lacingFill + |table| < lacingVals.Length
      modifies this`lacingFill, this`lacingPacket, lacingVals, granuleVals
      ensures Shape() && Body() == old(Body())
      ensures Laces() == old(Laces()) + NewLaces(table, bos)
      ensures Granules() == old(Granules()) + NewGranules(table, granulepos)
      ensures lacingPacket
           == if LastBelow(table) >= 0 then old(lacingFill) + LastBelow(table) + 1 else old(lacingPacket)
    {
      hide LastBelow;
      ghost var laces, granules, fill := Laces(), Granules(), lacingFill;
      var saved := StoreSizes(table, bos);
      if saved != -1 {
        granuleVals[saved] := granulepos;
      }
      ghost var l, g := Laces(), Granules();
      assert l[..fill] == laces && l[fill..] == NewLaces(table, bos);
      assert g[..fill] == granules && g[fill..] == NewGranules(table, granulepos);
      assert l == l[..fill] + l[fill..] && g == g[..fill] + g[fill..];
    }

    method StoreSizes(table: seq<Byte>, bos: bool) returns (saved: int)
      requires Shape() && lacingReturned == 0 && lacingFill + |table| < lacingVals.Length
      modifies this`lacingFill, this`lacingPacket, lacingVals, granuleVals
      ensures Shape() && lacingFill == old(lacingFill) + |table|
      ensures saved == if LastBelow(table) >= 0 then old(lacingFill) + LastBelow(table) else -1
      ensures lacingPacket == if saved >= 0 then saved + 1 else old(lacingPacket)
      ensures forall j :: 0 <= j < old(lacingFill) ==>
        lacingVals[j] == old(lacingVals[j]) && granuleVals[j] == old(granuleVals[j])
      ensures forall j :: 0 <= j < |table| ==>
        lacingVals[old(lacingFill) + j] == Lace(table[j], bos && j == 0, false, false)
      ensures forall j :: old(lacingFill) <= j < lacingFill ==> granuleVals[j] == -1
      ensures Body() == old(Body())
    {
      hide LastBelow;
      ghost var fill, packet := lacingFill, lacingPacket;
      var first := bos;
      saved := -1;
      LastBelowNone(table);
      for i := 0 to |table|
        modifies this`lacingFill, this`lacingPacket, lacingVals, granuleVals
        invariant lacingFill == fill + i && lacingPacket <= lacingFill
        invariant first == (bos && i == 0)
        invariant forall j :: 0 <= j < fill ==>
          lacingVals[j] == old(lacingVals[j]) && granuleVals[j] == old(granuleVals[j])
        invariant forall j :: 0 <= j < i ==> lacingVals[fill + j] == Lace(table[j], bos && j == 0, false, false)
        invariant forall j :: fill <= j < fill + i ==> granuleVals[j] == -1
        invariant saved == (if LastBelow(table[..i]) >= 0 then fill + LastBelow(table[..i]) else -1)
        invariant lacingPacket == (if saved >= 0 then saved + 1 else packet)
      {
        LastBelowNext(table, i);
        var val := table[i];
        lacingVals[lacingFill] := Lace(val, first, false, false);
        granuleVals[lacingFill] := -1;
        first := false;
        if val < 255 {
          saved := lacingFill;
        }
        lacingFill := lacingFill + 1;
        if val < 255 {
          lacingPacket := lacingFill;
        }
      }
      assert table[..|table|] == table;
    }

    /** The entry at the end gets the mark 0x200. */
    method MarkLastEntry()
      requires Consistent() && lacingReturned == 0
      modifies lacingVals
      ensures Consistent() && Abs() == old(Abs()).(items := MarkLast(old(Abs().items)))
    {
      hide Items, Sizes, GapsEmpty, MarkLast;
      ghost var laces := Laces();
      MarkedItems(laces, Granules(), Body());
      if lacingFill > 0 {
        lacingVals[lacingFill - 1] := lacingVals[lacingFill - 1].(last := true);
      }
      assert Laces() == Marked(laces);
    }

    /** Where the kept part of the page starts: the number of segments passed over and their bytes. */
    method SkipLeading(table: seq<Byte>) returns (n: nat, off: nat)
      ensures n == LeadingSizes(table) && off == Sum(table[..n])
    {
      hide Sum, LeadingSizes;
      n, off := 0, 0;
      EmptyTable(table);
      while n < |table|
        invariant n <= |table| && off == Sum(table[..n])
        invariant LeadingSizes(table) == n + LeadingSizes(table[n..])
      {
        LeadingStep(table, n);
        var val := table[n];
        off := off + val;
        n := n + 1;
        if val < 255 {
          return;
        }
      }
    }

    /** ogg_stream_pagein; false for a page of another stream or version. */
    method PageIn(page: Page) returns (ok: bool)
      requires Valid() && WellSized(page)
      modifies this, bodyData, lacingVals, granuleVals
      ensures Valid() && Abs() == Decoder.PageIn(old(Abs()), Info(page))
      ensures ok <==> Serialno(page) == old(Abs()).serialno && Version(page) == 0
      ensures !ok ==> Abs() == old(Abs())
    {
      hide Inv, Items, GapsEmpty, Sizes, Sum, Split, MarkLast, Append, Resequence, Entries;
      hide Granulepos, Serialno, Pageno, Bos, Eos, Version, Continued;
      PageInKeepsInv(Abs(), Info(page));
      Compact();
      ok := Serialno(page) == serialno && Version(page) == 0;
      if ok {
        Accept(page);
      }
    }

    /** The rest of ogg_stream_pagein for a page of this stream. */
    method Accept(page: Page)
      requires Consistent() && WellSized(page) && lacingReturned == 0 && bodyReturned == 0
      modifies this, bodyData, lacingVals, granuleVals
      ensures Consistent()
      ensures Abs() == Finish(Append(Resequence(old(Abs()), Pageno(page)), Info(page)), Info(page))
    {
      assert |page.header| >= 27;
      hide *;
      Prepare(|page.header| - 27, Pageno(page));
      KeepSegments(page);
      FinishPage(page);
    }

    /** Room for the segments, and the page number compared. */
    method Prepare(count: nat, number: int)
      requires Consistent() && lacingReturned == 0 && bodyReturned == 0
      modifies this`bodyFill, this`lacingFill, this`lacingPacket, this`lacingVals, this`granuleVals, lacingVals
      ensures Consistent() && lacingReturned == 0 && bodyReturned == 0
      ensures Abs() == Resequence(old(Abs()), number) && lacingFill + count < lacingVals.Length
      ensures bodyData == old(bodyData)
      ensures lacingVals == old(lacingVals) || fresh(lacingVals)
      ensures granuleVals == old(granuleVals) || fresh(granuleVals)
    {
      hide *;
      ExpandLacing(count + 1);
      Sequence(number);
    }

    /** The end of ogg_stream_pagein. */
    method FinishPage(page: Page)
      requires Consistent() && lacingReturned == 0 && WellSized(page)
      modifies this`eos, this`pageno, lacingVals
      ensures Consistent() && Abs() == Finish(old(Abs()), Info(page))
    {
      hide Items, GapsEmpty, Sizes, MarkLast, Split, Sum;
      hide Granulepos, Serialno, Pageno, Bos, Eos, Version, Continued;
      if Eos(page) {
        eos := true;
        MarkLastEntry();
      }
      pageno := Pageno(page) + 1;
    }

    /** Compares page numbers. */
    method Sequence(number: int)
      requires Consistent() && lacingReturned == 0 && bodyReturned == 0 && lacingFill < lacingVals.Length
      modifies this`bodyFill, this`lacingFill, this`lacingPacket, lacingVals
      ensures Consistent() && Abs() == Resequence(old(Abs()), number)
      ensures lacingFill <= old(lacingFill) + 1
    {
      hide Items, Sizes, GapsEmpty;
      if number != pageno {
        Unroll();
      }
    }

    /** Copies in the page, less the leading segments when it continues a packet whose start is not there. */
    method KeepSegments(page: Page)
      requires Consistent() && WellSized(page) && lacingReturned == 0 && bodyReturned == 0
      requires lacingFill + |page.header| - 27 < lacingVals.Length
      modifies this, bodyData, lacingVals, granuleVals
      ensures Consistent() && Abs() == Append(old(Abs()), Info(page))
      ensures lacingReturned == 0 && bodyReturned == 0
      ensures bodyData == old(bodyData) || fresh(bodyData)
      ensures lacingVals == old(lacingVals) && granuleVals == old(granuleVals)
    {
      hide Items, GapsEmpty, Sizes, Sum, Split, Entries, Leading, LastShort, LeadingSizes;
      hide Granulepos, Serialno, Pageno, Bos, Eos, Version, Continued;
      var table := page.header[27..];
      var bos := Bos(page);
      var n, off := 0, 0;
      SkipTest();
      if Continued(page) && (lacingFill < 1 || lacingVals[lacingFill - 1] == GAP) {
        bos := false;
        n, off := SkipLeading(table);
      }
      SplitRest(table, page.body, n);
      AppendSegments(table[n..], page.body[off..], bos, Granulepos(page));
    }

    lemma {:induction false} SkipTest()
      requires Consistent() && lacingReturned == 0
      ensures MustSkip(Abs().items, true) == (lacingFill < 1 || lacingVals[lacingFill - 1] == GAP)
    {
      if lacingFill > 0 {
        assert Laces()[lacingFill - 1] == lacingVals[lacingFill - 1];
      }
    }

    /** The gathering loop: the entries of the first packet, their bytes, and whether one is marked 0x200. */
    method MeasurePacket() returns (count: nat, bytes: nat, last: bool)
      requires Valid() && lacingReturned < lacingPacket && !lacingVals[lacingReturned].gap
      ensures count == End(Abs().items, 0) + 1 && lacingReturned + count <= lacingPacket
      ensures bytes == Sum(Sizes(Laces()[..count]))
      ensures last == AnyLast(Abs().items[..count])
    {
      hide Inv, Sum, Sizes, Items, AnyLast, GapsEmpty, End, Pack, Events, Closed, Unfinished;
      ghost var items, laces := Abs().items, Laces();
      EntryFacts();
      FirstPacketReady(Abs());
      ghost var k := End(items, 0);
      var ptr := lacingReturned;
      var size := lacingVals[ptr].size;
      bytes := size;
      last := lacingVals[ptr].last;
      SizesNext(laces, 0);
      AnyLastNext(items, 0);
      while size == 255
        invariant lacingReturned <= ptr <= lacingReturned + k
        invariant size == laces[ptr - lacingReturned].size
        invariant bytes == Sum(Sizes(laces[..ptr - lacingReturned + 1]))
        invariant last == AnyLast(items[..ptr - lacingReturned + 1])
        decreases lacingReturned + k - ptr
      {
        ptr := ptr + 1;
        var val := lacingVals[ptr];
        assert val == laces[ptr - lacingReturned];
        SizesNext(laces, ptr - lacingReturned);
        AnyLastNext(items, ptr - lacingReturned);
        size := val.size;
        if val.last {
          last := true;
        }
        bytes := bytes + size;
      }
      count := ptr - lacingReturned + 1;
    }

    lemma {:induction false} EntryFacts()
      requires Consistent()
      ensures forall i :: 0 <= i < |Laces()| ==>
        Abs().items[i].Size() == Laces()[i].size && Abs().items[i].last == Laces()[i].last
      ensures lacingReturned < lacingFill && !lacingVals[lacingReturned].gap ==> Abs().items[0].Seg?
    {}

    /**
     _packetout: 1 and the next packet, -1 for a hole, 0 for neither. A hole is taken off even when
     the caller only peeks; a packet is taken off when it asks to advance.
     */
    method NextEvent(advance: bool) returns (r: int, packet: Event)
      requires Valid()
      modifies this`bodyReturned, this`lacingReturned, this`packetno
      ensures Valid()
      ensures var (t, out) := Decoder.PacketOut(old(Abs()));
        && r == (if out == [] then 0 else if out[0].Hole? then -1 else 1)
        && (r == 1 ==> packet == out[0])
        && Abs() == (if r == 1 && !advance then old(Abs()) else t)
    {
      hide Inv, Items, Sum, Sizes, GapsEmpty, End, Data, AnyLast, Events, Closed, Unfinished;
      packet := Hole;
      PacketOutTakesNext(Abs());
      if lacingPacket <= lacingReturned {
        return 0, packet;
      }
      FirstEntry();
      if lacingVals[lacingReturned].gap {
        Drop(1, 0);
        return -1, packet;
      }
      packet := TakePacket(advance);
      r := 1;
    }

    /** The packet at the front, which is all there. */
    method TakePacket(advance: bool) returns (packet: Event)
      requires Valid() && lacingReturned < lacingPacket && !lacingVals[lacingReturned].gap && Abs().items[0].Seg?
      modifies this`bodyReturned, this`lacingReturned, this`packetno
      ensures Consistent()
      ensures packet == Decoder.PacketOut(old(Abs())).1[0]
      ensures Abs() == if advance then Decoder.PacketOut(old(Abs())).0 else old(Abs())
    {
      hide Inv, Items, Sum, Sizes, GapsEmpty, End, Data, AnyLast, Events, Closed, Unfinished;
      FirstPacketReady(Abs());
      var count, bytes, last := MeasurePacket();
      TakenData(count, bytes);
      packet := Packet(bodyData[bodyReturned..bodyReturned + bytes], lacingVals[lacingReturned].first, last,
                       granuleVals[lacingReturned + count - 1]);
      assert packet == Pack(Abs().items[..count]);
      if advance {
        Drop(count, bytes);
      }
    }

    lemma {:induction false} FirstEntry()
      requires Consistent() && lacingReturned < lacingFill
      ensures Abs().items[0].Gap? == lacingVals[lacingReturned].gap
      ensures lacingVals[lacingReturned].gap ==> Sum(Sizes(Laces()[..1])) == 0
    {
      assert Laces()[0] == lacingVals[lacingReturned];
      SizesNext(Laces(), 0);
    }

    lemma {:induction false} TakenData(count: nat, bytes: nat)
      requires Consistent() && 0 < count && lacingReturned + count <= lacingFill
      requires bytes == Sum(Sizes(Laces()[..count]))
      requires Abs().items[0].Seg? && Abs().items[count - 1].Seg?
      ensures bodyReturned + bytes <= bodyFill
      ensures Data(Abs().items[..count]) == bodyData[bodyReturned..bodyReturned + bytes]
      ensures Abs().items[0].first == lacingVals[lacingReturned].first
      ensures Abs().items[count - 1].granule == granuleVals[lacingReturned + count - 1]
    {
      hide Items, Sizes, Sum, GapsEmpty, Data;
      var laces, granules, body := Laces(), Granules(), Body();
      ItemsCut(laces, granules, body, count);
      GapsEmptyFront(laces, count);
      DataOfItems(laces[..count], granules[..count], body[..bytes]);
      assert body[..bytes] == bodyData[bodyReturned..bodyReturned + bytes];
      EntryAt(laces, granules, body, 0);
      EntryAt(laces, granules, body, count - 1);
    }

    /** Advances past count entries and their bytes. */
    method Drop(count: nat, bytes: nat)
      requires Consistent() && lacingReturned + count <= lacingPacket && bytes == Sum(Sizes(Laces()[..count]))
      modifies this`bodyReturned, this`lacingReturned, this`packetno
      ensures Consistent()
      ensures Abs() == old(Abs()).(
        items := old(Abs()).items[count..], ready := old(Abs()).ready - count, packetno := old(Abs()).packetno + 1)
    {
      hide Items, Sum, Sizes;
      ghost var laces, granules, body := Laces(), Granules(), Body();
      ItemsCut(laces, granules, body, count);
      bodyReturned := bodyReturned + bytes;
      lacingReturned := lacingReturned + count;
      packetno := packetno + 1;
      assert Laces() == laces[count..] && Granules() == granules[count..] && Body() == body[bytes..];
    }

    /** ogg_stream_packetout. */
    method PacketOut() returns (r: int, packet: Event)
      requires Valid()
      modifies this`bodyReturned, this`lacingReturned, this`packetno
      ensures Valid()
      ensures var (t, out) := Decoder.PacketOut(old(Abs()));
        && r == (if out == [] then 0 else if out[0].Hole? then -1 else 1)
        && (r == 1 ==> packet == out[0]) && Abs() == t
    {
      hide Inv;
      r, packet := NextEvent(true);
    }

    /** ogg_stream_packetpeek: packets stay, holes do not. */
    method PacketPeek() returns (r: int, packet: Event)
      requires Valid()
      modifies this`bodyReturned, this`lacingReturned, this`packetno
      ensures Valid()
      ensures var (t, out) := Decoder.PacketOut(old(Abs()));
        && r == (if out == [] then 0 else if out[0].Hole? then -1 else 1)
        && (r == 1 ==> packet == out[0]) && Abs() == (if r == -1 then t else old(Abs()))
    {
      hide Inv;
      PacketOutTakesNext(Abs());
      r, packet := NextEvent(false);
    }

    /** ogg_stream_reset: nothing is held and any page number is accepted next, without a hole report. */
    method Reset()
      requires Valid()
      modifies this
      ensures Valid() && Abs() == Joining(old(Abs()).serialno)
      ensures bodyData == old(bodyData) && lacingVals == old(lacingVals) && granuleVals == old(granuleVals)
    {
      hide Inv, Items, Sizes, Sum, GapsEmpty;
      bodyFill, bodyReturned := 0, 0;
      lacingFill, lacingPacket, lacingReturned := 0, 0, 0;
      eos, pageno, packetno := false, -1, 0;
      NothingHeld(Laces());
      EmptyIsInv(Abs());
    }
  }

  lemma {:induction false} NothingHeld(laces: seq<Lace>)
    requires laces == []
    ensures Sum(Sizes(laces)) == 0 && GapsEmpty(laces)
  {}

  lemma {:induction false} GapsEmptyFront(laces: seq<Lace>, n: nat)
    requires GapsEmpty(laces) && n <= |laces|
    ensures GapsEmpty(laces[..n])
  {}

  lemma {:induction false} EntryAt(laces: seq<Lace>, granules: seq<int>, body: seq<Byte>, i: nat)
    requires |laces| == |granules| && |body| == Sum(Sizes(laces)) && i < |laces|
    ensures var x := Items(laces, granules, body)[i];
      x.Seg? ==> x.first == laces[i].first && x.granule == granules[i]
  {
    hide Sum, Sizes;
  }

  function Marked(laces: seq<Lace>): (r: seq<Lace>)
    ensures |r| == |laces|
  {
    if laces == [] then [] else laces[|laces| - 1 := laces[|laces| - 1].(last := true)]
  }

  lemma {:induction false} MarkedItems(laces: seq<Lace>, granules: seq<int>, body: seq<Byte>)
    requires |laces| == |granules| && |body| == Sum(Sizes(laces)) && GapsEmpty(laces)
    ensures |body| == Sum(Sizes(Marked(laces))) && GapsEmpty(Marked(laces))
    ensures Items(Marked(laces), granules, body) == MarkLast(Items(laces, granules, body))
  {
    assert Sizes(Marked(laces)) == Sizes(laces);
  }

  lemma {:induction false} EmptyTable(table: seq<Byte>)
    ensures Sum(table[..0]) == 0 && LeadingSizes(table) == LeadingSizes(table[0..])
  {
    assert table[0..] == table;
  }

  lemma {:induction false} LeadingStep(table: seq<Byte>, n: nat)
    requires n < |table|
    ensures Sum(table[..n + 1]) == Sum(table[..n]) + table[n]
    ensures LeadingSizes(table[n..]) == if table[n] < 255 then 1 else 1 + LeadingSizes(table[n + 1..])
    ensures n + 1 == |table| ==> LeadingSizes(table[n + 1..]) == 0
  {
    assert table[..n + 1] == table[..n] + [table[n]];
    SumConcat(table[..n], [table[n]]);
    assert Sum([table[n]]) == table[n] as int + Sum([]);
    assert table[n..][1..] == table[n + 1..];
  }

  function LeadingSizes(table: seq<Byte>): (n: nat)
    ensures n <= |table|
  {
    if table == [] then 0 else if table[0] < 255 then 1 else 1 + LeadingSizes(table[1..])
  }

  lemma {:induction false} LeadingOfSplit(segs: seq<Segment>, table: seq<Byte>)
    requires |segs| == |table| && forall i :: 0 <= i < |segs| ==> |segs[i]| == table[i]
    ensures Leading(segs) == LeadingSizes(table)
    decreases |segs|
  {
    if segs != [] {
      LeadingOfSplit(segs[1..], table[1..]);
    }
  }

  lemma {:induction false} SplitRest(table: seq<Byte>, body: seq<Byte>, n: nat)
    requires |body| == Sum(table) && n <= |table|
    ensures Sum(table[..n]) <= |body|
    ensures |body[Sum(table[..n])..]| == Sum(table[n..])
    ensures Split(table[n..], body[Sum(table[..n])..]) == Split(table, body)[n..]
    ensures Leading(Split(table, body)) == LeadingSizes(table)
    ensures n == 0 ==> Sum(table[..n]) == 0
  {
    assert table == table[..n] + table[n..];
    SumConcat(table[..n], table[n..]);
    var m := Sum(table[..n]);
    assert body == body[..m] + body[m..];
    SplitConcat(table[..n], table[n..], body[..m], body[m..]);
    LeadingOfSplit(Split(table, body), table);
  }

  lemma {:induction false} AnyLastNext(items: seq<Item>, n: nat)
    requires n < |items|
    ensures AnyLast(items[..n + 1]) == (AnyLast(items[..n]) || items[n].last)
    ensures !AnyLast(items[..0])
  {
    assert forall i :: 0 <= i < n ==> items[..n + 1][i] == items[..n][i];
    assert items[..n + 1][n] == items[n];
  }

  lemma {:induction false} EmptyIsInv(s: DecState)
    requires s.items == [] && s.ready == 0
    ensures Inv(s)
  {}

  lemma {:induction false} LastBelowNone(table: seq<Byte>)
    ensures LastBelow(table[..0]) == -1
  {}

  /** Index of the last entry below 255, or -1. */
  function LastBelow(table: seq<Byte>): (i: int)
    ensures -1 <= i < |table|
  {
    if table == [] then -1
    else if table[|table| - 1] < 255 then |table| - 1
    else LastBelow(table[..|table| - 1])
  }

  lemma {:induction false} LastBelowNext(table: seq<Byte>, i: nat)
    requires i < |table|
    ensures LastBelow(table[..i + 1]) == if table[i] < 255 then i else LastBelow(table[..i])
  {
    assert table[..i + 1][..i] == table[..i];
  }

  function NewLaces(table: seq<Byte>, bos: bool): (laces: seq<Lace>)
    ensures |laces| == |table| && Sizes(laces) == table
  {
    seq(|table|, i requires 0 <= i < |table| => Lace(table[i], bos && i == 0, false, false))
  }

  function NewGranules(table: seq<Byte>, granulepos: int): (granules: seq<int>)
    ensures |granules| == |table|
  {
    seq(|table|, i requires 0 <= i < |table| => if i == LastBelow(table) then granulepos else -1)
  }

  lemma {:induction false} ShortSizes(table: seq<Byte>, data: seq<Byte>)
    requires |data| == Sum(table)
    ensures LastShort(Split(table, data)) == LastBelow(table)
  {
    LastShortBelow(Split(table, data), table);
  }

  lemma {:induction false} LastShortBelow(segs: seq<Segment>, table: seq<Byte>)
    requires |segs| == |table| && forall i :: 0 <= i < |segs| ==> |segs[i]| == table[i]
    ensures LastShort(segs) == LastBelow(table)
    decreases |segs|
  {
    if segs != [] {
      LastShortBelow(segs[..|segs| - 1], table[..|table| - 1]);
    }
  }

  lemma {:induction false} NewGapsEmpty(laces: seq<Lace>, table: seq<Byte>, bos: bool)
    requires GapsEmpty(laces)
    ensures GapsEmpty(laces + NewLaces(table, bos))
  {}

  lemma {:induction false} NewItems(table: seq<Byte>, data: seq<Byte>, bos: bool, granulepos: int)
    requires |data| == Sum(table)
    ensures Items(NewLaces(table, bos), NewGranules(table, granulepos), data)
         == Entries(Split(table, data), bos, granulepos)
  {
    ShortSizes(table, data);
  }

  lemma {:induction false} GapAppended(laces: seq<Lace>, granules: seq<int>, body: seq<Byte>, g: int)
    requires |laces| == |granules| && |body| == Sum(Sizes(laces))
    ensures |body| == Sum(Sizes(laces + [GAP]))
    ensures Items(laces + [GAP], granules + [g], body) == Items(laces, granules, body) + [Gap(false)]
  {
    assert Sizes([GAP]) == [0];
    assert Sum([0]) == 0;
    ItemsConcat(laces, [GAP], granules, [g], body, []);
    assert body + [] == body;
  }
}
