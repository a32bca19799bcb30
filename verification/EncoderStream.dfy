/** ogg_stream_state on the encoding side. */
module EncoderStream {
  import opened Buffers
  import opened Bytes
  import opened Division
  import opened LacingValues
  import opened PageFormat
  import opened PageChecksum
  import opened Encoder

  /** The entries of the three buffers put together. */
  function Pends(laces: seq<Lace>, granules: seq<int>, body: seq<Byte>): (pend: seq<Pend>)
    requires |laces| == |granules| && |body| == Sum(Sizes(laces))
    ensures |pend| == |laces|
  {
    var segs := Split(Sizes(laces), body);
    seq(|laces|, i requires 0 <= i < |laces| => Pend(segs[i], laces[i].first, granules[i]))
  }

  lemma {:induction false} PendsConcat(a: seq<Lace>, b: seq<Lace>, g: seq<int>, h: seq<int>, x: seq<Byte>, y: seq<Byte>)
    requires |a| == |g| && |x| == Sum(Sizes(a))
    requires |b| == |h| && |y| == Sum(Sizes(b))
    ensures |x + y| == Sum(Sizes(a + b))
    ensures Pends(a + b, g + h, x + y) == Pends(a, g, x) + Pends(b, h, y)
  {
    assert Sizes(a + b) == Sizes(a) + Sizes(b);
    SplitConcat(Sizes(a), Sizes(b), x, y);
  }

  lemma {:induction false} PendsCut(laces: seq<Lace>, granules: seq<int>, body: seq<Byte>, n: nat)
    requires |laces| == |granules| && |body| == Sum(Sizes(laces)) && n <= |laces|
    ensures Sum(Sizes(laces[..n])) <= |body|
    ensures var m := Sum(Sizes(laces[..n]));
      && |body[m..]| == Sum(Sizes(laces[n..]))
      && Pends(laces[..n], granules[..n], body[..m]) == Pends(laces, granules, body)[..n]
      && Pends(laces[n..], granules[n..], body[m..]) == Pends(laces, granules, body)[n..]
  {
    var a, b := laces[..n], laces[n..];
    var m := Sum(Sizes(a));
    assert laces == a + b && granules == granules[..n] + granules[n..];
    SizesSplit(laces, n);
    assert body == body[..m] + body[m..];
    PendsConcat(a, b, granules[..n], granules[n..], body[..m], body[m..]);
  }

  /** The segments of pending entries. */
  lemma {:induction false} SegsOfPends(laces: seq<Lace>, granules: seq<int>, body: seq<Byte>)
    requires |laces| == |granules| && |body| == Sum(Sizes(laces))
    ensures Segs(Pends(laces, granules, body)) == Split(Sizes(laces), body)
    ensures Lacing(Segs(Pends(laces, granules, body))) == Sizes(laces)
    ensures Join(Segs(Pends(laces, granules, body))) == body
  {
    JoinSplit(Sizes(laces), body);
  }

  function PacketLaces(bytes: nat): (laces: seq<Lace>) {
    seq(bytes / 255 + 1, i requires 0 <= i < bytes / 255 + 1 =>
      Lace(if i < bytes / 255 then 255 else bytes % 255, i == 0, false, false))
  }

  function PacketGranules(bytes: nat, before: int, granulepos: int): (granules: seq<int>) {
    seq(bytes / 255 + 1, i requires 0 <= i < bytes / 255 + 1 => if i < bytes / 255 then before else granulepos)
  }

  lemma {:induction false} SplitOfPacket(data: seq<Byte>, sizes: seq<Byte>)
    requires |sizes| == |data| / 255 + 1
    requires forall i :: 0 <= i < |sizes| ==> sizes[i] == if i < |data| / 255 then 255 else |data| % 255
    ensures Sum(sizes) == |data|
    ensures Split(sizes, data) == PacketSegs(data)
    decreases |data|
  {
    if |data| < 255 {
      assert sizes == [|data|] && sizes[1..] == [];
      assert data[..|data|] == data && data[|data|..] == [];
    } else {
      SplitOfPacket(data[255..], sizes[1..]);
    }
  }

  lemma {:induction false} PendsOfPacket(data: seq<Byte>, before: int, granulepos: int)
    ensures Sum(Sizes(PacketLaces(|data|))) == |data|
    ensures Pends(PacketLaces(|data|), PacketGranules(|data|, before, granulepos), data)
         == PacketEntries(data, before, granulepos)
  {
    SplitOfPacket(data, Sizes(PacketLaces(|data|)));
  }

  /** What is stored behind the first entries. */
  lemma {:induction false} Stored<T>(before: seq<T>, after: seq<T>, fill: nat, more: seq<T>)
    requires fill <= |before| && fill + |more| <= |after|
    requires forall j :: 0 <= j < fill ==> after[j] == before[j]
    requires forall j :: 0 <= j < |more| ==> after[fill + j] == more[j]
    ensures after[..fill + |more|] == before[..fill] + more
  {}

  function Gather(iov: seq<seq<Byte>>): seq<Byte> {
    if iov == [] then [] else Gather(iov[..|iov| - 1]) + iov[|iov| - 1]
  }

  class StreamState {
    var bodyData: array<Byte>
    var bodyFill: nat
    var bodyReturned: nat
    var lacingVals: array<Lace>
    var granuleVals: array<int>
    var lacingFill: nat
    var header: array<Byte>
    var granulepos: int
    var bos: bool
    var eos: bool
    var pageno: int
    var packetno: int
    var serialno: int

    ghost predicate Shape()
      reads this
    {
      && bodyReturned <= bodyFill <= bodyData.Length
      && lacingFill <= lacingVals.Length == granuleVals.Length
      && header.Length == 282 && header != bodyData
      && bodyData as object != granuleVals && header as object != granuleVals
    }

    ghost function Laces(): seq<Lace>
      requires Shape()
      reads this, lacingVals
    {
      lacingVals[..lacingFill]
    }

    ghost function Granules(): seq<int>
      requires Shape()
      reads this, granuleVals
    {
      granuleVals[..lacingFill]
    }

    ghost function Body(): seq<Byte>
      requires Shape()
      reads this, bodyData
    {
      bodyData[bodyReturned..bodyFill]
    }

    ghost predicate Valid()
      reads this, bodyData, lacingVals
    {
      Shape() && |Body()| == Sum(Sizes(Laces()))
    }

    ghost function Abs(): (s: EncState)
      requires Valid()
      reads this, bodyData, lacingVals, granuleVals
    {
      EncState(Pends(Laces(), Granules(), Body()), granulepos, bos, eos, pageno, packetno, serialno)
    }

    /** ogg_stream_init. */
    constructor (serialno: int)
      ensures Valid() && Abs() == Init(serialno)
      ensures fresh(bodyData) && fresh(lacingVals) && fresh(granuleVals) && fresh(header)
    {
      bodyData := new Byte[16 * 1024];
      lacingVals := new Lace[1024];
      granuleVals := new int[1024];
      header := new Byte[282];
      bodyFill, bodyReturned, lacingFill := 0, 0, 0;
      granulepos, bos, eos, pageno, packetno := 0, false, false, 0, 0;
      this.serialno := serialno;
    }

    /** Moves the body bytes not yet handed out down to the front. */
    method CompactBody()
      requires Valid()
      modifies this`bodyFill, this`bodyReturned, bodyData
      ensures Valid() && bodyReturned == 0 && Abs() == old(Abs())
      ensures Laces() == old(Laces()) && Granules() == old(Granules()) && Body() == old(Body())
    {
      hide Pends, Sizes;
      ghost var body := Body();
      if bodyReturned > 0 {
        bodyFill := bodyFill - bodyReturned;
        MoveDown(bodyData, bodyReturned, bodyFill);
        bodyReturned := 0;
      }
      assert Body() == body;
    }

    /** _os_body_expand. */
    method ExpandBody(needed: nat)
      requires Valid()
      modifies this`bodyData
      ensures Valid() && Abs() == old(Abs())
      ensures Laces() == old(Laces()) && Granules() == old(Granules()) && Body() == old(Body())
      ensures bodyFill + needed < bodyData.Length
      ensures bodyData == old(bodyData) || fresh(bodyData)
    {
      hide Pends, Sizes;
      ghost var body := Body();
      bodyData := Grown(bodyData, bodyFill, needed, 1024);
      assert bodyData[..bodyFill][bodyReturned..] == Body();
      assert Body() == body;
    }

    /** _os_lacing_expand. */
    method ExpandLacing(needed: nat)
      requires Valid()
      modifies this`lacingVals, this`granuleVals
      ensures Valid() && Abs() == old(Abs())
      ensures Laces() == old(Laces()) && Granules() == old(Granules()) && Body() == old(Body())
      ensures lacingFill + needed < lacingVals.Length
      ensures lacingVals == old(lacingVals) || fresh(lacingVals)
      ensures granuleVals == old(granuleVals) || fresh(granuleVals)
    {
      hide Pends, Sizes;
      granuleVals := Grown(granuleVals, lacingFill, needed, 32);
      lacingVals := Grown(lacingVals, lacingFill, needed, 32);
    }

    /** Copies the pieces of the packet in behind the body bytes. */
    method CopyIn(iov: seq<seq<Byte>>)
      requires Shape() && bodyReturned == 0 && bodyFill + |Gather(iov)| < bodyData.Length
      modifies this`bodyFill, bodyData
      ensures Shape() && bodyData == old(bodyData) && Body() == old(Body()) + Gather(iov)
      ensures Laces() == old(Laces()) && Granules() == old(Granules())
    {
      hide Gather;
      ghost var body, fill := Body(), bodyFill;
      GatherPrefix(iov, 0);
      for i := 0 to |iov|
        modifies this`bodyFill, bodyData
        invariant Shape() && bodyFill == fill + |Gather(iov[..i])|
        invariant bodyData[..bodyFill] == body + Gather(iov[..i])
      {
        GatherPrefix(iov, i + 1);
        GatherNext(iov, i);
        WriteAt(bodyData, bodyFill, iov[i]);
        bodyFill := bodyFill + |iov[i]|;
        assert bodyData[..bodyFill] == (body + Gather(iov[..i])) + iov[i];
      }
      assert iov[..|iov|] == iov;
    }

    /** Writes the lacing values and granule positions of one packet. */
    method StoreLacing(bytes: nat, position: int)
      requires Shape() && lacingFill + bytes / 255 + 1 < lacingVals.Length
      modifies this`lacingFill, this`granulepos, lacingVals, granuleVals
      ensures Shape() && Body() == old(Body())
      ensures Laces() == old(Laces()) + PacketLaces(bytes)
      ensures Granules() == old(Granules()) + PacketGranules(bytes, old(granulepos), position)
      ensures granulepos == position
    {
      ghost var fill, before, granules := lacingFill, lacingVals[..], granuleVals[..];
      var n := bytes / 255 + 1;
      for i := 0 to n - 1
        modifies lacingVals, granuleVals
        invariant forall j :: 0 <= j < fill ==> lacingVals[j] == before[j] && granuleVals[j] == granules[j]
        invariant forall j :: fill <= j < fill + i ==> lacingVals[j] == Lace(255, false, false, false)
        invariant forall j :: fill <= j < fill + i ==> granuleVals[j] == granulepos
      {
        lacingVals[lacingFill + i] := Lace(255, false, false, false);
        granuleVals[lacingFill + i] := granulepos;
      }
      lacingVals[lacingFill + n - 1] := Lace(bytes % 255, false, false, false);
      granuleVals[lacingFill + n - 1] := position;
      granulepos := position;
      lacingVals[lacingFill] := lacingVals[lacingFill].(first := true);
      lacingFill := lacingFill + n;
      Stored(before, lacingVals[..], fill, PacketLaces(bytes));
      Stored(granules, granuleVals[..], fill, PacketGranules(bytes, old(granulepos), position));
    }

    /** ogg_stream_iovecin. */
    method IovecIn(iov: seq<seq<Byte>>, last: bool, position: int)
      requires Valid()
      modifies this, bodyData, lacingVals, granuleVals
      ensures Valid() && Abs() == Submit(old(Abs()), Gather(iov), last, position)
      ensures header == old(header)
    {
      hide Pends, Sizes, Gather, PacketEntries;
      var bytes := TotalLength(iov);
      MakeRoom(bytes);
      Take(iov, bytes, position);
      CountPacket(last);
    }

    method MakeRoom(bytes: nat)
      requires Valid()
      modifies this, bodyData
      ensures Valid() && Abs() == old(Abs()) && bodyReturned == 0 && header == old(header)
      ensures bodyFill + bytes < bodyData.Length && lacingFill + bytes / 255 + 1 < lacingVals.Length
      ensures bodyData == old(bodyData) || fresh(bodyData)
      ensures lacingVals == old(lacingVals) || fresh(lacingVals)
      ensures granuleVals == old(granuleVals) || fresh(granuleVals)
    {
      hide Pends, Sizes;
      CompactBody();
      ExpandBody(bytes);
      ExpandLacing(bytes / 255 + 1);
    }

    method CountPacket(last: bool)
      requires Valid()
      modifies this`packetno, this`eos
      ensures Valid() && Abs() == old(Abs()).(packetno := old(Abs()).packetno + 1, eos := old(Abs()).eos || last)
    {
      packetno := packetno + 1;
      if last {
        eos := true;
      }
    }

    /** The packet and its lacing values, once there is room. */
    method Take(iov: seq<seq<Byte>>, bytes: nat, position: int)
      requires Valid() && bytes == |Gather(iov)| && bodyReturned == 0
      requires bodyFill + bytes < bodyData.Length && lacingFill + bytes / 255 + 1 < lacingVals.Length
      modifies this`bodyFill, this`lacingFill, this`granulepos, bodyData, lacingVals, granuleVals
      ensures Valid()
      ensures Abs() == old(Abs()).(
        pend := old(Abs()).pend + PacketEntries(Gather(iov), old(granulepos), position), granulepos := position)
    {
      hide Pends, Sizes, PacketLaces, PacketGranules, PacketEntries, Gather;
      ghost var laces, granules, body := Laces(), Granules(), Body();
      CopyIn(iov);
      StoreLacing(bytes, position);
      PendsOfPacket(Gather(iov), old(granulepos), position);
      PendsConcat(laces, PacketLaces(bytes), granules, PacketGranules(bytes, old(granulepos), position),
                  body, Gather(iov));
    }

    /** ogg_stream_packetin. */
    method PacketIn(data: seq<Byte>, last: bool, position: int)
      requires Valid()
      modifies this, bodyData, lacingVals, granuleVals
      ensures Valid() && Abs() == Submit(old(Abs()), data, last, position)
      ensures header == old(header)
    {
      assert [data][..0] == [] && Gather([]) + data == data;
      IovecIn([data], last, position);
    }

    /** The first half of ogg_stream_flush_i: how many segments, which granule position, and whether to go ahead. */
    method ChooseSegments(force: bool, nfill: int) returns (vals: nat, granule: int, go: bool)
      requires Valid() && lacingFill > 0
      ensures Choice(vals, granule, go) == Choose(Abs(), force, nfill)
    {
      hide Pends, Sizes;
      ghost var pend := Abs().pend;
      SizeFacts();
      var maxvals := if lacingFill > 255 then 255 else lacingFill;
      vals, granule, go := 0, -1, force;
      if !bos {
        granule := 0;
        while vals < maxvals
          invariant vals <= maxvals && FirstVals(pend, 0) == FirstVals(pend, vals)
        {
          if lacingVals[vals].size < 255 {
            vals := vals + 1;
            break;
          }
          vals := vals + 1;
        }
      } else {
        var acc, packetsDone, packetJustDone := 0, 0, 0;
        while vals < maxvals
          invariant vals <= maxvals && go == force
          invariant ScanSegments(pend, nfill, SCAN_START)
                 == ScanSegments(pend, nfill, Scan(vals, acc, packetsDone, packetJustDone, granule, false))
        {
          if acc > nfill && packetJustDone >= 4 {
            go := true;
            break;
          }
          acc := acc + lacingVals[vals].size;
          if lacingVals[vals].size < 255 {
            granule := granuleVals[vals];
            packetsDone := packetsDone + 1;
            packetJustDone := packetsDone;
          } else {
            packetJustDone := 0;
          }
          vals := vals + 1;
        }
        if vals == 255 {
          go := true;
        }
      }
    }

    lemma {:induction false} SizeFacts()
      requires Valid()
      ensures |Abs().pend| == lacingFill
      ensures forall i :: 0 <= i < lacingFill ==>
        |Abs().pend[i].seg| == lacingVals[i].size && Abs().pend[i].granule == granuleVals[i]
        && Abs().pend[i].first == lacingVals[i].first
    {}

    /** The header of a page of the first vals entries, its checksum still zero; yields the length of the body. */
    method WriteHeader(vals: nat, granule: int, number: int, ghost info: PageInfo) returns (bytes: nat)
      requires Valid() && 0 < vals <= lacingFill && vals <= 255
      requires |info.segs| == vals && Lacing(info.segs) == Sizes(Laces()[..vals])
      requires info == PageInfo(
        0, !lacingVals[0].first, !bos, eos && lacingFill == vals, granule, serialno, number, info.segs)
      modifies header
      ensures Valid() && Laces() == old(Laces()) && Granules() == old(Granules()) && Body() == old(Body())
      ensures header[..27 + vals] == RawHeader(info)
      ensures bytes == Sum(Sizes(Laces()[..vals]))
    {
      hide Sizes, Sum, Lacing, RawHeader, Flags, Front;
      var flags := FlagByte(!lacingVals[0].first, !bos, eos && lacingFill == vals);
      WriteFront(header, flags, granule, serialno, number, vals);
      ghost var front := header[..27];
      bytes := WriteTable(vals);
      assert header[..27 + vals] == front + header[27..27 + vals];
      AssembledHeader(info);
    }

    /** The segment table. */
    method WriteTable(vals: nat) returns (bytes: nat)
      requires Valid() && vals <= lacingFill && vals <= 255
      modifies header
      ensures header[27..27 + vals] == Sizes(Laces()[..vals])
      ensures forall i :: 0 <= i < 27 ==> header[i] == old(header[i])
      ensures bytes == Sum(Sizes(Laces()[..vals]))
    {
      hide Sum;
      bytes := 0;
      ghost var laces := Laces();
      NoSizes(laces[..0]);
      for i := 0 to vals
        invariant header[27..27 + i] == Sizes(laces[..i])
        invariant forall j :: 0 <= j < 27 ==> header[j] == old(header[j])
        invariant bytes == Sum(Sizes(laces[..i]))
      {
        SizesNext(laces, i);
        header[27 + i] := lacingVals[i].size;
        bytes := bytes + lacingVals[i].size;
        assert Sizes(laces[..i + 1]) == Sizes(laces[..i]) + [laces[i].size];
      }
    }

    /** Takes the first vals entries and their bytes off the front. */
    method RemoveEntries(vals: nat, bytes: nat)
      requires Valid() && vals <= lacingFill && bytes == Sum(Sizes(Laces()[..vals]))
      modifies this`lacingFill, this`bodyReturned, lacingVals, granuleVals
      ensures Valid() && Abs() == old(Abs()).(pend := old(Abs()).pend[vals..])
      ensures bodyReturned == old(bodyReturned) + bytes && bodyReturned <= bodyFill
    {
      hide Pends, Sizes, Sum;
      ghost var laces, granules, body := Laces(), Granules(), Body();
      PendsCut(laces, granules, body, vals);
      lacingFill := lacingFill - vals;
      MoveDown(lacingVals, vals, lacingFill);
      MoveDown(granuleVals, vals, lacingFill);
      bodyReturned := bodyReturned + bytes;
      assert Laces() == laces[vals..] && Granules() == granules[vals..] && Body() == body[bytes..];
    }

    /** The second half of ogg_stream_flush_i: builds the page. */
    method EmitPage(vals: nat, granule: int) returns (page: Page)
      requires Valid() && 0 < vals <= lacingFill && vals <= 255
      modifies this, header, lacingVals, granuleVals
      ensures Valid()
      ensures var info := PageOf(old(Abs()), Choice(vals, granule, true));
        && page == ToPage(info)
        && Abs() == old(Abs()).(pend := old(Abs()).pend[vals..], bos := true, pageno := info.pageno + 1)
      ensures header == old(header)
    {
      hide *;
      SizeFacts();
      ghost var info := PageOf(Abs(), Choice(vals, granule, true));
      PageFacts(vals, granule);
      var number := if pageno == -1 then 0 else pageno;
      var b := bodyReturned;
      var bytes := Detach(vals, granule, number, info);
      page := Seal(vals + 27, b, bytes, number, info);
    }

    /** Writes the header and lets go of the entries it covers. */
    method Detach(vals: nat, granule: int, number: int, ghost info: PageInfo) returns (bytes: nat)
      requires Valid() && 0 < vals <= lacingFill && vals <= 255
      requires |info.segs| == vals && Lacing(info.segs) == Sizes(Laces()[..vals])
      requires Sum(Sizes(Laces()[..vals])) <= bodyFill - bodyReturned
      requires Join(info.segs) == Body()[..Sum(Sizes(Laces()[..vals]))]
      requires info == PageInfo(
        0, !lacingVals[0].first, !bos, eos && lacingFill == vals, granule, serialno, number, info.segs)
      modifies this`lacingFill, this`bodyReturned, header, lacingVals, granuleVals
      ensures Valid() && Abs() == old(Abs()).(pend := old(Abs()).pend[vals..])
      ensures old(bodyReturned) + bytes <= bodyData.Length
      ensures bodyData[old(bodyReturned)..old(bodyReturned) + bytes] == Join(info.segs)
      ensures header.Length == 282 && header[..27 + vals] == RawHeader(info)
    {
      hide Pends, Sizes, Sum, RawHeader, Lacing, Join;
      ghost var start, body := bodyReturned, Body();
      bytes := WriteHeader(vals, granule, number, info);
      assert bodyData[start..start + bytes] == body[..bytes];
      RemoveEntries(vals, bytes);
    }

    /** Puts in the checksum and counts the page. */
    method Seal(size: nat, b: nat, bytes: nat, number: int, ghost info: PageInfo) returns (page: Page)
      requires Valid() && size == 27 + |info.segs| && |info.segs| <= 255
      requires b + bytes <= bodyData.Length && bodyData[b..b + bytes] == Join(info.segs)
      requires header[..size] == RawHeader(info)
      modifies this`bos, this`pageno, header
      ensures Valid() && Abs() == old(Abs()).(bos := true, pageno := number + 1)
      ensures page == ToPage(info)
    {
      hide Pends, Sizes, Sum, RawHeader, Lacing, Join, ToPage;
      StampInPlace(size, b, bytes, info);
      page := Page(header[..size], bodyData[b..b + bytes]);
      bos := true;
      pageno := number + 1;
    }

    method StampInPlace(size: nat, b: nat, bytes: nat, ghost info: PageInfo)
      requires Valid() && size == 27 + |info.segs| && |info.segs| <= 255
      requires b + bytes <= bodyData.Length && bodyData[b..b + bytes] == Join(info.segs)
      requires header[..size] == RawHeader(info)
      modifies header
      ensures Valid() && Abs() == old(Abs())
      ensures Page(header[..size], bodyData[b..b + bytes]) == ToPage(info)
    {
      hide Pends, Sizes, Sum, Remainder, ChecksumSet, RawHeader, Lacing, Join;
      assert header[0..0 + size] == header[..size];
      ChecksumSetInPlace(header, 0, size, bodyData, b, bytes);
      assert header[..size] == header[0..0 + size];
    }

    lemma {:induction false} PageFacts(vals: nat, granule: int)
      requires Valid() && 0 < vals <= lacingFill && vals <= 255
      ensures Sum(Sizes(Laces()[..vals])) <= bodyFill - bodyReturned
      ensures var info := PageOf(Abs(), Choice(vals, granule, true));
        && |info.segs| == vals && Lacing(info.segs) == Sizes(Laces()[..vals])
        && Join(info.segs) == Body()[..Sum(Sizes(Laces()[..vals]))]
        && info == PageInfo(0, !lacingVals[0].first, !bos, eos && lacingFill == vals, granule, serialno,
                            if pageno == -1 then 0 else pageno, info.segs)
    {
      var laces, granules, body := Laces(), Granules(), Body();
      PendsCut(laces, granules, body, vals);
      var m := Sum(Sizes(laces[..vals]));
      SegsOfPends(laces[..vals], granules[..vals], body[..m]);
      SizeFacts();
    }

    /** ogg_stream_flush_i. */
    method FlushInternal(force: bool, nfill: int) returns (r: bool, page: Page)
      requires Valid()
      modifies this, header, lacingVals, granuleVals
      ensures Valid() && header == old(header)
      ensures var (t, pages) := Flush(old(Abs()), force, nfill);
        && Abs() == t && r == (pages != []) && (r ==> |pages[0].segs| <= 255 && page == ToPage(pages[0]))
    {
      hide Pends, Sizes, ToPage, Choose;
      page := Page([], []);
      if lacingFill == 0 {
        return false, page;
      }
      var vals, granule, go := ChooseSegments(force, nfill);
      ghost var c := Choose(Abs(), force, nfill);
      if !go {
        return false, page;
      }
      page := EmitPage(vals, granule);
      r := true;
    }

    /** ogg_stream_flush_fill; ogg_stream_flush has nfill 4096. */
    method FlushFill(nfill: int) returns (r: bool, page: Page)
      requires Valid()
      modifies this, header, lacingVals, granuleVals
      ensures Valid() && header == old(header)
      ensures var (t, pages) := Flush(old(Abs()), true, nfill);
        && Abs() == t && r == (pages != []) && (r ==> |pages[0].segs| <= 255 && page == ToPage(pages[0]))
    {
      r, page := FlushInternal(true, nfill);
    }

    /** ogg_stream_pageout_fill; ogg_stream_pageout has nfill 4096. */
    method PageOutFill(nfill: int) returns (r: bool, page: Page)
      requires Valid()
      modifies this, header, lacingVals, granuleVals
      ensures Valid() && header == old(header)
      ensures var (t, pages) := PageOut(old(Abs()), nfill);
        && Abs() == t && r == (pages != []) && (r ==> |pages[0].segs| <= 255 && page == ToPage(pages[0]))
    {
      hide Pends, Sizes, ToPage, Flush;
      var force := false;
      if (eos && lacingFill > 0) || (lacingFill > 0 && !bos) {
        force := true;
      }
      r, page := FlushInternal(force, nfill);
    }
  }

  /** A number written a byte at a time, least significant first. */
  method WriteNumber(a: array<Byte>, at: nat, number: int, n: nat)
    requires at + n <= a.Length
    modifies a
    ensures a[at..at + n] == LittleEndian(number, n)
    ensures forall i :: 0 <= i < at || at + n <= i < a.Length ==> a[i] == old(a[i])
  {
    var v := number;
    for i := 0 to n
      invariant a[at..at + i] + LittleEndian(v, n - i) == LittleEndian(number, n)
      invariant forall j :: 0 <= j < at || at + n <= j < a.Length ==> a[j] == old(a[j])
    {
      ghost var before := a[at..at + i];
      a[at + i] := v % 256;
      assert a[at..at + i + 1] == before + [v % 256];
      v := v / 256;
    }
  }

  /** The flag byte, a bit at a time. */
  method FlagByte(continued: bool, first: bool, last: bool) returns (flags: Byte)
    ensures flags == Flags(continued, first, last)
  {
    flags := 0;
    if continued {
      flags := flags + 1;
    }
    if first {
      flags := flags + 2;
    }
    if last {
      flags := flags + 4;
    }
  }

  /** All of a header in front of the segment table, the checksum still zero. */
  function Front(flags: Byte, granule: int, serialno: int, number: int, vals: Byte): seq<Byte> {
    CAPTURE + [0, flags] + LittleEndian(granule, 8) + LittleEndian(serialno, 4) + LittleEndian(number, 4)
    + [0, 0, 0, 0] + [vals]
  }

  method WriteFront(a: array<Byte>, flags: Byte, granule: int, serialno: int, number: int, vals: Byte)
    requires a.Length >= 27
    modifies a
    ensures a[..27] == Front(flags, granule, serialno, number, vals)
  {
    hide LittleEndian;
    WriteAt(a, 0, CAPTURE);
    a[4] := 0;
    a[5] := flags;
    WriteFields(a, granule, serialno, number);
    a[26] := vals;
    assert a[..27] == a[0..4] + [a[4], a[5]] + a[6..14] + a[14..18] + a[18..22] + a[22..26] + [a[26]];
  }

  /** Granule position, serial number, page number and a zero checksum. */
  method WriteFields(a: array<Byte>, granule: int, serialno: int, number: int)
    requires a.Length >= 26
    modifies a
    ensures a[6..14] == LittleEndian(granule, 8)
    ensures a[14..18] == LittleEndian(serialno, 4)
    ensures a[18..22] == LittleEndian(number, 4)
    ensures a[22..26] == [0, 0, 0, 0]
    ensures forall i :: 0 <= i < 6 || 26 <= i < a.Length ==> a[i] == old(a[i])
  {
    hide LittleEndian;
    WriteNumber(a, 6, granule, 8);
    WriteNumber(a, 14, serialno, 4);
    WriteNumber(a, 18, number, 4);
    WriteAt(a, 22, [0, 0, 0, 0]);
  }

  lemma {:induction false} AssembledHeader(info: PageInfo)
    requires |info.segs| <= 255 && info.version == 0
    ensures Front(Flags(info.continued, info.bos, info.eos), info.granulepos, info.serialno, info.pageno, |info.segs|)
      + Lacing(info.segs) == RawHeader(info)
  {
    hide LittleEndian, Lacing;
  }

  lemma {:induction false} GatherPrefix(iov: seq<seq<Byte>>, n: nat)
    requires n <= |iov|
    ensures |Gather(iov[..n])| <= |Gather(iov)|
    ensures n == 0 ==> Gather(iov[..n]) == []
    decreases |iov|
  {
    if n < |iov| {
      GatherPrefix(iov[..|iov| - 1], n);
      assert iov[..|iov| - 1][..n] == iov[..n];
    } else {
      assert iov[..n] == iov;
    }
  }

  lemma {:induction false} GatherNext(iov: seq<seq<Byte>>, i: nat)
    requires i < |iov|
    ensures Gather(iov[..i + 1]) == Gather(iov[..i]) + iov[i]
  {
    assert iov[..i + 1][..i] == iov[..i];
  }

  method TotalLength(iov: seq<seq<Byte>>) returns (bytes: nat)
    ensures bytes == |Gather(iov)|
  {
    bytes := 0;
    for i := 0 to |iov|
      invariant bytes == |Gather(iov[..i])|
    {
      assert iov[..i + 1][..i] == iov[..i];
      bytes := bytes + |iov[i]|;
    }
    assert iov[..|iov|] == iov;
  }
}
