/** ogg_sync_state: a growing buffer that is filled at one end and scanned for pages at the other. */
module SyncLayer {
  import opened Buffers
  import opened Bytes
  import opened PageChecksum
  import opened PageFormat
  import opened Resync

  class SyncState {
    var data: array<Byte>
    var fill: nat
    var returned: nat
    var unsynced: bool
    var headerbytes: nat
    var bodybytes: nat

    ghost predicate Valid()
      reads this, data
    {
      && returned <= fill <= data.Length
      && (headerbytes == 0 ==> bodybytes == 0)
      && (headerbytes > 0 ==> SizesCached())
    }

    /** The sizes kept from an earlier look at a page that was not complete yet. */
    ghost predicate SizesCached()
      requires returned <= fill <= data.Length
      reads this, data
    {
      var u := Unread();
      && |u| >= 27 && u[..4] == CAPTURE
      && headerbytes == HeaderSize(u) && |u| >= headerbytes
      && bodybytes == PageSize(u) - headerbytes
    }

    ghost function Unread(): (u: seq<Byte>)
      requires returned <= fill <= data.Length
      reads this, data
      ensures |u| == fill - returned
    {
      data[returned..fill]
    }

    constructor ()
      ensures Valid() && Unread() == [] && !unsynced && fresh(data)
    {
      data := new Byte[0];
      fill, returned, unsynced, headerbytes, bodybytes := 0, 0, false, 0, 0;
    }

    /** ogg_sync_buffer: makes room for size more bytes at the fill mark. */
    method Buffer(size: nat)
      requires Valid()
      modifies this, data
      ensures Valid() && Unread() == old(Unread()) && unsynced == old(unsynced)
      ensures data.Length - fill >= size && returned == 0
      ensures data == old(data) || fresh(data)
    {
      ghost var u := Unread();
      if returned > 0 {
        fill := fill - returned;
        MoveDown(data, returned, fill);
        returned := 0;
      }
      assert data[..fill] == u;
      if size > data.Length - fill {
        var bigger := new Byte[size + fill + 4096];
        CopyPrefix(data, bigger, fill);
        data := bigger;
      }
      assert Unread() == u;
    }

    /** ogg_sync_wrote: bytes more bytes were put at the fill mark. */
    method Wrote(bytes: nat) returns (ok: bool)
      requires Valid()
      modifies this
      ensures ok == (old(fill) + bytes <= data.Length)
      ensures data == old(data) && unsynced == old(unsynced)
      ensures ok ==> Valid() && Unread() == old(Unread()) + data[old(fill)..old(fill) + bytes]
      ensures !ok ==> Valid() && Unread() == old(Unread())
    {
      if fill + bytes > data.Length {
        return false;
      }
      ghost var u := Unread();
      fill := fill + bytes;
      assert Unread() == u + data[fill - bytes..fill];
      if headerbytes > 0 {
        SizesExtend(u, data[fill - bytes..fill]);
      }
      ok := true;
    }

    /** A caller's use of the two: ask for room, copy the bytes in, report them. */
    method Submit(chunk: seq<Byte>)
      requires Valid()
      modifies this, data
      ensures Valid() && Unread() == old(Unread()) + chunk && unsynced == old(unsynced)
      ensures data == old(data) || fresh(data)
    {
      Buffer(|chunk|);
      ghost var u := Unread();
      WriteAt(data, fill, chunk);
      assert Unread() == u;
      var ok := Wrote(|chunk|);
    }

    /**
     ogg_sync_pageseek: a page of n > 0 bytes, n < 0 bytes skipped, or 0 when more data is needed.
     The checksum is recomputed in the buffer itself and put back when it does not match.
     */
    method PageSeek() returns (n: int, page: Page)
      requires Valid()
      modifies this, data
      ensures Valid() && data == old(data)
      ensures match Seek(old(Unread()))
        case NeedMore => n == 0 && Unread() == old(Unread()) && unsynced == old(unsynced)
        case Found(size) =>
          n == size && page == PageAt(old(Unread())) && Unread() == old(Unread())[size..] && !unsynced
        case Skip(size) => n == 0 - size && Unread() == old(Unread())[size..] && unsynced == old(unsynced)
    {
      hide Judge, ChecksumHolds, NextO, PageAt, PageSize, HeaderSize, SizesCached;
      page := Page([], []);
      if headerbytes == 0 {
        var capture := ReadHeader();
        if capture == 0 {
          return 0, page;
        } else if capture < 0 {
          n := SyncFail();
          return;
        }
      }
      CachedVerdict();
      if bodybytes + headerbytes > fill - returned {
        return 0, page;
      }
      n, page := CheckPage();
    }

    lemma {:induction false} CachedVerdict()
      requires Valid() && headerbytes > 0
      ensures var u := Unread();
        && |u| >= 27 && headerbytes == HeaderSize(u) && |u| >= headerbytes && headerbytes + bodybytes == PageSize(u)
        && Judge(u) == if |u| < headerbytes + bodybytes then Incomplete
                       else if ChecksumHolds(PageAt(u)) then Whole(headerbytes + bodybytes) else NotAPage
    {
      hide Judge, ChecksumHolds;
      JudgeBySizes(Unread(), headerbytes, bodybytes);
    }

    /** The rest of ogg_sync_pageseek once the whole page is buffered. */
    method CheckPage() returns (n: int, page: Page)
      requires Valid() && headerbytes > 0 && headerbytes + bodybytes <= fill - returned
      modifies this, data
      ensures Valid() && data == old(data)
      ensures old(ChecksumHolds(PageAt(Unread()))) ==>
        && n == old(PageSize(Unread())) && page == old(PageAt(Unread()))
        && Unread() == old(Unread())[n..] && !unsynced
      ensures !old(ChecksumHolds(PageAt(Unread()))) ==>
        && n == 0 - NextO(old(Unread()), 1)
        && Unread() == old(Unread())[-n..] && unsynced == old(unsynced)
    {
      hide ChecksumHolds;
      page := Page([], []);
      var good := Verify();
      if good {
        page := TakePage();
        n := |page.header| + |page.body|;
      } else {
        n := SyncFail();
      }
    }

    /** The header part of ogg_sync_pageseek: 1 when the sizes are known, -1 for no page here, 0 for more data. */
    method ReadHeader() returns (r: int)
      requires Valid() && headerbytes == 0
      modifies this`headerbytes, this`bodybytes
      ensures Valid() && -1 <= r <= 1
      ensures r == -1 ==> headerbytes == 0 && Judge(Unread()) == NotAPage
      ensures r == 0 ==> headerbytes == 0 && Judge(Unread()) == Incomplete
      ensures r == 1 ==> headerbytes > 0
    {
      ghost var u := Unread();
      EarlyVerdict(u);
      hide Judge, Sum, HeaderSize, PageSize;
      if fill - returned < 27 {
        return 0;
      }
      SliceOfSlice(data[..], returned, fill, 0, 4);
      if data[returned..returned + 4] != CAPTURE {
        return -1;
      }
      var size := data[returned + 26] as int + 27;
      assert size == u[26] as int + 27;
      if fill - returned < size {
        return 0;
      }
      SliceOfSlice(data[..], returned, fill, 27, size);
      bodybytes := SumTable(data, returned + 27, data[returned + 26]);
      headerbytes := size;
      SizesAre(u, size, bodybytes);
      r := 1;
    }

    /** Hands out the page at the read mark. */
    method TakePage() returns (page: Page)
      requires Valid() && headerbytes > 0 && headerbytes + bodybytes <= fill - returned
      modifies this
      ensures Valid() && data == old(data) && !unsynced
      ensures page == old(PageAt(Unread())) && Unread() == old(Unread())[|page.header| + |page.body|..]
      ensures |page.header| + |page.body| == old(PageSize(Unread()))
    {
      ghost var u := Unread();
      var h, b := headerbytes, bodybytes;
      CutAt(u, h, b);
      hide Sum, Judge, ChecksumHolds, NextO, HeaderSize, PageSize, PageAt, SizesCached;
      page := Page(data[returned..returned + h], data[returned + h..returned + h + b]);
      SliceOfSlice(data[..], returned, fill, 0, h);
      SliceOfSlice(data[..], returned, fill, h, h + b);
      unsynced := false;
      SliceOfSlice(data[..], returned, fill, h + b, fill - returned);
      returned := returned + h + b;
      headerbytes, bodybytes := 0, 0;
    }

    /** Recomputes the checksum of the page at the read mark in place; the buffer ends as it was. */
    method Verify() returns (good: bool)
      requires Valid() && headerbytes > 0 && headerbytes + bodybytes <= fill - returned
      modifies data
      ensures data[..] == old(data[..])
      ensures good == ChecksumHolds(PageAt(Unread()))
    {
      hide ChecksumHolds;
      var h, n := returned, headerbytes;
      ghost var page, all := PageAt(Unread()), data[..];
      SliceOfSlice(data[..], returned, fill, 0, n);
      SliceOfSlice(data[..], returned, fill, n, n + bodybytes);
      good := ChecksumMatches(data, h, n, bodybytes);
      assert data[..] == all;
    }

    /** The sync_fail path: give up the page and move to the next 'O'. */
    method SyncFail() returns (n: int)
      requires returned < fill <= data.Length
      modifies this
      ensures Valid() && data == old(data) && fill == old(fill) && unsynced == old(unsynced)
      ensures n == 0 - NextO(old(Unread()), 1) && Unread() == old(Unread())[-n..]
    {
      headerbytes, bodybytes := 0, 0;
      ghost var u := Unread();
      var next := returned + 1;
      while next < fill && data[next] != LETTER_O
        invariant returned + 1 <= next <= fill
        invariant NextO(u, 1) == NextO(u, next - returned)
      {
        assert u[next - returned] == data[next];
        next := next + 1;
      }
      n := returned - next;
      returned := next;
      assert Unread() == u[-n..];
    }

    /** ogg_sync_pageout: 1 and a page, 0 for more data, or -1 once per loss of sync. */
    method PageOut() returns (r: int, page: Page)
      requires Valid()
      modifies this, data
      ensures Valid() && data == old(data)
      ensures var out := Resync.PageOut(old(Unread()), old(unsynced));
        && Unread() == out.unread && unsynced == out.unsynced
        && r == (match out.outcome case More => 0 case Hole => -1 case Got(_) => 1)
        && (out.outcome.Got? ==> page == out.outcome.page)
    {
      hide Judge, ChecksumHolds, NextO, PageAt, PageSize, HeaderSize, Resync.PageOut;
      ghost var u, s := Unread(), unsynced;
      while true
        invariant Valid() && data == old(data)
        invariant Resync.PageOut(u, s) == Resync.PageOut(Unread(), unsynced)
        decreases |Unread()|
      {
        PageOutStep(Unread(), unsynced);
        var n;
        n, page := PageSeek();
        if n > 0 {
          return 1, page;
        }
        if n == 0 {
          return 0, page;
        }
        if !unsynced {
          unsynced := true;
          return -1, page;
        }
      }
    }
  }

  lemma {:induction false} CutAt(u: seq<Byte>, h: nat, b: nat)
    requires |u| >= 27 && h == HeaderSize(u) && h <= |u| && h + b == PageSize(u) && h + b <= |u|
    ensures PageAt(u) == Page(u[..h], u[h..h + b])
  {
    hide Sum;
  }

  /** The verdicts that need no look at the checksum. */
  lemma {:induction false} EarlyVerdict(u: seq<Byte>)
    ensures |u| < 27 ==> Judge(u) == Incomplete
    ensures |u| >= 27 && u[..4] != CAPTURE ==> Judge(u) == NotAPage
    ensures |u| >= 27 && u[..4] == CAPTURE && |u| < u[26] as int + 27 ==> Judge(u) == Incomplete
  {
    hide ChecksumHolds;
  }

  lemma {:induction false} SizesAre(u: seq<Byte>, h: nat, b: nat)
    requires |u| >= 27 && h == u[26] as int + 27 && h <= |u| && b == Sum(u[27..h])
    ensures HeaderSize(u) == h && PageSize(u) == h + b
  {}

  lemma {:induction false} PageOutStep(u: seq<Byte>, unsynced: bool)
    ensures Resync.PageOut(u, unsynced) ==
      match Seek(u)
      case NeedMore => Out(More, u, unsynced)
      case Found(n) => Out(Got(PageAt(u)), u[n..], false)
      case Skip(n) => if unsynced then Resync.PageOut(u[n..], true) else Out(Hole, u[n..], true)
  {
    hide Judge, PageAt, NextO;
  }

  lemma {:induction false} SliceOfSlice(s: seq<Byte>, from: nat, to: nat, a: nat, b: nat)
    requires from <= to <= |s| && a <= b <= to - from
    ensures s[from..to][a..b] == s[from + a..from + b]
  {
    assert forall i :: 0 <= i < b - a ==> s[from..to][a..b][i] == s[from + a..from + b][i];
  }

  lemma {:induction false} HoldsIfHeaderSame(p: Page)
    requires |p.header| >= 27
    ensures ChecksumHolds(p) == (ChecksumSet(p).header == p.header)
  {}

  /** What the verdict is once the two sizes are known. */
  lemma {:induction false} JudgeBySizes(u: seq<Byte>, h: nat, b: nat)
    requires |u| >= 27 && u[..4] == CAPTURE
    requires h == HeaderSize(u) && |u| >= h && b == PageSize(u) - h
    ensures Judge(u) ==
      if |u| < h + b then Incomplete else if ChecksumHolds(PageAt(u)) then Whole(h + b) else NotAPage
  {
    hide ChecksumHolds;
  }

  /** Saves the checksum field of the page at h, recomputes it in place, compares, and puts the old one back. */
  method ChecksumMatches(a: array<Byte>, h: nat, n: nat, b: nat) returns (good: bool)
    requires n >= 27 && h + n + b <= a.Length
    modifies a
    ensures forall i :: 0 <= i < a.Length ==> a[i] == old(a[i])
    ensures good == ChecksumHolds(Page(old(a[h..h + n]), old(a[h + n..h + n + b])))
  {
    hide *;
    ghost var page := Page(a[h..h + n], a[h + n..h + n + b]);
    HoldsIfHeaderSame(page);
    var c0, c1, c2, c3 := a[h + 22], a[h + 23], a[h + 24], a[h + 25];
    ChecksumSetInPlace(a, h, n, a, h + n, b);
    good := c0 == a[h + 22] && c1 == a[h + 23] && c2 == a[h + 24] && c3 == a[h + 25];
    SameField(page.header, a[h..h + n]);
    a[h + 22], a[h + 23], a[h + 24], a[h + 25] := c0, c1, c2, c3;
  }

  lemma {:induction false} SameField(a: seq<Byte>, b: seq<Byte>)
    requires |a| == |b| >= 27
    requires a[..22] == b[..22] && a[26..] == b[26..]
    ensures (a == b) == (a[22] == b[22] && a[23] == b[23] && a[24] == b[24] && a[25] == b[25])
  {
    if a[22] == b[22] && a[23] == b[23] && a[24] == b[24] && a[25] == b[25] {
      assert a[22..26] == b[22..26];
      assert a == a[..22] + a[22..26] + a[26..] && b == b[..22] + b[22..26] + b[26..];
    }
  }

  /** The body length a segment table of n entries adds up to. */
  method SumTable(a: array<Byte>, from: nat, n: nat) returns (total: nat)
    requires from + n <= a.Length
    ensures total == Sum(a[from..from + n])
  {
    total := 0;
    ghost var s := a[from..from + n];
    for i := 0 to n
      invariant total == Sum(s[..i])
    {
      assert s[..i + 1] == s[..i] + [s[i]];
      SumConcat(s[..i], [s[i]]);
      assert Sum([s[i]]) == s[i] as int + Sum([]);
      total := total + a[from + i];
    }
    assert s[..n] == s;
  }
}
