/** Finding pages in a byte stream: what ogg_sync_pageseek and ogg_sync_pageout compute, and a reference scanner. */
module Resync {
  import opened Bytes
  import opened PageFormat
  import opened Sequences

  const LETTER_O: Byte := 0x4f

  /** What the front of a byte string is, as far as it can be told. */
  datatype Verdict = Incomplete | Whole(size: nat) | NotAPage

  function HeaderSize(u: seq<Byte>): (n: nat)
    requires |u| >= 27
    ensures 27 <= n <= 282
  {
    u[26] as int + 27
  }

  function PageSize(u: seq<Byte>): (n: nat)
    requires |u| >= 27 && |u| >= HeaderSize(u)
    ensures n >= HeaderSize(u)
  {
    HeaderSize(u) + Sum(u[27..HeaderSize(u)])
  }

  /** The first n bytes taken as a page. */
  function PageAt(u: seq<Byte>): (p: Page)
    requires |u| >= 27 && |u| >= HeaderSize(u) && |u| >= PageSize(u)
    ensures WellSized(p)
    ensures p.header + p.body == u[..PageSize(u)]
  {
    Page(u[..HeaderSize(u)], u[HeaderSize(u)..PageSize(u)])
  }

  function Judge(u: seq<Byte>): (v: Verdict)
    ensures v.NotAPage? ==> |u| >= 27
    ensures v.Whole? ==> 27 <= v.size <= |u| && |u| >= HeaderSize(u) && v.size == PageSize(u)
  {
    if |u| < 27 then Incomplete
    else if u[..4] != CAPTURE then NotAPage
    else if |u| < HeaderSize(u) || |u| < PageSize(u) then Incomplete
    else if ChecksumHolds(PageAt(u)) then Whole(PageSize(u))
    else NotAPage
  }

  /** The reference scanner: give up a byte at a time until a page is found. */
  function Pages(s: seq<Byte>): seq<Page> {
    match Judge(s)
    case Incomplete => []
    case Whole(n) => [PageAt(s)] + Pages(s[n..])
    case NotAPage => Pages(s[1..])
  }

  datatype Outcome = More | Hole | Got(page: Page)

  /** The same, with what a caller is told: every page, and one hole for each time that sync is lost. */
  function Scanned(s: seq<Byte>, unsynced: bool): seq<Outcome>
    decreases |s|
  {
    match Judge(s)
    case Incomplete => []
    case Whole(n) => [Got(PageAt(s))] + Scanned(s[n..], false)
    case NotAPage => (if unsynced then [] else [Hole]) + Scanned(s[1..], true)
  }

  function PagesOf(outcomes: seq<Outcome>): (pages: seq<Page>)
    ensures |pages| <= |outcomes|
  {
    if outcomes == [] then []
    else (if outcomes[0].Got? then [outcomes[0].page] else []) + PagesOf(outcomes[1..])
  }

  /** Holes aside, these are the pages. */
  lemma {:induction false} PagesOfScanned(s: seq<Byte>, unsynced: bool)
    ensures PagesOf(Scanned(s, unsynced)) == Pages(s)
    decreases |s|
  {
    hide Judge, PageAt;
    match Judge(s)
    case Incomplete =>
    case Whole(n) =>
      PagesOfScanned(s[n..], false);
      OneMore(Got(PageAt(s)), Scanned(s[n..], false));
    case NotAPage =>
      PagesOfScanned(s[1..], true);
      OneMore(Hole, Scanned(s[1..], true));
      assert [] + Scanned(s[1..], true) == Scanned(s[1..], true);
  }

  lemma {:induction false} OneMore(x: Outcome, rest: seq<Outcome>)
    ensures PagesOf([x] + rest) == (if x.Got? then [x.page] else []) + PagesOf(rest)
  {
    assert ([x] + rest)[1..] == rest;
  }

  /** Where the next capture pattern might start: the first 'O' from k on, or the end. */
  function NextO(u: seq<Byte>, k: nat): (n: nat)
    requires k <= |u|
    ensures k <= n <= |u|
    ensures forall i :: k <= i < n ==> u[i] != LETTER_O
    ensures n < |u| ==> u[n] == LETTER_O
    decreases |u| - k
  {
    if k == |u| || u[k] == LETTER_O then k else NextO(u, k + 1)
  }

  datatype Scan = NeedMore | Found(size: nat) | Skip(size: nat)

  /** ogg_sync_pageseek on the unread bytes: 0, n or -n. */
  function Seek(u: seq<Byte>): (r: Scan)
    ensures r.Found? ==> 27 <= r.size <= |u|
    ensures r.Skip? ==> 1 <= r.size <= |u|
  {
    match Judge(u)
    case Incomplete => NeedMore
    case Whole(n) => Found(n)
    case NotAPage => Skip(NextO(u, 1))
  }

  datatype Out = Out(outcome: Outcome, unread: seq<Byte>, unsynced: bool)

  /** ogg_sync_pageout: 0, -1 or 1, the bytes left unread and the state of the hole report. */
  function PageOut(u: seq<Byte>, unsynced: bool): Out
    decreases |u|
  {
    match Seek(u)
    case NeedMore => Out(More, u, unsynced)
    case Found(n) => Out(Got(PageAt(u)), u[n..], false)
    case Skip(n) => if unsynced then PageOut(u[n..], true) else Out(Hole, u[n..], true)
  }

  datatype Drained = Drained(outcomes: seq<Outcome>, rest: seq<Byte>, unsynced: bool)

  /** Calling ogg_sync_pageout until it asks for more data. */
  function Drain(u: seq<Byte>, unsynced: bool): Drained
    decreases |u|
  {
    var out := PageOut(u, unsynced);
    PageOutShrinks(u, unsynced);
    if out.outcome.More? then Drained([], out.unread, out.unsynced)
    else
      var d := Drain(out.unread, out.unsynced);
      d.(outcomes := [out.outcome] + d.outcomes)
  }

  lemma {:induction false} PageOutShrinks(u: seq<Byte>, unsynced: bool)
    ensures var out := PageOut(u, unsynced);
      && |out.unread| <= |u|
      && (!out.outcome.More? ==> |out.unread| < |u|)
      && (out.outcome.More? ==> Judge(out.unread) == Incomplete)
    decreases |u|
  {
    var r := Seek(u);
    if r.Skip? && unsynced {
      PageOutShrinks(u[r.size..], true);
    }
  }

  lemma {:induction false} SizesExtend(u: seq<Byte>, v: seq<Byte>)
    requires |u| >= 27 && |u| >= HeaderSize(u)
    ensures HeaderSize(u + v) == HeaderSize(u) && PageSize(u + v) == PageSize(u)
    ensures (u + v)[..4] == u[..4]
  {
    assert (u + v)[27..HeaderSize(u)] == u[27..HeaderSize(u)];
  }

  lemma {:induction false} PageAtExtends(u: seq<Byte>, v: seq<Byte>)
    requires |u| >= 27 && |u| >= HeaderSize(u) && |u| >= PageSize(u)
    ensures HeaderSize(u + v) == HeaderSize(u) && PageSize(u + v) == PageSize(u)
    ensures PageAt(u + v) == PageAt(u)
  {
    SizesExtend(u, v);
    var s, h, n := u + v, HeaderSize(u), PageSize(u);
    assert s[..h] == u[..h] && s[h..n] == u[h..n];
  }

  /** A verdict other than "incomplete" is not changed by later bytes. */
  lemma {:induction false} JudgeExtends(u: seq<Byte>, v: seq<Byte>)
    requires Judge(u) != Incomplete
    ensures Judge(u + v) == Judge(u)
    ensures Judge(u).Whole? ==> PageAt(u + v) == PageAt(u)
  {
    if u[..4] == CAPTURE {
      PageAtExtends(u, v);
      assert (u + v)[..4] == u[..4];
    } else {
      assert (u + v)[..4] == u[..4];
    }
  }

  /** No page starts at a byte other than 'O'. */
  lemma {:induction false} SkipOne(s: seq<Byte>)
    requires s != [] && s[0] != LETTER_O
    ensures Scanned(s, true) == Scanned(s[1..], true)
  {
    if |s| >= 27 {
      assert s[..4][0] != CAPTURE[0];
    }
  }

  lemma {:induction false} SkipMany(s: seq<Byte>, k: nat, n: nat)
    requires k <= n <= |s| && forall i :: k <= i < n ==> s[i] != LETTER_O
    ensures Scanned(s[k..], true) == Scanned(s[n..], true)
    decreases n - k
  {
    if k < n {
      SkipOne(s[k..]);
      assert s[k..][1..] == s[k + 1..];
      SkipMany(s, k + 1, n);
    }
  }

  /** The jump to the next 'O' passes over no page, whatever bytes come later, and is one loss of sync. */
  lemma {:induction false} JumpIsSafe(u: seq<Byte>, v: seq<Byte>, unsynced: bool)
    requires Judge(u) == NotAPage
    ensures Scanned(u + v, unsynced) == (if unsynced then [] else [Hole]) + Scanned(u[NextO(u, 1)..] + v, true)
    ensures Pages(u + v) == Pages(u[NextO(u, 1)..] + v)
  {
    JudgeExtends(u, v);
    var s, n := u + v, NextO(u, 1);
    SkipMany(s, 1, n);
    assert s[n..] == u[n..] + v;
    PagesOfScanned(s[1..], true);
    PagesOfScanned(s[n..], true);
  }

  /** One call of ogg_sync_pageout takes the next page or hole off the front of the reference scan. */
  lemma {:induction false} PageOutRefines(u: seq<Byte>, unsynced: bool, v: seq<Byte>)
    ensures var out := PageOut(u, unsynced);
      Scanned(u + v, unsynced)
        == (if out.outcome.More? then [] else [out.outcome]) + Scanned(out.unread + v, out.unsynced)
    decreases |u|
  {
    match Seek(u)
    case NeedMore =>
    case Found(n) =>
      JudgeExtends(u, v);
      assert (u + v)[n..] == u[n..] + v;
    case Skip(n) =>
      JumpIsSafe(u, v, unsynced);
      if unsynced {
        PageOutRefines(u[n..], true, v);
      }
  }

  lemma {:induction false} DrainRefines(u: seq<Byte>, unsynced: bool, v: seq<Byte>)
    ensures var d := Drain(u, unsynced);
      && Scanned(u + v, unsynced) == d.outcomes + Scanned(d.rest + v, d.unsynced)
      && Judge(d.rest) == Incomplete
    decreases |u|
  {
    PageOutRefines(u, unsynced, v);
    PageOutShrinks(u, unsynced);
    var out := PageOut(u, unsynced);
    hide PageOut, Scanned, Judge;
    if !out.outcome.More? {
      DrainRefines(out.unread, out.unsynced, v);
      var d := Drain(out.unread, out.unsynced);
      Reassociate(out.outcome, d.outcomes, Scanned(d.rest + v, d.unsynced));
    }
  }

  lemma {:induction false} Reassociate(x: Outcome, a: seq<Outcome>, b: seq<Outcome>)
    ensures [x] + (a + b) == ([x] + a) + b
  {}

  /** Feeding a stream in pieces, draining the scanner after each. */
  function Feed(u: seq<Byte>, unsynced: bool, chunks: seq<seq<Byte>>): seq<Outcome>
    decreases |chunks|
  {
    if chunks == [] then [] else
    var d := Drain(u + chunks[0], unsynced);
    d.outcomes + Feed(d.rest, d.unsynced, chunks[1..])
  }

  lemma {:induction false} FeedRefines(u: seq<Byte>, unsynced: bool, chunks: seq<seq<Byte>>)
    requires Judge(u) == Incomplete
    ensures Feed(u, unsynced, chunks) == Scanned(u + Flat(chunks), unsynced)
    decreases |chunks|
  {
    if chunks == [] {
      assert u + Flat(chunks) == u;
    } else {
      hide Judge, Drain;
      var later := Flat(chunks[1..]);
      var d := Drain(u + chunks[0], unsynced);
      DrainRefines(u + chunks[0], unsynced, later);
      assert u + Flat(chunks) == (u + chunks[0]) + later;
      FeedRefines(d.rest, d.unsynced, chunks[1..]);
    }
  }

  /** However a byte stream is cut into pieces, pages and holes come out as from the reference scanner, in order. */
  lemma {:induction false} ChunkIndependence(chunks: seq<seq<Byte>>)
    ensures Feed([], false, chunks) == Scanned(Flat(chunks), false)
    ensures PagesOf(Feed([], false, chunks)) == Pages(Flat(chunks))
  {
    FeedRefines([], false, chunks);
    assert [] + Flat(chunks) == Flat(chunks);
    PagesOfScanned(Flat(chunks), false);
  }

  /** Pages that a writer may emit. */
  predicate Sound(p: Page) {
    WellSized(p) && p.header[..4] == CAPTURE && ChecksumHolds(p)
  }

  function Serialise(pages: seq<Page>): seq<Byte> {
    if pages == [] then [] else pages[0].header + pages[0].body + Serialise(pages[1..])
  }

  lemma {:induction false} SoundPageIsWhole(p: Page, v: seq<Byte>)
    requires Sound(p)
    ensures var s := p.header + p.body + v;
      Judge(s) == Whole(|p.header| + |p.body|) && PageAt(s) == p
  {
    var u := p.header + p.body;
    var h := |p.header|;
    assert u[..4] == p.header[..4];
    assert u[26] == p.header[26];
    assert u[27..h] == p.header[27..];
    assert u[..h] == p.header && u[h..] == p.body;
    assert PageAt(u) == p;
    JudgeExtends(u, v);
  }

  function AllGot(pages: seq<Page>): (outcomes: seq<Outcome>)
    ensures |outcomes| == |pages|
  {
    if pages == [] then [] else [Got(pages[0])] + AllGot(pages[1..])
  }

  lemma {:induction false} PagesOfAllGot(pages: seq<Page>)
    ensures PagesOf(AllGot(pages)) == pages
  {
    if pages != [] {
      PagesOfAllGot(pages[1..]);
      OneMore(Got(pages[0]), AllGot(pages[1..]));
    }
  }

  /** A stream of sound pages is scanned into exactly those pages, and sync is never lost. */
  lemma {:induction false} ScanOfPages(pages: seq<Page>)
    requires forall p :: p in pages ==> Sound(p)
    ensures Scanned(Serialise(pages), false) == AllGot(pages)
    ensures Pages(Serialise(pages)) == pages
  {
    PagesOfAllGot(pages);
    PagesOfScanned(Serialise(pages), false);
    if pages != [] {
      var p := pages[0];
      var later := Serialise(pages[1..]);
      SoundPageIsWhole(p, later);
      assert (p.header + p.body + later)[|p.header| + |p.body|..] == later;
      ScanOfPages(pages[1..]);
    }
  }

  /** Whatever the bytes, only sound pages come out. */
  lemma {:induction false} ScanIsSound(s: seq<Byte>)
    ensures forall p :: p in Pages(s) ==> Sound(p)
    decreases |s|
  {
    match Judge(s)
    case Incomplete =>
    case Whole(n) =>
      ScanIsSound(s[n..]);
      assert s[..HeaderSize(s)][..4] == s[..4];
    case NotAPage =>
      ScanIsSound(s[1..]);
  }
}
