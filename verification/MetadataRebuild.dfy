/** The metadata blocks of a FLAC file that is encoded again: filtered, added to and shifted in place. */
module MetadataRebuild {
  import opened Wrappers

  /** A metadata block, as far as the rebuilding looks at it; id stands for the rest. */
  datatype Block =
    | StreamInfo(total: nat)
    | Comments(tags: nat, mask: Option<nat>, id: int)
    | CueSheet(leadOut: nat, id: int)
    | SeekTable(id: int)
    | Padding(length: nat)
    | Other(id: int)

  datatype Kind = Info | Tags | Cues | Seeks | Pads | Rest

  function KindOf(b: Block): Kind {
    match b
    case StreamInfo(_) => Info
    case Comments(_, _, _) => Tags
    case CueSheet(_, _) => Cues
    case SeekTable(_) => Seeks
    case Padding(_) => Pads
    case Other(_) => Rest
  }

  datatype Options = Options(
    pictures: seq<Block>, comments: Block, cuesheet: Option<Block>, seekPoints: int, template: Block,
    padding: int, total: nat, sampleRate: nat, warningsAreErrors: bool)

  predicate Sensible(o: Options) {
    && (forall i :: 0 <= i < |o.pictures| ==> o.pictures[i].Other?)
    && o.comments.Comments? && o.template.SeekTable? && o.sampleRate > 0
    && (o.cuesheet.Some? ==> o.cuesheet.value.CueSheet?)
  }

  const CAPACITY := 1024
  const DEFAULT_PADDING := 8192

  /** The blocks that stay. */
  function Without(s: seq<Block>, drop: Block -> bool): (r: seq<Block>)
    ensures |r| <= |s|
  {
    if s == [] then []
    else Without(s[..|s| - 1], drop) + if drop(s[|s| - 1]) then [] else [s[|s| - 1]]
  }

  function NotOf(k: Kind): Block -> bool {
    (b: Block) => KindOf(b) != k
  }

  function OfKind(s: seq<Block>, k: Kind): (r: seq<Block>) {
    Without(s, NotOf(k))
  }

  /** A block put in behind STREAMINFO, if there is room. */
  function Behind(s: seq<Block>, b: Block): (r: seq<Block>) {
    if 1 <= |s| < CAPACITY then s[..1] + [b] + s[1..] else s
  }

  function DropTags(o: Options): Block -> bool
    requires o.comments.Comments?
  {
    (b: Block) => b.Comments? && o.comments.tags > 0
  }

  function DropCue(o: Options): Block -> bool {
    (b: Block) => b.CueSheet? && (o.cuesheet.Some? || o.total == 0 || o.total != b.leadOut)
  }

  function DropSeek(o: Options, total: nat): Block -> bool {
    (b: Block) => b.SeekTable? && (o.total != total || o.seekPoints >= 0)
  }

  function DropPads(): Block -> bool {
    (b: Block) => b.Padding?
  }

  /** The channel mask tag of the last comment block that is replaced. */
  function MaskOf(s: seq<Block>, mask: nat): nat {
    if s == [] then mask
    else if s[|s| - 1].Comments? && s[|s| - 1].mask.Some? then s[|s| - 1].mask.value
    else MaskOf(s[..|s| - 1], mask)
  }

  function WithMask(b: Block, mask: nat): Block
    requires b.Comments?
  {
    if mask != 0 then b.(mask := Some(mask)) else b
  }

  /** A warning that stops the encoding. */
  predicate Stopped(s: seq<Block>, drop: Block -> bool, o: Options) {
    o.warningsAreErrors && Without(s, drop) != s
  }

  function TagsStep(s: seq<Block>, o: Options): (r: seq<Block>)
    requires o.comments.Comments?
  {
    var kept := Without(s, DropTags(o));
    if OfKind(s, Tags) == [] || o.comments.tags > 0 then
      Behind(kept, WithMask(o.comments, if o.comments.tags > 0 then MaskOf(s, 0) else 0))
    else kept
  }

  function CueStep(s: seq<Block>, o: Options): (r: seq<Block>) {
    var kept := Without(s, DropCue(o));
    if o.cuesheet.Some? then Behind(kept, o.cuesheet.value) else kept
  }

  function SeekStep(s: seq<Block>, o: Options): (r: seq<Block>)
    requires s != [] && s[0].StreamInfo?
  {
    var kept := Without(s, DropSeek(o, s[0].total));
    if o.seekPoints > 0 || (o.seekPoints < 0 && OfKind(kept, Seeks) == []) then Behind(kept, o.template) else kept
  }

  function PadLength(s: seq<Block>): nat {
    if s == [] then 0
    else PadLength(s[..|s| - 1]) + if s[|s| - 1].Padding? then s[|s| - 1].length else 0
  }

  function PadStep(s: seq<Block>, o: Options): (r: seq<Block>)
    requires o.sampleRate > 0
  {
    var kept := Without(s, DropPads());
    var p := if o.padding > 0 then o.padding
             else if OfKind(s, Pads) != [] then PadLength(s)
             else if o.total / o.sampleRate < 20 * 60 then DEFAULT_PADDING else DEFAULT_PADDING * 8;
    if o.padding != 0 && p > 0 && |kept| < CAPACITY then kept + [Padding(p)] else kept
  }

  class FLACDecoderData {
    var blocks: array<Block>
    var count: nat

    ghost predicate Valid()
      reads this
    {
      blocks.Length == CAPACITY && count <= CAPACITY
    }

    ghost function List(): seq<Block>
      requires Valid()
      reads this, blocks
    {
      blocks[..count]
    }

    constructor ()
      ensures Valid() && List() == [] && fresh(blocks)
    {
      blocks := new Block[CAPACITY](_ => Padding(0));
      count := 0;
    }

    /** The loops that squeeze out the blocks that are dropped. */
    method Squeeze(drop: Block -> bool) returns (dropped: bool)
      requires Valid()
      modifies this`count, blocks
      ensures Valid() && List() == Without(old(List()), drop) && dropped == (Without(old(List()), drop) != old(List()))
    {
      hide Without;
      ghost var was := List();
      var i, j := 0, 0;
      dropped := false;
      NoBlocks(was, drop);
      while i < count
        invariant 0 <= j <= i <= count == |was|
        invariant blocks[..j] == Without(was[..i], drop)
        invariant forall k :: i <= k < count ==> blocks[k] == was[k]
        invariant dropped == (j < i)
      {
        OneBlock(was, drop, i);
        if drop(blocks[i]) {
          dropped := true;
        } else {
          blocks[j] := blocks[i];
          j := j + 1;
        }
        i := i + 1;
      }
      assert was[..i] == was;
      ShorterOrSame(was, drop);
      count := j;
    }

    /** The loops that make room at index 1. */
    method Prepend(b: Block)
      requires Valid() && count >= 1
      modifies this`count, blocks
      ensures Valid() && List() == Behind(old(List()), b)
    {
      hide Without, OfKind, MaskOf, PadLength;
      if count < CAPACITY {
        var i := count;
        while i > 1
          modifies blocks
          invariant 1 <= i <= count
          invariant forall k :: 0 <= k < i ==> blocks[k] == old(blocks[k])
          invariant forall k :: i < k <= count ==> blocks[k] == old(blocks[k - 1])
        {
          blocks[i] := blocks[i - 1];
          i := i - 1;
        }
        blocks[1] := b;
        count := count + 1;
        ghost var was := old(blocks[..count]);
        assert blocks[..count] == was[..1] + [b] + was[1..];
      }
    }

    /** What the loops find out about the blocks on the way. */
    method Survey(k: Kind) returns (found: bool, mask: nat, padding: nat)
      requires Valid()
      ensures found == (OfKind(List(), k) != []) && mask == MaskOf(List(), 0) && padding == PadLength(List())
    {
      found, mask, padding := false, 0, 0;
      for i := 0 to count
        invariant found == (OfKind(blocks[..i], k) != [])
        invariant mask == MaskOf(blocks[..i], 0) && padding == PadLength(blocks[..i])
      {
        assert blocks[..i + 1][..i] == blocks[..i];
        var b := blocks[i];
        if KindOf(b) == k {
          found := true;
        }
        if b.Comments? && b.mask.Some? {
          mask := b.mask.value;
        }
        if b.Padding? {
          padding := padding + b.length;
        }
      }
    }

    method Append(b: Block)
      requires Valid() && count < CAPACITY
      modifies this`count, blocks
      ensures Valid() && List() == old(List()) + [b]
    {
      blocks[count] := b;
      count := count + 1;
    }

    method AppendPictures(pictures: seq<Block>)
      requires Valid() && count + |pictures| <= CAPACITY
      modifies this`count, blocks
      ensures Valid() && List() == old(List()) + pictures
    {
      ghost var was := List();
      for i := 0 to |pictures|
        invariant Valid() && List() == was + pictures[..i]
      {
        Append(pictures[i]);
      }
    }

    method RebuildTags(o: Options) returns (ok: bool)
      requires Valid() && count >= 1 && blocks[0].StreamInfo? && Sensible(o)
      modifies this`count, blocks
      ensures Valid() && ok == !Stopped(old(List()), DropTags(o), o) && (ok ==> List() == TagsStep(old(List()), o))
    {
      hide Without, MaskOf, PadLength, Behind;
      ghost var was := List();
      FirstStays(was, DropTags(o));
      var found, mask, padding := Survey(Tags);
      var dropped := Squeeze(DropTags(o));
      if dropped && o.warningsAreErrors {
        return false;
      }
      if !found || o.comments.tags > 0 {
        Prepend(WithMask(o.comments, if o.comments.tags > 0 then mask else 0));
      }
      ok := true;
    }

    method RebuildCues(o: Options) returns (ok: bool)
      requires Valid() && count >= 1 && blocks[0].StreamInfo? && Sensible(o)
      modifies this`count, blocks
      ensures Valid() && ok == !Stopped(old(List()), DropCue(o), o) && (ok ==> List() == CueStep(old(List()), o))
    {
      hide Without, Behind;
      FirstStays(List(), DropCue(o));
      var dropped := Squeeze(DropCue(o));
      if dropped && o.warningsAreErrors {
        return false;
      }
      if o.cuesheet.Some? {
        Prepend(o.cuesheet.value);
      }
      ok := true;
    }

    /** An existing seek table that is not wanted goes without a warning. */
    method RebuildSeeks(o: Options) returns (ok: bool)
      requires Valid() && count >= 1 && blocks[0].StreamInfo? && Sensible(o)
      modifies this`count, blocks
      ensures Valid() && ok == (o.seekPoints == 0 || !Stopped(old(List()), DropSeek(o, old(blocks[0].total)), o))
      ensures ok ==> List() == SeekStep(old(List()), o)
    {
      hide Without, Behind, MaskOf, PadLength;
      FirstStays(List(), DropSeek(o, blocks[0].total));
      var dropped := Squeeze(DropSeek(o, blocks[0].total));
      if dropped && o.seekPoints != 0 && o.warningsAreErrors {
        return false;
      }
      var existing, mask, padding := Survey(Seeks);
      if o.seekPoints > 0 || (o.seekPoints < 0 && !existing) {
        Prepend(o.template);
      }
      ok := true;
    }

    method RebuildPadding(o: Options)
      requires Valid() && Sensible(o)
      modifies this`count, blocks
      ensures Valid() && List() == PadStep(old(List()), o)
    {
      hide Without, MaskOf, PadLength;
      var found, mask, padding := Survey(Pads);
      var p := if found then padding else -1;
      var dropped := Squeeze(DropPads());
      if o.padding > 0 {
        p := o.padding;
      }
      if p < 0 {
        p := if o.total / o.sampleRate < 20 * 60 then DEFAULT_PADDING else DEFAULT_PADDING * 8;
      }
      if o.padding != 0 {
        if p > 0 && count < CAPACITY {
          Append(Padding(p));
        }
      }
    }

    /** The part of EncoderSession_init_encoder for input in FLAC format, up to the list that the encoder gets. */
    method Rebuild(o: Options) returns (ok: bool)
      requires Valid() && count >= 1 && blocks[0].StreamInfo? && Sensible(o) && count + |o.pictures| <= CAPACITY
      modifies this`count, blocks
      ensures Valid() && ok == Rebuilt(old(List()), o).Some?
      ensures ok ==> Some(List()) == Rebuilt(old(List()), o)
    {
      hide Without, Behind, OfKind, MaskOf, PadLength, Stopped, DropTags, DropCue, DropSeek, TagsStep, CueStep,
           SeekStep, PadStep;
      AppendPictures(o.pictures);
      TagsKeepsFirst(List(), o);
      ok := RebuildTags(o);
      if !ok {
        return;
      }
      CueKeepsFirst(List(), o);
      ok := RebuildCues(o);
      if !ok {
        return;
      }
      SeekKeepsFirst(List(), o);
      ok := RebuildSeeks(o);
      if !ok {
        return;
      }
      RebuildPadding(o);
    }
  }

  lemma {:induction false} FirstStays(s: seq<Block>, drop: Block -> bool)
    requires s != [] && !drop(s[0])
    ensures Without(s, drop) != [] && Without(s, drop)[0] == s[0]
    ensures Without(s, drop)[1..] == Without(s[1..], drop)
    decreases |s|
  {
    if |s| > 1 {
      FirstStays(s[..|s| - 1], drop);
      assert s[1..][..|s| - 2] == s[..|s| - 1][1..];
    } else {
      assert s[..0] == [] && s[1..] == [];
    }
  }

  lemma {:induction false} TagsKeepsFirst(s: seq<Block>, o: Options)
    requires s != [] && s[0].StreamInfo? && o.comments.Comments?
    ensures TagsStep(s, o) != [] && TagsStep(s, o)[0] == s[0]
  {
    FirstStays(s, DropTags(o));
  }

  lemma {:induction false} CueKeepsFirst(s: seq<Block>, o: Options)
    requires s != [] && s[0].StreamInfo?
    ensures CueStep(s, o) != [] && CueStep(s, o)[0] == s[0]
  {
    FirstStays(s, DropCue(o));
  }

  lemma {:induction false} SeekKeepsFirst(s: seq<Block>, o: Options)
    requires s != [] && s[0].StreamInfo?
    ensures SeekStep(s, o) != [] && SeekStep(s, o)[0] == s[0]
  {
    FirstStays(s, DropSeek(o, s[0].total));
  }

  /** The whole rebuilding, unless a warning stops it. */
  function Rebuilt(s: seq<Block>, o: Options): (r: Option<seq<Block>>)
    requires s != [] && s[0].StreamInfo? && Sensible(o)
  {
    var s0 := s + o.pictures;
    if Stopped(s0, DropTags(o), o) then None else
    TagsKeepsFirst(s0, o);
    var s1 := TagsStep(s0, o);
    if Stopped(s1, DropCue(o), o) then None else
    CueKeepsFirst(s1, o);
    var s2 := CueStep(s1, o);
    if o.seekPoints != 0 && Stopped(s2, DropSeek(o, s2[0].total), o) then None else
    Some(PadStep(SeekStep(s2, o), o))
  }

  lemma {:induction false} NoBlocks(s: seq<Block>, drop: Block -> bool)
    ensures Without(s[..0], drop) == []
  {}

  lemma {:induction false} OneBlock(s: seq<Block>, drop: Block -> bool, i: nat)
    requires i < |s|
    ensures Without(s[..i + 1], drop) == Without(s[..i], drop) + if drop(s[i]) then [] else [s[i]]
  {
    assert s[..i + 1][..i] == s[..i];
  }

  lemma {:induction false} ShorterOrSame(s: seq<Block>, drop: Block -> bool)
    ensures |Without(s, drop)| == |s| ==> Without(s, drop) == s
  {
    if s != [] {
      ShorterOrSame(s[..|s| - 1], drop);
    }
  }

  // What is left, kind by kind

  lemma {:induction false} WithoutConcat(a: seq<Block>, b: seq<Block>, drop: Block -> bool)
    ensures Without(a + b, drop) == Without(a, drop) + Without(b, drop)
    decreases |b|
  {
    if b == [] {
      assert a + b == a;
    } else {
      assert (a + b)[..|a + b| - 1] == a + b[..|b| - 1];
      WithoutConcat(a, b[..|b| - 1], drop);
    }
  }

  lemma {:induction false} WithoutOne(b: Block, drop: Block -> bool)
    ensures Without([b], drop) == if drop(b) then [] else [b]
  {
    assert [b][..0] == [];
  }

  /** Putting a block in front adds it to its kind, behind what is at index 0, and changes no other. */
  lemma {:induction false} KindBehind(s: seq<Block>, b: Block, k: Kind)
    requires 1 <= |s| < CAPACITY && s[0].StreamInfo? && KindOf(b) != Info
    ensures OfKind(Behind(s, b), k) == if KindOf(b) == k then [b] + OfKind(s, k) else OfKind(s, k)
  {
    hide Without, OfKind;
    var x, y := [s[0]], s[1..];
    assert s == x + y && Behind(s, b) == x + [b] + y;
    OfKindConcat(x + [b], y, k);
    OfKindConcat(x, [b], k);
    OfKindConcat(x, y, k);
    OfKindOne(b, k);
    OfKindOne(s[0], k);
    hide Behind, KindOf;
    var u, v, w := OfKind(x, k), OfKind([b], k), OfKind(y, k);
    assert u == [] ==> u + v + w == v + (u + w);
    assert v == [] ==> u + v + w == u + w;
  }

  lemma {:induction false} OfKindConcat(a: seq<Block>, b: seq<Block>, k: Kind)
    ensures OfKind(a + b, k) == OfKind(a, k) + OfKind(b, k)
  {
    hide Without;
    WithoutConcat(a, b, NotOf(k));
  }

  lemma {:induction false} OfKindOne(b: Block, k: Kind)
    ensures OfKind([b], k) == if KindOf(b) == k then [b] else []
  {
    WithoutOne(b, NotOf(k));
    hide Without;
  }

  /** Dropping blocks of one kind leaves the others as they are. */
  lemma {:induction false} OtherKinds(s: seq<Block>, drop: Block -> bool, k0: Kind, k: Kind)
    requires k != k0 && forall b :: drop(b) ==> KindOf(b) == k0
    ensures OfKind(Without(s, drop), k) == OfKind(s, k)
  {
    if s != [] {
      var m := |s| - 1;
      OtherKinds(s[..m], drop, k0, k);
      WithoutConcat(Without(s[..m], drop), [s[m]], NotOf(k));
      WithoutOne(s[m], NotOf(k));
      if drop(s[m]) {
        assert Without(s, drop) == Without(s[..m], drop);
      }
    }
  }

  /** Of the kind itself those stay that are not dropped. */
  lemma {:induction false} SameKind(s: seq<Block>, drop: Block -> bool, k: Kind)
    ensures OfKind(Without(s, drop), k) == Without(OfKind(s, k), drop)
  {
    if s != [] {
      var m := |s| - 1;
      var b, keep := s[m], NotOf(k);
      SameKind(s[..m], drop, k);
      WithoutConcat(Without(s[..m], drop), [b], keep);
      WithoutConcat(OfKind(s[..m], k), [b], drop);
      WithoutOne(b, keep);
      WithoutOne(b, drop);
      assert Without(s, drop) == Without(s[..m], drop) + if drop(b) then [] else [b];
      assert OfKind(s, k) == OfKind(s[..m], k) + if keep(b) then [] else [b];
      hide Without;
      if drop(b) {
        assert Without(s, drop) == Without(s[..m], drop);
      }
      if keep(b) {
        assert OfKind(s, k) == OfKind(s[..m], k);
      }
    }
  }

  lemma {:induction false} OfKindStep(s: seq<Block>, k: Kind)
    requires s != []
    ensures OfKind(s, k) == OfKind(s[..|s| - 1], k) + if KindOf(s[|s| - 1]) == k then [s[|s| - 1]] else []
  {}

  lemma {:induction false} AllDropped(s: seq<Block>, drop: Block -> bool, k: Kind)
    requires forall b :: KindOf(b) == k ==> drop(b)
    ensures Without(OfKind(s, k), drop) == []
  {
    if s != [] {
      hide Without, OfKind;
      var m := |s| - 1;
      AllDropped(s[..m], drop, k);
      OfKindStep(s, k);
      WithoutConcat(OfKind(s[..m], k), if KindOf(s[m]) == k then [s[m]] else [], drop);
      WithoutOne(s[m], drop);
      WithoutNothing(drop);
    } else {
      WithoutNothing(NotOf(k));
      WithoutNothing(drop);
    }
  }

  lemma {:induction false} NoneDropped(s: seq<Block>, drop: Block -> bool, k: Kind)
    requires forall b :: KindOf(b) == k ==> !drop(b)
    ensures Without(OfKind(s, k), drop) == OfKind(s, k)
  {
    if s != [] {
      hide Without, OfKind;
      var m := |s| - 1;
      NoneDropped(s[..m], drop, k);
      OfKindStep(s, k);
      WithoutConcat(OfKind(s[..m], k), if KindOf(s[m]) == k then [s[m]] else [], drop);
      WithoutOne(s[m], drop);
      WithoutNothing(drop);
    } else {
      WithoutNothing(NotOf(k));
      WithoutNothing(drop);
    }
  }

  lemma {:induction false} WithoutNothing(drop: Block -> bool)
    ensures Without([], drop) == []
  {}

  /** All of them, when every block of the kind is dropped; none, when none is. */
  lemma {:induction false} AllOrNone(s: seq<Block>, drop: Block -> bool, k: Kind)
    ensures (forall b :: KindOf(b) == k ==> drop(b)) ==> Without(OfKind(s, k), drop) == []
    ensures (forall b :: KindOf(b) == k ==> !drop(b)) ==> Without(OfKind(s, k), drop) == OfKind(s, k)
  {
    hide Without, OfKind;
    if forall b :: KindOf(b) == k ==> drop(b) {
      AllDropped(s, drop, k);
    }
    if forall b :: KindOf(b) == k ==> !drop(b) {
      NoneDropped(s, drop, k);
    }
  }

  /** TagsStep on all kinds. */
  lemma {:induction false} TagsKinds(s: seq<Block>, o: Options, k: Kind)
    requires 1 <= |s| < CAPACITY && s[0].StreamInfo? && o.comments.Comments?
    ensures |TagsStep(s, o)| <= |s| + 1
    ensures k != Tags ==> OfKind(TagsStep(s, o), k) == OfKind(s, k)
    ensures k == Tags ==>
      |OfKind(TagsStep(s, o), k)| == if o.comments.tags > 0 || OfKind(s, Tags) == [] then 1 else |OfKind(s, Tags)|
    ensures k == Tags && o.comments.tags > 0 ==>
      OfKind(TagsStep(s, o), k) == [WithMask(o.comments, MaskOf(s, 0))]
    ensures k == Tags && o.comments.tags == 0 ==>
      OfKind(TagsStep(s, o), k) == if OfKind(s, Tags) == [] then [o.comments] else OfKind(s, Tags)
  {
    hide Without, MaskOf;
    var drop := DropTags(o);
    var kept := Without(s, drop);
    FirstStays(s, drop);
    SameKind(s, drop, Tags);
    AllOrNone(s, drop, Tags);
    if k != Tags {
      OtherKinds(s, drop, Tags, k);
    }
    KindBehind(kept, WithMask(o.comments, if o.comments.tags > 0 then MaskOf(s, 0) else 0), k);
  }

  lemma {:induction false} CueKinds(s: seq<Block>, o: Options, k: Kind)
    requires 1 <= |s| < CAPACITY && s[0].StreamInfo? && Sensible(o)
    ensures |CueStep(s, o)| <= |s| + 1
    ensures k != Cues ==> OfKind(CueStep(s, o), k) == OfKind(s, k)
    ensures k == Cues && o.cuesheet.Some? ==> OfKind(CueStep(s, o), k) == [o.cuesheet.value]
    ensures k == Cues && o.cuesheet.None? ==> OfKind(CueStep(s, o), k) == Without(OfKind(s, Cues), DropCue(o))
  {
    hide Without;
    var drop := DropCue(o);
    FirstStays(s, drop);
    SameKind(s, drop, Cues);
    AllOrNone(s, drop, Cues);
    if k != Cues {
      OtherKinds(s, drop, Cues, k);
    }
    if o.cuesheet.Some? {
      KindBehind(Without(s, drop), o.cuesheet.value, k);
    }
  }

  /** The seek tables that are left: none if none is wanted, the file's own if its length stays, else the new one. */
  function SeeksAfter(s: seq<Block>, o: Options): seq<Block>
    requires s != [] && s[0].StreamInfo?
  {
    if o.seekPoints == 0 then []
    else if o.seekPoints < 0 && o.total == s[0].total && OfKind(s, Seeks) != [] then OfKind(s, Seeks)
    else [o.template]
  }

  lemma {:induction false} SeekKinds(s: seq<Block>, o: Options, k: Kind)
    requires 1 <= |s| < CAPACITY && s[0].StreamInfo? && Sensible(o)
    ensures |SeekStep(s, o)| <= |s| + 1
    ensures k != Seeks ==> OfKind(SeekStep(s, o), k) == OfKind(s, k)
    ensures k == Seeks ==> OfKind(SeekStep(s, o), k) == SeeksAfter(s, o)
  {
    hide Without;
    var drop := DropSeek(o, s[0].total);
    FirstStays(s, drop);
    SameKind(s, drop, Seeks);
    AllOrNone(s, drop, Seeks);
    if k != Seeks {
      OtherKinds(s, drop, Seeks, k);
    }
    KindBehind(Without(s, drop), o.template, k);
  }

  lemma {:induction false} PadKinds(s: seq<Block>, o: Options, k: Kind)
    requires o.sampleRate > 0 && |s| < CAPACITY
    ensures k != Pads ==> OfKind(PadStep(s, o), k) == OfKind(s, k)
    ensures k == Pads ==> OfKind(PadStep(s, o), k) == PadsAfter(OfKind(s, Pads), o)
    ensures OfKind(PadStep(s, o), Pads) != [] ==> var r := PadStep(s, o); r != [] && r[|r| - 1].Padding?
    ensures s != [] && s[0].StreamInfo? ==> PadStep(s, o) != [] && PadStep(s, o)[0] == s[0]
  {
    hide Without, OfKind, PadStep, PadsAfter;
    var drop := DropPads();
    var kept, pads := Without(s, drop), PadsAfter(OfKind(s, Pads), o);
    PadStepIs(s, o);
    AllOrNone(s, drop, Pads);
    SameKind(s, drop, Pads);
    if k != Pads {
      OtherKinds(s, drop, Pads, k);
    }
    if s != [] && s[0].StreamInfo? {
      FirstStays(s, drop);
    }
    hide DropPads;
    PadsOnly(OfKind(s, Pads), o, k);
    PadsOnly(OfKind(s, Pads), o, Pads);
    OfKindConcat(kept, pads, k);
    OfKindConcat(kept, pads, Pads);
  }

  lemma {:induction false} PadsOnly(own: seq<Block>, o: Options, k: Kind)
    ensures var pads := PadsAfter(own, o);
      && OfKind(pads, k) == (if k == Pads then pads else [])
      && (pads != [] ==> pads[|pads| - 1].Padding?)
  {
    hide Without, PadLength;
    var pads := PadsAfter(own, o);
    NoneOfKind(k);
    if pads != [] {
      OfKindOne(pads[0], k);
    }
  }

  lemma {:induction false} NoneOfKind(k: Kind)
    ensures OfKind([], k) == []
  {}

  /** The padding that comes behind what is left. */
  lemma {:induction false} PadStepIs(s: seq<Block>, o: Options)
    requires o.sampleRate > 0 && |Without(s, DropPads())| < CAPACITY
    ensures PadStep(s, o) == Without(s, DropPads()) + PadsAfter(OfKind(s, Pads), o)
  {
    hide Without, OfKind, PadLength;
    PadsCount(s);
    TwentyMinutes(o.total, o.sampleRate);
  }

  lemma {:induction false} TwentyMinutes(total: nat, rate: nat)
    requires rate > 0
    ensures total / rate < 20 * 60 <==> total < 1200 * rate
  {
    var q, r := total / rate, total % rate;
    assert total == rate * q + r;
    assert q < 1200 ==> rate * q <= rate * 1199;
    assert q >= 1200 ==> rate * q >= rate * 1200;
  }

  lemma {:induction false} OnlyRest(s: seq<Block>, k: Kind)
    requires forall i :: 0 <= i < |s| ==> s[i].Other?
    ensures OfKind(s, k) == if k == Rest then s else []
  {
    if s != [] {
      OnlyRest(s[..|s| - 1], k);
    }
  }

  // What stays and what is added, in terms of the blocks

  /** The sum of the lengths: none for no padding, and the lengths of two lists add up. */
  lemma {:induction false} PadLengthSums(a: seq<Block>, b: seq<Block>, n: nat)
    ensures PadLength(a + b) == PadLength(a) + PadLength(b)
    ensures PadLength([Padding(n)]) == n && PadLength([]) == 0
    decreases |a| + |b|
  {
    assert [Padding(n)][..0] == [];
    if b != [] {
      assert (a + b)[..|a + b| - 1] == a + b[..|b| - 1];
      PadLengthSums(a, b[..|b| - 1], n);
    } else {
      assert a + b == a;
      if a != [] {
        PadLengthSums(a[..|a| - 1], b, n);
      }
    }
  }

  /** The cue sheets whose lead-out is at n. */
  function CuesEndingAt(s: seq<Block>, n: nat): seq<Block> {
    if s == [] then []
    else
      var b := s[|s| - 1];
      CuesEndingAt(s[..|s| - 1], n) + if b.CueSheet? && b.leadOut == n then [b] else []
  }

  lemma {:induction false} CuesThatStay(s: seq<Block>, o: Options)
    requires o.cuesheet.None?
    ensures Without(OfKind(s, Cues), DropCue(o)) == if o.total == 0 then [] else CuesEndingAt(s, o.total)
  {
    hide Without, OfKind, DropCue;
    var drop := DropCue(o);
    if s == [] {
      WithoutNothing(NotOf(Cues));
      WithoutNothing(drop);
      NoneOfKind(Cues);
    } else {
      var front, b := s[..|s| - 1], s[|s| - 1];
      CuesThatStay(front, o);
      OfKindStep(s, Cues);
      CueStays(b, o);
      if b.CueSheet? {
        OneMoreBlock(OfKind(front, Cues), b, drop);
      } else {
        assert OfKind(s, Cues) == OfKind(front, Cues);
      }
    }
  }

  lemma {:induction false} CueStays(b: Block, o: Options)
    requires o.cuesheet.None?
    ensures b.CueSheet? ==> (DropCue(o)(b) <==> o.total == 0 || b.leadOut != o.total)
  {}

  predicate HasMask(b: Block) {
    b.Comments? && b.mask.Some?
  }

  /** Comment block i has the mask and none behind it has one. */
  ghost predicate MaskFrom(s: seq<Block>, i: nat, mask: nat) {
    && i < |s| && HasMask(s[i]) && s[i].mask.value == mask
    && forall j :: i < j < |s| ==> !HasMask(s[j])
  }

  /** The channel mask of the last comment block that has one, or 0. */
  ghost predicate LastMask(s: seq<Block>, mask: nat) {
    (exists i :: MaskFrom(s, i, mask)) || (mask == 0 && forall j :: 0 <= j < |s| ==> !HasMask(s[j]))
  }

  lemma {:induction false} MaskOfLast(s: seq<Block>, pictures: seq<Block>)
    requires forall i :: 0 <= i < |pictures| ==> pictures[i].Other?
    ensures LastMask(s, MaskOf(s + pictures, 0))
    decreases |s| + |pictures|
  {
    var all := s + pictures;
    if pictures != [] {
      assert all[..|all| - 1] == s + pictures[..|pictures| - 1];
      MaskOfLast(s, pictures[..|pictures| - 1]);
    } else if s != [] {
      assert all == s;
      var m := |s| - 1;
      if HasMask(s[m]) {
        assert MaskFrom(s, m, s[m].mask.value);
      } else {
        MaskOfLast(s[..m], []);
        assert s[..m] + [] == s[..m];
        LastMaskLater(s, MaskOf(s, 0));
      }
    }
  }

  lemma {:induction false} LastMaskLater(s: seq<Block>, mask: nat)
    requires s != [] && !HasMask(s[|s| - 1]) && LastMask(s[..|s| - 1], mask)
    ensures LastMask(s, mask)
  {
    var front := s[..|s| - 1];
    assert forall i :: 0 <= i < |front| ==> front[i] == s[i];
    forall i: nat | MaskFrom(front, i, mask) ensures MaskFrom(s, i, mask) {}
  }

  /** The padding that is left of a file with these padding blocks. */
  function PadsAfter(own: seq<Block>, o: Options): seq<Block> {
    if o.padding == 0 then []
    else if o.padding > 0 then [Padding(o.padding)]
    else if own != [] then if PadLength(own) > 0 then [Padding(PadLength(own))] else []
    else [Padding(if o.total < 1200 * o.sampleRate then 8192 else 65536)]
  }

  lemma {:induction false} PadsCount(s: seq<Block>)
    ensures PadLength(OfKind(s, Pads)) == PadLength(s)
  {
    if s == [] {
    } else {
      hide Without, OfKind;
      var front, b := s[..|s| - 1], s[|s| - 1];
      PadsCount(front);
      OfKindStep(s, Pads);
      if b.Padding? {
        PadLengthSums(OfKind(front, Pads), [b], b.length);
      } else {
        assert OfKind(s, Pads) == OfKind(front, Pads);
      }
    }
  }

  /**
   With room for the blocks that are added: STREAMINFO stays in front; pictures and all blocks the rebuilding knows
   nothing of keep their order, those of the command line behind those of the file; with tags given there is just the
   block with those, and the channel mask of the last comment block of the file that has one; without, those of the file
   stay, or the empty block of the command line comes in; a cue sheet is the one given, or one of the file's whose
   lead-out is the known length; a seek table is the one asked for, the file's own if the length stays, or none if none
   is wanted; padding is as long as asked for, or as all of the file's, or else 8 KB, from 20 minutes on 64 KB, in one
   block at the end.
   */
  lemma {:induction false} RebuiltShape(s: seq<Block>, o: Options, r: seq<Block>)
    requires s != [] && s[0].StreamInfo? && Sensible(o) && |s| + |o.pictures| + 3 < 1024
    requires Rebuilt(s, o) == Some(r)
    ensures r != [] && r[0] == s[0] && OfKind(r, Info) == OfKind(s, Info)
    ensures OfKind(r, Rest) == OfKind(s, Rest) + o.pictures
    ensures |OfKind(r, Tags)| == 1 <==> o.comments.tags > 0 || |OfKind(s, Tags)| <= 1
    ensures o.comments.tags > 0 ==> exists mask: nat ::
      LastMask(s, mask) && OfKind(r, Tags) == [if mask == 0 then o.comments else o.comments.(mask := Some(mask))]
    ensures o.comments.tags == 0 ==> OfKind(r, Tags) == if OfKind(s, Tags) == [] then [o.comments] else OfKind(s, Tags)
    ensures OfKind(r, Cues)
      == if o.cuesheet.Some? then [o.cuesheet.value] else if o.total == 0 then [] else CuesEndingAt(s, o.total)
    ensures OfKind(r, Seeks) == SeeksAfter(s, o)
    ensures OfKind(r, Pads) == PadsAfter(OfKind(s, Pads), o)
    ensures OfKind(r, Pads) != [] ==> r[|r| - 1].Padding?
  {
    hide Without, OfKind, MaskOf, DropCue, AllSteps, Rebuilt, Sensible, LastMask, CuesEndingAt, PadsAfter;
    var s0 := s + o.pictures;
    RebuiltIsAllSteps(s, o);
    assert OfKind(r, Info) == OfKind(s, Info) && r != [] && r[0] == s[0] by {
      WithPictures(s, o, Info);
      StepsByKind(s0, o, Info);
    }
    assert OfKind(r, Rest) == OfKind(s, Rest) + o.pictures by {
      WithPictures(s, o, Rest);
      StepsByKind(s0, o, Rest);
    }
    MasksOfPictures(s, o);
    WithPictures(s, o, Tags);
    StepsByKind(s0, o, Tags);
    assert OfKind(r, Cues)
      == if o.cuesheet.Some? then [o.cuesheet.value] else if o.total == 0 then [] else CuesEndingAt(s, o.total) by {
      WithPictures(s, o, Cues);
      StepsByKind(s0, o, Cues);
      if o.cuesheet.None? {
        CuesThatStay(s, o);
      }
    }
    assert OfKind(r, Seeks) == SeeksAfter(s, o) by {
      WithPictures(s, o, Seeks);
      StepsByKind(s0, o, Seeks);
    }
    WithPictures(s, o, Pads);
    StepsByKind(s0, o, Pads);
  }

  lemma {:induction false} MasksOfPictures(s: seq<Block>, o: Options)
    requires Sensible(o)
    ensures LastMask(s, MaskOf(s + o.pictures, 0))
  {
    MaskOfLast(s, o.pictures);
  }

  lemma {:induction false} RebuiltIsAllSteps(s: seq<Block>, o: Options)
    requires s != [] && s[0].StreamInfo? && Sensible(o) && Rebuilt(s, o).Some?
    ensures Rebuilt(s, o) == Some(AllSteps(s + o.pictures, o))
  {
    hide Without, OfKind, TagsStep, CueStep, SeekStep, PadStep, MaskOf, DropCue, DropTags, DropSeek, Stopped;
  }

  lemma {:induction false} WithPictures(s: seq<Block>, o: Options, k: Kind)
    requires Sensible(o)
    ensures OfKind(s + o.pictures, k) == if k == Rest then OfKind(s, k) + o.pictures else OfKind(s, k)
  {
    WithoutConcat(s, o.pictures, NotOf(k));
    OnlyRest(o.pictures, k);
  }

  function AllSteps(s: seq<Block>, o: Options): (r: seq<Block>)
    requires s != [] && s[0].StreamInfo? && Sensible(o)
  {
    TagsKeepsFirst(s, o);
    CueKeepsFirst(TagsStep(s, o), o);
    PadStep(SeekStep(CueStep(TagsStep(s, o), o), o), o)
  }

  /** All four steps on the blocks of one kind. */
  lemma {:induction false} StepsByKind(s: seq<Block>, o: Options, k: Kind)
    requires s != [] && s[0].StreamInfo? && Sensible(o) && |s| + 3 < CAPACITY
    ensures var r := AllSteps(s, o);
      && r != [] && r[0] == s[0]
      && (k == Info || k == Rest ==> OfKind(r, k) == OfKind(s, k))
      && (k == Tags ==>
            |OfKind(r, k)| == if o.comments.tags > 0 || OfKind(s, Tags) == [] then 1 else |OfKind(s, Tags)|)
      && (k == Tags && o.comments.tags > 0 ==> OfKind(r, k) == [WithMask(o.comments, MaskOf(s, 0))])
      && (k == Tags && o.comments.tags == 0 ==>
            OfKind(r, k) == if OfKind(s, Tags) == [] then [o.comments] else OfKind(s, Tags))
      && (k == Cues ==>
            OfKind(r, k) == if o.cuesheet.Some? then [o.cuesheet.value] else Without(OfKind(s, Cues), DropCue(o)))
      && (k == Seeks ==> OfKind(r, k) == SeeksAfter(s, o))
      && (k == Pads ==> OfKind(r, Pads) == PadsAfter(OfKind(s, Pads), o))
      && (OfKind(r, Pads) != [] ==> r[|r| - 1].Padding?)
  {
    hide Without, OfKind, TagsStep, CueStep, SeekStep, PadStep, MaskOf, DropCue, DropTags, DropSeek, PadLength;
    TagsKeepsFirst(s, o);
    var s1 := TagsStep(s, o);
    CueKeepsFirst(s1, o);
    var s2 := CueStep(s1, o);
    SeekKeepsFirst(s2, o);
    var s3 := SeekStep(s2, o);
    TagsKinds(s, o, k);
    CueKinds(s1, o, k);
    SeekKinds(s2, o, k);
    PadKinds(s3, o, k);
  }

  // When a warning stops it

  lemma {:induction false} AnyDropped(s: seq<Block>, drop: Block -> bool)
    ensures Without(s, drop) != s <==> exists b :: b in s && drop(b)
  {
    if s != [] {
      var m := |s| - 1;
      AnyDropped(s[..m], drop);
      assert s == s[..m] + [s[m]];
      if drop(s[m]) {
        assert |Without(s, drop)| < |s|;
      } else if Without(s, drop) == s {
        assert Without(s[..m], drop) == Without(s, drop)[..m];
      }
    }
  }

  lemma {:induction false} InKind(s: seq<Block>, k: Kind, b: Block)
    ensures b in OfKind(s, k) <==> b in s && KindOf(b) == k
  {
    if s != [] {
      var m := |s| - 1;
      InKind(s[..m], k, b);
      OfKindStep(s, k);
      assert s == s[..m] + [s[m]];
    }
  }

  lemma {:induction false} StoppedIff(s: seq<Block>, t: seq<Block>, drop: Block -> bool, k: Kind, o: Options)
    requires OfKind(s, k) == OfKind(t, k) && forall b :: drop(b) ==> KindOf(b) == k
    ensures Stopped(t, drop, o) <==> o.warningsAreErrors && exists b :: b in s && drop(b)
  {
    AnyDropped(t, drop);
    forall b | drop(b) ensures b in s <==> b in t {
      InKind(s, k, b);
      InKind(t, k, b);
    }
  }

  /** A block of the file that cannot stay and that nobody said should go. */
  predicate Lost(s: seq<Block>, o: Options, b: Block)
    requires s != [] && s[0].StreamInfo?
  {
    match b
    case Comments(_, _, _) => o.comments.Comments? && o.comments.tags > 0
    case CueSheet(leadOut, _) => o.cuesheet.Some? || o.total == 0 || leadOut != o.total
    case SeekTable(_) => o.seekPoints > 0 || (o.seekPoints < 0 && o.total != s[0].total)
    case _ => false
  }

  /** With warnings as errors the rebuilding stops if and only if a block of the file is lost. */
  lemma {:induction false} RebuiltIffNothingLost(s: seq<Block>, o: Options)
    requires s != [] && s[0].StreamInfo? && Sensible(o) && |s| + |o.pictures| + 3 < 1024
    ensures Rebuilt(s, o) == None <==> o.warningsAreErrors && exists b :: b in s && Lost(s, o, b)
  {
    hide Without, OfKind, TagsStep, CueStep, SeekStep, PadStep, MaskOf, Stopped;
    var s0 := s + o.pictures;
    WithPictures(s, o, Tags);
    StoppedIff(s, s0, DropTags(o), Tags, o);
    TagsKeepsFirst(s0, o);
    var s1 := TagsStep(s0, o);
    WithPictures(s, o, Cues);
    TagsKinds(s0, o, Cues);
    StoppedIff(s, s1, DropCue(o), Cues, o);
    CueKeepsFirst(s1, o);
    var s2 := CueStep(s1, o);
    WithPictures(s, o, Seeks);
    TagsKinds(s0, o, Seeks);
    CueKinds(s1, o, Seeks);
    StoppedIff(s, s2, DropSeek(o, s2[0].total), Seeks, o);
    assert s2[0] == s[0];
    forall b | b in s ensures Lost(s, o, b) <==>
      DropTags(o)(b) || DropCue(o)(b) || (o.seekPoints != 0 && DropSeek(o, s2[0].total)(b)) {}
  }

  // The whole list

  /** A block of the file, behind STREAMINFO, that is still there afterwards. */
  predicate Stays(b: Block, o: Options, total: nat) {
    match b
    case StreamInfo(_) => true
    case Comments(_, _, _) => o.comments.Comments? && o.comments.tags == 0
    case CueSheet(leadOut, _) => o.cuesheet.None? && leadOut == o.total != 0
    case SeekTable(_) => o.seekPoints < 0 && o.total == total
    case Padding(_) => false
    case Other(_) => true
  }

  function Staying(s: seq<Block>, o: Options, total: nat): seq<Block> {
    if s == [] then []
    else Staying(s[..|s| - 1], o, total) + if Stays(s[|s| - 1], o, total) then [s[|s| - 1]] else []
  }

  function NewTags(s: seq<Block>, o: Options, mask: nat): seq<Block>
    requires o.comments.Comments?
  {
    if o.comments.tags > 0 then [if mask == 0 then o.comments else o.comments.(mask := Some(mask))]
    else if OfKind(s, Tags) == [] then [o.comments] else []
  }

  function NewCue(o: Options): seq<Block> {
    if o.cuesheet.Some? then [o.cuesheet.value] else []
  }

  function NewSeeks(s: seq<Block>, o: Options): seq<Block>
    requires s != [] && s[0].StreamInfo?
  {
    if o.seekPoints == 0 || (o.seekPoints < 0 && o.total == s[0].total && OfKind(s, Seeks) != []) then []
    else [o.template]
  }

  lemma {:induction false} KeptInFront(h: Block, a: seq<Block>, x: seq<Block>, drop: Block -> bool)
    requires !drop(h) && forall b :: b in a ==> !drop(b)
    ensures Without([h] + a + x, drop) == [h] + a + Without(x, drop)
  {
    AnyDropped([h] + a, drop);
    WithoutConcat([h] + a, x, drop);
  }

  lemma {:induction false} BehindFirst(h: Block, x: seq<Block>, b: Block)
    requires |x| + 1 < CAPACITY
    ensures Behind([h] + x, b) == [h] + [b] + x
  {
    assert ([h] + x)[..1] == [h] && ([h] + x)[1..] == x;
  }

  lemma {:induction false} TagsList(h: Block, x: seq<Block>, o: Options)
    requires h.StreamInfo? && Sensible(o) && |x| + 1 < CAPACITY
    ensures TagsStep([h] + x, o) == [h] + NewTags([h] + x, o, MaskOf([h] + x, 0)) + Without(x, DropTags(o))
  {
    hide Without, MaskOf, OfKind;
    KeptInFront(h, [], x, DropTags(o));
    assert [h] + [] == [h];
    var mask := if o.comments.tags > 0 then MaskOf([h] + x, 0) else 0;
    BehindFirst(h, Without(x, DropTags(o)), WithMask(o.comments, mask));
  }

  lemma {:induction false} CueList(h: Block, a: seq<Block>, x: seq<Block>, o: Options)
    requires h.StreamInfo? && Sensible(o) && |a| + |x| + 1 < CAPACITY && forall b :: b in a ==> b.Comments?
    ensures CueStep([h] + a + x, o) == [h] + (NewCue(o) + a) + Without(x, DropCue(o))
  {
    hide Without;
    KeptInFront(h, a, x, DropCue(o));
    var y := a + Without(x, DropCue(o));
    assert [h] + a + Without(x, DropCue(o)) == [h] + y;
    if o.cuesheet.Some? {
      BehindFirst(h, y, o.cuesheet.value);
      assert [h] + NewCue(o) + y == [h] + (NewCue(o) + a) + Without(x, DropCue(o));
    }
  }

  lemma {:induction false} SeekList(h: Block, a: seq<Block>, x: seq<Block>, o: Options)
    requires h.StreamInfo? && Sensible(o) && |a| + |x| + 1 < CAPACITY
    requires forall b :: b in a ==> b.Comments? || b.CueSheet?
    ensures SeekStep([h] + a + x, o)
      == [h] + (NewSeeks([h] + a + x, o) + a) + Without(x, DropSeek(o, h.total))
  {
    hide Without;
    var s, drop := [h] + a + x, DropSeek(o, h.total);
    KeptInFront(h, a, x, drop);
    SameKind(s, drop, Seeks);
    AllOrNone(s, drop, Seeks);
    hide OfKind;
    var y := a + Without(x, drop);
    assert [h] + a + Without(x, drop) == [h] + y;
    BehindFirst(h, y, o.template);
    assert [h] + [o.template] + y == [h] + ([o.template] + a) + Without(x, drop);
    assert [] + a == a;
  }

  lemma {:induction false} PadList(h: Block, a: seq<Block>, x: seq<Block>, o: Options)
    requires h.StreamInfo? && Sensible(o) && |a| + |x| + 1 < CAPACITY && forall b :: b in a ==> !b.Padding?
    ensures PadStep([h] + a + x, o)
      == [h] + a + Without(x, DropPads()) + PadsAfter(OfKind([h] + a + x, Pads), o)
  {
    hide Without, OfKind, PadStep, PadsAfter;
    KeptInFront(h, a, x, DropPads());
    PadStepIs([h] + a + x, o);
  }

  /** Dropping kind by kind leaves what stays. */
  lemma {:induction false} StayingIs(s: seq<Block>, o: Options, total: nat)
    requires Sensible(o)
    ensures Without(Without(Without(Without(s, DropTags(o)), DropCue(o)), DropSeek(o, total)), DropPads())
      == Staying(s, o, total)
  {
    hide Without, Stays, DropTags, DropCue, DropSeek, DropPads;
    var f, g, h, k := DropTags(o), DropCue(o), DropSeek(o, total), DropPads();
    if s == [] {
      WithoutNothing(f);
      WithoutNothing(g);
      WithoutNothing(h);
      WithoutNothing(k);
    } else {
      var front, b := s[..|s| - 1], s[|s| - 1];
      StayingIs(front, o, total);
      StaysIff(b, o, total);
      OneMoreBlock(front, b, f);
      OneMoreBlock(Without(front, f), b, g);
      OneMoreBlock(Without(Without(front, f), g), b, h);
      OneMoreBlock(Without(Without(Without(front, f), g), h), b, k);
      assert s == front + [b];
    }
  }

  lemma {:induction false} StaysIff(b: Block, o: Options, total: nat)
    requires Sensible(o)
    ensures Stays(b, o, total) <==> !DropTags(o)(b) && !DropCue(o)(b) && !DropSeek(o, total)(b) && !DropPads()(b)
  {}

  lemma {:induction false} OneMoreBlock(s: seq<Block>, b: Block, drop: Block -> bool)
    ensures Without(s + [b], drop) == if drop(b) then Without(s, drop) else Without(s, drop) + [b]
  {
    assert (s + [b])[..|s|] == s;
  }

  /**
   The whole list, block by block: STREAMINFO; a new seek table, the cue sheet given and the comments given, as far as
   there are any; the blocks of the file that stay and the pictures, in order; the padding.
   */
  lemma {:induction false} RebuiltList(s: seq<Block>, o: Options, r: seq<Block>)
    requires s != [] && s[0].StreamInfo? && Sensible(o) && |s| + |o.pictures| + 3 < 1024
    requires Rebuilt(s, o) == Some(r)
    ensures exists mask: nat ::
      && LastMask(s, mask)
      && r == [s[0]] + (NewSeeks(s, o) + (NewCue(o) + NewTags(s, o, mask)))
            + Staying(s[1..] + o.pictures, o, s[0].total) + PadsAfter(OfKind(s, Pads), o)
  {
    hide Without, OfKind, MaskOf, DropCue, DropTags, DropSeek, AllSteps, Rebuilt, Sensible, LastMask, PadsAfter,
         NewTags, NewCue, NewSeeks, TagsStep, CueStep, SeekStep, PadStep, Staying;
    RebuiltIsAllSteps(s, o);
    MasksOfPictures(s, o);
    StepsList(s, o);
  }

  lemma {:induction false} StepsList(s: seq<Block>, o: Options)
    requires s != [] && s[0].StreamInfo? && Sensible(o) && |s| + |o.pictures| + 3 < 1024
    ensures AllSteps(s + o.pictures, o)
      == [s[0]] + (NewSeeks(s, o) + (NewCue(o) + NewTags(s, o, MaskOf(s + o.pictures, 0))))
       + Staying(s[1..] + o.pictures, o, s[0].total) + PadsAfter(OfKind(s, Pads), o)
  {
    hide Without, OfKind, MaskOf, DropCue, DropTags, DropSeek, PadsAfter, TagsStep, CueStep, SeekStep, PadStep, Staying;
    var h, x := s[0], s[1..] + o.pictures;
    var s0 := s + o.pictures;
    assert s0 == [h] + x;
    var c := NewTags(s0, o, MaskOf(s0, 0));
    TagsList(h, x, o);
    var x1 := Without(x, DropTags(o));
    CueList(h, c, x1, o);
    var a, x2 := NewCue(o) + c, Without(x1, DropCue(o));
    SeekList(h, a, x2, o);
    var s2 := [h] + a + x2;
    var e, x3 := NewSeeks(s2, o) + a, Without(x2, DropSeek(o, h.total));
    PadList(h, e, x3, o);
    StayingIs(x, o, h.total);
    SameKinds(s, o);
  }

  /** What the steps ask about the list is the same before and after the steps in front of them. */
  lemma {:induction false} SameKinds(s: seq<Block>, o: Options)
    requires s != [] && s[0].StreamInfo? && Sensible(o) && |s| + |o.pictures| + 3 < 1024
    ensures var s0 := s + o.pictures; var s1 := TagsStep(s0, o);
      && OfKind(s0, Tags) == OfKind(s, Tags)
      && s1 != [] && s1[0] == s[0] && CueStep(s1, o) != [] && CueStep(s1, o)[0] == s[0]
      && OfKind(CueStep(s1, o), Seeks) == OfKind(s, Seeks)
      && OfKind(SeekStep(CueStep(s1, o), o), Pads) == OfKind(s, Pads)
  {
    hide Without, OfKind, TagsStep, CueStep, SeekStep, PadStep, MaskOf, DropCue, DropTags, DropSeek;
    var s0 := s + o.pictures;
    TagsKeepsFirst(s0, o);
    var s1 := TagsStep(s0, o);
    CueKeepsFirst(s1, o);
    WithPictures(s, o, Tags);
    WithPictures(s, o, Seeks);
    WithPictures(s, o, Pads);
    TagsKinds(s0, o, Seeks);
    TagsKinds(s0, o, Pads);
    CueKinds(s1, o, Seeks);
    CueKinds(s1, o, Pads);
    SeekKinds(CueStep(s1, o), o, Pads);
  }
}
