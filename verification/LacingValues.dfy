/** The lacing values of a stream state. */
module LacingValues {
  import opened Bytes
  import opened PageFormat

  /** An entry of lacing_vals: the size in the low byte, the marks 0x100, 0x200 and 0x400 above it. */
  datatype Lace = Lace(size: Byte, first: bool, last: bool, gap: bool)

  const GAP := Lace(0, false, false, true)

  function Sizes(laces: seq<Lace>): (s: seq<Byte>)
    ensures |s| == |laces|
  {
    seq(|laces|, i requires 0 <= i < |laces| => laces[i].size)
  }

  lemma {:induction false} SizesFirst(laces: seq<Lace>, i: nat)
    requires i < |laces|
    ensures Sum(Sizes(laces[i..])) == laces[i].size as int + Sum(Sizes(laces[i + 1..]))
  {
    assert Sizes(laces[i..])[1..] == Sizes(laces[i + 1..]);
  }

  lemma {:induction false} NoSizes(laces: seq<Lace>)
    requires laces == []
    ensures Sum(Sizes(laces)) == 0
  {}

  lemma {:induction false} SizesSplit(laces: seq<Lace>, n: nat)
    requires n <= |laces|
    ensures Sum(Sizes(laces)) == Sum(Sizes(laces[..n])) + Sum(Sizes(laces[n..]))
  {
    assert Sizes(laces) == Sizes(laces[..n]) + Sizes(laces[n..]);
    SumConcat(Sizes(laces[..n]), Sizes(laces[n..]));
  }

  lemma {:induction false} SizesNext(laces: seq<Lace>, n: nat)
    requires n < |laces|
    ensures Sum(Sizes(laces[..n + 1])) == Sum(Sizes(laces[..n])) + laces[n].size
    ensures Sum(Sizes(laces[..0])) == 0
  {
    assert Sizes(laces[..n + 1]) == Sizes(laces[..n]) + [laces[n].size];
    SumConcat(Sizes(laces[..n]), [laces[n].size]);
    assert Sum([laces[n].size]) == laces[n].size as int + Sum([]);
  }
}
