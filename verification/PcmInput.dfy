/** format_input: bytes read from a file, back to samples. */
module PcmInput {
  import opened Bits
  import opened BitOps
  import opened Bytes
  import opened PcmFormat
  import opened PcmBuffers

  /** Where the sample of a channel is among the interleaved ones. */
  function At(w: nat, c: nat, channels: nat): nat {
    w * channels + c
  }

  lemma {:induction false} AtNext(w: nat, c: nat, channels: nat)
    ensures At(w, c, channels) + 1 == At(w, c + 1, channels)
    ensures At(w, channels, channels) == At(w + 1, 0, channels)
    ensures At(0, 0, channels) == 0
  {}

  lemma {:induction false} AtBound(w: nat, c: nat, wide: nat, channels: nat)
    requires w < wide && c < channels
    ensures At(w, c, channels) < wide * channels
  {
    assert wide * channels == w * channels + channels + (wide - w - 1) * channels;
    Product(wide - w - 1, channels);
  }

  /** The interleaved samples are the list that has each sample in its place. */
  lemma {:induction false} InterleavedIs(rows: seq<seq<int>>, wide: nat, list: seq<int>)
    requires forall c :: 0 <= c < |rows| ==> |rows[c]| >= wide
    requires |list| == wide * |rows|
    requires forall c, w :: 0 <= c < |rows| && 0 <= w < wide ==>
      At(w, c, |rows|) < |list| && list[At(w, c, |rows|)] == rows[c][w]
    ensures Interleaved(rows, wide) == list
    decreases wide
  {
    var n := |rows|;
    if wide > 0 {
      var k := (wide - 1) * n;
      assert wide * n == k + n;
      Product(wide - 1, n);
      var front, last := list[..k], list[k..];
      forall c, w | 0 <= c < n && 0 <= w < wide - 1 ensures At(w, c, n) < |front| && front[At(w, c, n)] == rows[c][w] {
        AtBound(w, c, wide - 1, n);
        assert list[At(w, c, n)] == rows[c][w];
      }
      InterleavedIs(rows, wide - 1, front);
      forall c | 0 <= c < n ensures last[c] == Column(rows, wide - 1)[c] {
        assert At(wide - 1, c, n) == k + c;
        assert list[At(wide - 1, c, n)] == rows[c][wide - 1];
      }
      assert last == Column(rows, wide - 1);
      assert list == front + last;
    }
  }

  /** Unpacking is decoding group by group. */
  lemma {:induction false} GroupsDecode(bytes: seq<Byte>, samples: seq<int>, n: nat, big: bool, unsigned: bool)
    requires n >= 1 && |bytes| == n * |samples|
    requires forall k :: 0 <= k < |samples| ==> Decoded(Group(bytes, n, k), big, unsigned) == samples[k]
    ensures Unpacked(bytes, n, big, unsigned) == samples
    decreases |samples|
  {
    hide Decoded, Group;
    if samples != [] {
      var m := |samples| - 1;
      var front, last := CutGroup(bytes, n, m);
      OneMore(n, m, m + 1);
      assert Decoded(Group(bytes, n, m), big, unsigned) == samples[m];
      forall k | 0 <= k < m ensures Decoded(Group(front, n, k), big, unsigned) == samples[..m][k] {
        OneMore(n, k, m);
        GroupInFront(front, last, n, k);
        assert Decoded(Group(bytes, n, k), big, unsigned) == samples[k];
      }
      GroupsDecode(front, samples[..m], n, big, unsigned);
      assert bytes[..|bytes| - n] == front && bytes[|bytes| - n..] == last;
    }
  }

  /** A sample of three bytes, most significant first, put together by shifts. */
  method Load24(b0: Byte, b1: Byte, b2: Byte, unsigned: bool) returns (v: int)
    ensures v == Decoded([b0, b1, b2], true, unsigned)
  {
    Biases();
    assert Pow256(3) == 0x100_0000 by {
      assert Pow256(2) == 0x1_0000;
    }
    BigThree(b0, b1, b2);
    v := if !unsigned && b0 >= 0x80 then b0 - 0x100 else b0;
    v := v * 256;
    v := v + b1;
    v := v * 256;
    v := v + b2;
    if unsigned {
      v := v - 0x80_0000;
    }
  }

  lemma {:induction false} BigThree(b0: Byte, b1: Byte, b2: Byte)
    ensures FromBigEndian([b0, b1, b2]) == 256 * (256 * b0 as int + b1 as int) + b2 as int
  {
    assert [b0, b1, b2][..2] == [b0, b1] && [b0, b1][..1] == [b0] && [b0][..0] == [];
    assert FromBigEndian([b0]) == b0;
    assert FromBigEndian([b0, b1]) == 256 * b0 as int + b1 as int;
  }

  /**
   What the loops make of sample k: containers of three bytes are in big-endian order by then, others in the host's.
   */
  function Loaded(bytes: seq<Byte>, n: nat, k: nat, hostBig: bool, unsigned: bool): int {
    Decoded(Group(bytes, n, k), n == 3 || hostBig, unsigned)
  }

  /** channel_map: the row that each channel of the input goes to; without one, every channel goes to its own. */
  predicate ChannelMap(places: seq<nat>, rows: nat) {
    && (forall c :: 0 <= c < |places| ==> places[c] < rows)
    && forall c, d :: 0 <= c < d < |places| ==> places[c] != places[d]
  }

  /** The loops over samples and channels. */
  method LoadSamples(out: array2<int>, uc: array<Byte>, wide: nat, n: nat, places: seq<nat>,
                     hostBig: bool, unsigned: bool)
    requires ChannelMap(places, out.Length0)
    requires 1 <= n <= 3 && wide <= out.Length1 && n * (wide * |places|) <= uc.Length
    modifies out
    ensures forall c, w :: 0 <= c < |places| && 0 <= w < wide ==>
      out[places[c], w] == Loaded(uc[..], n, At(w, c, |places|), hostBig, unsigned)
  {
    hide Loaded, At;
    ghost var bytes := uc[..];
    var sample := 0;
    AtNext(0, 0, |places|);
    for w := 0 to wide
      invariant sample == At(w, 0, |places|)
      invariant forall i, j :: 0 <= i < |places| && 0 <= j < w ==>
        out[places[i], j] == Loaded(bytes, n, At(j, i, |places|), hostBig, unsigned)
    {
      for c := 0 to |places|
        invariant sample == At(w, c, |places|)
        invariant forall i, j :: 0 <= i < |places| && 0 <= j < w ==>
          out[places[i], j] == Loaded(bytes, n, At(j, i, |places|), hostBig, unsigned)
        invariant forall i :: 0 <= i < c ==>
          out[places[i], w] == Loaded(bytes, n, At(w, i, |places|), hostBig, unsigned)
      {
        AtBound(w, c, wide, |places|);
        OneMore(n, sample, wide * |places|);
        var v := LoadOne(uc, n, sample, hostBig, unsigned);
        out[places[c], w] := v;
        AtNext(w, c, |places|);
        sample := sample + 1;
      }
      AtNext(w, 0, |places|);
    }
  }

  method LoadOne(uc: array<Byte>, n: nat, sample: nat, hostBig: bool, unsigned: bool) returns (v: int)
    requires 1 <= n <= 3 && n * sample + n <= uc.Length
    ensures v == Loaded(uc[..], n, sample, hostBig, unsigned)
  {
    hide Decoded;
    var at := n * sample;
    assert uc[..][at..at + n] == uc[at..at + n];
    if n == 3 {
      v := Load24(uc[at], uc[at + 1], uc[at + 2], unsigned);
      assert uc[at..at + 3] == [uc[at], uc[at + 1], uc[at + 2]];
    } else {
      v := Decoded(uc[at..at + n], hostBig, unsigned);
    }
  }

  /** The last loops: the low-order bits must be zero, and are dropped. */
  method DropLowBits(out: array2<int>, wide: nat, places: seq<nat>, shift: nat) returns (ok: bool)
    requires ChannelMap(places, out.Length0) && wide <= out.Length1
    modifies out
    ensures ok <==> forall c, w :: 0 <= c < |places| && 0 <= w < wide ==> old(out[places[c], w]) % Pow2(shift) == 0
    ensures ok ==> forall c, w :: 0 <= c < |places| && 0 <= w < wide ==>
      out[places[c], w] == old(out[places[c], w]) / Pow2(shift)
  {
    hide Pow2;
    var p := Pow2(shift);
    for w := 0 to wide
      invariant forall i, j :: 0 <= i < |places| && 0 <= j < w ==>
        old(out[places[i], j]) % p == 0 && out[places[i], j] == old(out[places[i], j]) / p
      invariant forall i, j :: 0 <= i < |places| && w <= j < out.Length1 ==> out[places[i], j] == old(out[places[i], j])
    {
      for c := 0 to |places|
        invariant forall i, j :: 0 <= i < |places| && 0 <= j < w ==>
          old(out[places[i], j]) % p == 0 && out[places[i], j] == old(out[places[i], j]) / p
        invariant forall i :: 0 <= i < c ==>
          old(out[places[i], w]) % p == 0 && out[places[i], w] == old(out[places[i], w]) / p
        invariant forall i :: c <= i < |places| ==> out[places[i], w] == old(out[places[i], w])
        invariant forall i, j :: 0 <= i < |places| && w + 1 <= j < out.Length1 ==>
          out[places[i], j] == old(out[places[i], j])
      {
        if out[places[c], w] % p != 0 {
          return false;
        }
        out[places[c], w] := out[places[c], w] / p;
      }
    }
    return true;
  }

  /** The byte order after the exchanges at the start of format_input. */
  method Normalise(uc: array<Byte>, n: nat, count: nat, big: bool, hostBig: bool)
    requires 1 <= n <= 3 && n * count <= uc.Length
    modifies uc
    ensures forall k, unsigned :: 0 <= k < count ==>
      Loaded(uc[..], n, k, hostBig, unsigned) == Decoded(old(Group(uc[..], n, k)), big, unsigned)
  {
    hide Decoded;
    ghost var before := uc[..];
    if n == 2 && big != hostBig {
      SwapPairs(uc, count);
    } else if n == 3 && !big {
      SwapTriples(uc, count);
    }
    ghost var after := uc[..];
    forall k, unsigned | 0 <= k < count
      ensures Loaded(after, n, k, hostBig, unsigned) == Decoded(Group(before, n, k), big, unsigned)
    {
      OneMore(n, k, count);
      if n == 1 {
        OneByteDecodes(Group(before, 1, k), big, hostBig, unsigned);
      } else if n == 2 && big != hostBig {
        assert Group(before, 2, k) == [before[2 * k], before[2 * k + 1]];
        assert Group(after, 2, k) == [before[2 * k + 1], before[2 * k]];
        PairDecodes(before[2 * k], before[2 * k + 1], big, unsigned);
      } else if n == 3 && !big {
        assert Group(before, 3, k) == [before[3 * k], before[3 * k + 1], before[3 * k + 2]];
        assert Group(after, 3, k) == [before[3 * k + 2], before[3 * k + 1], before[3 * k]];
        TripleDecodes(before[3 * k], before[3 * k + 1], before[3 * k + 2], unsigned);
      }
    }
  }

  lemma {:induction false} OneByteDecodes(s: seq<Byte>, a: bool, b: bool, unsigned: bool)
    requires |s| == 1
    ensures Decoded(s, a, unsigned) == Decoded(s, b, unsigned)
  {
    assert s[..0] == [] && s[1..] == [];
    assert FromBigEndian(s) == s[0] && FromLittleEndian(s) == s[0];
  }

  lemma {:induction false} PairDecodes(x: Byte, y: Byte, big: bool, unsigned: bool)
    ensures Decoded([x, y], big, unsigned) == Decoded([y, x], !big, unsigned)
  {
    LittleTwo(x, y);
    LittleTwo(y, x);
  }

  lemma {:induction false} LittleTwo(x: Byte, y: Byte)
    ensures FromLittleEndian([x, y]) == FromBigEndian([y, x])
  {
    assert [x, y][1..] == [y] && [y][1..] == [] && [y, x][..1] == [y] && [y][..0] == [];
    assert FromLittleEndian([y]) == y && FromBigEndian([y]) == y;
  }

  lemma {:induction false} TripleDecodes(x: Byte, y: Byte, z: Byte, unsigned: bool)
    ensures Decoded([x, y, z], false, unsigned) == Decoded([z, y, x], true, unsigned)
  {
    assert [x, y, z][1..] == [y, z] && [z, y, x][..2] == [z, y];
    LittleTwo(y, z);
  }

  /** The rows in the order of the channels of the input. */
  function Mapped(rows: seq<seq<int>>, places: seq<nat>): (r: seq<seq<int>>)
    requires ChannelMap(places, |rows|)
    ensures |r| == |places| && forall c :: 0 <= c < |r| ==> r[c] == rows[places[c]]
  {
    seq(|places|, c requires 0 <= c < |places| => rows[places[c]])
  }

  /** format_input, for containers of one to three bytes. */
  method FormatInput(dest: array2<int>, uc: array<Byte>, wide: nat, n: nat, big: bool, unsigned: bool, shift: nat,
                     places: seq<nat>, hostBig: bool) returns (ok: bool)
    requires ChannelMap(places, dest.Length0)
    requires 1 <= n <= 3 && wide <= dest.Length1 && n * (wide * |places|) <= uc.Length
    modifies dest, uc
    ensures var r := ShiftedDown(Unpacked(old(uc[..n * (wide * |places|)]), n, big, unsigned), shift);
      && ok == r.Samples?
      && (ok ==> Interleaved(Mapped(Rows(dest, wide), places), wide) == r.samples)
  {
    hide Loaded, Decoded, Group, At, Interleaved, Unpacked, Pow2, ChannelMap;
    var count := wide * |places|;
    ghost var bytes := uc[..n * count];
    ghost var list := DecodedList(uc[..], n, count, big, unsigned);
    Normalise(uc, n, count, big, hostBig);
    LoadSamples(dest, uc, wide, n, places, hostBig, unsigned);
    ghost var rows := MappedRows(dest, wide, places);
    Placed(rows, wide, list, uc[..], n, hostBig, unsigned);
    if shift > 0 {
      ok := DropLowBits(dest, wide, places, shift);
      ghost var after := MappedRows(dest, wide, places);
      Shifted(rows, after, wide, list, shift, ok);
    } else {
      ok := true;
      ShiftedByNothing(list);
    }
  }

  lemma {:induction false} MappedRows(dest: array2<int>, wide: nat, places: seq<nat>) returns (rows: seq<seq<int>>)
    requires ChannelMap(places, dest.Length0) && wide <= dest.Length1
    ensures rows == Mapped(Rows(dest, wide), places) && forall c :: 0 <= c < |rows| ==> |rows[c]| == wide
    ensures forall c, w :: 0 <= c < |places| && 0 <= w < wide ==>
      places[c] < dest.Length0 && rows[c][w] == dest[places[c], w]
  {
    rows := Mapped(Rows(dest, wide), places);
  }

  /** The samples one by one. */
  lemma {:induction false} DecodedList(all: seq<Byte>, n: nat, count: nat, big: bool,
                                       unsigned: bool) returns (list: seq<int>)
    requires n >= 1 && n * count <= |all|
    ensures |list| == count && list == Unpacked(all[..n * count], n, big, unsigned)
    ensures forall k :: 0 <= k < count ==> list[k] == Decoded(Group(all, n, k), big, unsigned)
  {
    hide Decoded, Group;
    var bytes := all[..n * count];
    list := seq(count, k requires 0 <= k < count => Decoded(Group(all, n, k), big, unsigned));
    forall k | 0 <= k < count ensures Decoded(Group(bytes, n, k), big, unsigned) == list[k] {
      OneMore(n, k, count);
      assert all == bytes + all[n * count..];
      GroupInFront(bytes, all[n * count..], n, k);
    }
    GroupsDecode(bytes, list, n, big, unsigned);
  }

  lemma {:induction false} Placed(rows: seq<seq<int>>, wide: nat, list: seq<int>, bytes: seq<Byte>, n: nat,
                                  hostBig: bool, unsigned: bool)
    requires forall c :: 0 <= c < |rows| ==> |rows[c]| == wide
    requires |list| == wide * |rows|
    requires forall k :: 0 <= k < |list| ==> Loaded(bytes, n, k, hostBig, unsigned) == list[k]
    requires forall c, w :: 0 <= c < |rows| && 0 <= w < wide ==>
      rows[c][w] == Loaded(bytes, n, At(w, c, |rows|), hostBig, unsigned)
    ensures Interleaved(rows, wide) == list
    ensures forall c, w :: 0 <= c < |rows| && 0 <= w < wide ==>
      At(w, c, |rows|) < |list| && list[At(w, c, |rows|)] == rows[c][w]
  {
    hide Loaded, At;
    forall c, w | 0 <= c < |rows| && 0 <= w < wide
      ensures At(w, c, |rows|) < |list| && list[At(w, c, |rows|)] == rows[c][w]
    {
      AtBound(w, c, wide, |rows|);
    }
    InterleavedIs(rows, wide, list);
  }

  lemma {:induction false} Shifted(before: seq<seq<int>>, after: seq<seq<int>>, wide: nat, list: seq<int>, shift: nat,
                                   ok: bool)
    requires |before| == |after| && |list| == wide * |before|
    requires forall c :: 0 <= c < |before| ==> |before[c]| == |after[c]| == wide
    requires forall c, w :: 0 <= c < |before| && 0 <= w < wide ==>
      At(w, c, |before|) < |list| && list[At(w, c, |before|)] == before[c][w]
    requires Interleaved(before, wide) == list
    requires ok <==> forall c, w :: 0 <= c < |before| && 0 <= w < wide ==> before[c][w] % Pow2(shift) == 0
    requires ok ==> forall c, w :: 0 <= c < |before| && 0 <= w < wide ==> after[c][w] == before[c][w] / Pow2(shift)
    ensures var r := ShiftedDown(list, shift); ok == r.Samples? && (ok ==> Interleaved(after, wide) == r.samples)
  {
    hide At, Pow2, Interleaved;
    var p := Pow2(shift);
    if ok {
      forall k | 0 <= k < |list| ensures list[k] % p == 0 {
        var c, w := PlaceOf(before, wide, list, k);
      }
      var down := seq(|list|, i requires 0 <= i < |list| => list[i] / p);
      InterleavedIs(after, wide, down);
    } else {
      var c, w :| 0 <= c < |before| && 0 <= w < wide && before[c][w] % p != 0;
      assert list[At(w, c, |before|)] % p != 0;
    }
  }

  /** Every place in the list belongs to a sample. */
  lemma {:induction false} PlaceOf(rows: seq<seq<int>>, wide: nat, list: seq<int>, k: nat) returns (c: nat, w: nat)
    requires forall c :: 0 <= c < |rows| ==> |rows[c]| == wide
    requires |list| == wide * |rows| && k < |list|
    requires forall c, w :: 0 <= c < |rows| && 0 <= w < wide ==>
      At(w, c, |rows|) < |list| && list[At(w, c, |rows|)] == rows[c][w]
    ensures c < |rows| && w < wide && list[k] == rows[c][w]
  {
    var n := |rows|;
    c, w := k % n, k / n;
    assert k == n * w + c;
    Below(k, wide, n);
    assert At(w, c, n) == k;
  }

  lemma {:induction false} Below(k: nat, wide: nat, n: nat)
    requires k < wide * n
    ensures n > 0 && k / n < wide
  {
    if n > 0 {
      QuotientUnique(k, n, k / n, k % n);
      Scale(k / n, wide, n);
    }
  }

  lemma {:induction false} Scale(a: nat, b: nat, n: nat)
    requires a * n < b * n
    ensures a < b
  {}

  lemma {:induction false} ShiftedByNothing(list: seq<int>)
    ensures ShiftedDown(list, 0) == Samples(list)
  {
    assert Pow2(0) == 1;
  }

  /** What format_input makes of the bytes of write_callback are the samples that went in, channel by channel. */
  lemma {:induction false} SamplesComeBack(a: seq<seq<int>>, b: seq<seq<int>>, wide: nat, bps: nat, shift: nat,
                                           big: bool, unsigned: bool, ok: bool)
    requires |a| == |b| && forall c :: 0 <= c < |a| ==> |a[c]| == |b[c]| == wide
    requires bps >= 1 && (bps + shift == 8 || bps + shift == 16 || bps + shift == 24)
    requires forall c, w :: 0 <= c < |a| && 0 <= w < wide ==> -Pow2(bps - 1) <= a[c][w] < Pow2(bps - 1)
    requires var n := (bps + shift) / 8;
      var bytes := Packed(ShiftedUp(Interleaved(a, wide), shift), n, big, unsigned);
      var r := ShiftedDown(Unpacked(bytes, n, big, unsigned), shift);
      ok == r.Samples? && (ok ==> Interleaved(b, wide) == r.samples)
    ensures ok && a == b
  {
    hide Pow2, Packed, Unpacked, ShiftedDown, ShiftedUp;
    InterleavedRange(a, wide, Pow2(bps - 1));
    PcmRoundTrip(Interleaved(a, wide), bps, shift, (bps + shift) / 8, big, unsigned);
    hide Interleaved;
    forall c | 0 <= c < |a| ensures a[c] == b[c] {
      forall w | 0 <= w < wide ensures a[c][w] == b[c][w] {
        InterleavedInjective(a, b, wide, c, w);
      }
    }
  }

  lemma {:induction false} InterleavedRange(a: seq<seq<int>>, wide: nat, q: int)
    requires forall c :: 0 <= c < |a| ==> |a[c]| >= wide
    requires forall c, w :: 0 <= c < |a| && 0 <= w < wide ==> -q <= a[c][w] < q
    ensures forall i :: 0 <= i < |Interleaved(a, wide)| ==> -q <= Interleaved(a, wide)[i] < q
    decreases wide
  {
    if wide > 0 {
      InterleavedRange(a, wide - 1, q);
    }
  }
}
