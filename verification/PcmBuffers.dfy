/** The sample buffers of the flac front end: packing in write_callback, unpacking in format_input. */
module PcmBuffers {
  import opened Bits
  import opened BitOps
  import opened Buffers
  import opened Bytes
  import opened PcmFormat

  /** The rows of a block of samples, channel by channel. */
  function Rows(a: array2<int>, wide: nat): (rows: seq<seq<int>>)
    requires wide <= a.Length1
    reads a
    ensures |rows| == a.Length0
    ensures forall c :: 0 <= c < |rows| ==> |rows[c]| == wide
    ensures forall c, w :: 0 <= c < |rows| && 0 <= w < wide ==> rows[c][w] == a[c, w]
  {
    seq(a.Length0, c requires 0 <= c < a.Length0 reads a =>
      seq(wide, w requires 0 <= w < wide && 0 <= c < a.Length0 && wide <= a.Length1 reads a => a[c, w]))
  }

  lemma {:induction false} WordsNext(samples: seq<int>, v: int, n: nat, bias: int, big: bool)
    ensures Words(samples + [v], n, bias, big) == Words(samples, n, bias, big) + Ordered(v + bias, n, big)
  {
    assert (samples + [v])[..|samples|] == samples;
  }

  /** A container more, and a sample of all channels more. */
  lemma {:induction false} OneMore(n: nat, k: nat, m: nat)
    ensures n * (k + 1) == n * k + n
    ensures k < m ==> n * k + n <= n * m
  {
    if k < m {
      assert n * m == n * k + n + n * (m - k - 1);
      Product(n, m - k - 1);
    }
  }

  /** One more word behind those that are stored. */
  lemma {:induction false} StoredNext(before: seq<int>, column: seq<int>, c: nat, n: nat, bias: int, hostBig: bool)
    requires c < |column|
    ensures Words(before + column[..c + 1], n, bias, hostBig)
         == Words(before + column[..c], n, bias, hostBig) + Ordered(column[c] + bias, n, hostBig)
  {
    hide Words, Ordered;
    assert before + column[..c + 1] == (before + column[..c]) + [column[c]];
    WordsNext(before + column[..c], column[c], n, bias, hostBig);
  }

  /** The inner loop: the samples of all channels at one moment, stored at a place. */
  method StoreColumn(u8: array<Byte>, buffer: array2<int>, w: nat, at: nat, n: nat, bias: int, hostBig: bool,
                     ghost wide: nat, ghost before: seq<int>)
    requires w < wide <= buffer.Length1 && at + n * buffer.Length0 <= u8.Length
    requires at == n * |before| && u8[..at] == Words(before, n, bias, hostBig)
    modifies u8
    ensures u8[..at + n * buffer.Length0] == Words(before + Column(Rows(buffer, wide), w), n, bias, hostBig)
  {
    hide Words, Ordered;
    ghost var column := Column(Rows(buffer, wide), w);
    assert before + column[..0] == before;
    for c := 0 to buffer.Length0
      invariant n * c <= n * buffer.Length0
      invariant u8[..at + n * c] == Words(before + column[..c], n, bias, hostBig)
    {
      OneMore(n, c, buffer.Length0);
      StoredNext(before, column, c, n, bias, hostBig);
      ghost var done := u8[..at + n * c];
      var word := Ordered(buffer[c, w] + bias, n, hostBig);
      WriteAt(u8, at + n * c, word);
      assert u8[..at + n * c + n] == done + word;
    }
    assert column[..buffer.Length0] == column;
  }

  /**
   The loops over samples and channels that store each sample, plus bias, as an integer of n bytes in the host's order.
   */
  method StoreSamples(u8: array<Byte>, buffer: array2<int>, wide: nat, n: nat, bias: int, hostBig: bool)
      returns (sample: nat)
    requires wide <= buffer.Length1 && n * (wide * buffer.Length0) <= u8.Length
    modifies u8
    ensures sample == wide * buffer.Length0
    ensures u8[..n * sample] == Words(Interleaved(Rows(buffer, wide), wide), n, bias, hostBig)
  {
    hide Words, Ordered;
    ghost var rows := Rows(buffer, wide);
    sample := 0;
    NoWords(n, bias, hostBig);
    for w := 0 to wide
      invariant sample == w * buffer.Length0 && n * sample <= u8.Length
      invariant u8[..n * sample] == Words(Interleaved(rows, w), n, bias, hostBig)
    {
      Room(n, w, wide, buffer.Length0);
      StoreColumn(u8, buffer, w, n * sample, n, bias, hostBig, wide, Interleaved(rows, w));
      sample := sample + buffer.Length0;
    }
  }

  lemma {:induction false} Room(n: nat, w: nat, wide: nat, channels: nat)
    requires w < wide
    ensures (w + 1) * channels == w * channels + channels
    ensures n * (w * channels + channels) == n * (w * channels) + n * channels
    ensures n * (w * channels) + n * channels <= n * (wide * channels)
  {
    assert wide * channels == (w + 1) * channels + (wide - w - 1) * channels;
    Product(wide - w - 1, channels);
    var k, m := (w + 1) * channels, wide * channels;
    assert n * m == n * k + n * (m - k);
    Product(n, m - k);
  }

  lemma {:induction false} NoWords(n: nat, bias: int, big: bool)
    ensures Words([], n, bias, big) == []
  {}

  // Byte order

  lemma {:induction false} TwoBytes(v: int)
    ensures LittleEndian(v, 2) == [v % 256, v / 256 % 256] && BigEndian(v, 2) == [v / 256 % 256, v % 256]
  {
    assert LittleEndian(v / 256, 1) == [v / 256 % 256];
    assert BigEndian(v / 256, 1) == [v / 256 % 256];
  }

  lemma {:induction false} ThreeBytes(v: int)
    ensures LittleEndian(v, 3) == LittleEndian(v, 2) + [v / 256 / 256 % 256]
    ensures BigEndian(v, 3) == [v / 256 / 256 % 256] + BigEndian(v, 2)
  {
    TwoBytes(v / 256);
    TwoBytes(v);
  }

  lemma {:induction false} FourBytes(v: int)
    ensures LittleEndian(v, 4) == LittleEndian(v, 3) + [v / 256 / 256 / 256 % 256]
    ensures BigEndian(v, 4) == [v / 256 / 256 / 256 % 256] + BigEndian(v, 3)
  {
    ThreeBytes(v / 256);
    ThreeBytes(v);
    TwoBytes(v);
    TwoBytes(v / 256);
  }

  /** Exchanges the bytes of n numbers of two bytes. */
  method SwapPairs(u8: array<Byte>, n: nat)
    requires 2 * n <= u8.Length
    modifies u8
    ensures forall k :: 0 <= k < n ==> u8[2 * k] == old(u8[2 * k + 1]) && u8[2 * k + 1] == old(u8[2 * k])
  {
    for k := 0 to n
      invariant forall j :: 0 <= j < k ==> u8[2 * j] == old(u8[2 * j + 1]) && u8[2 * j + 1] == old(u8[2 * j])
      invariant forall i :: 2 * k <= i < u8.Length ==> u8[i] == old(u8[i])
    {
      u8[2 * k], u8[2 * k + 1] := u8[2 * k + 1], u8[2 * k];
    }
  }

  /** Reverses the bytes of n numbers of four bytes. */
  method SwapQuads(u8: array<Byte>, n: nat)
    requires 4 * n <= u8.Length
    modifies u8
    ensures forall k :: 0 <= k < n ==>
      && u8[4 * k] == old(u8[4 * k + 3]) && u8[4 * k + 1] == old(u8[4 * k + 2])
      && u8[4 * k + 2] == old(u8[4 * k + 1]) && u8[4 * k + 3] == old(u8[4 * k])
  {
    for k := 0 to n
      invariant forall j :: 0 <= j < k ==>
        && u8[4 * j] == old(u8[4 * j + 3]) && u8[4 * j + 1] == old(u8[4 * j + 2])
        && u8[4 * j + 2] == old(u8[4 * j + 1]) && u8[4 * j + 3] == old(u8[4 * j])
      invariant forall i :: 4 * k <= i < u8.Length ==> u8[i] == old(u8[i])
    {
      u8[4 * k], u8[4 * k + 3] := u8[4 * k + 3], u8[4 * k];
      u8[4 * k + 1], u8[4 * k + 2] := u8[4 * k + 2], u8[4 * k + 1];
    }
  }

  /** Exchanges the first and last byte of n numbers of three bytes. */
  method SwapTriples(u8: array<Byte>, n: nat)
    requires 3 * n <= u8.Length
    modifies u8
    ensures forall k :: 0 <= k < n ==>
      && u8[3 * k] == old(u8[3 * k + 2]) && u8[3 * k + 1] == old(u8[3 * k + 1])
      && u8[3 * k + 2] == old(u8[3 * k])
  {
    for k := 0 to n
      invariant forall j :: 0 <= j < k ==>
        && u8[3 * j] == old(u8[3 * j + 2]) && u8[3 * j + 1] == old(u8[3 * j + 1])
        && u8[3 * j + 2] == old(u8[3 * j])
      invariant forall i :: 3 * k <= i < u8.Length ==> u8[i] == old(u8[i])
    {
      u8[3 * k], u8[3 * k + 2] := u8[3 * k + 2], u8[3 * k];
    }
  }

  /**
   Moves numbers of four bytes together to three, leaving out the top byte, in place. What has not been read yet is
   never overwritten.
   */
  method Compact(u8: array<Byte>, n: nat, big: bool)
    requires 4 * n <= u8.Length
    modifies u8
    ensures var d := if big then 1 else 0;
      forall k :: 0 <= k < n ==>
        && u8[3 * k] == old(u8[4 * k + d]) && u8[3 * k + 1] == old(u8[4 * k + d + 1])
        && u8[3 * k + 2] == old(u8[4 * k + d + 2])
  {
    ghost var d := if big then 1 else 0;
    var lbyte, byte := 0, 0;
    for k := 0 to n
      invariant lbyte == 3 * k && byte == 4 * k
      invariant forall j :: 0 <= j < k ==>
        && u8[3 * j] == old(u8[4 * j + d]) && u8[3 * j + 1] == old(u8[4 * j + d + 1])
        && u8[3 * j + 2] == old(u8[4 * j + d + 2])
      invariant forall i :: 4 * k <= i < u8.Length ==> u8[i] == old(u8[i])
    {
      var from := if big then byte + 1 else byte;
      u8[lbyte] := u8[from];
      u8[lbyte + 1] := u8[from + 1];
      u8[lbyte + 2] := u8[from + 2];
      lbyte, byte := lbyte + 3, byte + 4;
    }
  }

  // Numbers in a byte string

  /** The k-th group of n bytes. */
  function Group(bytes: seq<Byte>, n: nat, k: nat): seq<Byte> {
    if n * k + n <= |bytes| then bytes[n * k..n * k + n] else []
  }

  lemma {:induction false} GroupInFront(a: seq<Byte>, b: seq<Byte>, n: nat, k: nat)
    requires n * k + n <= |a|
    ensures Group(a + b, n, k) == Group(a, n, k)
  {
    var i := n * k;
    Product(n, k);
    assert (a + b)[i..i + n] == a[i..i + n];
  }

  lemma {:induction false} GroupBehind(a: seq<Byte>, b: seq<Byte>, n: nat, k: nat)
    requires |a| == n * k && |b| == n
    ensures Group(a + b, n, k) == b
  {
    assert (a + b)[|a|..|a| + n] == b;
  }

  lemma {:induction false} WordsUnfold(samples: seq<int>, n: nat, bias: int, big: bool)
    requires samples != []
    ensures var m := |samples| - 1;
      Words(samples, n, bias, big) == Words(samples[..m], n, bias, big) + Ordered(samples[m] + bias, n, big)
  {}

  lemma {:induction false} WordsGroup(samples: seq<int>, n: nat, bias: int, big: bool, k: nat)
    requires k < |samples|
    ensures Group(Words(samples, n, bias, big), n, k) == Ordered(samples[k] + bias, n, big)
    decreases |samples|
  {
    hide Words, Ordered, Group;
    WordsUnfold(samples, n, bias, big);
    var m := |samples| - 1;
    var front, last := Words(samples[..m], n, bias, big), Ordered(samples[m] + bias, n, big);
    if k < m {
      OneMore(n, k, m);
      WordsGroup(samples[..m], n, bias, big, k);
      GroupInFront(front, last, n, k);
    } else {
      GroupBehind(front, last, n, m);
    }
  }

  /** A byte string is determined by its groups. */
  lemma {:induction false} GroupsAreWords(bytes: seq<Byte>, samples: seq<int>, n: nat, bias: int, big: bool)
    requires |bytes| == n * |samples|
    requires forall k :: 0 <= k < |samples| ==> Group(bytes, n, k) == Ordered(samples[k] + bias, n, big)
    ensures bytes == Words(samples, n, bias, big)
    decreases |samples|
  {
    hide Ordered, Words, Group;
    if samples == [] {
      NoWords(n, bias, big);
    } else {
      var m := |samples| - 1;
      WordsUnfold(samples, n, bias, big);
      var front, last := CutGroup(bytes, n, m);
      assert Group(bytes, n, m) == Ordered(samples[m] + bias, n, big);
      forall k | 0 <= k < m ensures Group(front, n, k) == Ordered(samples[..m][k] + bias, n, big) {
        OneMore(n, k, m);
        GroupInFront(front, last, n, k);
        assert Group(bytes, n, k) == Ordered(samples[k] + bias, n, big);
      }
      GroupsAreWords(front, samples[..m], n, bias, big);
    }
  }

  lemma {:induction false} CutGroup(bytes: seq<Byte>, n: nat, m: nat) returns (front: seq<Byte>, last: seq<Byte>)
    requires |bytes| == n * (m + 1)
    ensures bytes == front + last && |front| == n * m && last == Group(bytes, n, m)
  {
    OneMore(n, m, m + 1);
    Product(n, m);
    front, last := bytes[..n * m], bytes[n * m..];
  }

  lemma {:induction false} SwappedPairs(before: seq<Byte>, after: seq<Byte>, samples: seq<int>, bias: int, big: bool)
    requires before == Words(samples, 2, bias, big) && |after| == |before|
    requires forall k :: 0 <= k < |samples| ==> after[2 * k] == before[2 * k + 1] && after[2 * k + 1] == before[2 * k]
    ensures after == Words(samples, 2, bias, !big)
  {
    forall k | 0 <= k < |samples| ensures Group(after, 2, k) == Ordered(samples[k] + bias, 2, !big) {
      WordsGroup(samples, 2, bias, big, k);
      PairSwapped(before, after, k, samples[k] + bias, big);
    }
    GroupsAreWords(after, samples, 2, bias, !big);
  }

  lemma {:induction false} PairSwapped(before: seq<Byte>, after: seq<Byte>, k: nat, v: int, big: bool)
    requires |after| == |before| && 2 * k + 2 <= |before| && Group(before, 2, k) == Ordered(v, 2, big)
    requires after[2 * k] == before[2 * k + 1] && after[2 * k + 1] == before[2 * k]
    ensures Group(after, 2, k) == Ordered(v, 2, !big)
  {
    TwoBytes(v);
    hide LittleEndian, BigEndian;
    var g := Group(before, 2, k);
    assert g[0] == before[2 * k] && g[1] == before[2 * k + 1];
  }

  lemma {:induction false} SwappedQuads(before: seq<Byte>, after: seq<Byte>, samples: seq<int>, bias: int, big: bool)
    requires before == Words(samples, 4, bias, big) && |after| == |before|
    requires forall k :: 0 <= k < |samples| ==>
      && after[4 * k] == before[4 * k + 3] && after[4 * k + 1] == before[4 * k + 2]
      && after[4 * k + 2] == before[4 * k + 1] && after[4 * k + 3] == before[4 * k]
    ensures after == Words(samples, 4, bias, !big)
  {
    forall k | 0 <= k < |samples| ensures Group(after, 4, k) == Ordered(samples[k] + bias, 4, !big) {
      WordsGroup(samples, 4, bias, big, k);
      QuadSwapped(before, after, k, samples[k] + bias, big);
    }
    GroupsAreWords(after, samples, 4, bias, !big);
  }

  lemma {:induction false} QuadSwapped(before: seq<Byte>, after: seq<Byte>, k: nat, v: int, big: bool)
    requires |after| == |before| && 4 * k + 4 <= |before| && Group(before, 4, k) == Ordered(v, 4, big)
    requires after[4 * k] == before[4 * k + 3] && after[4 * k + 1] == before[4 * k + 2]
    requires after[4 * k + 2] == before[4 * k + 1] && after[4 * k + 3] == before[4 * k]
    ensures Group(after, 4, k) == Ordered(v, 4, !big)
  {
    ReversedQuad(v, big);
    hide Ordered;
    var g := Group(before, 4, k);
    assert g[0] == before[4 * k] && g[1] == before[4 * k + 1] && g[2] == before[4 * k + 2] && g[3] == before[4 * k + 3];
  }

  lemma {:induction false} ReversedQuad(v: int, big: bool)
    ensures var s := Ordered(v, 4, big); Ordered(v, 4, !big) == [s[3], s[2], s[1], s[0]]
  {
    FourBytes(v);
    ThreeBytes(v);
    TwoBytes(v);
  }

  lemma {:induction false} CompactedWords(before: seq<Byte>, after: seq<Byte>, samples: seq<int>, bias: int, big: bool)
    requires before == Words(samples, 4, bias, big) && |after| == 3 * |samples|
    requires var d := if big then 1 else 0;
      forall k :: 0 <= k < |samples| ==>
        && after[3 * k] == before[4 * k + d] && after[3 * k + 1] == before[4 * k + d + 1]
        && after[3 * k + 2] == before[4 * k + d + 2]
    ensures after == Words(samples, 3, bias, big)
  {
    forall k | 0 <= k < |samples| ensures Group(after, 3, k) == Ordered(samples[k] + bias, 3, big) {
      WordsGroup(samples, 4, bias, big, k);
      QuadCompacted(before, after, k, samples[k] + bias, big);
    }
    GroupsAreWords(after, samples, 3, bias, big);
  }

  lemma {:induction false} QuadCompacted(before: seq<Byte>, after: seq<Byte>, k: nat, v: int, big: bool)
    requires 3 * k + 3 <= |after| && 4 * k + 4 <= |before| && Group(before, 4, k) == Ordered(v, 4, big)
    requires var d := if big then 1 else 0;
      && after[3 * k] == before[4 * k + d] && after[3 * k + 1] == before[4 * k + d + 1]
      && after[3 * k + 2] == before[4 * k + d + 2]
    ensures Group(after, 3, k) == Ordered(v, 3, big)
  {
    TopDropped(v, big);
    hide Ordered;
    var g := Group(before, 4, k);
    assert g[0] == before[4 * k] && g[1] == before[4 * k + 1] && g[2] == before[4 * k + 2] && g[3] == before[4 * k + 3];
  }

  lemma {:induction false} TopDropped(v: int, big: bool)
    ensures var s, d := Ordered(v, 4, big), if big then 1 else 0;
      Ordered(v, 3, big) == [s[d], s[d + 1], s[d + 2]]
  {
    FourBytes(v);
  }

  lemma {:induction false} Biases()
    ensures Bias(1, true) == 0x80 && Bias(2, true) == 0x8000 && Bias(3, true) == 0x80_0000
    ensures Bias(1, false) == 0 && Bias(2, false) == 0 && Bias(3, false) == 0
  {
    PowersOfBytes();
    assert Pow256(1) == 256 && Pow256(2) == 0x1_0000 && Pow256(3) == 0x100_0000;
  }

  // write_callback

  method Pack16(u8: array<Byte>, buffer: array2<int>, wide: nat, big: bool, unsigned: bool, hostBig: bool)
      returns (sample: nat)
    requires wide <= buffer.Length1 && 4 * (wide * buffer.Length0) <= u8.Length
    modifies u8
    ensures sample == wide * buffer.Length0
    ensures u8[..2 * sample] == Packed(Interleaved(Rows(buffer, wide), wide), 2, big, unsigned)
  {
    hide Words, Interleaved;
    Biases();
    sample := StoreSamples(u8, buffer, wide, 2, if unsigned then 0x8000 else 0, hostBig);
    if big != hostBig {
      ghost var before := u8[..2 * sample];
      SwapPairs(u8, sample);
      SwappedPairs(before, u8[..2 * sample], Interleaved(Rows(buffer, wide), wide), Bias(2, unsigned), hostBig);
    }
  }

  method Pack24(u8: array<Byte>, buffer: array2<int>, wide: nat, big: bool, unsigned: bool, hostBig: bool)
      returns (sample: nat)
    requires wide <= buffer.Length1 && 4 * (wide * buffer.Length0) <= u8.Length
    modifies u8
    ensures sample == wide * buffer.Length0
    ensures u8[..3 * sample] == Packed(Interleaved(Rows(buffer, wide), wide), 3, big, unsigned)
  {
    hide Words, Interleaved;
    Biases();
    ghost var samples := Interleaved(Rows(buffer, wide), wide);
    sample := StoreSamples(u8, buffer, wide, 4, if unsigned then 0x80_0000 else 0, hostBig);
    if big != hostBig {
      ghost var before := u8[..4 * sample];
      SwapQuads(u8, sample);
      SwappedQuads(before, u8[..4 * sample], samples, Bias(3, unsigned), hostBig);
    }
    ghost var before := u8[..4 * sample];
    Compact(u8, sample, big);
    CompactedWords(before, u8[..3 * sample], samples, Bias(3, unsigned), big);
  }

  method Pack8(u8: array<Byte>, buffer: array2<int>, wide: nat, big: bool, unsigned: bool, hostBig: bool)
      returns (sample: nat)
    requires wide <= buffer.Length1 && 4 * (wide * buffer.Length0) <= u8.Length
    modifies u8
    ensures sample == wide * buffer.Length0
    ensures u8[..sample] == Packed(Interleaved(Rows(buffer, wide), wide), 1, big, unsigned)
  {
    hide Words, Interleaved;
    Biases();
    sample := StoreSamples(u8, buffer, wide, 1, if unsigned then 0x80 else 0, hostBig);
    OneByteWords(Interleaved(Rows(buffer, wide), wide), Bias(1, unsigned), hostBig, big);
  }

  /** In one byte there is no order. */
  lemma {:induction false} OneByteWords(samples: seq<int>, bias: int, a: bool, b: bool)
    ensures Words(samples, 1, bias, a) == Words(samples, 1, bias, b)
  {
    if samples != [] {
      OneByteWords(samples[..|samples| - 1], bias, a, b);
      var v := samples[|samples| - 1] + bias;
      assert LittleEndian(v, 1) == [v % 256] && BigEndian(v, 1) == [v % 256];
    }
  }

  // The fast paths for 16 bits in the host's byte order

  lemma {:induction false} PairAt(rows: seq<seq<int>>, wide: nat, w: nat)
    requires |rows| == 2 && |rows[0]| >= wide && |rows[1]| >= wide && w < wide
    ensures Interleaved(rows, wide)[2 * w] == rows[0][w] && Interleaved(rows, wide)[2 * w + 1] == rows[1][w]
    decreases wide
  {
    assert Interleaved(rows, wide) == Interleaved(rows, wide - 1) + Column(rows, wide - 1);
    if w < wide - 1 {
      PairAt(rows, wide - 1, w);
    }
  }

  lemma {:induction false} OneChannel(rows: seq<seq<int>>, wide: nat)
    requires |rows| == 1 && |rows[0]| >= wide
    ensures Interleaved(rows, wide) == rows[0][..wide]
    decreases wide
  {
    if wide > 0 {
      OneChannel(rows, wide - 1);
    }
  }

  /** The low halves of 32-bit numbers copied as they lie in memory, from the first low half on. */
  lemma {:induction false} CopiedHalves(s: seq<Byte>, row: seq<int>, big: bool, w: nat)
    requires w < |row| && |s| >= 4 * |row|
    requires if big then s[..4 * |row| - 2] == Words(row, 4, 0, true)[2..]
             else s[..4 * |row|] == Words(row, 4, 0, false)
    ensures Group(s, 2, 2 * w) == Ordered(row[w], 2, big)
  {
    hide Words, Ordered;
    var words := Words(row, 4, 0, big);
    WordsGroup(row, 4, 0, big, w);
    LowHalf(row[w]);
    var i := 4 * w;
    assert words[i..i + 4] == Ordered(row[w], 4, big);
    assert Group(s, 2, 2 * w) == s[i..i + 2];
    hide Group;
    if big {
      assert s[..4 * |row| - 2] == words[2..];
      HalfCopied(words, s[..4 * |row| - 2], s, i, 2);
      assert words[i..i + 4][2..4] == words[i..i + 4][2..];
    } else {
      HalfCopied(words, s[..4 * |row|], s, i, 0);
    }
  }

  lemma {:induction false} LowHalf(v: int)
    ensures Ordered(v, 4, false)[..2] == Ordered(v, 2, false) && Ordered(v, 4, true)[2..] == Ordered(v, 2, true)
  {
    FourBytes(v);
    ThreeBytes(v);
    hide LittleEndian, BigEndian;
  }

  lemma {:induction false} HalfCopied(words: seq<Byte>, copied: seq<Byte>, s: seq<Byte>, at: nat, d: nat)
    requires at + 4 <= |words| && d <= 2 && d + |copied| <= |words| && at + 2 <= |copied|
    requires copied <= s && copied == words[d..d + |copied|]
    ensures s[at..at + 2] == words[at..at + 4][d..d + 2]
  {
    assert s[at] == copied[at] && s[at + 1] == copied[at + 1];
  }

  lemma {:induction false} GroupKept(before: seq<Byte>, after: seq<Byte>, i: nat, j: nat)
    requires |before| == |after| && i != j
    requires forall x :: 0 <= x < |before| && !(2 * i <= x < 2 * i + 2) ==> after[x] == before[x]
    ensures Group(after, 2, j) == Group(before, 2, j)
  {}

  /** memcpy of the first channel, then every second sample from the second channel. */
  method PackStereo(u8: array<Byte>, buffer: array2<int>, wide: nat, hostBig: bool)
    requires wide > 0 && wide <= buffer.Length1 && buffer.Length0 == 2 && 4 * (wide * 2) <= u8.Length
    modifies u8
    ensures u8[..4 * wide] == Packed(Interleaved(Rows(buffer, wide), wide), 2, hostBig, false)
  {
    hide Words, Interleaved, Ordered, Group;
    var rows := Rows(buffer, wide);
    var first := Words(rows[0], 4, 0, hostBig);
    if hostBig {
      WriteAt(u8, 0, first[2..]);
      assert u8[..4 * wide - 2] == u8[0..0 + (4 * wide - 2)];
    } else {
      WriteAt(u8, 0, first);
      assert u8[..4 * wide] == u8[0..0 + 4 * wide];
    }
    forall w | 0 <= w < wide ensures Group(u8[..], 2, 2 * w) == Ordered(rows[0][w], 2, hostBig) {
      assert u8[..][..4 * wide - 2] == u8[..4 * wide - 2] && u8[..][..4 * wide] == u8[..4 * wide];
      CopiedHalves(u8[..], rows[0], hostBig, w);
    }
    for sample := 0 to wide
      invariant forall w :: 0 <= w < wide ==> Group(u8[..], 2, 2 * w) == Ordered(rows[0][w], 2, hostBig)
      invariant forall w :: 0 <= w < sample ==> Group(u8[..], 2, 2 * w + 1) == Ordered(rows[1][w], 2, hostBig)
    {
      ghost var before := u8[..];
      WriteAt(u8, 4 * sample + 2, Ordered(buffer[1, sample], 2, hostBig));
      StereoStored(before, u8[..], rows, sample, wide, hostBig);
    }
    StereoDone(u8[..], rows, wide, hostBig);
    assert u8[..][..4 * wide] == u8[..4 * wide];
  }

  lemma {:induction false} StereoStored(before: seq<Byte>, after: seq<Byte>, rows: seq<seq<int>>, k: nat, wide: nat,
                                        big: bool)
    requires |rows| == 2 && |rows[0]| == wide && |rows[1]| == wide && k < wide && |before| == |after| >= 4 * wide
    requires forall w :: 0 <= w < wide ==> Group(before, 2, 2 * w) == Ordered(rows[0][w], 2, big)
    requires forall w :: 0 <= w < k ==> Group(before, 2, 2 * w + 1) == Ordered(rows[1][w], 2, big)
    requires after[4 * k + 2..4 * k + 4] == Ordered(rows[1][k], 2, big)
    requires forall x :: 0 <= x < |before| && !(4 * k + 2 <= x < 4 * k + 4) ==> after[x] == before[x]
    ensures forall w :: 0 <= w < wide ==> Group(after, 2, 2 * w) == Ordered(rows[0][w], 2, big)
    ensures forall w :: 0 <= w < k + 1 ==> Group(after, 2, 2 * w + 1) == Ordered(rows[1][w], 2, big)
  {
    assert Group(after, 2, 2 * k + 1) == after[4 * k + 2..4 * k + 4];
    hide Ordered, Group;
    forall w | 0 <= w < wide ensures Group(after, 2, 2 * w) == Ordered(rows[0][w], 2, big) {
      GroupKept(before, after, 2 * k + 1, 2 * w);
    }
    forall w | 0 <= w < k + 1 ensures Group(after, 2, 2 * w + 1) == Ordered(rows[1][w], 2, big) {
      if w < k {
        GroupKept(before, after, 2 * k + 1, 2 * w + 1);
      }
    }
  }

  lemma {:induction false} StereoDone(s: seq<Byte>, rows: seq<seq<int>>, wide: nat, big: bool)
    requires |rows| == 2 && |rows[0]| == wide && |rows[1]| == wide && |s| >= 4 * wide
    requires forall w :: 0 <= w < wide ==> Group(s, 2, 2 * w) == Ordered(rows[0][w], 2, big)
    requires forall w :: 0 <= w < wide ==> Group(s, 2, 2 * w + 1) == Ordered(rows[1][w], 2, big)
    ensures s[..4 * wide] == Packed(Interleaved(rows, wide), 2, big, false)
  {
    hide Ordered, Words, Interleaved;
    var samples := Interleaved(rows, wide);
    forall k | 0 <= k < |samples| ensures Group(s[..4 * wide], 2, k) == Ordered(samples[k] + 0, 2, big) {
      var w := k / 2;
      PairAt(rows, wide, w);
      assert Group(s, 2, 2 * w) == Ordered(rows[0][w], 2, big) && Group(s, 2, 2 * w + 1) == Ordered(rows[1][w], 2, big);
      assert k == 2 * w || k == 2 * w + 1;
      assert s == s[..4 * wide] + s[4 * wide..];
      GroupInFront(s[..4 * wide], s[4 * wide..], 2, k);
    }
    Biases();
    GroupsAreWords(s[..4 * wide], samples, 2, 0, big);
  }

  method PackMono(u8: array<Byte>, buffer: array2<int>, wide: nat, hostBig: bool)
    requires wide <= buffer.Length1 && buffer.Length0 == 1 && 2 * wide <= u8.Length
    modifies u8
    ensures u8[..2 * wide] == Packed(Interleaved(Rows(buffer, wide), wide), 2, hostBig, false)
  {
    hide Words, Ordered;
    ghost var row := Rows(buffer, wide)[0];
    NoWords(2, 0, hostBig);
    assert row[..0] == [];
    for sample := 0 to wide
      invariant u8[..2 * sample] == Words(row[..sample], 2, 0, hostBig)
    {
      WordsNext(row[..sample], row[sample], 2, 0, hostBig);
      assert row[..sample] + [row[sample]] == row[..sample + 1];
      WriteAt(u8, 2 * sample, Ordered(buffer[0, sample], 2, hostBig));
    }
    OneChannel(Rows(buffer, wide), wide);
    Biases();
  }

  /**
   The packing part of write_callback: whatever branch is taken, the bytes are the interleaved samples in containers of
   the width asked for.
   */
  method Pack(u8: array<Byte>, buffer: array2<int>, wide: nat, bits: nat, big: bool, unsigned: bool, hostBig: bool)
      returns (ok: bool, bytesToWrite: nat)
    requires wide > 0 && wide <= buffer.Length1 && 4 * (wide * buffer.Length0) <= u8.Length
    modifies u8
    ensures ok == (bits == 8 || bits == 16 || bits == 24)
    ensures bytesToWrite <= u8.Length
    ensures ok ==>
      && bytesToWrite == (bits / 8) * (wide * buffer.Length0)
      && u8[..bytesToWrite] == Packed(Interleaved(Rows(buffer, wide), wide), bits / 8, big, unsigned)
  {
    hide Packed, Interleaved;
    ok := true;
    var sample;
    if big == hostBig && !unsigned && buffer.Length0 == 2 && bits == 16 {
      PackStereo(u8, buffer, wide, hostBig);
      bytesToWrite := 4 * wide;
    } else if big == hostBig && !unsigned && buffer.Length0 == 1 && bits == 16 {
      PackMono(u8, buffer, wide, hostBig);
      bytesToWrite := 2 * wide;
    } else if bits == 16 {
      sample := Pack16(u8, buffer, wide, big, unsigned, hostBig);
      bytesToWrite := 2 * sample;
    } else if bits == 24 {
      sample := Pack24(u8, buffer, wide, big, unsigned, hostBig);
      bytesToWrite := 3 * sample;
    } else if bits == 8 {
      sample := Pack8(u8, buffer, wide, big, unsigned, hostBig);
      bytesToWrite := sample;
    } else {
      ok, bytesToWrite := false, 0;
    }
  }

  /** The loops that shift samples to the top of their containers. */
  method ShiftSamples(buffer: array2<int>, wide: nat, shift: nat)
    requires wide <= buffer.Length1
    modifies buffer
    ensures forall c, w :: 0 <= c < buffer.Length0 && 0 <= w < wide ==>
      buffer[c, w] == old(buffer[c, w]) * Pow2(shift)
  {
    var p := Pow2(shift);
    hide Pow2;
    for w := 0 to wide
      invariant forall i, j :: 0 <= i < buffer.Length0 && 0 <= j < w ==> buffer[i, j] == old(buffer[i, j]) * p
      invariant forall i, j :: 0 <= i < buffer.Length0 && w <= j < buffer.Length1 ==> buffer[i, j] == old(buffer[i, j])
    {
      for c := 0 to buffer.Length0
        invariant forall i, j :: 0 <= i < buffer.Length0 && 0 <= j < w ==> buffer[i, j] == old(buffer[i, j]) * p
        invariant forall i :: 0 <= i < c ==> buffer[i, w] == old(buffer[i, w]) * p
        invariant forall i :: c <= i < buffer.Length0 ==> buffer[i, w] == old(buffer[i, w])
        invariant forall i, j :: 0 <= i < buffer.Length0 && w + 1 <= j < buffer.Length1 ==>
          buffer[i, j] == old(buffer[i, j])
      {
        buffer[c, w] := buffer[c, w] * p;
      }
    }
  }

  lemma {:induction false} ShiftedRows(before: seq<seq<int>>, after: seq<seq<int>>, wide: nat, shift: nat)
    requires |before| == |after|
    requires forall c :: 0 <= c < |before| ==> |before[c]| >= wide && |after[c]| >= wide
    requires forall c, w :: 0 <= c < |before| && 0 <= w < wide ==> after[c][w] == before[c][w] * Pow2(shift)
    ensures Interleaved(after, wide) == ShiftedUp(Interleaved(before, wide), shift)
    decreases wide
  {
    hide Pow2;
    if wide > 0 {
      ShiftedRows(before, after, wide - 1, shift);
      assert Column(after, wide - 1) == ShiftedUp(Column(before, wide - 1), shift);
    }
  }

  /** What write_callback does with a frame of wide samples, apart from writing the bytes to the file. */
  method PackFrame(u8: array<Byte>, buffer: array2<int>, wide: nat, bps: nat, shift: nat, big: bool, unsigned: bool,
                   hostBig: bool) returns (ok: bool, bytesToWrite: nat)
    requires wide > 0 && wide <= buffer.Length1 && 4 * (wide * buffer.Length0) <= u8.Length
    modifies u8, buffer
    ensures ok == (bps + shift == 8 || bps + shift == 16 || bps + shift == 24)
    ensures bytesToWrite <= u8.Length
    ensures ok ==>
      && bytesToWrite == ((bps + shift) / 8) * (wide * buffer.Length0)
      && u8[..bytesToWrite]
         == Packed(ShiftedUp(Interleaved(old(Rows(buffer, wide)), wide), shift), (bps + shift) / 8, big, unsigned)
  {
    hide Pow2, Packed, Interleaved;
    ghost var before := Rows(buffer, wide);
    if shift > 0 {
      ShiftSamples(buffer, wide, shift);
    } else {
      NoShift();
    }
    ShiftedRows(before, Rows(buffer, wide), wide, shift);
    ok, bytesToWrite := Pack(u8, buffer, wide, bps + shift, big, unsigned, hostBig);
  }

  lemma {:induction false} NoShift()
    ensures Pow2(0) == 1
  {}
}
