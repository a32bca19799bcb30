/** Encoding a list of WAVE files so that every one but the last fills whole CD sectors of 588 samples. */
module SectorAlign {
  import opened Bytes
  import opened BitOps
  import opened Sequences

  /** One sample of every channel. */
  type Wide = seq<int>

  const SECTOR := 588
  const CHUNK_OF_SAMPLES := 2048

  /** align_reservoir and align_reservoir_samples: a count, and samples of which those in front count. */
  datatype Reservoir = Reservoir(buffer: seq<Wide>, samples: nat)

  predicate Fits(r: Reservoir) {
    |r.buffer| == SECTOR && r.samples < SECTOR
  }

  function Carried(r: Reservoir): seq<Wide>
    requires Fits(r)
  {
    r.buffer[..r.samples]
  }

  /** The samples that do not fill a sector. */
  function Remainder(r: Reservoir, data: seq<Wide>): (n: nat)
    ensures n < SECTOR
  {
    (|data| + r.samples) % SECTOR
  }

  function Zeros(n: nat, channels: nat): (s: seq<Wide>)
    ensures |s| == n && forall i :: 0 <= i < n ==> |s[i]| == channels && forall c :: 0 <= c < channels ==> s[i][c] == 0
  {
    seq(n, _ => seq(channels, _ => 0))
  }

  lemma {:induction false} NoZeros(channels: nat)
    ensures Zeros(0, channels) == []
  {}

  /** The file alone has the samples to be carried over. */
  predicate Enough(r: Reservoir, data: seq<Wide>) {
    Remainder(r, data) <= |data|
  }

  /** What a file's encoding takes in. */
  function Encoded(r: Reservoir, data: seq<Wide>, last: bool, channels: nat): seq<Wide>
    requires Fits(r)
  {
    var n := Remainder(r, data);
    if last then Carried(r) + data + Zeros(if n == 0 then 0 else SECTOR - n, channels)
    else if Enough(r, data) then Carried(r) + data[..|data| - n]
    else Carried(r) + data
  }

  /** What it leaves for the next file. */
  function Left(r: Reservoir, data: seq<Wide>, last: bool): (t: Reservoir)
    requires Fits(r)
    ensures Fits(t)
  {
    var n := Remainder(r, data);
    if last then r.(samples := 0)
    else if Enough(r, data) then Reservoir(data[|data| - n..] + r.buffer[n..], n)
    else r.(samples := n)
  }

  /** How many bytes samples take up. */
  function SizeOf(wide: int, bytesPerWide: nat): int {
    wide * bytesPerWide
  }

  /** An unsigned number of 32 bits. */
  function Wrapped(n: int): int {
    if n >= 0 then n else n + 0x1_0000_0000
  }

  /** How far a file is read that is to leave a number of samples to be carried over, but may not have so many. */
  function ReadTo(length: nat, carried: nat): (pos: nat)
    ensures pos <= length
  {
    if carried <= length then length - carried else length
  }

  /** The samples carried over, in front of what the reservoir had there; nothing is read if there are not so many. */
  function Kept(data: seq<Wide>, pos: nat, carried: nat, buffer: seq<Wide>): seq<Wide>
    requires pos <= |data| && carried <= |buffer|
  {
    if |data| - pos >= carried then data[pos..pos + carried] + buffer[carried..] else buffer
  }

  lemma {:induction false} NoneKept(data: seq<Wide>, pos: nat, buffer: seq<Wide>)
    requires pos <= |data|
    ensures Kept(data, pos, 0, buffer) == buffer
    ensures forall n: nat :: pos + n > |data| && n <= |buffer| ==> Kept(data, pos, n, buffer) == buffer
  {}

  function PaddingOf(remainder: nat, last: bool, channels: nat): seq<Wide>
    requires remainder < SECTOR
  {
    if last && remainder > 0 then Zeros(SECTOR - remainder, channels) else []
  }

  /** The parts of an encoding: how far the file is read, what is added behind it, and what is carried over. */
  lemma {:induction false} EncodedParts(r: Reservoir, data: seq<Wide>, last: bool, channels: nat)
    requires Fits(r)
    ensures var n := Remainder(r, data);
      var carried := if last then 0 else n;
      var pos := ReadTo(|data|, carried);
      && Encoded(r, data, last, channels) == Carried(r) + data[..pos] + PaddingOf(n, last, channels)
      && Left(r, data, last) == Reservoir(Kept(data, pos, carried, r.buffer), carried)
  {
    hide Remainder, Zeros;
    NoZeros(channels);
  }

  class Encoder {
    var buffer: array<Wide>
    var samples: nat

    ghost predicate Valid()
      reads this
    {
      buffer.Length == SECTOR && samples < SECTOR
    }

    ghost function State(): (r: Reservoir)
      requires Valid()
      reads this, buffer
      ensures Fits(r)
    {
      Reservoir(buffer[..], samples)
    }

    constructor ()
      ensures Valid() && State().samples == 0 && fresh(buffer)
    {
      buffer := new Wide[SECTOR];
      samples := 0;
    }

    /**
     The part of flac__encode_wav between the size of the data chunk and its end, for a file with nothing behind the
     chunk and with warnings not treated as errors; bytesPerWide is the size of a sample of all channels.
     */
    method EncodeData(data: seq<Wide>, bytesPerWide: nat, last: bool, channels: nat) returns (encoded: seq<Wide>)
      requires Valid() && data != [] && 1 <= bytesPerWide <= 24 && SizeOf(|data|, bytesPerWide) < 0x1_0000_0000
      modifies this, buffer
      ensures Valid() && buffer == old(buffer)
      ensures encoded == Encoded(old(State()), data, last, channels) && State() == Left(old(State()), data, last)
    {
      ghost var r := State();
      var alignRemainder := (|data| + samples) % SECTOR;
      assert alignRemainder == Remainder(r, data);
      EncodedParts(r, data, last, channels);
      hide Remainder, Zeros, Encoded, Left, SizeOf, Wrapped, ReadTo, Kept, PaddingOf;
      encoded := [];
      if samples > 0 {
        encoded := encoded + buffer[..samples];
      }
      assert encoded == Carried(r);
      hide Carried;
      samples := if last then 0 else alignRemainder;
      var dataBytes := BytesToRead(|data|, samples, bytesPerWide);
      var part, pos := ReadChunks(data, dataBytes, bytesPerWide, |data| - samples);
      encoded := encoded + part;
      var padding := EndFile(data, pos, alignRemainder, last, channels);
      encoded := encoded + padding;
      assert State() == Left(r, data, last);
    }

    /** Zeros for the last file; for the others the samples that are carried over, if there are so many. */
    method EndFile(data: seq<Wide>, pos: nat, alignRemainder: nat, last: bool, channels: nat)
        returns (padding: seq<Wide>)
      requires Valid() && pos <= |data| && alignRemainder < SECTOR && samples == (if last then 0 else alignRemainder)
      modifies buffer
      ensures padding == PaddingOf(alignRemainder, last, channels)
      ensures State() == Reservoir(Kept(data, pos, samples, old(buffer[..])), samples)
    {
      NoneKept(data, pos, buffer[..]);
      hide Kept, Zeros;
      padding := [];
      if last {
        var wideSamples := SECTOR - alignRemainder;
        if wideSamples < SECTOR {
          padding := Zeros(wideSamples, channels);
        }
      } else if samples > 0 {
        if |data| - pos >= samples {
          KeepTail(data, pos);
        }
      }
    }

    /** fread and format_input into the reservoir. */
    method KeepTail(data: seq<Wide>, pos: nat)
      requires Valid() && pos + samples <= |data|
      modifies buffer
      ensures buffer[..] == Kept(data, pos, samples, old(buffer[..]))
    {
      for i := 0 to samples
        invariant forall j :: 0 <= j < i ==> buffer[j] == data[pos + j]
        invariant forall j :: i <= j < SECTOR ==> buffer[j] == old(buffer[j])
      {
        buffer[i] := data[pos + i];
      }
    }
  }

  /** data_bytes without what is to be carried over, an unsigned subtraction. */
  method BytesToRead(length: nat, carried: nat, bytesPerWide: nat) returns (dataBytes: nat)
    requires carried < SECTOR && 1 <= bytesPerWide <= 24 && SizeOf(length, bytesPerWide) < 0x1_0000_0000
    ensures dataBytes == Wrapped(SizeOf(length - carried, bytesPerWide))
  {
    if length >= carried {
      Monotone(0, length - carried, bytesPerWide);
    } else {
      assert SizeOf(length - carried, bytesPerWide) == -((carried - length) * bytesPerWide);
      Monotone(1, carried - length, bytesPerWide);
    }
    Decremented(length, carried, bytesPerWide);
    dataBytes := (length * bytesPerWide - carried * bytesPerWide) % 0x1_0000_0000;
  }

  /**
   The loop that reads the file until data_bytes, an unsigned number of 32 bits, is down to zero or the file ends.
   Wanted is the number of samples that data_bytes was meant to be, negative when it wrapped around.
   */
  method ReadChunks(data: seq<Wide>, bytes: nat, bytesPerWide: nat, ghost wanted: int)
      returns (encoded: seq<Wide>, pos: nat)
    requires 1 <= bytesPerWide <= 24 && SizeOf(|data|, bytesPerWide) < 0x1_0000_0000
    requires wanted <= |data| < wanted + SECTOR
    requires bytes == Wrapped(SizeOf(wanted, bytesPerWide))
    ensures pos == ReadTo(|data|, |data| - wanted) && encoded == data[..pos]
  {
    hide Unread, InChunk;
    var dataBytes: nat := bytes;
    encoded, pos := [], 0;
    UnreadStart(wanted, |data|, bytesPerWide, bytes);
    while dataBytes > 0
      invariant pos <= |data| && encoded == data[..pos]
      invariant Unread(wanted, pos, |data|, bytesPerWide, dataBytes)
      decreases dataBytes
    {
      var chunk, there := CHUNK_OF_SAMPLES * bytesPerWide, (|data| - pos) * bytesPerWide;
      var want := if dataBytes < chunk then dataBytes else chunk;
      var bytesRead := if there < want then there else want;
      ghost var n := ChunkBytes(wanted, pos, |data|, bytesPerWide, dataBytes);
      Quotient(n, bytesPerWide);
      if bytesRead == 0 {
        UnreadAtEnd(wanted, pos, |data|, bytesPerWide);
        dataBytes := 0;
      } else {
        var wideSamples := bytesRead / bytesPerWide;
        encoded := encoded + data[pos..pos + wideSamples];
        pos := pos + wideSamples;
        dataBytes := dataBytes - bytesRead;
      }
    }
    UnreadDone(wanted, pos, |data|, bytesPerWide);
  }

  /** data_bytes against what is still wanted, or against the end of the file when it wrapped around. */
  predicate Unread(wanted: int, pos: nat, length: nat, b: nat, dataBytes: int) {
    if wanted >= 0 then pos <= wanted && dataBytes == (wanted - pos) * b
    else if dataBytes == 0 then pos == length
    else dataBytes == (wanted - pos) * b + 0x1_0000_0000
  }

  lemma {:induction false} UnreadStart(wanted: int, length: nat, b: nat, bytes: nat)
    requires 1 <= b <= 24 && wanted <= length < wanted + SECTOR
    requires bytes == Wrapped(SizeOf(wanted, b))
    ensures Unread(wanted, 0, length, b, bytes)
  {
    if wanted >= 0 {
      Monotone(0, wanted, b);
    } else {
      Monotone(1, -wanted, b);
      FarFromZero(-wanted, b);
      assert wanted * b == -((-wanted) * b);
    }
  }

  lemma {:induction false} UnreadAtEnd(wanted: int, pos: nat, length: nat, b: nat)
    requires wanted < 0 && pos == length
    ensures Unread(wanted, pos, length, b, 0)
  {}

  lemma {:induction false} UnreadDone(wanted: int, pos: nat, length: nat, b: nat)
    requires b >= 1 && Unread(wanted, pos, length, b, 0)
    ensures pos == if wanted >= 0 then wanted else length
  {
    if wanted >= 0 {
      Monotone(wanted - pos, 0, b);
    }
  }

  /** How many samples one fread brings. */
  function InChunk(wanted: int, pos: nat, length: nat): (n: nat)
    requires pos <= length && (wanted >= 0 ==> pos <= wanted)
  {
    var n := if CHUNK_OF_SAMPLES < length - pos then CHUNK_OF_SAMPLES else length - pos;
    if wanted >= 0 && wanted - pos < n then wanted - pos else n
  }

  lemma {:induction false} Monotone(a: nat, c: nat, b: nat)
    requires b >= 1
    ensures a <= c <==> a * b <= c * b
  {
    if a > c {
      assert a * b == c * b + (a - c) * b;
    } else {
      assert c * b == a * b + (c - a) * b;
    }
  }

  lemma {:induction false} Quotient(n: nat, b: nat)
    requires b >= 1
    ensures (n * b) / b == n && (n * b) % b == 0 && (n * b == 0 ==> n == 0)
  {
    assert n * b == b * n;
    RemainderUnique(n * b, b, n, 0);
    QuotientUnique(n * b, b, n, 0);
    if n > 0 {
      Monotone(1, n, b);
    }
  }

  /** data_bytes after the unsigned subtraction. */
  lemma {:induction false} Decremented(length: nat, n: nat, b: nat)
    requires n < SECTOR && 1 <= b <= 24 && length * b < 0x1_0000_0000
    ensures (length * b - n * b) % 0x1_0000_0000
         == if n <= length then (length - n) * b else (length - n) * b + 0x1_0000_0000
  {
    assert length * b - n * b == (length - n) * b;
    FarFromZero(n, b);
    Monotone(n, length, b);
    var d := length * b - n * b;
    if n <= length {
      RemainderUnique(d, 0x1_0000_0000, 0, d);
    } else {
      Monotone(length, n, b);
      RemainderUnique(d, 0x1_0000_0000, -1, d + 0x1_0000_0000);
    }
  }

  lemma {:induction false} ChunkBytes(wanted: int, pos: nat, length: nat, b: nat, dataBytes: nat) returns (n: nat)
    requires 1 <= b <= 24 && pos <= length && wanted <= length < wanted + SECTOR && dataBytes > 0
    requires Unread(wanted, pos, length, b, dataBytes)
    ensures var chunk, there := CHUNK_OF_SAMPLES * b, (length - pos) * b;
      var want := if dataBytes < chunk then dataBytes else chunk;
      (if there < want then there else want) == n * b
    ensures n * b <= dataBytes && n <= length - pos
    ensures n == 0 ==> wanted < 0 && pos == length
    ensures Unread(wanted, pos + n, length, b, dataBytes - n * b)
  {
    n := InChunk(wanted, pos, length);
    Monotone(CHUNK_OF_SAMPLES, length - pos, b);
    Monotone(length - pos, CHUNK_OF_SAMPLES, b);
    if wanted >= 0 {
      Monotone(wanted - pos, CHUNK_OF_SAMPLES, b);
      Monotone(CHUNK_OF_SAMPLES, wanted - pos, b);
      Monotone(wanted - pos, length - pos, b);
      assert (wanted - (pos + n)) * b == (wanted - pos) * b - n * b;
    } else {
      assert (wanted - (pos + n)) * b == (wanted - pos) * b - n * b;
      FarFromZero(length - wanted, b);
      assert (wanted - pos) * b == (length - pos) * b - (length - wanted) * b;
      Monotone(0, length - pos, b);
    }
  }

  lemma {:induction false} FarFromZero(k: nat, b: nat)
    requires k < SECTOR && b <= 24
    ensures k * b <= 588 * 24
  {
    assert k * b <= k * 24;
  }

  // A list of files

  /** The files one after the other; the last one is padded. */
  function EncodeAll(files: seq<seq<Wide>>, r: Reservoir, channels: nat): (encoded: seq<seq<Wide>>)
    requires Fits(r)
    ensures |encoded| == |files|
  {
    if files == [] then []
    else
      var last := |files| == 1;
      [Encoded(r, files[0], last, channels)] + EncodeAll(files[1..], Left(r, files[0], last), channels)
  }

  /** The samples that the files up to and including file i leave over. */
  function LeftOver(files: seq<seq<Wide>>, r: Reservoir, i: nat): (n: nat)
    requires i < |files|
    ensures n < SECTOR
  {
    (r.samples + |Flat(files[..i + 1])|) % 588
  }

  /** No file but the last is shorter than what is left over after it. */
  predicate AllEnough(files: seq<seq<Wide>>, r: Reservoir) {
    forall i :: 0 <= i < |files| - 1 ==> LeftOver(files, r, i) <= |files[i]|
  }

  predicate WholeSectors(encoded: seq<seq<Wide>>) {
    forall i :: 0 <= i < |encoded| ==> |encoded[i]| % 588 == 0
  }

  /** What is left over after the first file, and then after the others, by length alone. */
  lemma {:induction false} LeftOverNext(files: seq<seq<Wide>>, r: Reservoir, i: nat)
    requires Fits(r) && i < |files|
    ensures i == 0 ==> LeftOver(files, r, 0) == Remainder(r, files[0])
    ensures i > 0 ==> LeftOver(files, r, i) == LeftOver(files[1..], Left(r, files[0], false), i - 1)
  {
    var front := files[..i + 1];
    assert Flat(front) == files[0] + Flat(front[1..]);
    if i == 0 {
      assert front[1..] == [];
    } else {
      assert front[1..] == files[1..][..i];
      SumOfRest(r.samples + |files[0]|, |Flat(front[1..])|);
    }
  }

  lemma {:induction false} SumOfRest(a: nat, b: nat)
    ensures (a % SECTOR + b) % SECTOR == (a + b) % SECTOR
  {
    var q := a / SECTOR;
    assert a == SECTOR * q + a % SECTOR;
    var x := a % SECTOR + b;
    RemainderUnique(a + b, SECTOR, q + x / SECTOR, x % SECTOR);
  }

  /** The first file has enough and so have the others, with what the first leaves them. */
  lemma {:induction false} AllEnoughNext(files: seq<seq<Wide>>, r: Reservoir)
    requires Fits(r) && |files| > 1
    ensures AllEnough(files, r) <==> Enough(r, files[0]) && AllEnough(files[1..], Left(r, files[0], false))
  {
    hide LeftOver, Left, Remainder;
    var rest, t := files[1..], Left(r, files[0], false);
    LeftOverNext(files, r, 0);
    if AllEnough(files, r) {
      forall i | 0 <= i < |rest| - 1 ensures LeftOver(rest, t, i) <= |rest[i]| {
        LeftOverNext(files, r, i + 1);
        assert LeftOver(files, r, i + 1) <= |files[i + 1]|;
      }
    }
    if Enough(r, files[0]) && AllEnough(rest, t) {
      forall i | 0 <= i < |files| - 1 ensures LeftOver(files, r, i) <= |files[i]| {
        LeftOverNext(files, r, i);
        assert i > 0 ==> LeftOver(rest, t, i - 1) <= |rest[i - 1]|;
      }
    }
  }

  /** A file fills whole sectors exactly when it has enough samples of its own, or is the last. */
  lemma {:induction false} WholeIffEnough(r: Reservoir, data: seq<Wide>, last: bool, channels: nat)
    requires Fits(r) && data != []
    ensures |Encoded(r, data, last, channels)| % 588 == 0 <==> last || Enough(r, data)
  {
    var total, n := |data| + r.samples, Remainder(r, data);
    var q := total / SECTOR;
    assert total == SECTOR * q + n;
    if last {
      RemainderUnique(|Encoded(r, data, last, channels)|, SECTOR, if n == 0 then q else q + 1, 0);
    } else if Enough(r, data) {
      RemainderUnique(total - n, SECTOR, q, 0);
    }
  }

  /** Every file is encoded in whole sectors exactly when none but the last is shorter than what it has to leave. */
  lemma {:induction false} AlignedIffAllEnough(files: seq<seq<Wide>>, r: Reservoir, channels: nat)
    requires Fits(r) && forall i :: 0 <= i < |files| ==> files[i] != []
    ensures WholeSectors(EncodeAll(files, r, channels)) <==> AllEnough(files, r)
    decreases |files|
  {
    if files != [] {
      var last := |files| == 1;
      var rest := EncodeAll(files[1..], Left(r, files[0], last), channels);
      var all := EncodeAll(files, r, channels);
      WholeIffEnough(r, files[0], last, channels);
      if last {
        assert AllEnough(files, r) && AllEnough(files[1..], Left(r, files[0], last));
      } else {
        AllEnoughNext(files, r);
      }
      hide Encoded, Left, Enough, AllEnough;
      AlignedIffAllEnough(files[1..], Left(r, files[0], last), channels);
      assert all[0] == Encoded(r, files[0], last, channels) && all[1..] == rest;
      assert WholeSectors(all) ==> WholeSectors(rest) by {
        forall i | WholeSectors(all) && 0 <= i < |rest| ensures |rest[i]| % SECTOR == 0 {
          assert rest[i] == all[i + 1];
        }
      }
      assert WholeSectors(rest) && |all[0]| % SECTOR == 0 ==> WholeSectors(all) by {
        forall i | WholeSectors(rest) && |all[0]| % SECTOR == 0 && 0 <= i < |all| ensures |all[i]| % SECTOR == 0 {
          assert i > 0 ==> all[i] == rest[i - 1];
        }
      }
    }
  }

  /** How many zeros bring all the samples up to whole sectors. */
  function Padding(files: seq<seq<Wide>>, r: Reservoir): (n: nat)
    requires files != []
    ensures n < SECTOR
  {
    var n := LeftOver(files, r, |files| - 1);
    if n == 0 then 0 else SECTOR - n
  }

  lemma {:induction false} PaddingNext(files: seq<seq<Wide>>, r: Reservoir)
    requires Fits(r) && files != []
    ensures |files| == 1 ==>
      Padding(files, r) == if Remainder(r, files[0]) == 0 then 0 else SECTOR - Remainder(r, files[0])
    ensures |files| > 1 ==> Padding(files, r) == Padding(files[1..], Left(r, files[0], false))
  {
    LeftOverNext(files, r, |files| - 1);
  }

  /** The samples of all files, in order, each once, and zeros behind them to fill the last sector. */
  ghost predicate NothingLost(files: seq<seq<Wide>>, r: Reservoir, channels: nat)
    requires Fits(r) && files != []
  {
    Flat(EncodeAll(files, r, channels)) == Carried(r) + Flat(files) + Zeros(Padding(files, r), channels)
  }

  lemma {:induction false} EnoughLosesNothing(files: seq<seq<Wide>>, r: Reservoir, channels: nat)
    requires Fits(r) && files != [] && AllEnough(files, r)
    ensures NothingLost(files, r, channels)
    decreases |files|
  {
    var data, last := files[0], |files| == 1;
    var all := EncodeAll(files, r, channels);
    assert Flat(all) == Encoded(r, data, last, channels) + Flat(all[1..]);
    PaddingNext(files, r);
    if last {
      assert files[1..] == [] && all[1..] == [];
      assert Flat(files) == data + [] == data;
    } else {
      var t, n := Left(r, data, false), Remainder(r, data);
      AllEnoughNext(files, r);
      EnoughLosesNothing(files[1..], t, channels);
      assert all[1..] == EncodeAll(files[1..], t, channels);
      assert data[..|data| - n] + Carried(t) == data;
      hide Zeros, Flat, EncodeAll, AllEnough, Padding;
      Rejoin(Carried(r), data, |data| - n, Flat(files[1..]), Zeros(Padding(files[1..], t), channels));
    }
  }

  /** A file that is too short makes what is encoded longer. */
  lemma {:induction false} EncodedLength(files: seq<seq<Wide>>, r: Reservoir, channels: nat)
    requires Fits(r) && files != []
    ensures var n, m := |Flat(EncodeAll(files, r, channels))|, r.samples + |Flat(files)| + Padding(files, r);
      n >= m && (n == m ==> AllEnough(files, r))
    decreases |files|
  {
    var data, last := files[0], |files| == 1;
    var all := EncodeAll(files, r, channels);
    assert Flat(all) == Encoded(r, data, last, channels) + Flat(all[1..]);
    PaddingNext(files, r);
    if last {
      assert files[1..] == [] && all[1..] == [];
    } else {
      var t := Left(r, data, false);
      AllEnoughNext(files, r);
      EncodedLength(files[1..], t, channels);
      assert all[1..] == EncodeAll(files[1..], t, channels);
      hide Zeros, Flat, EncodeAll, AllEnough, Padding;
    }
  }

  /** Nothing is lost and nothing comes twice exactly when no file but the last is shorter than what it has to leave. */
  lemma {:induction false} NothingLostIffAllEnough(files: seq<seq<Wide>>, r: Reservoir, channels: nat)
    requires Fits(r) && files != []
    ensures NothingLost(files, r, channels) <==> AllEnough(files, r)
  {
    if AllEnough(files, r) {
      EnoughLosesNothing(files, r, channels);
    }
    EncodedLength(files, r, channels);
    hide Flat, EncodeAll, AllEnough, Padding;
    assert |Zeros(Padding(files, r), channels)| == Padding(files, r);
  }

  lemma {:induction false} Rejoin(c: seq<Wide>, data: seq<Wide>, k: nat, rest: seq<Wide>, z: seq<Wide>)
    requires k <= |data|
    ensures (c + data[..k]) + (data[k..] + rest + z) == c + (data + rest) + z
  {
    assert data[..k] + data[k..] == data;
  }

  /**
   A middle file of 100 samples that finds one sample carried over: 101 samples are encoded for it, and so many again
   that are not its own in front of the next file.
   */
  lemma {:induction false} ShortFileBreaksAlignment()
    ensures var files, r := [Zeros(589, 2), Zeros(100, 2), Zeros(588, 2)], Reservoir(Zeros(588, 2), 0);
      var all := EncodeAll(files, r, 2);
      && |all[0]| == 588 && |all[1]| == 101 && |all[2]| == 2 * 588
      && !WholeSectors(all) && !NothingLost(files, r, 2)
  {
    ShortFileLengths(Zeros(589, 2), Zeros(100, 2), Zeros(588, 2), Reservoir(Zeros(588, 2), 0));
    hide WholeSectors, EncodeAll, NothingLost, AllEnough;
    var files, r := [Zeros(589, 2), Zeros(100, 2), Zeros(588, 2)], Reservoir(Zeros(588, 2), 0);
    MiddleTooShort(files[0], files[1], files[2], r);
    AlignedIffAllEnough(files, r, 2);
    NothingLostIffAllEnough(files, r, 2);
  }

  lemma {:induction false} ShortFileLengths(a: seq<Wide>, b: seq<Wide>, c: seq<Wide>, r: Reservoir)
    requires Fits(r) && r.samples == 0 && |a| == 589 && |b| == 100 && |c| == 588
    ensures var all := EncodeAll([a, b, c], r, 2); |all[0]| == 588 && |all[1]| == 101 && |all[2]| == 2 * 588
  {
    var t := Left(r, a, false);
    var u := Left(t, b, false);
    assert [a, b, c][1..] == [b, c] && [b, c][1..] == [c];
    assert EncodeAll([b, c], t, 2) == [Encoded(t, b, false, 2)] + EncodeAll([c], u, 2);
    assert EncodeAll([c], u, 2)[0] == Encoded(u, c, true, 2);
  }

  lemma {:induction false} MiddleTooShort(a: seq<Wide>, b: seq<Wide>, c: seq<Wide>, r: Reservoir)
    requires (r.samples + |a| + |b|) % SECTOR > |b|
    ensures !AllEnough([a, b, c], r)
  {
    var files := [a, b, c];
    assert files[..2] == [a] + [b];
    assert ([a] + [b])[1..] == [b] && [b][1..] == [];
    assert Flat([b]) == b + Flat([]);
    assert Flat([a] + [b]) == a + Flat([b]);
    assert LeftOver(files, r, 1) > |files[1]|;
  }
}
