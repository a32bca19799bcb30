/** ogg_page_checksum_set on a header and a body held in byte arrays. */
module PageChecksum {
  import opened Bytes
  import opened Checksum
  import opened Division
  import opened PageFormat
  import opened Words

  lemma {:induction false} FoldConcat(r: bv32, a: seq<Byte>, b: seq<Byte>)
    ensures Fold(r, a + b) == Fold(Fold(r, a), b)
    decreases |a|
  {
    if a == [] {
      assert a + b == b;
    } else {
      assert (a + b)[1..] == a[1..] + b;
      FoldConcat(TableStep(r, a[0]), a[1..], b);
    }
  }

  lemma {:induction false} FoldNext(r: bv32, a: seq<Byte>, n: nat)
    requires n < |a|
    ensures Fold(r, a[..n + 1]) == TableStep(Fold(r, a[..n]), a[n])
  {
    assert a[..n + 1] == a[..n] + [a[n]];
    FoldConcat(r, a[..n], [a[n]]);
    FoldOne(Fold(r, a[..n]), a[n]);
  }

  lemma {:induction false} FoldOne(r: bv32, b: Byte)
    ensures Fold(r, [b]) == TableStep(r, b)
  {
    assert [b][1..] == [];
  }

  function Low(w: bv32): (b: Byte) {
    (w & 0xff) as int
  }

  lemma {:induction false} FieldBytes(s: seq<Byte>)
    ensures var crc := Crc(s);
      CrcField(Remainder(s)) == [Low(crc), Low(crc >> 8), Low(crc >> 16), Low(crc >> 24)]
  {
    CrcIsRemainder(s);
    OctetBytes(Crc(s));
  }

  /** The checksum loop over n bytes of an array. */
  method Accumulate(crc0: bv32, a: array<Byte>, from: nat, n: nat) returns (crc: bv32)
    requires from + n <= a.Length
    ensures crc == Fold(crc0, a[from..from + n])
  {
    crc := crc0;
    ghost var s := a[from..from + n];
    for i := 0 to n
      invariant crc == Fold(crc0, s[..i])
    {
      FoldNext(crc0, s, i);
      assert s[i] == a[from + i];
      crc := TableStep(crc, a[from + i]);
    }
    assert s[..n] == s;
  }

  /** The bytes of the checksum field for the header and body as they are now. */
  method FieldFor(header: array<Byte>, h: nat, hlen: nat, body: array<Byte>, b: nat, blen: nat)
      returns (b0: Byte, b1: Byte, b2: Byte, b3: Byte)
    requires h + hlen <= header.Length && b + blen <= body.Length
    ensures [b0, b1, b2, b3] == CrcField(Remainder(header[h..h + hlen] + body[b..b + blen]))
  {
    var crc := Accumulate(0, header, h, hlen);
    crc := Accumulate(crc, body, b, blen);
    FoldConcat(0, header[h..h + hlen], body[b..b + blen]);
    FieldBytes(header[h..h + hlen] + body[b..b + blen]);
    b0, b1, b2, b3 := Low(crc), Low(crc >> 8), Low(crc >> 16), Low(crc >> 24);
  }

  method StoreField(header: array<Byte>, h: nat, hlen: nat, b0: Byte, b1: Byte, b2: Byte, b3: Byte)
    requires hlen >= 27 && h + hlen <= header.Length
    modifies header
    ensures header[h..h + hlen] == WithField(old(header[h..h + hlen]), [b0, b1, b2, b3])
    ensures forall i :: 0 <= i < header.Length && !(h + 22 <= i < h + 26) ==> header[i] == old(header[i])
  {
    header[h + 22], header[h + 23], header[h + 24], header[h + 25] := b0, b1, b2, b3;
  }

  /**
   The header lies at h in the one array and the body at b in the other; they may be the same array,
   as they are for a page still in the scanner's buffer.
   */
  method ChecksumSetInPlace(header: array<Byte>, h: nat, hlen: nat, body: array<Byte>, b: nat, blen: nat)
    requires hlen >= 27 && h + hlen <= header.Length && b + blen <= body.Length
    requires header == body ==> h + hlen <= b
    modifies header
    ensures header[h..h + hlen] == ChecksumSet(Page(old(header[h..h + hlen]), old(body[b..b + blen]))).header
    ensures forall i :: 0 <= i < header.Length && !(h + 22 <= i < h + 26) ==> header[i] == old(header[i])
  {
    ghost var page := Page(header[h..h + hlen], body[b..b + blen]);
    StoreField(header, h, hlen, 0, 0, 0, 0);
    assert body[b..b + blen] == page.body;
    ghost var zeroed := header[h..h + hlen];
    var b0, b1, b2, b3 := FieldFor(header, h, hlen, body, b, blen);
    StoreField(header, h, hlen, b0, b1, b2, b3);
    FieldTwice(page.header, [0, 0, 0, 0], [b0, b1, b2, b3]);
  }

  lemma {:induction false} FieldTwice(header: seq<Byte>, f: seq<Byte>, g: seq<Byte>)
    requires |header| >= 27 && |f| == |g| == 4
    ensures WithField(WithField(header, f), g) == WithField(header, g)
  {}
}
