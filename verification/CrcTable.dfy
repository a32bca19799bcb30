/** The lookup table of the page checksum, and the loop it was made by. */
module CrcTable {
  const ROW0: seq<bv32> := [
    0x00000000, 0x04c11db7, 0x09823b6e, 0x0d4326d9, 0x130476dc, 0x17c56b6b, 0x1a864db2, 0x1e475005,
    0x2608edb8, 0x22c9f00f, 0x2f8ad6d6, 0x2b4bcb61, 0x350c9b64, 0x31cd86d3, 0x3c8ea00a, 0x384fbdbd]
  const ROW1: seq<bv32> := [
    0x4c11db70, 0x48d0c6c7, 0x4593e01e, 0x4152fda9, 0x5f15adac, 0x5bd4b01b, 0x569796c2, 0x52568b75,
    0x6a1936c8, 0x6ed82b7f, 0x639b0da6, 0x675a1011, 0x791d4014, 0x7ddc5da3, 0x709f7b7a, 0x745e66cd]
  const ROW2: seq<bv32> := [
    0x9823b6e0, 0x9ce2ab57, 0x91a18d8e, 0x95609039, 0x8b27c03c, 0x8fe6dd8b, 0x82a5fb52, 0x8664e6e5,
    0xbe2b5b58, 0xbaea46ef, 0xb7a96036, 0xb3687d81, 0xad2f2d84, 0xa9ee3033, 0xa4ad16ea, 0xa06c0b5d]
  const ROW3: seq<bv32> := [
    0xd4326d90, 0xd0f37027, 0xddb056fe, 0xd9714b49, 0xc7361b4c, 0xc3f706fb, 0xceb42022, 0xca753d95,
    0xf23a8028, 0xf6fb9d9f, 0xfbb8bb46, 0xff79a6f1, 0xe13ef6f4, 0xe5ffeb43, 0xe8bccd9a, 0xec7dd02d]
  const ROW4: seq<bv32> := [
    0x34867077, 0x30476dc0, 0x3d044b19, 0x39c556ae, 0x278206ab, 0x23431b1c, 0x2e003dc5, 0x2ac12072,
    0x128e9dcf, 0x164f8078, 0x1b0ca6a1, 0x1fcdbb16, 0x018aeb13, 0x054bf6a4, 0x0808d07d, 0x0cc9cdca]
  const ROW5: seq<bv32> := [
    0x7897ab07, 0x7c56b6b0, 0x71159069, 0x75d48dde, 0x6b93dddb, 0x6f52c06c, 0x6211e6b5, 0x66d0fb02,
    0x5e9f46bf, 0x5a5e5b08, 0x571d7dd1, 0x53dc6066, 0x4d9b3063, 0x495a2dd4, 0x44190b0d, 0x40d816ba]
  const ROW6: seq<bv32> := [
    0xaca5c697, 0xa864db20, 0xa527fdf9, 0xa1e6e04e, 0xbfa1b04b, 0xbb60adfc, 0xb6238b25, 0xb2e29692,
    0x8aad2b2f, 0x8e6c3698, 0x832f1041, 0x87ee0df6, 0x99a95df3, 0x9d684044, 0x902b669d, 0x94ea7b2a]
  const ROW7: seq<bv32> := [
    0xe0b41de7, 0xe4750050, 0xe9362689, 0xedf73b3e, 0xf3b06b3b, 0xf771768c, 0xfa325055, 0xfef34de2,
    0xc6bcf05f, 0xc27dede8, 0xcf3ecb31, 0xcbffd686, 0xd5b88683, 0xd1799b34, 0xdc3abded, 0xd8fba05a]
  const ROW8: seq<bv32> := [
    0x690ce0ee, 0x6dcdfd59, 0x608edb80, 0x644fc637, 0x7a089632, 0x7ec98b85, 0x738aad5c, 0x774bb0eb,
    0x4f040d56, 0x4bc510e1, 0x46863638, 0x42472b8f, 0x5c007b8a, 0x58c1663d, 0x558240e4, 0x51435d53]
  const ROW9: seq<bv32> := [
    0x251d3b9e, 0x21dc2629, 0x2c9f00f0, 0x285e1d47, 0x36194d42, 0x32d850f5, 0x3f9b762c, 0x3b5a6b9b,
    0x0315d626, 0x07d4cb91, 0x0a97ed48, 0x0e56f0ff, 0x1011a0fa, 0x14d0bd4d, 0x19939b94, 0x1d528623]
  const ROWA: seq<bv32> := [
    0xf12f560e, 0xf5ee4bb9, 0xf8ad6d60, 0xfc6c70d7, 0xe22b20d2, 0xe6ea3d65, 0xeba91bbc, 0xef68060b,
    0xd727bbb6, 0xd3e6a601, 0xdea580d8, 0xda649d6f, 0xc423cd6a, 0xc0e2d0dd, 0xcda1f604, 0xc960ebb3]
  const ROWB: seq<bv32> := [
    0xbd3e8d7e, 0xb9ff90c9, 0xb4bcb610, 0xb07daba7, 0xae3afba2, 0xaafbe615, 0xa7b8c0cc, 0xa379dd7b,
    0x9b3660c6, 0x9ff77d71, 0x92b45ba8, 0x9675461f, 0x8832161a, 0x8cf30bad, 0x81b02d74, 0x857130c3]
  const ROWC: seq<bv32> := [
    0x5d8a9099, 0x594b8d2e, 0x5408abf7, 0x50c9b640, 0x4e8ee645, 0x4a4ffbf2, 0x470cdd2b, 0x43cdc09c,
    0x7b827d21, 0x7f436096, 0x7200464f, 0x76c15bf8, 0x68860bfd, 0x6c47164a, 0x61043093, 0x65c52d24]
  const ROWD: seq<bv32> := [
    0x119b4be9, 0x155a565e, 0x18197087, 0x1cd86d30, 0x029f3d35, 0x065e2082, 0x0b1d065b, 0x0fdc1bec,
    0x3793a651, 0x3352bbe6, 0x3e119d3f, 0x3ad08088, 0x2497d08d, 0x2056cd3a, 0x2d15ebe3, 0x29d4f654]
  const ROWE: seq<bv32> := [
    0xc5a92679, 0xc1683bce, 0xcc2b1d17, 0xc8ea00a0, 0xd6ad50a5, 0xd26c4d12, 0xdf2f6bcb, 0xdbee767c,
    0xe3a1cbc1, 0xe760d676, 0xea23f0af, 0xeee2ed18, 0xf0a5bd1d, 0xf464a0aa, 0xf9278673, 0xfde69bc4]
  const ROWF: seq<bv32> := [
    0x89b8fd09, 0x8d79e0be, 0x803ac667, 0x84fbdbd0, 0x9abc8bd5, 0x9e7d9662, 0x933eb0bb, 0x97ffad0c,
    0xafb010b1, 0xab710d06, 0xa6322bdf, 0xa2f33668, 0xbcb4666d, 0xb8757bda, 0xb5365d03, 0xb1f740b4]

  /** The 256 words of crc_lookup, sixteen to a row. */
  function Row(i: bv32): (row: seq<bv32>)
    ensures |row| == 16
  {
    if i == 0 then ROW0
    else if i == 1 then ROW1
    else if i == 2 then ROW2
    else if i == 3 then ROW3
    else if i == 4 then ROW4
    else if i == 5 then ROW5
    else if i == 6 then ROW6
    else if i == 7 then ROW7
    else if i == 8 then ROW8
    else if i == 9 then ROW9
    else if i == 10 then ROWA
    else if i == 11 then ROWB
    else if i == 12 then ROWC
    else if i == 13 then ROWD
    else if i == 14 then ROWE
    else ROWF
  }

  /** crc_lookup[x]. */
  function CrcLookup(x: bv32): (word: bv32)
    requires x < 256
  {
    Row(x >> 4)[(x & 15) as int]
  }

  /** One pass of the loop of _ogg_crc_entry. */
  function EntryStep(r: bv32): bv32 {
    if r & 0x80000000 != 0 then (r << 1) ^ 0x04c11db7 else r << 1
  }

  /** _ogg_crc_entry(x). */
  function CrcEntry(x: bv32): bv32 {
    EntryStep(EntryStep(EntryStep(EntryStep(EntryStep(EntryStep(EntryStep(EntryStep(x << 24))))))))
  }

  /** All 256 words of the table are the words the loop yields. */
  lemma {:induction false} TableIsRight(x: bv32)
    requires x < 256
    ensures CrcLookup(x) == CrcEntry(x)
  {
    RowIsRight(x >> 4, (x & 15) as int);
    SplitIndex(x);
  }

  lemma {:induction false} SplitIndex(x: bv32)
    requires x < 256
    ensures ((x >> 4) << 4) | (((x & 15) as int) as bv32) == x
  {
    assert ((x >> 4) << 4) | (x & 15) == x;
  }

  lemma {:induction false} RowIsRight(i: bv32, j: nat)
    requires i < 16 && j < 16
    ensures Row(i)[j] == CrcEntry((i << 4) | (j as bv32))
  {
    if {
    case i == 0x0 => Row0IsRight(j);
    case i == 0x1 => Row1IsRight(j);
    case i == 0x2 => Row2IsRight(j);
    case i == 0x3 => Row3IsRight(j);
    case i == 0x4 => Row4IsRight(j);
    case i == 0x5 => Row5IsRight(j);
    case i == 0x6 => Row6IsRight(j);
    case i == 0x7 => Row7IsRight(j);
    case i == 0x8 => Row8IsRight(j);
    case i == 0x9 => Row9IsRight(j);
    case i == 0xa => RowAIsRight(j);
    case i == 0xb => RowBIsRight(j);
    case i == 0xc => RowCIsRight(j);
    case i == 0xd => RowDIsRight(j);
    case i == 0xe => RowEIsRight(j);
    case i == 0xf => RowFIsRight(j);
    }
  }

  lemma {:induction false} Row0IsRight(j: nat)
    requires j < 16
    ensures ROW0[j] == CrcEntry(0x00 | (j as bv32))
  {
    match j
    case 0 => case 1 => case 2 => case 3 => case 4 => case 5 => case 6 => case 7 =>
    case 8 => case 9 => case 10 => case 11 => case 12 => case 13 => case 14 => case _ =>
  }

  lemma {:induction false} Row1IsRight(j: nat)
    requires j < 16
    ensures ROW1[j] == CrcEntry(0x10 | (j as bv32))
  {
    match j
    case 0 => case 1 => case 2 => case 3 => case 4 => case 5 => case 6 => case 7 =>
    case 8 => case 9 => case 10 => case 11 => case 12 => case 13 => case 14 => case _ =>
  }

  lemma {:induction false} Row2IsRight(j: nat)
    requires j < 16
    ensures ROW2[j] == CrcEntry(0x20 | (j as bv32))
  {
    match j
    case 0 => case 1 => case 2 => case 3 => case 4 => case 5 => case 6 => case 7 =>
    case 8 => case 9 => case 10 => case 11 => case 12 => case 13 => case 14 => case _ =>
  }

  lemma {:induction false} Row3IsRight(j: nat)
    requires j < 16
    ensures ROW3[j] == CrcEntry(0x30 | (j as bv32))
  {
    match j
    case 0 => case 1 => case 2 => case 3 => case 4 => case 5 => case 6 => case 7 =>
    case 8 => case 9 => case 10 => case 11 => case 12 => case 13 => case 14 => case _ =>
  }

  lemma {:induction false} Row4IsRight(j: nat)
    requires j < 16
    ensures ROW4[j] == CrcEntry(0x40 | (j as bv32))
  {
    match j
    case 0 => case 1 => case 2 => case 3 => case 4 => case 5 => case 6 => case 7 =>
    case 8 => case 9 => case 10 => case 11 => case 12 => case 13 => case 14 => case _ =>
  }

  lemma {:induction false} Row5IsRight(j: nat)
    requires j < 16
    ensures ROW5[j] == CrcEntry(0x50 | (j as bv32))
  {
    match j
    case 0 => case 1 => case 2 => case 3 => case 4 => case 5 => case 6 => case 7 =>
    case 8 => case 9 => case 10 => case 11 => case 12 => case 13 => case 14 => case _ =>
  }

  lemma {:induction false} Row6IsRight(j: nat)
    requires j < 16
    ensures ROW6[j] == CrcEntry(0x60 | (j as bv32))
  {
    match j
    case 0 => case 1 => case 2 => case 3 => case 4 => case 5 => case 6 => case 7 =>
    case 8 => case 9 => case 10 => case 11 => case 12 => case 13 => case 14 => case _ =>
  }

  lemma {:induction false} Row7IsRight(j: nat)
    requires j < 16
    ensures ROW7[j] == CrcEntry(0x70 | (j as bv32))
  {
    match j
    case 0 => case 1 => case 2 => case 3 => case 4 => case 5 => case 6 => case 7 =>
    case 8 => case 9 => case 10 => case 11 => case 12 => case 13 => case 14 => case _ =>
  }

  lemma {:induction false} Row8IsRight(j: nat)
    requires j < 16
    ensures ROW8[j] == CrcEntry(0x80 | (j as bv32))
  {
    match j
    case 0 => case 1 => case 2 => case 3 => case 4 => case 5 => case 6 => case 7 =>
    case 8 => case 9 => case 10 => case 11 => case 12 => case 13 => case 14 => case _ =>
  }

  lemma {:induction false} Row9IsRight(j: nat)
    requires j < 16
    ensures ROW9[j] == CrcEntry(0x90 | (j as bv32))
  {
    match j
    case 0 => case 1 => case 2 => case 3 => case 4 => case 5 => case 6 => case 7 =>
    case 8 => case 9 => case 10 => case 11 => case 12 => case 13 => case 14 => case _ =>
  }

  lemma {:induction false} RowAIsRight(j: nat)
    requires j < 16
    ensures ROWA[j] == CrcEntry(0xa0 | (j as bv32))
  {
    match j
    case 0 => case 1 => case 2 => case 3 => case 4 => case 5 => case 6 => case 7 =>
    case 8 => case 9 => case 10 => case 11 => case 12 => case 13 => case 14 => case _ =>
  }

  lemma {:induction false} RowBIsRight(j: nat)
    requires j < 16
    ensures ROWB[j] == CrcEntry(0xb0 | (j as bv32))
  {
    match j
    case 0 => case 1 => case 2 => case 3 => case 4 => case 5 => case 6 => case 7 =>
    case 8 => case 9 => case 10 => case 11 => case 12 => case 13 => case 14 => case _ =>
  }

  lemma {:induction false} RowCIsRight(j: nat)
    requires j < 16
    ensures ROWC[j] == CrcEntry(0xc0 | (j as bv32))
  {
    match j
    case 0 => case 1 => case 2 => case 3 => case 4 => case 5 => case 6 => case 7 =>
    case 8 => case 9 => case 10 => case 11 => case 12 => case 13 => case 14 => case _ =>
  }

  lemma {:induction false} RowDIsRight(j: nat)
    requires j < 16
    ensures ROWD[j] == CrcEntry(0xd0 | (j as bv32))
  {
    match j
    case 0 => case 1 => case 2 => case 3 => case 4 => case 5 => case 6 => case 7 =>
    case 8 => case 9 => case 10 => case 11 => case 12 => case 13 => case 14 => case _ =>
  }

  lemma {:induction false} RowEIsRight(j: nat)
    requires j < 16
    ensures ROWE[j] == CrcEntry(0xe0 | (j as bv32))
  {
    match j
    case 0 => case 1 => case 2 => case 3 => case 4 => case 5 => case 6 => case 7 =>
    case 8 => case 9 => case 10 => case 11 => case 12 => case 13 => case 14 => case _ =>
  }

  lemma {:induction false} RowFIsRight(j: nat)
    requires j < 16
    ensures ROWF[j] == CrcEntry(0xf0 | (j as bv32))
  {
    match j
    case 0 => case 1 => case 2 => case 3 => case 4 => case 5 => case 6 => case 7 =>
    case 8 => case 9 => case 10 => case 11 => case 12 => case 13 => case 14 => case _ =>
  }
}
