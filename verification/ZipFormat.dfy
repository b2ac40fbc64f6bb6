/**
 Byte layout of the ZIP records that the ranged reader touches: the end of
 central directory record (APPNOTE.TXT section 4.3.16), the central directory
 file header (section 4.3.12) and the local file header (section 4.3.7).
 */
module ZipFormat {

  type byte = x: int | 0 <= x < 0x100
  type bytes = seq<byte>

  const U16_LIMIT := 0x1_0000
  const U32_LIMIT := 0x1_0000_0000

  const CENTRAL_SIGNATURE: bytes := [0x50, 0x4B, 0x01, 0x02]
  const END_SIGNATURE: bytes := [0x50, 0x4B, 0x05, 0x06]
  const LOCAL_SIGNATURE: bytes := [0x50, 0x4B, 0x03, 0x04]

  /** Little-endian 16-bit field at `i`. */
  function U16(b: bytes, i: nat): (v: nat)
    requires i + 2 <= |b|
    ensures v < U16_LIMIT
  {
    b[i] as int + 0x100 * b[i + 1] as int
  }

  /** Little-endian 32-bit field at `i`. */
  function U32(b: bytes, i: nat): (v: nat)
    requires i + 4 <= |b|
    ensures v < U32_LIMIT
  {
    b[i] as int + 0x100 * b[i + 1] as int + 0x1_0000 * b[i + 2] as int + 0x100_0000 * b[i + 3] as int
  }

  function Pack16(v: nat): (b: bytes)
    requires v < U16_LIMIT
    ensures |b| == 2 && U16(b, 0) == v
  {
    [v % 0x100, v / 0x100]
  }

  lemma FourDigits(v: nat)
    requires v < U32_LIMIT
    ensures v == v % 0x100 + 0x100 * (v / 0x100 % 0x100) + 0x1_0000 * (v / 0x1_0000 % 0x100)
            + 0x100_0000 * (v / 0x100_0000)
  {
    var a := v / 0x100;
    var b := a / 0x100;
    assert b == v / 0x1_0000 && b / 0x100 == v / 0x100_0000;
  }

  function Pack32(v: nat): (b: bytes)
    requires v < U32_LIMIT
    ensures |b| == 4 && U32(b, 0) == v
  {
    FourDigits(v);
    [v % 0x100, v / 0x100 % 0x100, v / 0x1_0000 % 0x100, v / 0x100_0000]
  }

  /** A field of a slice is the field of the whole at the shifted position. */
  lemma SliceFields(b: bytes, lo: nat, hi: nat, i: nat)
    requires lo <= hi <= |b|
    ensures i + 2 <= hi - lo ==> U16(b[lo..hi], i) == U16(b, lo + i)
    ensures i + 4 <= hi - lo ==> U32(b[lo..hi], i) == U32(b, lo + i)
  {
  }

  lemma SubSlice(b: bytes, lo: nat, hi: nat, i: nat, j: nat)
    requires lo <= hi <= |b| && i <= j <= hi - lo
    ensures b[lo..hi][i..j] == b[lo + i..lo + j]
  {
    var whole, part := b[lo..hi][i..j], b[lo + i..lo + j];
    assert forall k | 0 <= k < |whole| :: whole[k] == part[k];
  }

  predicate SignatureAt(b: bytes, p: nat, signature: bytes) {
    p + |signature| <= |b| && b[p..p + |signature|] == signature
  }

  /** An end record at `p` whose comment reaches exactly to the end. */
  predicate EndRecordAt(b: bytes, p: nat) {
    && p + 22 <= |b|
    && SignatureAt(b, p, END_SIGNATURE)
    && p + 22 + U16(b, p + 20) == |b|
  }

  /** The fields of one central directory file header. */
  datatype CentralEntry = CentralEntry(
    versions: bytes, flags: nat, compression: nat, stamp: bytes,
    compressedSize: nat, uncompressedSize: nat,
    disk: nat, attributes: bytes, localOffset: nat,
    name: bytes, extra: bytes, comment: bytes)
  {
    /** Every field fits the width APPNOTE.TXT gives it. */
    predicate Valid() {
      && |versions| == 4 && |stamp| == 8 && |attributes| == 6
      && flags < U16_LIMIT && compression < U16_LIMIT && disk < U16_LIMIT
      && compressedSize < U32_LIMIT && uncompressedSize < U32_LIMIT && localOffset < U32_LIMIT
      && |name| < U16_LIMIT && |extra| < U16_LIMIT && |comment| < U16_LIMIT
    }

    /** Section 4.3.12: the 46 fixed bytes, then name, extra field and comment. */
    function Print(): (b: bytes)
      requires Valid()
      ensures |b| == 46 + |name| + |extra| + |comment|
    {
      Header() + name + extra + comment
    }

    function Header(): (b: bytes)
      requires Valid()
      ensures |b| == 46
    {
      CENTRAL_SIGNATURE + versions + Pack16(flags) + Pack16(compression) + stamp
      + Pack32(compressedSize) + Pack32(uncompressedSize)
      + Pack16(|name|) + Pack16(|extra|) + Pack16(|comment|)
      + Pack16(disk) + attributes + Pack32(localOffset)
    }
  }

  /** Section 4.3.16: an end record for a single-disk archive, with its comment. */
  function EndRecordWith(entries: nat, size: nat, offset: nat, comment: bytes): (b: bytes)
    requires entries < U16_LIMIT && size < U32_LIMIT && offset < U32_LIMIT && |comment| < U16_LIMIT
    ensures |b| == 22 + |comment|
  {
    END_SIGNATURE + Pack16(0) + Pack16(0) + Pack16(entries) + Pack16(entries)
    + Pack32(size) + Pack32(offset) + Pack16(|comment|) + comment
  }

  function PrintEndRecord(entries: nat, size: nat, offset: nat): (b: bytes)
    requires entries < U16_LIMIT && size < U32_LIMIT && offset < U32_LIMIT
    ensures |b| == 22
  {
    EndRecordWith(entries, size, offset, [])
  }

  /** Printing lays every header field where a reader of section 4.3.12 looks for it. */
  lemma HeaderFields(e: CentralEntry)
    requires e.Valid()
    ensures var h := e.Header();
            && h[0..4] == CENTRAL_SIGNATURE
            && U16(h, 8) == e.flags && U16(h, 10) == e.compression
            && U32(h, 20) == e.compressedSize && U32(h, 24) == e.uncompressedSize
            && U16(h, 28) == |e.name| && U16(h, 30) == |e.extra| && U16(h, 32) == |e.comment|
            && U16(h, 34) == e.disk && U32(h, 42) == e.localOffset
  {
    var h := e.Header();
    assert h[8..10] == Pack16(e.flags) && h[10..12] == Pack16(e.compression);
    assert h[20..24] == Pack32(e.compressedSize) && h[24..28] == Pack32(e.uncompressedSize);
    assert h[28..30] == Pack16(|e.name|) && h[30..32] == Pack16(|e.extra|);
    assert h[32..34] == Pack16(|e.comment|) && h[34..36] == Pack16(e.disk);
    assert h[42..46] == Pack32(e.localOffset);
    SliceFields(h, 8, 10, 0);
    SliceFields(h, 10, 12, 0);
    SliceFields(h, 20, 24, 0);
    SliceFields(h, 24, 28, 0);
    SliceFields(h, 28, 30, 0);
    SliceFields(h, 30, 32, 0);
    SliceFields(h, 32, 34, 0);
    SliceFields(h, 34, 36, 0);
    SliceFields(h, 42, 46, 0);
  }

  /** A complete record of section 4.3.12: signature, and the length its own length fields give. */
  predicate IsCentralRecord(r: bytes) {
    && |r| >= 46
    && r[0..4] == CENTRAL_SIGNATURE
    && |r| == RecordLength(r, 0)
  }

  function RecordLength(b: bytes, p: nat): nat
    requires p + 46 <= |b|
  {
    46 + U16(b, p + 28) + U16(b, p + 30) + U16(b, p + 32)
  }

  function RecordName(r: bytes): bytes
    requires IsCentralRecord(r)
  {
    r[46..46 + U16(r, 28)]
  }

  /** The bytes of a central directory: its records one after the other. */
  function Concat(records: seq<bytes>): bytes {
    if records == [] then [] else records[0] + Concat(records[1..])
  }

  /** A printed entry is a record, and every field is read back as it was printed. */
  lemma PrintedRecord(e: CentralEntry)
    requires e.Valid()
    ensures var r := e.Print();
            && IsCentralRecord(r) && RecordName(r) == e.name
            && U16(r, 8) == e.flags && U16(r, 10) == e.compression
            && U32(r, 20) == e.compressedSize && U32(r, 24) == e.uncompressedSize
            && U16(r, 34) == e.disk && U32(r, 42) == e.localOffset
  {
    var r, h := e.Print(), e.Header();
    HeaderFields(e);
    assert r[..46] == h && r[0..46] == h && r[0..4] == h[0..4];
    SliceFields(r, 0, 46, 8);
    SliceFields(r, 0, 46, 10);
    SliceFields(r, 0, 46, 20);
    SliceFields(r, 0, 46, 24);
    SliceFields(r, 0, 46, 28);
    SliceFields(r, 0, 46, 30);
    SliceFields(r, 0, 46, 32);
    SliceFields(r, 0, 46, 34);
    SliceFields(r, 0, 46, 42);
    assert r[46..46 + |e.name|] == e.name;
  }

  lemma MiddlePart(a: bytes, b: bytes, c: bytes)
    ensures (a + b + c)[|a|..|a| + |b|] == b
  {
  }

  /** An end record carries its fields and the length of its comment. */
  lemma CommentedEndFields(entries: nat, size: nat, offset: nat, comment: bytes, b: bytes, p: nat)
    requires entries < U16_LIMIT && size < U32_LIMIT && offset < U32_LIMIT && |comment| < U16_LIMIT
    requires p + 22 + |comment| == |b| && b[p..] == EndRecordWith(entries, size, offset, comment)
    ensures EndRecordAt(b, p)
    ensures U16(b, p + 4) == 0 && U16(b, p + 6) == 0
    ensures U16(b, p + 8) == entries && U16(b, p + 10) == entries
    ensures U32(b, p + 12) == size && U32(b, p + 16) == offset
  {
    var r := EndRecordWith(entries, size, offset, comment);
    assert b[p..|b|] == r;
    assert b[p..p + 4] == r[..4] == END_SIGNATURE;
    assert r[4..6] == Pack16(0) && r[6..8] == Pack16(0) && r[8..10] == Pack16(entries);
    assert r[10..12] == Pack16(entries) && r[12..16] == Pack32(size);
    assert r[16..20] == Pack32(offset);
    var head := END_SIGNATURE + Pack16(0) + Pack16(0) + Pack16(entries) + Pack16(entries) + Pack32(size)
      + Pack32(offset);
    MiddlePart(head, Pack16(|comment|), comment);
    assert r == head + Pack16(|comment|) + comment && |head| == 20;
    SliceFields(r, 4, 6, 0);
    SliceFields(r, 6, 8, 0);
    SliceFields(r, 8, 10, 0);
    SliceFields(r, 10, 12, 0);
    SliceFields(r, 12, 16, 0);
    SliceFields(r, 16, 20, 0);
    SliceFields(r, 20, 22, 0);
    SliceFields(b, p, |b|, 4);
    SliceFields(b, p, |b|, 6);
    SliceFields(b, p, |b|, 8);
    SliceFields(b, p, |b|, 10);
    SliceFields(b, p, |b|, 12);
    SliceFields(b, p, |b|, 16);
    SliceFields(b, p, |b|, 20);
  }

  /** The printed end record carries its fields and a zero comment length. */
  lemma EndRecordFields(entries: nat, size: nat, offset: nat, b: bytes, p: nat)
    requires entries < U16_LIMIT && size < U32_LIMIT && offset < U32_LIMIT
    requires p + 22 == |b| && b[p..] == PrintEndRecord(entries, size, offset)
    ensures EndRecordAt(b, p)
    ensures U16(b, p + 4) == 0 && U16(b, p + 6) == 0
    ensures U16(b, p + 8) == entries && U16(b, p + 10) == entries
    ensures U32(b, p + 12) == size && U32(b, p + 16) == offset
  {
    hide U16, U32, EndRecordAt, EndRecordWith;
    CommentedEndFields(entries, size, offset, [], b, p);
  }
}
