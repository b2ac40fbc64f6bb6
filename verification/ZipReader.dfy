/**
 The ranged ZIP reader: backwards search for the end record, directory parser,
 the reader that combines both over byte ranges, and the one-member archive
 built from the range of a single local record.
 Name decoding (cp437 or UTF-8) is a parameter; `None` is a decoding error.
 */
module ZipReader {
  import opened Wrappers
  import opened ZipFormat

  type Decoder = (bool, bytes) -> Option<string>

  const TAIL_SIZE: nat := 128 * 1024
  const MAX_SIZE: nat := U32_LIMIT - 1

  /** What the reader keeps of a selected file. */
  datatype Member = Member(localOffset: nat, compressedSize: nat, record: bytes)

  datatype ZipError =
    | NoArchiveSize
    | ArchiveTooLarge
    | NoEndRecord
    | UnsupportedArchive
    | InvalidDirectoryRange
    | InvalidDirectory
    | TruncatedRecord
    | InvalidName
    | Encrypted(name: string)
    | UnsupportedCompression(name: string)
    | Duplicate(name: string)
    | UnsupportedZip64
    | MissingMembers(names: set<string>)
    | InvalidOffset
    | InvalidLocalHeader
    | TruncatedRange

  // ---------------------------------------------------------------- end record

  /** The greatest position below `n` holding an end record that reaches the end. */
  function LastEndRecordBelow(b: bytes, n: nat): (r: Option<nat>)
    ensures r.None? ==> forall q: nat | q < n :: !EndRecordAt(b, q)
    ensures r.Some? ==> r.value < n && EndRecordAt(b, r.value)
                        && forall q: nat | r.value < q < n :: !EndRecordAt(b, q)
  {
    if n == 0 then None
    else if EndRecordAt(b, n - 1) then Some(n - 1)
    else LastEndRecordBelow(b, n - 1)
  }

  function LastEndRecord(b: bytes): Option<nat> {
    LastEndRecordBelow(b, |b|)
  }

  /** `bytes.rfind(signature, 0, limit)`. */
  method FindLast(b: bytes, signature: bytes, limit: nat) returns (r: Option<nat>)
    requires limit <= |b|
    ensures r.None? ==> forall q: nat | q + |signature| <= limit :: !SignatureAt(b, q, signature)
    ensures r.Some? ==> r.value + |signature| <= limit && SignatureAt(b, r.value, signature)
                        && forall q: nat | r.value < q && q + |signature| <= limit :: !SignatureAt(b, q, signature)
  {
    if limit < |signature| {
      return None;
    }
    var p: nat := limit - |signature|;
    while p > 0 && b[p..p + |signature|] != signature
      invariant p + |signature| <= limit
      invariant forall q: nat | p < q && q + |signature| <= limit :: !SignatureAt(b, q, signature)
    {
      p := p - 1;
    }
    r := if b[p..p + |signature|] == signature then Some(p) else None;
  }

  /** The end signature never overlaps itself, so shrinking the limit to a match skips nothing. */
  lemma EndSignatureDoesNotOverlap(b: bytes, p: nat, q: nat)
    requires SignatureAt(b, p, END_SIGNATURE) && SignatureAt(b, q, END_SIGNATURE)
    requires q < p
    ensures q + 4 <= p
  {
    assert b[p] == b[p..p + 4][0] == 0x50;
    assert b[q + 1] == b[q..q + 4][1] && b[q + 2] == b[q..q + 4][2] && b[q + 3] == b[q..q + 4][3];
  }

  method FindEndRecord(tail: bytes) returns (r: Option<nat>)
    ensures r == LastEndRecord(tail)
    ensures r.None? <==> forall q: nat :: !EndRecordAt(tail, q)
    ensures r.Some? ==> EndRecordAt(tail, r.value) && forall q: nat | EndRecordAt(tail, q) :: q <= r.value
  {
    var limit: nat := |tail|;
    while true
      invariant limit <= |tail|
      invariant limit == |tail| || SignatureAt(tail, limit, END_SIGNATURE)
      invariant forall q: nat | limit <= q :: !EndRecordAt(tail, q)
      decreases limit
    {
      var position := FindLast(tail, END_SIGNATURE, limit);
      forall q: nat | q < limit && SignatureAt(tail, q, END_SIGNATURE)
        ensures q + 4 <= limit
      {
        if limit < |tail| { EndSignatureDoesNotOverlap(tail, limit, q); }
      }
      if position.None? {
        return None;
      }
      var p := position.value;
      assert forall q: nat | p < q :: !EndRecordAt(tail, q);
      assert EndRecordAt(tail, p) ==> LastEndRecordBelow(tail, |tail|) == Some(p);
      if p + 22 <= |tail| {
        var commentLength := U16(tail, p + 20);
        if p + 22 + commentLength == |tail| {
          return Some(p);
        }
      }
      limit := p;
    }
  }

  /** An end record and its comment are at most 65557 bytes, so the tail shows every candidate. */
  lemma {:induction false} TailSearchIsExact(archive: bytes, start: nat)
    requires start <= |archive| && (start == 0 || |archive| - start >= 22 + U16_LIMIT - 1)
    ensures var inTail := LastEndRecord(archive[start..]);
            LastEndRecord(archive) == if inTail.Some? then Some(start + inTail.value) else None
  {
    var tail := archive[start..];
    forall q: nat | start <= q
      ensures EndRecordAt(archive, q) <==> EndRecordAt(tail, q - start)
    {
      if q + 22 <= |archive| {
        SliceFields(archive, start, |archive|, q - start + 20);
        SubSlice(archive, start, |archive|, q - start, q - start + 4);
        assert archive[start..|archive|] == tail;
      }
    }
    forall q: nat | EndRecordAt(archive, q)
      ensures start <= q
    {
    }
    var whole, part := LastEndRecord(archive), LastEndRecord(tail);
    if whole.Some? {
      assert EndRecordAt(tail, whole.value - start);
    }
    if part.Some? {
      assert EndRecordAt(archive, start + part.value);
    }
  }

  // ----------------------------------------------------------------- directory

  datatype Selection = Selection(position: nat, members: map<string, Member>)

  function Utf8Flag(flags: nat): bool {
    flags / 0x800 % 2 == 1
  }

  /** Bit 11 of the flags, as section 4.4.4 has it. */
  lemma Utf8FlagIsBit(high: nat, bit: nat, low: nat)
    requires bit < 2 && low < 0x800
    ensures Utf8Flag(high * 0x1000 + bit * 0x800 + low) <==> bit == 1
  {
    var q := high * 2 + bit;
    assert high * 0x1000 + bit * 0x800 + low == q * 0x800 + low;
    assert (q * 0x800 + low) / 0x800 == q;
  }

  /** The checks on one record of an expected name, in the order they are made. */
  function SelectMember(
    members: map<string, Member>, name: string, flags: nat, compression: nat, disk: nat,
    compressedSize: nat, uncompressedSize: nat, localOffset: nat, record: bytes): Result<map<string, Member>, ZipError>
  {
    if flags % 2 == 1 then Err(Encrypted(name))
    else if compression !in {0, 8} then Err(UnsupportedCompression(name))
    else if name in members then Err(Duplicate(name))
    else if disk != 0 || compressedSize == U32_LIMIT - 1 || uncompressedSize == U32_LIMIT - 1
      || localOffset == U32_LIMIT - 1 then
      Err(UnsupportedZip64)
    else Ok(members[name := Member(localOffset, compressedSize, record)])
  }

  /** One turn of the directory loop: the record at `position` is checked and maybe selected. */
  function ReadRecord(
    directory: bytes, s: Selection, expected: set<string>, decode: Decoder): (r: Result<Selection, ZipError>)
    ensures r.Ok? ==> s.position + 46 <= r.value.position <= |directory|
  {
    var p := s.position;
    if p + 46 > |directory| || directory[p..p + 4] != CENTRAL_SIGNATURE then Err(InvalidDirectory)
    else
      var nameLength, end := U16(directory, p + 28), p + RecordLength(directory, p);
      if end > |directory| then Err(TruncatedRecord)
      else
        var flags := U16(directory, p + 8);
        var name := decode(Utf8Flag(flags), directory[p + 46..p + 46 + nameLength]);
        if name.None? then Err(InvalidName)
        else if name.value !in expected then Ok(Selection(end, s.members))
        else
          var members :- SelectMember(s.members, name.value, flags, U16(directory, p + 10), U16(directory, p + 34),
                                      U32(directory, p + 20), U32(directory, p + 24), U32(directory, p + 42),
                                        directory[p..end]);
          Ok(Selection(end, members))
  }

  function ReadRecords(
    directory: bytes, n: nat, s: Selection, expected: set<string>, decode: Decoder): Result<Selection, ZipError>
  {
    if n == 0 then Ok(s)
    else
      var next :- ReadRecord(directory, s, expected, decode);
      ReadRecords(directory, n - 1, next, expected, decode)
  }

  function ParseDirectory(
    directory: bytes, n: nat, expected: set<string>, decode: Decoder): Result<map<string, Member>, ZipError>
  {
    var s :- ReadRecords(directory, n, Selection(0, map[]), expected, decode);
    if expected <= s.members.Keys then Ok(s.members) else Err(MissingMembers(expected - s.members.Keys))
  }

  /** The member is what a supported record of that name says. */
  predicate Genuine(name: string, m: Member, decode: Decoder) {
    && IsCentralRecord(m.record) && Supported(m.record) && m == MemberOf(m.record)
    && NameOf(m.record, decode) == Some(name)
  }

  ghost predicate AllGenuine(members: map<string, Member>, decode: Decoder) {
    forall name <- members :: Genuine(name, members[name], decode)
  }

  /** A slice of the length that its own fields give, behind a signature, is a record with the fields read there. */
  lemma SlicedRecord(directory: bytes, p: nat)
    requires p + 46 <= |directory| && directory[p..p + 4] == CENTRAL_SIGNATURE
    requires p + RecordLength(directory, p) <= |directory|
    ensures var r := directory[p..p + RecordLength(directory, p)];
            && IsCentralRecord(r) && RecordName(r) == directory[p + 46..p + 46 + U16(directory, p + 28)]
            && U16(r, 8) == U16(directory, p + 8) && U16(r, 10) == U16(directory, p + 10)
            && U16(r, 34) == U16(directory, p + 34) && U32(r, 20) == U32(directory, p + 20)
            && U32(r, 24) == U32(directory, p + 24) && U32(r, 42) == U32(directory, p + 42)
  {
    hide U16, U32;
    var end := p + RecordLength(directory, p);
    SliceFields(directory, p, end, 8);
    SliceFields(directory, p, end, 10);
    SliceFields(directory, p, end, 20);
    SliceFields(directory, p, end, 24);
    SliceFields(directory, p, end, 28);
    SliceFields(directory, p, end, 30);
    SliceFields(directory, p, end, 32);
    SliceFields(directory, p, end, 34);
    SliceFields(directory, p, end, 42);
    SubSlice(directory, p, end, 0, 4);
    SubSlice(directory, p, end, 46, 46 + U16(directory, p + 28));
  }

  lemma ReadKeepsGenuine(directory: bytes, s: Selection, expected: set<string>, decode: Decoder)
    requires AllGenuine(s.members, decode)
    ensures var r := ReadRecord(directory, s, expected, decode); r.Ok? ==> AllGenuine(r.value.members, decode)
  {
    hide U16, U32, IsCentralRecord, RecordLength, RecordName;
    var p := s.position;
    if p + 46 <= |directory| && directory[p..p + 4] == CENTRAL_SIGNATURE
      && p + RecordLength(directory, p) <= |directory| {
      SlicedRecord(directory, p);
    }
  }

  lemma {:induction false} AllReadGenuine(
    directory: bytes, n: nat, s: Selection, expected: set<string>, decode: Decoder)
    requires AllGenuine(s.members, decode)
    ensures var r := ReadRecords(directory, n, s, expected, decode); r.Ok? ==> AllGenuine(r.value.members, decode)
  {
    hide ReadRecord, AllGenuine;
    if n > 0 {
      ReadKeepsGenuine(directory, s, expected, decode);
      var next := ReadRecord(directory, s, expected, decode);
      if next.Ok? { AllReadGenuine(directory, n - 1, next.value, expected, decode); }
    }
  }

  /** Whatever the bytes are, every member the parser returns is genuine. */
  lemma ParsedMembersAreGenuine(directory: bytes, n: nat, expected: set<string>, decode: Decoder)
    ensures var r := ParseDirectory(directory, n, expected, decode);
            r.Ok? ==> AllGenuine(r.value, decode) && expected <= r.value.Keys
  {
    hide ReadRecords, Genuine;
    AllReadGenuine(directory, n, Selection(0, map[]), expected, decode);
  }

  /** One turn of the loop as the source runs it, on arbitrary bytes. */
  method ReadEntry(
    directory: bytes, position: nat, selected: map<string, Member>, expected: set<string>, decode: Decoder)
    returns (r: Result<Selection, ZipError>)
    ensures r == ReadRecord(directory, Selection(position, selected), expected, decode)
  {
    if position + 46 > |directory| || directory[position..position + 4] != CENTRAL_SIGNATURE {
      return Err(InvalidDirectory);
    }
    var flags, compression := U16(directory, position + 8), U16(directory, position + 10);
    var compressedSize, uncompressedSize := U32(directory, position + 20), U32(directory, position + 24);
    var nameLength, extraLength, commentLength :=
      U16(directory, position + 28), U16(directory, position + 30), U16(directory, position + 32);
    var disk, localOffset := U16(directory, position + 34), U32(directory, position + 42);
    var end := position + (46 + nameLength + extraLength + commentLength);
    if end > |directory| {
      return Err(TruncatedRecord);
    }
    var name := decode(Utf8Flag(flags), directory[position + 46..position + 46 + nameLength]);
    if name.None? {
      return Err(InvalidName);
    }
    if name.value !in expected {
      return Ok(Selection(end, selected));
    }
    if flags % 2 == 1 {
      return Err(Encrypted(name.value));
    }
    if compression != 0 && compression != 8 {
      return Err(UnsupportedCompression(name.value));
    }
    if name.value in selected {
      return Err(Duplicate(name.value));
    }
    if disk != 0 || compressedSize == U32_LIMIT - 1 || uncompressedSize == U32_LIMIT - 1
      || localOffset == U32_LIMIT - 1 {
      return Err(UnsupportedZip64);
    }
    return Ok(Selection(end, selected[name.value := Member(localOffset, compressedSize, directory[position..end])]));
  }

  /** The parser as the source runs it: a loop filling a dict. */
  method ParseCentralDirectory(directory: bytes, totalEntries: nat, expected: set<string>, decode: Decoder)
    returns (r: Result<map<string, Member>, ZipError>)
    ensures r == ParseDirectory(directory, totalEntries, expected, decode)
  {
    var s := Selection(0, map[]);
    for i := 0 to totalEntries
      invariant ReadRecords(directory, totalEntries, Selection(0, map[]), expected, decode)
             == ReadRecords(directory, totalEntries - i, s, expected, decode)
    {
      s :- ReadEntry(directory, s.position, s.members, expected, decode);
    }
    var missing := expected - s.members.Keys;
    if name :| name in expected && name !in s.members {
      assert name in missing;
    }
    if missing != {} {
      return Err(MissingMembers(missing));
    }
    return Ok(s.members);
  }

  // --------------------------------------------------- the parser and the printer

  function NameOf(r: bytes, decode: Decoder): Option<string>
    requires IsCentralRecord(r)
  {
    decode(Utf8Flag(U16(r, 8)), RecordName(r))
  }

  /** Not encrypted, stored or deflated, on disk 0 and free of ZIP64 markers. */
  predicate Supported(r: bytes)
    requires IsCentralRecord(r)
  {
    && U16(r, 8) % 2 == 0
    && U16(r, 10) in {0, 8}
    && U16(r, 34) == 0
    && U32(r, 20) != U32_LIMIT - 1 && U32(r, 24) != U32_LIMIT - 1 && U32(r, 42) != U32_LIMIT - 1
  }

  function MemberOf(r: bytes): Member
    requires IsCentralRecord(r)
  {
    Member(U32(r, 42), U32(r, 20), r)
  }

  /** How many records carry `name`. */
  function Occurrences(records: seq<bytes>, name: string, decode: Decoder): nat
    requires forall r <- records :: IsCentralRecord(r)
  {
    if records == [] then 0
    else (if NameOf(records[0], decode) == Some(name) then 1 else 0) + Occurrences(records[1..], name, decode)
  }

  /** Every name decodes and every record of an expected name is supported. */
  ghost predicate Readable(records: seq<bytes>, expected: set<string>, decode: Decoder)
    requires forall r <- records :: IsCentralRecord(r)
  {
    forall r <- records :: NameOf(r, decode).Some? && (NameOf(r, decode).value in expected ==> Supported(r))
  }

  /** Each record of an expected name is mapped to its own offset, size and raw bytes. */
  ghost predicate Holds(members: map<string, Member>, records: seq<bytes>, expected: set<string>, decode: Decoder)
    requires forall r <- records :: IsCentralRecord(r)
  {
    forall r <- records | NameOf(r, decode).Some? && NameOf(r, decode).value in expected ::
      NameOf(r, decode).value in members && members[NameOf(r, decode).value] == MemberOf(r)
  }

  /** What one turn does, said about a whole record instead of a position. */
  function SelectRecord(
    r: bytes, members: map<string, Member>, expected: set<string>, decode: Decoder):
    Result<map<string, Member>, ZipError>
    requires IsCentralRecord(r)
  {
    var name := NameOf(r, decode);
    if name.None? then Err(InvalidName)
    else if name.value !in expected then Ok(members)
    else SelectMember(members, name.value, U16(r, 8), U16(r, 10), U16(r, 34), U32(r, 20), U32(r, 24), U32(r, 42), r)
  }

  function SelectRecords(
    records: seq<bytes>, members: map<string, Member>, expected: set<string>, decode: Decoder):
    Result<map<string, Member>, ZipError>
    requires forall r <- records :: IsCentralRecord(r)
  {
    if records == [] then Ok(members)
    else
      var next :- SelectRecord(records[0], members, expected, decode);
      SelectRecords(records[1..], next, expected, decode)
  }

  /** The fields of a record that lies at `p`, as the loop reads them. */
  lemma WholeFields(directory: bytes, p: nat, r: bytes)
    requires IsCentralRecord(r)
    requires p + |r| <= |directory| && directory[p..p + |r|] == r
    ensures p + 46 <= p + |r| && RecordLength(directory, p) == |r| && 46 + U16(r, 28) <= |r|
    ensures U16(directory, p + 8) == U16(r, 8) && U16(directory, p + 10) == U16(r, 10)
    ensures U16(directory, p + 28) == U16(r, 28) && U16(directory, p + 34) == U16(r, 34)
    ensures U32(directory, p + 20) == U32(r, 20) && U32(directory, p + 24) == U32(r, 24)
            && U32(directory, p + 42) == U32(r, 42)
    ensures directory[p..p + 4] == CENTRAL_SIGNATURE
    ensures directory[p + 46..p + 46 + U16(r, 28)] == RecordName(r)
  {
    hide U16, U32;
    var end := p + |r|;
    SliceFields(directory, p, end, 8);
    SliceFields(directory, p, end, 10);
    SliceFields(directory, p, end, 20);
    SliceFields(directory, p, end, 24);
    SliceFields(directory, p, end, 28);
    SliceFields(directory, p, end, 30);
    SliceFields(directory, p, end, 32);
    SliceFields(directory, p, end, 34);
    SliceFields(directory, p, end, 42);
    SubSlice(directory, p, end, 0, 4);
    SubSlice(directory, p, end, 46, 46 + U16(r, 28));
  }

  lemma ReadWholeRecord(
    directory: bytes, p: nat, r: bytes, members: map<string, Member>, expected: set<string>, decode: Decoder)
    requires IsCentralRecord(r)
    requires p + |r| <= |directory| && directory[p..p + |r|] == r
    ensures var read, t := ReadRecord(directory, Selection(p, members), expected, decode),
            SelectRecord(r, members, expected, decode);
            read == if t.Ok? then Ok(Selection(p + |r|, t.value)) else Err(t.error)
  {
    hide U16, U32, RecordLength, RecordName, SelectMember;
    WholeFields(directory, p, r);
  }

  lemma SplitAfter(b: bytes, p: nat, head: bytes, tail: bytes)
    requires p <= |b| && b[p..] == head + tail
    ensures p + |head| <= |b| && b[p..p + |head|] == head && b[p + |head|..] == tail
  {
    assert b[p..p + |head|] == b[p..][..|head|];
    assert b[p + |head|..] == b[p..][|head|..];
  }

  /** Parsing concatenated records is selecting among those records. */
  lemma {:induction false} ReadWholeRecords(
    directory: bytes, p: nat, records: seq<bytes>, trailer: bytes,
    members: map<string, Member>, expected: set<string>, decode: Decoder)
    requires forall r <- records :: IsCentralRecord(r)
    requires p <= |directory| && directory[p..] == Concat(records) + trailer
    ensures var read, t := ReadRecords(directory, |records|, Selection(p, members), expected, decode),
                           SelectRecords(records, members, expected, decode);
            if t.Ok? then read.Ok? && read.value.members == t.value else read.Err? && read.error == t.error
    decreases |records|
  {
    hide ReadRecord, SelectRecord, IsCentralRecord;
    if records != [] {
      var r, rest := records[0], records[1..];
      assert r in records && forall x <- rest :: x in records;
      assert Concat(records) + trailer == r + (Concat(rest) + trailer);
      SplitAfter(directory, p, r, Concat(rest) + trailer);
      ReadWholeRecord(directory, p, r, members, expected, decode);
      var t := SelectRecord(r, members, expected, decode);
      if t.Ok? {
        ReadWholeRecords(directory, p + |r|, rest, trailer, t.value, expected, decode);
      }
    }
  }

  /** Selection succeeds exactly when nothing is unreadable and no expected name comes twice. */
  lemma {:induction false} SelectRecordsExact(
    records: seq<bytes>, members: map<string, Member>, expected: set<string>, decode: Decoder)
    requires forall r <- records :: IsCentralRecord(r)
    requires members.Keys <= expected
    ensures var s := SelectRecords(records, members, expected, decode);
            && (s.Ok? <==>
                && Readable(records, expected, decode)
                && forall name <- expected ::
                     Occurrences(records, name, decode) + (if name in members then 1 else 0) <= 1)
            && (s.Ok? ==>
                && s.value.Keys <= expected
                && (forall name <- expected :: name in s.value <==>
                    name in members || Occurrences(records, name, decode) > 0)
                && (forall name <- members :: name in s.value && s.value[name] == members[name])
                && Holds(s.value, records, expected, decode))
  {
    if records != [] {
      var r, rest := records[0], records[1..];
      assert records == [r] + rest;
      var next := SelectRecord(r, members, expected, decode);
      if next.Ok? {
        SelectRecordsExact(rest, next.value, expected, decode);
      }
    }
  }

  /**
   The parser inverts the printer: a directory of records (with any bytes after
   it) is accepted exactly when it is readable and holds each expected name once,
   and then each expected name is mapped to the offset, size and bytes of its record.
   */
  lemma ParseConcatenated(records: seq<bytes>, trailer: bytes, expected: set<string>, decode: Decoder)
    requires forall r <- records :: IsCentralRecord(r)
    ensures var parsed := ParseDirectory(Concat(records) + trailer, |records|, expected, decode);
            && (parsed.Ok? <==>
                && Readable(records, expected, decode)
                && forall name <- expected :: Occurrences(records, name, decode) == 1)
            && (parsed.Ok? ==> parsed.value.Keys == expected && Holds(parsed.value, records, expected, decode))
  {
    var directory := Concat(records) + trailer;
    assert directory[0..] == directory;
    ReadWholeRecords(directory, 0, records, trailer, map[], expected, decode);
    SelectRecordsExact(records, map[], expected, decode);
  }

  /** The same for printed entries: the fields given to the printer are the fields the parser selects. */
  lemma ParsePrinted(entries: seq<CentralEntry>, trailer: bytes, expected: set<string>, decode: Decoder)
    requires forall e <- entries :: e.Valid()
    ensures var records := Printed(entries);
            var parsed := ParseDirectory(Concat(records) + trailer, |entries|, expected, decode);
            && (forall r <- records :: IsCentralRecord(r))
            && (parsed.Ok? <==>
                && Readable(records, expected, decode)
                && forall name <- expected :: Occurrences(records, name, decode) == 1)
            && (parsed.Ok? ==>
                && parsed.value.Keys == expected
                && forall e <- entries | decode(Utf8Flag(e.flags), e.name).Some? ::
                     var name := decode(Utf8Flag(e.flags), e.name).value;
                     name in expected ==> parsed.value[name] == Member(e.localOffset, e.compressedSize, e.Print()))
  {
    hide CentralEntry.Print, CentralEntry.Header, U16, U32, RecordLength, RecordName, ParseDirectory, Occurrences,
      Concat, CentralEntry.Valid;
    var records := Printed(entries);
    forall e <- entries
      ensures IsCentralRecord(e.Print()) && NameOf(e.Print(), decode) == decode(Utf8Flag(e.flags), e.name)
      ensures MemberOf(e.Print()) == Member(e.localOffset, e.compressedSize, e.Print())
    {
      PrintedRecord(e);
    }
    ParseConcatenated(records, trailer, expected, decode);
    forall e <- entries
      ensures e.Print() in records
    {
      var i: nat :| i < |entries| && entries[i] == e;
      assert records[i] == e.Print();
    }
  }

  function Printed(entries: seq<CentralEntry>): seq<bytes>
    requires forall e <- entries :: e.Valid()
  {
    seq(|entries|, i requires 0 <= i < |entries| => entries[i].Print())
  }

  // ------------------------------------------------------------- remote reader

  /** The end record is single-disk, without ZIP64 markers. */
  predicate SupportedEndRecord(b: bytes, p: nat)
    requires EndRecordAt(b, p)
  {
    && U16(b, p + 4) == 0 && U16(b, p + 6) == 0
    && U16(b, p + 8) == U16(b, p + 10) != U16_LIMIT - 1
    && U32(b, p + 12) != U32_LIMIT - 1 && U32(b, p + 16) != U32_LIMIT - 1
  }

  /** Reading the directory of an archive that is held completely. */
  function ReadArchive(archive: bytes, expected: set<string>, decode: Decoder): Result<map<string, Member>, ZipError> {
    var end := LastEndRecord(archive);
    if end.None? then Err(NoEndRecord)
    else if !SupportedEndRecord(archive, end.value) then Err(UnsupportedArchive)
    else
      var size, offset := U32(archive, end.value + 12), U32(archive, end.value + 16);
      if size == 0 || offset + size > |archive| then Err(InvalidDirectoryRange)
      else ParseDirectory(archive[offset..offset + size], U16(archive, end.value + 10), expected, decode)
  }

  /**
   The last end record lies at `p`, on a single disk and without ZIP64 markers; it counts the
   records, and they stand one behind the other where it says that the directory is.
   */
  ghost predicate DirectoryAt(archive: bytes, p: nat, records: seq<bytes>) {
    && EndRecordAt(archive, p) && (forall q: nat | EndRecordAt(archive, q) :: q <= p)
    && (forall r <- records :: IsCentralRecord(r))
    && var size, offset := U32(archive, p + 12), U32(archive, p + 16);
       && U16(archive, p + 4) == U16(archive, p + 6) == 0
       && U16(archive, p + 8) == U16(archive, p + 10) == |records| < 0xFFFF
       && 0 < size < 0xFFFF_FFFF && offset < 0xFFFF_FFFF && offset + size <= |archive|
       && Concat(records) <= archive[offset..offset + size]
  }

  /** What a reader answers about records: all expected names, each once, with their own record; or an error. */
  ghost predicate Answers(
    r: Result<map<string, Member>, ZipError>, records: seq<bytes>, expected: set<string>, decode: Decoder)
    requires forall x <- records :: IsCentralRecord(x)
  {
    && (r.Ok? <==>
          && Readable(records, expected, decode)
          && forall name <- expected :: Occurrences(records, name, decode) == 1)
    && (r.Ok? ==> r.value.Keys == expected && Holds(r.value, records, expected, decode))
  }

  lemma PrefixAndRest(a: bytes, b: bytes)
    requires a <= b
    ensures b == a + b[|a|..]
  {
  }

  /** Wherever an archive has its directory, the reader answers about exactly those records. */
  lemma ArchiveAnswers(archive: bytes, p: nat, records: seq<bytes>, expected: set<string>, decode: Decoder)
    requires DirectoryAt(archive, p, records)
    ensures Answers(ReadArchive(archive, expected, decode), records, expected, decode)
  {
    hide U16, U32, IsCentralRecord, Occurrences, ParseDirectory, Readable, Holds, Concat;
    assert LastEndRecord(archive) == Some(p) by { LastIsLast(archive, p); }
    var size, offset := U32(archive, p + 12), U32(archive, p + 16);
    var directory := archive[offset..offset + size];
    PrefixAndRest(Concat(records), directory);
    ParseConcatenated(records, directory[|Concat(records)|..], expected, decode);
  }

  lemma LastIsLast(b: bytes, p: nat)
    requires EndRecordAt(b, p) && forall q: nat | EndRecordAt(b, q) :: q <= p
    ensures LastEndRecord(b) == Some(p)
  {
    var q := LastEndRecord(b);
  }

  /** The records that a successful loop has gone through. */
  lemma {:induction false} RecordsRead(
    directory: bytes, n: nat, s: Selection, expected: set<string>, decode: Decoder) returns (records: seq<bytes>)
    requires s.position <= |directory| && ReadRecords(directory, n, s, expected, decode).Ok?
    ensures |records| == n && (forall r <- records :: IsCentralRecord(r))
    ensures Concat(records) <= directory[s.position..]
  {
    hide U16, U32, IsCentralRecord, RecordLength, SelectMember;
    if n == 0 {
      records := [];
    } else {
      var next, p := ReadRecord(directory, s, expected, decode).value, s.position;
      SlicedRecord(directory, p);
      var r := directory[p..next.position];
      var rest := RecordsRead(directory, n - 1, next, expected, decode);
      records := [r] + rest;
      assert directory[p..] == r + directory[next.position..];
      assert Concat(records) == r + Concat(rest);
    }
  }

  /** And nothing is read from an archive that has none. */
  lemma AnswerHasDirectory(archive: bytes, expected: set<string>, decode: Decoder)
    requires ReadArchive(archive, expected, decode).Ok?
    ensures exists p, records :: DirectoryAt(archive, p, records)
  {
    hide U16, U32, IsCentralRecord, ReadRecords, Concat;
    var p := LastEndRecord(archive).value;
    var size, offset := U32(archive, p + 12), U32(archive, p + 16);
    var directory := archive[offset..offset + size];
    var records := RecordsRead(directory, U16(archive, p + 10), Selection(0, map[]), expected, decode);
    assert directory[0..] == directory;
    assert DirectoryAt(archive, p, records);
  }

  /** An archive as it is written: anything, the directory of the entries, the end record and its comment. */
  ghost predicate IsWritten(archive: bytes, prefix: bytes, entries: seq<CentralEntry>, comment: bytes) {
    && |entries| < 0xFFFF && |comment| < U16_LIMIT && (forall e <- entries :: e.Valid())
    && var directory := Concat(Printed(entries));
       && 0 < |directory| < 0xFFFF_FFFF && |prefix| < 0xFFFF_FFFF
       && archive == prefix + directory + EndRecordWith(|entries|, |directory|, |prefix|, comment)
       && forall q: nat | EndRecordAt(archive, q) :: q <= |prefix| + |directory|
  }

  /** The answer about written entries: each expected name has the offset and size that its entry gives. */
  ghost predicate EntriesAnswered(
    r: Result<map<string, Member>, ZipError>, entries: seq<CentralEntry>, expected: set<string>, decode: Decoder)
  {
    && (forall e <- entries :: e.Valid()) && (forall x <- Printed(entries) :: IsCentralRecord(x))
    && Answers(r, Printed(entries), expected, decode)
    && (r.Ok? ==> forall e <- entries | decode(Utf8Flag(e.flags), e.name).Some? ::
          var name := decode(Utf8Flag(e.flags), e.name).value;
          name in expected ==> r.value[name] == Member(e.localOffset, e.compressedSize, e.Print()))
  }

  lemma WrittenHasDirectory(archive: bytes, prefix: bytes, entries: seq<CentralEntry>, comment: bytes)
    requires IsWritten(archive, prefix, entries, comment)
    ensures DirectoryAt(archive, |prefix| + |Concat(Printed(entries))|, Printed(entries))
  {
    hide U16, U32, IsCentralRecord, Concat, EndRecordWith, CentralEntry.Print, CentralEntry.Valid;
    var directory := Concat(Printed(entries));
    forall r <- Printed(entries) ensures IsCentralRecord(r) {
      var i: nat :| i < |entries| && Printed(entries)[i] == r;
      assert entries[i] in entries;
      PrintedRecord(entries[i]);
    }
    var p := |prefix| + |directory|;
    ThreeParts(prefix, directory, EndRecordWith(|entries|, |directory|, |prefix|, comment));
    CommentedEndFields(|entries|, |directory|, |prefix|, comment, archive, p);
  }

  /**
   The reader inverts the writer: it answers about exactly the entries that were written,
   and maps each expected name to the offset and size that its entry gives.
   */
  lemma WrittenArchiveIsRead(
    archive: bytes, prefix: bytes, entries: seq<CentralEntry>, comment: bytes, expected: set<string>, decode: Decoder)
    requires IsWritten(archive, prefix, entries, comment)
    ensures EntriesAnswered(ReadArchive(archive, expected, decode), entries, expected, decode)
  {
    hide U16, U32, IsCentralRecord, Concat, EndRecordAt, CentralEntry.Print, CentralEntry.Valid, ReadArchive, Readable,
      Occurrences, IsWritten, RecordName;
    assert forall e <- entries :: e.Valid() by { WrittenAreValid(archive, prefix, entries, comment); }
    WrittenHasDirectory(archive, prefix, entries, comment);
    var p := |prefix| + |Concat(Printed(entries))|;
    ArchiveAnswers(archive, p, Printed(entries), expected, decode);
    forall e <- entries
      ensures e.Print() in Printed(entries) && IsCentralRecord(e.Print())
              && NameOf(e.Print(), decode) == decode(Utf8Flag(e.flags), e.name)
              && MemberOf(e.Print()) == Member(e.localOffset, e.compressedSize, e.Print())
    {
      var i: nat :| i < |entries| && entries[i] == e;
      assert Printed(entries)[i] == e.Print();
      PrintedRecord(e);
    }
  }

  lemma WrittenAreValid(archive: bytes, prefix: bytes, entries: seq<CentralEntry>, comment: bytes)
    requires IsWritten(archive, prefix, entries, comment)
    ensures forall e <- entries :: e.Valid()
  {
  }

  lemma DirectoryIsRead(archive: bytes, expected: set<string>, decode: Decoder)
    ensures forall p, records | DirectoryAt(archive, p, records) ::
              Answers(ReadArchive(archive, expected, decode), records, expected, decode)
    ensures forall prefix, entries, comment | IsWritten(archive, prefix, entries, comment) ::
              EntriesAnswered(ReadArchive(archive, expected, decode), entries, expected, decode)
    ensures ReadArchive(archive, expected, decode).Ok? ==> exists p, records :: DirectoryAt(archive, p, records)
  {
    hide Answers, EntriesAnswered, ReadArchive, EndRecordAt, U16, U32, IsCentralRecord, Concat;
    forall p, records | DirectoryAt(archive, p, records)
      ensures Answers(ReadArchive(archive, expected, decode), records, expected, decode)
    {
      ArchiveAnswers(archive, p, records, expected, decode);
    }
    forall prefix, entries, comment | IsWritten(archive, prefix, entries, comment)
      ensures EntriesAnswered(ReadArchive(archive, expected, decode), entries, expected, decode)
    {
      WrittenArchiveIsRead(archive, prefix, entries, comment, expected, decode);
    }
    if ReadArchive(archive, expected, decode).Ok? { AnswerHasDirectory(archive, expected, decode); }
  }

  /** One ranged request, both ends included; only ranges inside the archive may be asked for. */
  method DownloadRange(archive: bytes, start: nat, end: nat) returns (r: bytes)
    requires start <= end < |archive|
    ensures r == archive[start..end + 1]
  {
    return archive[start..end + 1];
  }

  /** The directory bytes, cut from the tail when they are all there and requested otherwise. */
  method FetchDirectory(archive: bytes, tailStart: nat, tail: bytes, offset: nat, size: nat) returns (directory: bytes)
    requires tailStart <= |archive| && tail == archive[tailStart..]
    requires 0 < size && offset + size <= |archive|
    ensures directory == archive[offset..offset + size]
  {
    if tailStart <= offset && offset - tailStart + size <= |tail| {
      directory := tail[offset - tailStart..offset - tailStart + size];
      SubSlice(archive, tailStart, |archive|, offset - tailStart, offset - tailStart + size);
      assert archive[tailStart..|archive|] == tail;
    } else {
      directory := DownloadRange(archive, offset, offset + size - 1);
    }
  }

  /**
   The remote reader looks only at the last 128 KiB and, if the directory is not
   all there, at one more range; it answers as if it had read the whole archive.
   */
  method ReadRemoteDirectory(archive: bytes, expected: set<string>, decode: Decoder)
    returns (r: Result<map<string, Member>, ZipError>)
    ensures r == if |archive| == 0 then Err(NoArchiveSize)
                 else if |archive| > MAX_SIZE then Err(ArchiveTooLarge)
                 else ReadArchive(archive, expected, decode)
    ensures 0 < |archive| <= MAX_SIZE ==>
              forall p, records | DirectoryAt(archive, p, records) :: Answers(r, records, expected, decode)
    ensures 0 < |archive| <= MAX_SIZE ==>
              forall prefix, entries, comment | IsWritten(archive, prefix, entries, comment) ::
                EntriesAnswered(r, entries, expected, decode)
    ensures r.Ok? ==> exists p, records :: DirectoryAt(archive, p, records)
  {
    hide EndRecordAt, SupportedEndRecord, U16, U32, ParseDirectory, Answers, EntriesAnswered, IsWritten, Concat,
      IsCentralRecord;
    DirectoryIsRead(archive, expected, decode);
    if |archive| == 0 {
      return Err(NoArchiveSize);
    }
    if |archive| > MAX_SIZE {
      return Err(ArchiveTooLarge);
    }
    var tailStart: nat := if |archive| > TAIL_SIZE then |archive| - TAIL_SIZE else 0;
    var tail := DownloadRange(archive, tailStart, |archive| - 1);
    assert tail == archive[tailStart..];
    TailSearchIsExact(archive, tailStart);
    var end := FindEndRecord(tail);
    if end.None? {
      return Err(NoEndRecord);
    }
    EndRecordInTail(archive, tailStart, end.value);
    if !SupportedEndRecord(tail, end.value) {
      return Err(UnsupportedArchive);
    }
    var size, offset := U32(tail, end.value + 12), U32(tail, end.value + 16);
    if size == 0 || offset + size > |archive| {
      return Err(InvalidDirectoryRange);
    }
    var directory := FetchDirectory(archive, tailStart, tail, offset, size);
    r := ParseCentralDirectory(directory, U16(tail, end.value + 10), expected, decode);
  }

  lemma EndRecordInTail(archive: bytes, start: nat, p: nat)
    requires start <= |archive| && EndRecordAt(archive[start..], p) && EndRecordAt(archive, start + p)
    ensures var tail := archive[start..];
            && SupportedEndRecord(tail, p) == SupportedEndRecord(archive, start + p)
            && U16(tail, p + 10) == U16(archive, start + p + 10)
            && U32(tail, p + 12) == U32(archive, start + p + 12) && U32(tail, p + 16) == U32(archive, start + p + 16)
  {
  }

  // -------------------------------------------------------- one-member archive

  /** Size of the local record of section 4.3.7: fixed header, name, extra field, data. */
  function LocalRecordSize(archive: bytes, m: Member): nat
    requires m.localOffset + 30 <= |archive|
  {
    30 + U16(archive, m.localOffset + 26) + U16(archive, m.localOffset + 28) + m.compressedSize
  }

  /** The archive really holds, completely, the local record the member points to. */
  predicate LocalRecordPresent(archive: bytes, m: Member) {
    && m.localOffset + 30 <= |archive|
    && SignatureAt(archive, m.localOffset, LOCAL_SIGNATURE)
    && m.localOffset + LocalRecordSize(archive, m) <= |archive|
  }

  function LocalRecord(archive: bytes, m: Member): bytes
    requires LocalRecordPresent(archive, m)
  {
    archive[m.localOffset..m.localOffset + LocalRecordSize(archive, m)]
  }

  /** A local record as section 4.3.7 has it; `fixed` are the fields that the reader does not look at. */
  function PrintLocal(fixed: bytes, name: bytes, extra: bytes, data: bytes): bytes
    requires |fixed| == 22 && |name| < U16_LIMIT && |extra| < U16_LIMIT
  {
    LOCAL_SIGNATURE + fixed + Pack16(|name|) + Pack16(|extra|) + (name + extra + data)
  }

  /** Where a member points to a written local record, that is the record: header, name, extra field and data. */
  lemma WrittenLocalRecord(
    archive: bytes, prefix: bytes, fixed: bytes, name: bytes, extra: bytes, data: bytes, rest: bytes, m: Member)
    requires |fixed| == 22 && |name| < U16_LIMIT && |extra| < U16_LIMIT
    requires archive == prefix + PrintLocal(fixed, name, extra, data) + rest
    requires m.localOffset == |prefix| && m.compressedSize == |data|
    ensures LocalRecordPresent(archive, m) && LocalRecord(archive, m) == PrintLocal(fixed, name, extra, data)
  {
    hide U16;
    var r, p := PrintLocal(fixed, name, extra, data), |prefix|;
    var head := LOCAL_SIGNATURE + fixed;
    ThreeParts(prefix, r, rest);
    assert archive[p..p + |r|] == r;
    assert r[0..4] == LOCAL_SIGNATURE && r[26..28] == Pack16(|name|) && r[28..30] == Pack16(|extra|);
    SliceFields(r, 26, 28, 0);
    SliceFields(r, 28, 30, 0);
    SliceFields(archive, p, p + |r|, 26);
    SliceFields(archive, p, p + |r|, 28);
    SubSlice(archive, p, p + |r|, 0, 4);
  }

  /** The central record with its local offset rewritten to zero. */
  function Relocated(record: bytes): (r: bytes)
    requires |record| >= 46
    ensures |r| == |record|
  {
    record[..42] + Pack32(0) + record[46..]
  }

  function OneMemberArchive(archive: bytes, m: Member): bytes
    requires LocalRecordPresent(archive, m) && |archive| <= MAX_SIZE
    requires IsCentralRecord(m.record)
  {
    LocalRecord(archive, m) + Relocated(m.record)
    + PrintEndRecord(1, |m.record|, LocalRecordSize(archive, m))
  }

  /** `struct.pack_into("<I", buffer, offset, v)`. */
  method PackInto(buffer: array<byte>, offset: nat, v: nat)
    requires offset + 4 <= buffer.Length && v < U32_LIMIT
    modifies buffer
    ensures buffer[..] == old(buffer[..offset]) + Pack32(v) + old(buffer[offset + 4..])
  {
    var packed := Pack32(v);
    buffer[offset], buffer[offset + 1], buffer[offset + 2], buffer[offset + 3] := packed[0], packed[1], packed[2],
      packed[3];
  }

  /** The file written from a downloaded range: truncate, append the moved record and an end record. */
  method RebuildMember(range: bytes, localRecordSize: nat, record: bytes) returns (mini: bytes)
    requires localRecordSize <= |range| <= MAX_SIZE && 46 <= |record| < U32_LIMIT
    ensures mini == range[..localRecordSize] + Relocated(record) + PrintEndRecord(1, |record|, localRecordSize)
  {
    var buffer := new byte[|record|](i requires 0 <= i < |record| => record[i]);
    assert buffer[..] == record;
    PackInto(buffer, 42, 0);
    mini := range[..localRecordSize] + buffer[..] + PrintEndRecord(1, buffer.Length, localRecordSize);
  }

  function RequestError(archive: bytes, m: Member): ZipError
    requires !LocalRecordPresent(archive, m)
  {
    if m.localOffset >= |archive| then InvalidOffset
    else if m.localOffset + 30 > |archive| || !SignatureAt(archive, m.localOffset, LOCAL_SIGNATURE) then
      InvalidLocalHeader
    else TruncatedRange
  }

  /**
   The bounded request for a local record. The truncation error is raised only
   when the archive itself ends too early: a member whose local record is present
   is always covered by the request.
   */
  method RequestMember(archive: bytes, m: Member) returns (r: Result<(bytes, nat), ZipError>)
    requires 0 < |archive| <= MAX_SIZE
    ensures r.Ok? <==> LocalRecordPresent(archive, m)
    ensures r.Ok? ==> && r.value.1 == LocalRecordSize(archive, m) <= |r.value.0| <= MAX_SIZE
                      && r.value.0[..r.value.1] == LocalRecord(archive, m)
    ensures r.Err? ==> r.error == RequestError(archive, m)
  {
    var most := 30 + 2 * 0xFFFF + m.compressedSize;
    var rangeEnd := if |archive| <= m.localOffset + most then |archive| - 1 else m.localOffset + most - 1;
    if m.localOffset >= |archive| || rangeEnd < m.localOffset {
      return Err(InvalidOffset);
    }
    var range := DownloadRange(archive, m.localOffset, rangeEnd);
    if |range| < 30 {
      return Err(InvalidLocalHeader);
    }
    RangeFields(archive, m.localOffset, rangeEnd + 1);
    if range[..4] != LOCAL_SIGNATURE {
      return Err(InvalidLocalHeader);
    }
    var localRecordSize := 30 + U16(range, 26) + U16(range, 28) + m.compressedSize;
    if localRecordSize > rangeEnd - m.localOffset + 1 {
      return Err(TruncatedRange);
    }
    SubSlice(archive, m.localOffset, rangeEnd + 1, 0, localRecordSize);
    return Ok((range, localRecordSize));
  }

  /** The whole of the byte work of `_extract_remote_zip_member`. */
  method BuildMemberArchive(archive: bytes, m: Member) returns (r: Result<bytes, ZipError>)
    requires 0 < |archive| <= MAX_SIZE && IsCentralRecord(m.record)
    ensures r == if LocalRecordPresent(archive, m) then Ok(OneMemberArchive(archive, m))
            else Err(RequestError(archive, m))
  {
    var request :- RequestMember(archive, m);
    var mini := RebuildMember(request.0, request.1, m.record);
    return Ok(mini);
  }

  lemma RangeFields(archive: bytes, lo: nat, hi: nat)
    requires lo + 30 <= hi <= |archive|
    ensures archive[lo..hi][..4] == archive[lo..lo + 4]
    ensures U16(archive[lo..hi], 26) == U16(archive, lo + 26) && U16(archive[lo..hi], 28) == U16(archive, lo + 28)
  {
    SubSlice(archive, lo, hi, 0, 4);
  }

  lemma RelocatedRecord(record: bytes)
    requires IsCentralRecord(record)
    ensures var r := Relocated(record);
            && IsCentralRecord(r) && RecordName(r) == RecordName(record) && U32(r, 42) == 0
            && U16(r, 8) == U16(record, 8) && U16(r, 10) == U16(record, 10) && U16(r, 34) == U16(record, 34)
            && U32(r, 20) == U32(record, 20) && U32(r, 24) == U32(record, 24)
  {
    var r := Relocated(record);
    assert r[0..4] == record[0..4];
    assert forall i | 0 <= i < |r| && !(42 <= i < 46) :: r[i] == record[i];
    assert RecordName(r) == RecordName(record);
  }

  lemma EndRecordIsFound(b: bytes, p: nat)
    requires p + 22 == |b| && EndRecordAt(b, p)
    ensures LastEndRecord(b) == Some(p)
  {
    var q := LastEndRecord(b);
    assert forall k: nat | k > p :: !EndRecordAt(b, k);
  }

  lemma ThreeParts(a: bytes, b: bytes, c: bytes)
    ensures var whole := a + b + c;
            && whole[..|a|] == a && whole[|a|..|a| + |b|] == b && whole[|a| + |b|..] == c
  {
  }

  /**
   The rebuilt file is faithful: the reader's own search and parser find exactly
   the selected member in it, at offset 0 with the same size and record, and its
   bytes up to the record are those of the original archive. Only a local record of
   the greatest size has its end mistaken for a ZIP64 marker, and is refused.
   */
  lemma OneMemberArchiveReparses(archive: bytes, m: Member, name: string, decode: Decoder)
    requires |archive| <= MAX_SIZE && LocalRecordPresent(archive, m) && Genuine(name, m, decode)
    ensures var mini, moved := OneMemberArchive(archive, m), Member(0, m.compressedSize, Relocated(m.record));
            && ReadArchive(mini, {name}, decode)
               == (if LocalRecordSize(archive, m) < U32_LIMIT - 1 then Ok(map[name := moved])
                   else Err(UnsupportedArchive))
            && LocalRecordPresent(mini, moved)
            && LocalRecord(mini, moved) == LocalRecord(archive, m)
  {
    hide *;
    LocalRecordFits(archive, m);
    GenuineRecord(name, m, decode);
    var mini, record, size := OneMemberArchive(archive, m), Relocated(m.record), LocalRecordSize(archive, m);
    MiniLayout(archive, m, name, decode);
    MovedMember(name, m, decode);
    ReadMini(mini, record, size, {name}, decode);
    LocalRecordMoves(archive, m, mini, record);
    SelectOne(record, name, decode);
  }

  /** Where the parts of the rebuilt file lie. */
  lemma MiniLayout(archive: bytes, m: Member, name: string, decode: Decoder)
    requires |archive| <= MAX_SIZE && LocalRecordPresent(archive, m) && Genuine(name, m, decode)
    ensures var mini, record, size := OneMemberArchive(archive, m), Relocated(m.record), LocalRecordSize(archive, m);
            && size < U32_LIMIT && 46 <= |record| < U32_LIMIT - 1
            && |mini| == size + |record| + 22 && mini[..size] == LocalRecord(archive, m)
            && mini[size..size + |record|] == record
            && mini[size + |record|..] == PrintEndRecord(1, |record|, size)
  {
    hide U16, U32, Relocated, PrintEndRecord, LocalRecord, LocalRecordSize, LocalRecordPresent;
    LocalRecordFits(archive, m);
    var record, size := Relocated(m.record), LocalRecordSize(archive, m);
    ThreeParts(LocalRecord(archive, m), record, PrintEndRecord(1, |record|, size));
  }

  /** The moved record is supported and says the same but for its offset. */
  lemma MovedMember(name: string, m: Member, decode: Decoder)
    requires Genuine(name, m, decode)
    ensures |m.record| >= 46
    ensures var record := Relocated(m.record);
            && IsCentralRecord(record) && Supported(record) && NameOf(record, decode) == Some(name)
            && MemberOf(record) == Member(0, m.compressedSize, record)
  {
    hide U16, U32, Relocated, RecordLength, RecordName;
    RelocatedRecord(m.record);
  }

  lemma ReadMini(mini: bytes, record: bytes, size: nat, expected: set<string>, decode: Decoder)
    requires size < U32_LIMIT && 0 < |record| < U32_LIMIT - 1 && |mini| == size + |record| + 22
    requires mini[size..size + |record|] == record && mini[size + |record|..] == PrintEndRecord(1, |record|, size)
    ensures ReadArchive(mini, expected, decode)
         == if size == U32_LIMIT - 1 then Err(UnsupportedArchive) else ParseDirectory(record, 1, expected, decode)
  {
    hide U16, U32, PrintEndRecord, EndRecordAt, LastEndRecord, ReadArchive, ParseDirectory;
    EndRecordFields(1, |record|, size, mini, size + |record|);
    EndRecordIsFound(mini, size + |record|);
    ReadPlacedDirectory(mini, size + |record|, |record|, size, expected, decode);
  }

  lemma LocalRecordFits(archive: bytes, m: Member)
    requires LocalRecordPresent(archive, m)
    ensures m.localOffset + 30 <= |archive| && LocalRecordSize(archive, m) <= |archive|
    ensures |LocalRecord(archive, m)| == LocalRecordSize(archive, m)
  {
  }

  lemma ReadPlacedDirectory(b: bytes, p: nat, size: nat, offset: nat, expected: set<string>, decode: Decoder)
    requires EndRecordAt(b, p) && LastEndRecord(b) == Some(p)
    requires U16(b, p + 4) == 0 && U16(b, p + 6) == 0 && U16(b, p + 8) == 1 && U16(b, p + 10) == 1
    requires U32(b, p + 12) == size && U32(b, p + 16) == offset && 0 < size < U32_LIMIT - 1 && offset + size <= |b|
    ensures ReadArchive(b, expected, decode)
         == if offset == U32_LIMIT - 1 then Err(UnsupportedArchive)
            else ParseDirectory(b[offset..offset + size], 1, expected, decode)
  {
    hide ParseDirectory, LastEndRecord;
  }

  lemma LocalRecordMoves(archive: bytes, m: Member, mini: bytes, record: bytes)
    requires LocalRecordPresent(archive, m)
    requires |LocalRecord(archive, m)| <= |mini| && mini[..|LocalRecord(archive, m)|] == LocalRecord(archive, m)
    ensures var moved := Member(0, m.compressedSize, record);
            LocalRecordPresent(mini, moved) && LocalRecord(mini, moved) == LocalRecord(archive, m)
  {
    var local, o, size := LocalRecord(archive, m), m.localOffset, LocalRecordSize(archive, m);
    SliceFields(archive, o, o + size, 26);
    SliceFields(archive, o, o + size, 28);
    SliceFields(mini, 0, size, 26);
    SliceFields(mini, 0, size, 28);
    SubSlice(archive, o, o + size, 0, 4);
    SubSlice(mini, 0, size, 0, 4);
    assert mini[0..size] == mini[..size] == local;
  }

  lemma SelectOne(record: bytes, name: string, decode: Decoder)
    requires IsCentralRecord(record) && Supported(record) && NameOf(record, decode) == Some(name)
    ensures ParseDirectory(record, 1, {name}, decode) == Ok(map[name := MemberOf(record)])
  {
    assert record[0..|record|] == record;
    ReadWholeRecord(record, 0, record, map[], {name}, decode);
    var s := Selection(|record|, map[name := MemberOf(record)]);
    assert ReadRecord(record, Selection(0, map[]), {name}, decode) == Ok(s);
    assert ReadRecords(record, 0, s, {name}, decode) == Ok(s);
  }

  lemma ReadMembersAreGenuine(archive: bytes, expected: set<string>, decode: Decoder)
    ensures var r := ReadArchive(archive, expected, decode);
            r.Ok? ==> AllGenuine(r.value, decode) && expected <= r.value.Keys
  {
    hide ParseDirectory, AllGenuine, SupportedEndRecord;
    var end := LastEndRecord(archive);
    if end.Some? && SupportedEndRecord(archive, end.value) {
      var size, offset := U32(archive, end.value + 12), U32(archive, end.value + 16);
      if offset + size <= |archive| {
        ParsedMembersAreGenuine(archive[offset..offset + size], U16(archive, end.value + 10), expected, decode);
      }
    }
  }

  /**
   From the remote directory to one member's own archive, on arbitrary bytes: it
   succeeds exactly when the directory is read and the member's local record is there,
   and the reader finds in what it built that member and nothing else, with the same bytes.
   */
  method FetchMember(archive: bytes, expected: set<string>, name: string, decode: Decoder)
    returns (r: Result<bytes, ZipError>)
    requires name in expected
    ensures r.Ok? <==> 0 < |archive| <= MAX_SIZE
                       && var read := ReadArchive(archive, expected, decode);
                          read.Ok? && name in read.value && LocalRecordPresent(archive, read.value[name])
    ensures r.Ok? ==>
              var m := ReadArchive(archive, expected, decode).value[name];
              Genuine(name, m, decode)
              && var moved := Member(0, m.compressedSize, Relocated(m.record));
              && ReadArchive(r.value, {name}, decode)
                 == (if LocalRecordSize(archive, m) < U32_LIMIT - 1 then Ok(map[name := moved])
                     else Err(UnsupportedArchive))
              && LocalRecordPresent(r.value, moved) && LocalRecord(r.value, moved) == LocalRecord(archive, m)
  {
    hide ReadArchive, OneMemberArchive, LocalRecordPresent, Genuine, IsCentralRecord;
    ReadMembersAreGenuine(archive, expected, decode);
    var members :- ReadRemoteDirectory(archive, expected, decode);
    var m := members[name];
    GenuineRecord(name, m, decode);
    var mini :- BuildMemberArchive(archive, m);
    OneMemberArchiveReparses(archive, m, name, decode);
    return Ok(mini);
  }

  lemma GenuineRecord(name: string, m: Member, decode: Decoder)
    requires Genuine(name, m, decode)
    ensures IsCentralRecord(m.record) && |m.record| >= 46
  {
  }

  // An archive whose one local record has the greatest size: its data reach over directory and end record.

  const GREATEST_DATA: nat := MAX_SIZE - 30

  function GreatestEntry(): (e: CentralEntry)
    ensures e.Valid() && e.compressedSize == GREATEST_DATA && e.localOffset == 0 && |e.Print()| == 46
  {
    CentralEntry(seq(4, _ => 0), 0, 0, seq(8, _ => 0), GREATEST_DATA, 0, 0, seq(6, _ => 0), 0, [], [], [])
  }

  function LocalHeader(): (b: bytes)
    ensures |b| == 30
  {
    LOCAL_SIGNATURE + seq(22, _ => 0) + Pack16(0) + Pack16(0)
  }

  function GreatestArchive(): (b: bytes)
    ensures |b| == MAX_SIZE
  {
    (LocalHeader() + seq(MAX_SIZE - 98, _ => 0)) + GreatestEntry().Print() + PrintEndRecord(1, 46, MAX_SIZE - 68)
  }

  lemma HeaderOfGreatest()
    ensures var b := GreatestArchive();
            SignatureAt(b, 0, LOCAL_SIGNATURE) && U16(b, 26) == 0 && U16(b, 28) == 0
  {
    hide U16;
    var b, h := GreatestArchive(), LocalHeader();
    assert b[0..30] == h;
    assert h[0..4] == LOCAL_SIGNATURE && h[26..28] == Pack16(0) && h[28..30] == Pack16(0);
    SubSlice(b, 0, 30, 0, 4);
    SliceFields(h, 26, 28, 0);
    SliceFields(h, 28, 30, 0);
    SliceFields(b, 0, 30, 26);
    SliceFields(b, 0, 30, 28);
  }

  /** Its member is read, but the file built of it is refused. */
  lemma GreatestRecordIsRefused(name: string, decode: Decoder)
    requires decode(false, []) == Some(name)
    ensures var archive, m := GreatestArchive(), Member(0, GREATEST_DATA, GreatestEntry().Print());
            && ReadArchive(archive, {name}, decode) == Ok(map[name := m])
            && LocalRecordPresent(archive, m) && IsCentralRecord(m.record)
            && ReadArchive(OneMemberArchive(archive, m), {name}, decode) == Err(UnsupportedArchive)
  {
    hide U16, U32, PrintEndRecord, CentralEntry.Print, GreatestArchive, EndRecordAt, LastEndRecord, ParseDirectory,
      ReadArchive, OneMemberArchive, RecordLength;
    var archive, e := GreatestArchive(), GreatestEntry();
    var record, end := e.Print(), PrintEndRecord(1, 46, MAX_SIZE - 68);
    var m := Member(0, GREATEST_DATA, record);
    GreatestParts();
    ReadMini(archive, record, MAX_SIZE - 68, {name}, decode);
    PrintedRecord(e);
    GreatestIsGenuine(name, decode);
    SelectOne(record, name, decode);
    HeaderOfGreatest();
    GreatestIsPresent();
    OneMemberArchiveReparses(archive, m, name, decode);
  }

  lemma GreatestParts()
    ensures var b := GreatestArchive();
            && b[MAX_SIZE - 68..MAX_SIZE - 68 + 46] == GreatestEntry().Print()
            && b[MAX_SIZE - 22..] == PrintEndRecord(1, 46, MAX_SIZE - 68)
  {
    hide PrintEndRecord, CentralEntry.Print, LocalHeader;
    ThreeParts(LocalHeader() + seq(MAX_SIZE - 98, _ => 0), GreatestEntry().Print(),
               PrintEndRecord(1, 46, MAX_SIZE - 68));
  }

  lemma GreatestIsGenuine(name: string, decode: Decoder)
    requires decode(false, []) == Some(name)
    ensures Genuine(name, Member(0, GREATEST_DATA, GreatestEntry().Print()), decode)
  {
    hide U16, U32, CentralEntry.Print, RecordLength, RecordName;
    PrintedRecord(GreatestEntry());
  }

  lemma GreatestIsPresent()
    ensures var m := Member(0, GREATEST_DATA, GreatestEntry().Print());
            LocalRecordPresent(GreatestArchive(), m) && LocalRecordSize(GreatestArchive(), m) == U32_LIMIT - 1
  {
    hide U16, CentralEntry.Print, GreatestArchive;
    HeaderOfGreatest();
  }
}
