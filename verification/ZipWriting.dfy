/**
 * Archives from the writing side: the bytes of directory headers and end records as sections 4.3.12
 * and 4.3.16 of the ZIP APPNOTE lay them out, and when the check accepts what is made of them.
 */
module ZipWriting {
  import opened Common
  import opened Zip

  // ---------------------------------------------------------------- little-endian writes

  function Put16(n: nat): (b: Bytes)
    requires n <= 0xFFFF
    ensures |b| == 2
  {
    [(n % 0x100) as byte, (n / 0x100) as byte]
  }

  function Put32(n: nat): (b: Bytes)
    requires n <= 0xFFFF_FFFF
    ensures |b| == 4
  {
    [(n % 0x100) as byte, (n / 0x100 % 0x100) as byte, (n / 0x1_0000 % 0x100) as byte, (n / 0x100_0000) as byte]
  }

  lemma SliceOfSlice(b: Bytes, at: nat, end: nat, i: nat, j: nat)
    requires at <= end <= |b| && i <= j <= end - at
    ensures b[at..end][i..j] == b[at + i..at + j]
  {
    var whole := b[at..end];
    assert forall k :: i <= k < j ==> whole[k] == b[at + k];
  }

  lemma Read16(b: Bytes, i: nat, n: nat)
    requires n <= 0xFFFF && i + 2 <= |b| && b[i..i + 2] == Put16(n)
    ensures Uint16At(b, i) == n
  {
    assert b[i] == b[i..i + 2][0] && b[i + 1] == b[i..i + 2][1];
  }

  lemma Read32(b: Bytes, i: nat, n: nat)
    requires n <= 0xFFFF_FFFF && i + 4 <= |b| && b[i..i + 4] == Put32(n)
    ensures Uint32At(b, i) == n
  {
    var four := b[i..i + 4];
    assert b[i] == four[0] && b[i + 1] == four[1] && b[i + 2] == four[2] && b[i + 3] == four[3];
    assert n / 0x100 == n / 0x1_0000 * 0x100 + n / 0x100 % 0x100;
    assert n / 0x1_0000 == n / 0x100_0000 * 0x100 + n / 0x1_0000 % 0x100;
  }

  /** Four bytes that read as the header signature are its bytes. */
  lemma SignatureBytes(b: Bytes, i: nat)
    requires i + 4 <= |b|
    ensures Uint32At(b, i) == HEADER_SIGNATURE <==> b[i..i + 4] == [0x50, 0x4b, 0x01, 0x02]
    ensures Uint32At(b, i) == END_SIGNATURE <==> b[i..i + 4] == [0x50, 0x4b, 0x05, 0x06]
  {
    var four := b[i..i + 4];
    assert four[0] == b[i] && four[1] == b[i + 1] && four[2] == b[i + 2] && four[3] == b[i + 3];
  }

  // ---------------------------------------------------------------- headers

  /** A file's directory header: 24 bytes of versions, times, sizes and the like, three texts, 12 bytes more. */
  datatype Entry = Entry(fields: Bytes, name: Bytes, extra: Bytes, comment: Bytes, placing: Bytes)

  predicate WellFormed(e: Entry) {
    |e.fields| == 24 && |e.placing| == 12 && |e.name| <= 0xFFFF && |e.extra| <= 0xFFFF && |e.comment| <= 0xFFFF
  }

  ghost predicate AllWellFormed(entries: seq<Entry>) {
    forall i :: 0 <= i < |entries| ==> WellFormed(entries[i])
  }

  function FixedPart(e: Entry): (b: Bytes)
    requires WellFormed(e)
    ensures |b| == 46
  {
    [0x50, 0x4b, 0x01, 0x02] + e.fields + Put16(|e.name|) + Put16(|e.extra|) + Put16(|e.comment|) + e.placing
  }

  function HeaderBytes(e: Entry): Bytes
    requires WellFormed(e)
  {
    FixedPart(e) + e.name + e.extra + e.comment
  }

  function Joined(parts: seq<Bytes>): Bytes {
    if parts == [] then [] else parts[0] + Joined(parts[1..])
  }

  /** A header reads back: its signature and its whole length. */
  lemma HeaderReads(b: Bytes, at: nat, e: Entry)
    requires WellFormed(e) && at + 46 <= |b| && b[at..at + 46] == FixedPart(e)
    ensures Uint32At(b, at) == HEADER_SIGNATURE
    ensures HeaderSize(b, at) == |HeaderBytes(e)|
  {
    var fixed := FixedPart(e);
    assert fixed[0..4] == Put32(HEADER_SIGNATURE);
    assert fixed[28..30] == Put16(|e.name|) && fixed[30..32] == Put16(|e.extra|) && fixed[32..34] == Put16(|e.comment|);
    SliceOfSlice(b, at, at + 46, 0, 4);
    SliceOfSlice(b, at, at + 46, 28, 30);
    SliceOfSlice(b, at, at + 46, 30, 32);
    SliceOfSlice(b, at, at + 46, 32, 34);
    Read32(b, at, HEADER_SIGNATURE);
    Read16(b, at + 28, |e.name|);
    Read16(b, at + 30, |e.extra|);
    Read16(b, at + 32, |e.comment|);
  }

  /** The bytes stand at this place. */
  ghost predicate Stands(b: Bytes, at: nat, bytes: Bytes) {
    at + |bytes| <= |b| && b[at..at + |bytes|] == bytes
  }

  /** Bytes that stand somewhere, seen as two parts. */
  lemma Standing(b: Bytes, at: nat, first: Bytes, rest: Bytes)
    requires Stands(b, at, first + rest)
    ensures Stands(b, at, first) && Stands(b, at + |first|, rest)
  {
    var end := at + |first + rest|;
    SliceOfSlice(b, at, end, 0, |first|);
    SliceOfSlice(b, at, end, |first|, |first| + |rest|);
    assert (first + rest)[0..|first|] == first && (first + rest)[|first|..|first| + |rest|] == rest;
  }

  lemma OneHeaderReads(b: Bytes, at: nat, e: Entry)
    requires WellFormed(e) && Stands(b, at, HeaderBytes(e))
    ensures Uint32At(b, at) == HEADER_SIGNATURE && HeaderSize(b, at) == |HeaderBytes(e)|
  {
    var texts := e.name + e.extra + e.comment;
    assert HeaderBytes(e) == FixedPart(e) + texts;
    Standing(b, at, FixedPart(e), texts);
    HeaderReads(b, at, e);
  }

  /** Wherever these bytes stand, a directory header of their length is read. */
  ghost predicate ReadsAsHeader(h: Bytes) {
    && |h| >= 46
    && forall b, at: nat :: Stands(b, at, h) ==> Uint32At(b, at) == HEADER_SIGNATURE && HeaderSize(b, at) == |h|
  }

  lemma HeaderBytesRead(e: Entry)
    requires WellFormed(e)
    ensures ReadsAsHeader(HeaderBytes(e))
  {
    forall b, at: nat | Stands(b, at, HeaderBytes(e))
      ensures Uint32At(b, at) == HEADER_SIGNATURE && HeaderSize(b, at) == |HeaderBytes(e)|
    {
      OneHeaderReads(b, at, e);
    }
  }

  /** A header in front of n headers makes n + 1. */
  lemma OneMore(b: Bytes, at: nat, h: Bytes, next: nat, end: nat, n: nat)
    requires ReadsAsHeader(h) && Stands(b, at, h) && next == at + |h| && next <= end <= |b| && Headers(b, next, end, n)
    ensures Headers(b, at, end, n + 1)
  {
  }

  lemma JoinedBegins(b: Bytes, at: nat, parts: seq<Bytes>) returns (next: nat)
    requires parts != [] && Stands(b, at, Joined(parts))
    ensures next == at + |parts[0]| && next + |Joined(parts[1..])| == at + |Joined(parts)| <= |b|
    ensures Stands(b, at, parts[0]) && Stands(b, next, Joined(parts[1..]))
  {
    next := at + |parts[0]|;
    Standing(b, at, parts[0], Joined(parts[1..]));
  }

  lemma {:induction false} JoinedReads(b: Bytes, at: nat, parts: seq<Bytes>, end: nat, header: Bytes -> bool)
    requires end == at + |Joined(parts)| && Stands(b, at, Joined(parts))
    requires forall i :: 0 <= i < |parts| ==> header(parts[i])
    requires forall h {:trigger ReadsAsHeader(h)} :: header(h) ==> ReadsAsHeader(h)
    ensures Headers(b, at, end, |parts|)
    decreases |parts|
  {
    if parts != [] {
      var next := JoinedBegins(b, at, parts);
      JoinedReads(b, next, parts[1..], end, header);
      assert header(parts[0]);
      OneMore(b, at, parts[0], next, end, |parts[1..]|);
    }
  }

  function HeadersOf(entries: seq<Entry>): (parts: seq<Bytes>)
    requires AllWellFormed(entries)
    ensures |parts| == |entries| && forall i :: 0 <= i < |parts| ==> parts[i] == HeaderBytes(entries[i])
  {
    if entries == [] then [] else [HeaderBytes(entries[0])] + HeadersOf(entries[1..])
  }

  function DirectoryBytes(entries: seq<Entry>): Bytes
    requires AllWellFormed(entries)
  {
    Joined(HeadersOf(entries))
  }

  /** Written headers are read as that many headers. */
  lemma DirectoryReads(b: Bytes, at: nat, entries: seq<Entry>, directory: Bytes, end: nat)
    requires AllWellFormed(entries) && directory == DirectoryBytes(entries) && Stands(b, at, directory) && end == at + |directory|
    ensures Headers(b, at, end, |entries|)
  {
    var parts := HeadersOf(entries);
    forall i | 0 <= i < |parts| ensures ReadsAsHeader(parts[i]) {
      HeaderBytesRead(entries[i]);
    }
    JoinedReads(b, at, parts, end, h => ReadsAsHeader(h));
  }

  // ---------------------------------------------------------------- the end record

  predicate Representable(r: EndRecord) {
    && r.disk <= 0xFFFF && r.directoryDisk <= 0xFFFF && r.recordsOnDisk <= 0xFFFF && r.recordsTotal <= 0xFFFF
    && r.size <= 0xFFFF_FFFF && r.offset <= 0xFFFF_FFFF
  }

  /** Signature, disks and counts, then the directory's size and offset and the comment's length. */
  function EndFixed(r: EndRecord, commentLength: nat): (b: Bytes)
    requires Representable(r) && commentLength <= 0xFFFF
    ensures |b| == 22
  {
    Counts(r) + Places(r, commentLength)
  }

  function Counts(r: EndRecord): (b: Bytes)
    requires Representable(r)
    ensures |b| == 12
  {
    [0x50, 0x4b, 0x05, 0x06] + Put16(r.disk) + Put16(r.directoryDisk) + Put16(r.recordsOnDisk) + Put16(r.recordsTotal)
  }

  function Places(r: EndRecord, commentLength: nat): (b: Bytes)
    requires Representable(r) && commentLength <= 0xFFFF
    ensures |b| == 10
  {
    Put32(r.size) + Put32(r.offset) + Put16(commentLength)
  }

  lemma CountsRead(b: Bytes, at: nat, r: EndRecord)
    requires Representable(r) && Stands(b, at, Counts(r))
    ensures Uint32At(b, at) == END_SIGNATURE
    ensures Uint16At(b, at + 4) == r.disk && Uint16At(b, at + 6) == r.directoryDisk
    ensures Uint16At(b, at + 8) == r.recordsOnDisk && Uint16At(b, at + 10) == r.recordsTotal
  {
    var counts := Counts(r);
    assert counts[0..4] == Put32(END_SIGNATURE);
    assert counts[4..6] == Put16(r.disk) && counts[6..8] == Put16(r.directoryDisk);
    assert counts[8..10] == Put16(r.recordsOnDisk) && counts[10..12] == Put16(r.recordsTotal);
    SliceOfSlice(b, at, at + 12, 0, 4);
    SliceOfSlice(b, at, at + 12, 4, 6);
    SliceOfSlice(b, at, at + 12, 6, 8);
    SliceOfSlice(b, at, at + 12, 8, 10);
    SliceOfSlice(b, at, at + 12, 10, 12);
    Read32(b, at, END_SIGNATURE);
    Read16(b, at + 4, r.disk);
    Read16(b, at + 6, r.directoryDisk);
    Read16(b, at + 8, r.recordsOnDisk);
    Read16(b, at + 10, r.recordsTotal);
  }

  lemma PlacesRead(b: Bytes, at: nat, r: EndRecord, commentLength: nat)
    requires Representable(r) && commentLength <= 0xFFFF && Stands(b, at, Places(r, commentLength))
    ensures Uint32At(b, at) == r.size && Uint32At(b, at + 4) == r.offset && Uint16At(b, at + 8) == commentLength
  {
    var places := Places(r, commentLength);
    assert places[0..4] == Put32(r.size) && places[4..8] == Put32(r.offset) && places[8..10] == Put16(commentLength);
    SliceOfSlice(b, at, at + 10, 0, 4);
    SliceOfSlice(b, at, at + 10, 4, 8);
    SliceOfSlice(b, at, at + 10, 8, 10);
    Read32(b, at, r.size);
    Read32(b, at + 4, r.offset);
    Read16(b, at + 8, commentLength);
  }

  /** A written end record reads back field by field. */
  lemma EndReads(b: Bytes, at: nat, r: EndRecord, commentLength: nat)
    requires Representable(r) && commentLength <= 0xFFFF && Stands(b, at, EndFixed(r, commentLength))
    ensures Uint32At(b, at) == END_SIGNATURE && EndRecordOf(b, at) == r && Uint16At(b, at + 20) == commentLength
  {
    Standing(b, at, Counts(r), Places(r, commentLength));
    CountsRead(b, at, r);
    PlacesRead(b, at + 12, r, commentLength);
  }

  // ---------------------------------------------------------------- whole archives

  /** The end record, and the archive's comment behind it. */
  function EndBytes(r: EndRecord, comment: Bytes): Bytes
    requires Representable(r) && |comment| <= 0xFFFF
  {
    EndFixed(r, |comment|) + comment
  }

  /** Behind its first byte, an end record's bytes show another one whose comment fits. */
  ghost predicate ShowsAnother(end: Bytes) {
    exists i, c: nat :: Another(end, i, c)
  }

  ghost predicate Another(end: Bytes, i: nat, c: nat) {
    0 < i && c <= 0xFFFF && i + 22 + c <= |end| && end[i..i + 4] == [0x50, 0x4b, 0x05, 0x06] && end[i + 20..i + 22] == Put16(c)
  }

  /** An archive of one disk with nothing between directory and end record, and its offset counted from data. */
  datatype Written = Written(prefix: Bytes, data: Bytes, entries: seq<Entry>, comment: Bytes)

  ghost predicate Expressible(w: Written) {
    && AllWellFormed(w.entries) && |w.entries| <= 0xFFFF && |DirectoryBytes(w.entries)| <= 0xFFFF_FFFF
    && |w.data| <= 0xFFFF_FFFF && |w.comment| <= 0xFFFF
  }

  function RecordOf(w: Written): EndRecord
    requires Expressible(w)
  {
    EndRecord(0, 0, |w.entries|, |w.entries|, |DirectoryBytes(w.entries)|, |w.data|)
  }

  function ArchiveBytes(w: Written): Bytes
    requires Expressible(w)
  {
    w.prefix + w.data + DirectoryBytes(w.entries) + EndBytes(RecordOf(w), w.comment)
  }

  /** Where directory and end record begin. */
  function DirectoryAt(w: Written): nat {
    |w.prefix| + |w.data|
  }

  function EndAt(w: Written): nat
    requires Expressible(w)
  {
    DirectoryAt(w) + |DirectoryBytes(w.entries)|
  }

  /** The three parts of an archive, wherever the first one ends. */
  lemma PartsOf(front: Bytes, directory: Bytes, fixed: Bytes, comment: Bytes, archive: Bytes)
    requires archive == front + directory + (fixed + comment)
    ensures Stands(archive, |front|, directory) && Stands(archive, |front| + |directory|, fixed)
    ensures archive[|front| + |directory|..|archive|] == fixed + comment
  {
    var end := fixed + comment;
    assert archive == front + (directory + end);
    assert archive[|front|..|archive|] == directory + end;
    Standing(archive, |front|, directory, end);
    Standing(archive, |front| + |directory|, fixed, comment);
  }

  lemma PartsStand(w: Written)
    requires Expressible(w)
    ensures var archive := ArchiveBytes(w);
            && Stands(archive, DirectoryAt(w), DirectoryBytes(w.entries))
            && Stands(archive, EndAt(w), EndFixed(RecordOf(w), |w.comment|))
            && EndAt(w) + 22 + |w.comment| == |archive|
            && archive[EndAt(w)..|archive|] == EndBytes(RecordOf(w), w.comment)
  {
    PartsOf(w.prefix + w.data, DirectoryBytes(w.entries), EndFixed(RecordOf(w), |w.comment|), w.comment, ArchiveBytes(w));
  }

  /** No record behind the written one is taken for the end record. */
  lemma NoLaterEnd(archive: Bytes, e: nat, end: Bytes, later: nat)
    requires e <= |archive| && archive[e..|archive|] == end && !ShowsAnother(end) && e < later
    ensures !EndRecordAt(archive, later)
  {
    if EndRecordAt(archive, later) {
      var i, c := later - e, Uint16At(archive, later + 20);
      SliceOfSlice(archive, e, |archive|, i, i + 4);
      SliceOfSlice(archive, e, |archive|, i + 20, i + 22);
      SignatureBytes(archive, later);
      assert archive[later + 20..later + 22] == Put16(c);
      assert Another(end, i, c);
    }
  }

  lemma WrittenEnd(w: Written)
    requires Expressible(w) && !ShowsAnother(EndBytes(RecordOf(w), w.comment))
    ensures IsDirectoryEnd(ArchiveBytes(w), EndAt(w))
    ensures EndRecordOf(ArchiveBytes(w), EndAt(w)) == RecordOf(w)
  {
    PartsStand(w);
    EndReads(ArchiveBytes(w), EndAt(w), RecordOf(w), |w.comment|);
    forall later: nat | EndAt(w) < later ensures !EndRecordAt(ArchiveBytes(w), later) {
      NoLaterEnd(ArchiveBytes(w), EndAt(w), EndBytes(RecordOf(w), w.comment), later);
    }
  }

  /** Bytes in front of the archive, and a header's signature where the directory would be without them. */
  ghost predicate Misleads(w: Written)
    requires Expressible(w)
  {
    w.prefix != [] && ArchiveBytes(w)[|w.data|..|w.data| + 4] == [0x50, 0x4b, 0x01, 0x02]
  }

  /** What is left to decide once the end record is found and its directory is known to be n headers. */
  lemma AcceptedIff(archive: Bytes, e: nat, n: nat, size: nat, offset: nat, maxEntries: int)
    requires IsDirectoryEnd(archive, e) && EndRecordOf(archive, e) == EndRecord(0, 0, n, n, size, offset)
    requires size + offset <= e && Headers(archive, e - size, e, n)
    ensures AcceptedArchive(archive, maxEntries) <==>
              && 0 < maxEntries && n <= maxEntries && n != 0xFFFF && size != 0xFFFF && offset != 0xFFFF_FFFF
              && !(size + offset < e && archive[offset..offset + 4] == [0x50, 0x4b, 0x01, 0x02])
  {
    SignatureBytes(archive, offset);
    if maxEntries > 0 { OnlyOneEnd(archive, e, maxEntries); }
  }

  lemma WrittenReads(w: Written)
    requires Expressible(w)
    ensures EndAt(w) + 22 <= |ArchiveBytes(w)|
    ensures Headers(ArchiveBytes(w), DirectoryAt(w), EndAt(w), |w.entries|)
  {
    PartsStand(w);
    DirectoryReads(ArchiveBytes(w), DirectoryAt(w), w.entries, DirectoryBytes(w.entries), EndAt(w));
  }

  /**
   * An archive as it is written is accepted if and only if it has at most maxEntries headers, none of its
   * counts is a value the check takes for ZIP64, and nothing in front of it passes for its directory.
   */
  lemma WrittenAcceptedIff(w: Written, maxEntries: int)
    requires Expressible(w) && !ShowsAnother(EndBytes(RecordOf(w), w.comment))
    ensures |w.data| + 4 <= |ArchiveBytes(w)|
    ensures AcceptedArchive(ArchiveBytes(w), maxEntries) <==>
              && 0 < maxEntries && |w.entries| <= maxEntries
              && |w.entries| != 0xFFFF && |DirectoryBytes(w.entries)| != 0xFFFF && |w.data| != 0xFFFF_FFFF
              && !Misleads(w)
  {
    WrittenReads(w);
    WrittenEnd(w);
    AcceptedIff(ArchiveBytes(w), EndAt(w), |w.entries|, |DirectoryBytes(w.entries)|, |w.data|, maxEntries);
  }

  /** Without an archive comment there is no other end record to be found. */
  lemma PlainEndShowsNoOther(r: EndRecord)
    requires Representable(r)
    ensures !ShowsAnother(EndBytes(r, []))
  {
  }

  /** The plain case: nothing in front, no comment, no count that stands for ZIP64. */
  lemma OrdinaryAcceptedIff(data: Bytes, entries: seq<Entry>, maxEntries: int)
    requires AllWellFormed(entries) && |entries| < 0xFFFF && |data| < 0xFFFF_FFFF
    requires |DirectoryBytes(entries)| <= 0xFFFF_FFFF && |DirectoryBytes(entries)| != 0xFFFF
    ensures Expressible(Written([], data, entries, []))
    ensures AcceptedArchive(ArchiveBytes(Written([], data, entries, [])), maxEntries) <==> 0 < maxEntries && |entries| <= maxEntries
  {
    var w := Written([], data, entries, []);
    PlainEndShowsNoOther(RecordOf(w));
    WrittenAcceptedIff(w, maxEntries);
  }

  /** One header of 65535 bytes, far below the format's limit, is refused whatever the limit on entries. */
  lemma DirectoryOf65535BytesIsRefused(data: Bytes, e: Entry, maxEntries: int)
    requires WellFormed(e) && |HeaderBytes(e)| == 0xFFFF && |data| < 0xFFFF_FFFF
    ensures Expressible(Written([], data, [e], []))
    ensures !AcceptedArchive(ArchiveBytes(Written([], data, [e], [])), maxEntries)
  {
    var w := Written([], data, [e], []);
    var parts := HeadersOf([e]);
    assert parts == [HeaderBytes(e)] && parts[1..] == [];
    assert Joined(parts) == HeaderBytes(e) + Joined(parts[1..]) == HeaderBytes(e);
    PlainEndShowsNoOther(RecordOf(w));
    WrittenAcceptedIff(w, maxEntries);
  }
}
