/** The check of an uploaded archive's central directory, before anything parses it. */
module Zip {
  import opened Common

  type Bytes = seq<byte>

  const HEADER_SIGNATURE: nat := 0x02014b50
  const END_SIGNATURE: nat := 0x06054b50
  const HEADER_LENGTH: nat := 46
  const END_LENGTH: nat := 22
  const MAX_COMMENT_LENGTH: nat := 0xFFFF

  // ---------------------------------------------------------------- little-endian fields

  function Uint16At(b: Bytes, i: nat): (n: nat)
    requires i + 2 <= |b|
    ensures n <= 0xFFFF
  {
    b[i] as nat + b[i + 1] as nat * 0x100
  }

  function Uint32At(b: Bytes, i: nat): (n: nat)
    requires i + 4 <= |b|
    ensures n <= 0xFFFF_FFFF
  {
    Uint16At(b, i) + Uint16At(b, i + 2) * 0x1_0000
  }

  // ---------------------------------------------------------------- what an accepted archive looks like

  /** An end record starts here, and its comment fits behind it. */
  predicate EndRecordAt(archive: Bytes, e: nat) {
    && e + END_LENGTH <= |archive|
    && Uint32At(archive, e) == END_SIGNATURE
    && e + END_LENGTH + Uint16At(archive, e + 20) <= |archive|
  }

  /** The archive's end record: the last one that a comment of any length could put there. */
  ghost predicate IsDirectoryEnd(archive: Bytes, e: nat) {
    && EndRecordAt(archive, e)
    && e + END_LENGTH + MAX_COMMENT_LENGTH >= |archive|
    && forall later :: e < later ==> !EndRecordAt(archive, later)
  }

  function HeaderSize(archive: Bytes, at: nat): nat
    requires at + HEADER_LENGTH <= |archive|
  {
    HEADER_LENGTH + Uint16At(archive, at + 28) + Uint16At(archive, at + 30) + Uint16At(archive, at + 32)
  }

  /** From start to end there are exactly n directory headers, each right after the one before. */
  predicate Headers(archive: Bytes, start: nat, end: nat, n: nat)
    requires end <= |archive|
    decreases n
  {
    if n == 0 then start == end
    else
      && start + HEADER_LENGTH <= end
      && Uint32At(archive, start) == HEADER_SIGNATURE
      && start + HeaderSize(archive, start) <= end
      && Headers(archive, start + HeaderSize(archive, start), end, n - 1)
  }

  /** The fields of the end record that count. */
  datatype EndRecord = EndRecord(disk: nat, directoryDisk: nat, recordsOnDisk: nat, recordsTotal: nat, size: nat, offset: nat)

  function EndRecordOf(archive: Bytes, e: nat): EndRecord
    requires e + END_LENGTH <= |archive|
  {
    EndRecord(Uint16At(archive, e + 4), Uint16At(archive, e + 6), Uint16At(archive, e + 8), Uint16At(archive, e + 10),
              Uint32At(archive, e + 12), Uint32At(archive, e + 16))
  }

  /** Neither ZIP64 nor multi-disk, and the directory fits in front of the end record. */
  predicate PlainRecord(r: EndRecord, e: nat) {
    && r.recordsTotal != 0xFFFF && r.size != 0xFFFF && r.offset != 0xFFFF_FFFF
    && r.disk == 0 && r.directoryDisk == 0 && r.recordsOnDisk == r.recordsTotal
    && r.size + r.offset <= e
  }

  /** Bytes before the archive proper, and a header where the offset would be without them. */
  predicate OffsetLooksAbsolute(archive: Bytes, r: EndRecord, e: nat) {
    && r.size + r.offset < e
    && r.offset + 4 <= |archive|
    && Uint32At(archive, r.offset) == HEADER_SIGNATURE
  }

  /** The directory ends at the end record and is recordsTotal headers, at most maxEntries. */
  predicate Acceptable(archive: Bytes, e: nat, maxEntries: nat)
    requires e + END_LENGTH <= |archive|
  {
    var r := EndRecordOf(archive, e);
    && PlainRecord(r, e)
    && r.recordsTotal <= maxEntries
    && !OffsetLooksAbsolute(archive, r, e)
    && Headers(archive, e - r.size, e, r.recordsTotal)
  }

  /** Its end record, the last one that could be it, describes a directory of at most maxEntries headers. */
  ghost predicate AcceptedArchive(archive: Bytes, maxEntries: int) {
    maxEntries > 0 && exists e: nat :: IsDirectoryEnd(archive, e) && Acceptable(archive, e, maxEntries)
  }

  /** A directory's headers tile it, so their number bounds its size from both sides. */
  lemma {:induction false} HeadersTile(archive: Bytes, start: nat, end: nat, n: nat)
    requires end <= |archive| && Headers(archive, start, end, n)
    ensures start + n * HEADER_LENGTH <= end <= start + n * (HEADER_LENGTH + 3 * 0xFFFF)
    decreases n
  {
    if n > 0 {
      HeadersTile(archive, start + HeaderSize(archive, start), end, n - 1);
    }
  }

  /** The bytes alone decide how many headers there are. */
  lemma {:induction false} HeadersCountOnce(archive: Bytes, start: nat, end: nat, n: nat, m: nat)
    requires end <= |archive| && Headers(archive, start, end, n) && Headers(archive, start, end, m)
    ensures n == m
    decreases n
  {
    if n > 0 && m > 0 {
      HeadersCountOnce(archive, start + HeaderSize(archive, start), end, n - 1, m - 1);
    }
  }

  // ---------------------------------------------------------------- the check

  datatype Verdict = Accepted | FormatError | Refused

  /** The search backwards through the tail. */
  method FindDirectoryEnd(archive: Bytes) returns (end: Option<nat>)
    requires |archive| >= END_LENGTH
    ensures end.Some? ==> IsDirectoryEnd(archive, end.value)
    ensures end.None? ==> forall e :: !IsDirectoryEnd(archive, e)
  {
    var tailLength := Min(|archive|, END_LENGTH + MAX_COMMENT_LENGTH);
    var base := |archive| - tailLength;
    var index := tailLength - END_LENGTH;
    while index >= 0
      invariant -1 <= index <= tailLength - END_LENGTH
      invariant forall later :: base + index < later ==> !EndRecordAt(archive, later)
    {
      var e := base + index;
      if Uint32At(archive, e) == END_SIGNATURE {
        var commentLength := Uint16At(archive, e + 20);
        if index + END_LENGTH + commentLength <= tailLength { return Some(e); }
      }
      index := index - 1;
    }
    return None;
  }

  /** One header more, and the rest as before. */
  lemma HeadersNext(archive: Bytes, at: nat, end: nat, n: nat)
    requires at + HEADER_LENGTH <= end <= |archive|
    requires Uint32At(archive, at) == HEADER_SIGNATURE && at + HeaderSize(archive, at) <= end
    ensures Headers(archive, at, end, n) <==> n > 0 && Headers(archive, at + HeaderSize(archive, at), end, n - 1)
  {
  }

  /** The walk over the headers: it counts the expected number exactly when there are that many. */
  method CountHeaders(archive: Bytes, start: nat, end: nat, maxEntries: nat, ghost total: nat)
    returns (verdict: Verdict, count: nat)
    requires start <= end <= |archive| && total <= maxEntries
    ensures verdict.Accepted? && count == total <==> Headers(archive, start, end, total)
  {
    var at, remaining := start, end - start;
    count := 0;
    while remaining > 0
      invariant 0 <= remaining && at + remaining == end && 0 <= at && 0 <= count <= maxEntries
      invariant Headers(archive, start, end, total) <==> count <= total && Headers(archive, at, end, total - count)
    {
      if remaining < HEADER_LENGTH { return FormatError, count; }
      if Uint32At(archive, at) != HEADER_SIGNATURE { return FormatError, count; }
      if count + 1 > maxEntries { return Refused, count; }
      var variableLength := Uint16At(archive, at + 28) + Uint16At(archive, at + 30) + Uint16At(archive, at + 32);
      if variableLength > remaining - HEADER_LENGTH { return FormatError, count; }
      if count <= total { HeadersNext(archive, at, end, total - count); }
      at := at + HEADER_LENGTH + variableLength;
      remaining := remaining - HEADER_LENGTH - variableLength;
      count := count + 1;
    }
    verdict := Accepted;
  }

  /** validateZipCentralDirectoryEntryLimit. */
  method ValidateEntryLimit(archive: Bytes, maxEntries: int) returns (verdict: Verdict)
    ensures verdict.Accepted? <==> AcceptedArchive(archive, maxEntries)
    ensures |archive| < END_LENGTH && maxEntries > 0 ==> verdict.FormatError?
  {
    if maxEntries <= 0 { return Refused; }
    if |archive| < END_LENGTH { return FormatError; }
    var found := FindDirectoryEnd(archive);
    if found.None? { return FormatError; }
    var directoryEnd := found.value;
    var r := EndRecordOf(archive, directoryEnd);
    OnlyOneEnd(archive, directoryEnd, maxEntries);
    if r.recordsTotal == 0xFFFF || r.size == 0xFFFF || r.offset == 0xFFFF_FFFF { return Refused; }
    if r.disk != 0 || r.directoryDisk != 0 || r.recordsOnDisk != r.recordsTotal { return Refused; }
    if r.recordsTotal > maxEntries { return Refused; }
    if r.size > directoryEnd { return FormatError; }
    var baseOffset := directoryEnd - r.size - r.offset;
    if baseOffset < 0 { return FormatError; }
    var directoryStart := baseOffset + r.offset;
    if baseOffset > 0 && r.offset <= |archive| - 4 {
      if Uint32At(archive, r.offset) == HEADER_SIGNATURE {
        if r.offset + r.size != directoryEnd { return Refused; }
        directoryStart := r.offset;
      }
    }
    if directoryStart < 0 || directoryStart + r.size != directoryEnd { return FormatError; }
    var walked, count := CountHeaders(archive, directoryStart, directoryEnd, maxEntries, r.recordsTotal);
    if !walked.Accepted? { return walked; }
    return if count == r.recordsTotal then Accepted else Refused;
  }

  lemma OnlyOneEnd(archive: Bytes, e: nat, maxEntries: nat)
    requires IsDirectoryEnd(archive, e)
    ensures maxEntries > 0 ==> (AcceptedArchive(archive, maxEntries) <==> Acceptable(archive, e, maxEntries))
  {
    forall d: nat | IsDirectoryEnd(archive, d) ensures d == e {
    }
  }

  /** Whenever the offset looks absolute it disagrees with the end record: that branch can only refuse. */
  lemma AbsoluteOffsetIsRefused(archive: Bytes, e: nat, maxEntries: nat)
    requires IsDirectoryEnd(archive, e) && OffsetLooksAbsolute(archive, EndRecordOf(archive, e), e)
    ensures EndRecordOf(archive, e).offset + EndRecordOf(archive, e).size != e
    ensures !AcceptedArchive(archive, maxEntries)
  {
    OnlyOneEnd(archive, e, maxEntries);
  }
}
