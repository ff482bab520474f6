/** Cutting an encrypted snapshot into chunks: by the local persist loop, and by hashing an upload as it streams. */
module Chunks {
  import opened Common
  import opened Paths

  const MAX_BLOB_MANIFEST_CHUNKS: nat := 4096

  type Bytes = seq<bv8>

  datatype BlobChunk = BlobChunk(index: int, key: string, size: int, sha256: string)

  // ---------------------------------------------------------------- keys

  function Digit(n: nat): char
    requires n < 10
  {
    "0123456789"[n]
  }

  function Decimal(n: nat): string {
    if n < 10 then [Digit(n)] else Decimal(n / 10) + [Digit(n % 10)]
  }

  /** The verb %05d. */
  function Padded(n: nat): string {
    if n < 100_000 then
      [Digit(n / 10_000), Digit(n / 1_000 % 10), Digit(n / 100 % 10), Digit(n / 10 % 10), Digit(n % 10)]
    else Decimal(n)
  }

  function ChunkName(index: nat): string {
    "chunk-" + Padded(index) + ".bin"
  }

  /** path.Join(prefix, name): the cleaned path. */
  function ChunkKey(prefix: string, index: nat): string {
    Clean(prefix + "/" + ChunkName(index))
  }

  /** The keys of one snapshot's chunks. */
  function ChunkKeys(prefix: string): nat -> string {
    (index: nat) => ChunkKey(prefix, index)
  }

  lemma DigitsDiffer(a: nat, b: nat)
    requires a < 10 && b < 10 && Digit(a) == Digit(b)
    ensures a == b
  {
  }

  lemma PaddedIsInjective(a: nat, b: nat)
    requires a < 100_000 && b < 100_000 && Padded(a) == Padded(b)
    ensures a == b
  {
    assert Padded(a)[0] == Padded(b)[0] && Padded(a)[1] == Padded(b)[1] && Padded(a)[2] == Padded(b)[2];
    assert Padded(a)[3] == Padded(b)[3] && Padded(a)[4] == Padded(b)[4];
    DigitsDiffer(a / 10_000, b / 10_000);
    DigitsDiffer(a / 1_000 % 10, b / 1_000 % 10);
    DigitsDiffer(a / 100 % 10, b / 100 % 10);
    DigitsDiffer(a / 10 % 10, b / 10 % 10);
    DigitsDiffer(a % 10, b % 10);
    FiveDigits(a);
    FiveDigits(b);
  }

  lemma FiveDigits(n: nat)
    requires n < 100_000
    ensures n == n / 10_000 * 10_000 + n / 1_000 % 10 * 1_000 + n / 100 % 10 * 100 + n / 10 % 10 * 10 + n % 10
  {
    assert n / 10 == n / 10 / 10 * 10 + n / 10 % 10;
    assert n / 100 == n / 100 / 10 * 10 + n / 100 % 10;
    assert n / 1_000 == n / 1_000 / 10 * 10 + n / 1_000 % 10;
    assert n / 10 / 10 == n / 100 && n / 100 / 10 == n / 1_000 && n / 1_000 / 10 == n / 10_000;
  }

  lemma ChunkNameIsPlain(index: nat)
    requires index < 100_000
    ensures Proper(ChunkName(index)) && |Padded(index)| == 5
  {
    var padded := Padded(index);
    assert forall i :: 0 <= i < |padded| ==> padded[i] in "0123456789";
    assert ChunkName(index)[0] == 'c';
  }

  /** Under a namespace and snapshot id that are plain names, a key is its parts joined as they are. */
  lemma ChunkKeyIsPlain(namespace: string, id: string, index: nat)
    requires Proper(namespace) && Proper(id) && index < 100_000
    ensures ChunkKey(namespace + "/" + id, index) == namespace + "/" + id + "/" + ChunkName(index)
  {
    ChunkNameIsPlain(index);
    var name := ChunkName(index);
    var parts := [namespace, id, name];
    var tail := parts[1..];
    assert tail == [id, name] && tail[1..] == [name];
    assert Join(tail[1..]) == name && Join(tail) == id + "/" + name;
    assert Join(parts) == namespace + "/" + Join(tail) == namespace + "/" + id + "/" + name;
    SplitJoin(parts);
    CleanPartsKeepsProper(parts, []);
    assert [] + parts == parts;
  }

  /** Different chunks of one snapshot have different keys. */
  lemma ChunkKeysDiffer(namespace: string, id: string, i: nat, j: nat)
    requires Proper(namespace) && Proper(id) && i < 100_000 && j < 100_000
    requires ChunkKey(namespace + "/" + id, i) == ChunkKey(namespace + "/" + id, j)
    ensures i == j
  {
    ChunkKeyIsPlain(namespace, id, i);
    ChunkKeyIsPlain(namespace, id, j);
    ChunkNameIsPlain(i);
    ChunkNameIsPlain(j);
    var prefix := namespace + "/" + id + "/" + "chunk-";
    assert ChunkKey(namespace + "/" + id, i) == prefix + Padded(i) + ".bin";
    assert ChunkKey(namespace + "/" + id, j) == prefix + Padded(j) + ".bin";
    assert Padded(i) == (prefix + Padded(i) + ".bin")[|prefix|..|prefix| + 5];
    assert Padded(j) == (prefix + Padded(j) + ".bin")[|prefix|..|prefix| + 5];
    PaddedIsInjective(i, j);
  }

  // ---------------------------------------------------------------- cutting

  /** The stream cut at multiples of size. */
  function Cut(stream: Bytes, size: nat): seq<Bytes>
    requires size > 0
    decreases |stream|
  {
    if stream == [] then []
    else if |stream| <= size then [stream]
    else [stream[..size]] + Cut(stream[size..], size)
  }

  function Concat(parts: seq<Bytes>): Bytes {
    if parts == [] then [] else parts[0] + Concat(parts[1..])
  }

  /** The manifest's list for the parts of a snapshot. */
  function ChunksOf(parts: seq<Bytes>, key: nat -> string, digest: Bytes -> string): seq<BlobChunk> {
    seq(|parts|, i requires 0 <= i < |parts| => BlobChunk(i, key(i), |parts[i]|, digest(parts[i])))
  }

  function TotalSize(chunks: seq<BlobChunk>): int {
    if chunks == [] then 0 else TotalSize(chunks[..|chunks| - 1]) + chunks[|chunks| - 1].size
  }

  /** The length of whole chunks: whole * size. */
  function Span(whole: nat, size: nat): nat {
    if whole == 0 then 0 else Span(whole - 1, size) + size
  }

  lemma {:induction false} SpanIsProduct(whole: nat, size: nat)
    ensures Span(whole, size) == whole * size
  {
    if whole > 0 {
      SpanIsProduct(whole - 1, size);
      assert whole * size == (whole - 1) * size + size;
    }
  }

  /** Full parts first, each as long as allowed; only the last may be shorter. */
  lemma {:induction false} CutParts(stream: Bytes, size: nat)
    requires size > 0
    ensures Concat(Cut(stream, size)) == stream
    ensures forall i :: 0 <= i < |Cut(stream, size)| ==> 0 < |Cut(stream, size)[i]| <= size
    ensures forall i :: 0 <= i < |Cut(stream, size)| - 1 ==> |Cut(stream, size)[i]| == size
    ensures stream != [] ==> Span(|Cut(stream, size)| - 1, size) < |stream| <= Span(|Cut(stream, size)|, size)
    decreases |stream|
  {
    if |stream| > size {
      CutParts(stream[size..], size);
      assert stream == stream[..size] + stream[size..];
      assert Cut(stream, size)[1..] == Cut(stream[size..], size);
    } else if stream != [] {
      assert Cut(stream, size)[1..] == [];
    }
  }

  /** Whole chunks split off without moving any cut. */
  lemma {:induction false} CutAppend(done: Bytes, more: Bytes, size: nat, whole: nat)
    requires size > 0 && |done| == Span(whole, size)
    ensures Cut(done + more, size) == Cut(done, size) + Cut(more, size)
    ensures |Cut(done, size)| == whole
    decreases whole
  {
    if whole == 0 {
      assert done + more == more;
    } else {
      if whole == 1 {
        if more == [] {
          assert done + more == done;
        } else {
          assert (done + more)[..size] == done && (done + more)[size..] == more;
        }
      } else {
        assert |done| > size;
        CutAppend(done[size..], more, size, whole - 1);
        assert (done + more)[..size] == done[..size];
        assert (done + more)[size..] == done[size..] + more;
        assert [done[..size]] + (Cut(done[size..], size) + Cut(more, size)) == Cut(done, size) + Cut(more, size);
      }
    }
  }

  /** The sizes in a manifest's list sum to the length of the stream. */
  lemma {:induction false} SizesSum(parts: seq<Bytes>, key: nat -> string, digest: Bytes -> string)
    ensures TotalSize(ChunksOf(parts, key, digest)) == |Concat(parts)|
    decreases |parts|
  {
    if parts != [] {
      var n := |parts| - 1;
      SizesSum(parts[..n], key, digest);
      var chunks := ChunksOf(parts, key, digest);
      assert chunks[..n] == ChunksOf(parts[..n], key, digest);
      ConcatLast(parts);
    }
  }

  lemma {:induction false} ConcatLast(parts: seq<Bytes>)
    requires parts != []
    ensures Concat(parts) == Concat(parts[..|parts| - 1]) + parts[|parts| - 1]
    decreases |parts|
  {
    if |parts| == 1 {
      assert parts[1..] == [] && parts[..0] == [];
      assert Concat(parts) == parts[0] + [] == parts[0];
      assert [] + parts[0] == parts[0];
    } else {
      ConcatLast(parts[1..]);
      assert parts[1..][..|parts| - 2] == parts[..|parts| - 1][1..];
      assert parts[0] + (Concat(parts[1..][..|parts| - 2]) + parts[|parts| - 1]) ==
             (parts[0] + Concat(parts[1..][..|parts| - 2])) + parts[|parts| - 1];
    }
  }

  // ---------------------------------------------------------------- hashing an upload

  /** Hashes the bytes read through it in manifest-sized chunks. */
  class ChunkHasher {
    const chunkSize: nat
    /** The chunk keys, path.Join(keyPrefix, name) for each index. */
    const key: nat -> string
    const digest: Bytes -> string
    var chunks: seq<BlobChunk>
    /** The bytes hashed for the open chunk. */
    var current: Bytes
    var inChunk: nat
    var total: nat
    /** Everything read so far. */
    ghost var stream: Bytes

    ghost predicate Valid()
      reads this
    {
      && chunkSize > 0
      && inChunk == |current| < chunkSize
      && total == |stream|
      && |current| <= |stream|
      && var closed := stream[..|stream| - |current|];
         && stream == closed + current
         && |closed| == Span(|chunks|, chunkSize)
         && chunks == ChunksOf(Cut(closed, chunkSize), key, digest)
    }

    constructor (chunkSize: nat, key: nat -> string, digest: Bytes -> string)
      requires chunkSize > 0
      ensures Valid() && stream == []
      ensures this.chunkSize == chunkSize && this.key == key && this.digest == digest
    {
      this.chunkSize, this.key, this.digest := chunkSize, key, digest;
      chunks, current, inChunk, total, stream := [], [], 0, 0, [];
    }

    /** One read that returned these bytes, however many. */
    method Read(payload: Bytes)
      requires Valid()
      modifies this
      ensures Valid() && stream == old(stream) + payload
    {
      var remaining := payload;
      while remaining != []
        invariant Valid()
        invariant stream + remaining == old(stream) + payload
        decreases |remaining|
      {
        var take := Min(|remaining|, chunkSize - inChunk);
        ghost var closed := stream[..|stream| - |current|];
        current := current + remaining[..take];
        inChunk := inChunk + take;
        total := total + take;
        stream := stream + remaining[..take];
        assert remaining == remaining[..take] + remaining[take..];
        assert stream == closed + current && stream[..|stream| - |current|] == closed;
        remaining := remaining[take..];
        if inChunk == chunkSize {
          CloseChunk();
        }
      }
    }

    method CloseChunk()
      requires chunkSize > 0 && 0 < inChunk == |current| <= chunkSize && total == |stream| && |current| <= |stream|
      requires var closed := stream[..|stream| - |current|];
               && stream == closed + current && |closed| == Span(|chunks|, chunkSize)
               && chunks == ChunksOf(Cut(closed, chunkSize), key, digest)
      modifies this
      ensures chunks == ChunksOf(Cut(stream, chunkSize), key, digest)
      ensures current == [] && inChunk == 0 && total == old(total) && stream == old(stream)
      ensures old(inChunk) == chunkSize ==> Valid()
    {
      ghost var closed := stream[..|stream| - |current|];
      CutAppend(closed, current, chunkSize, |chunks|);
      assert Cut(current, chunkSize) == [current];
      var index := |chunks|;
      chunks := chunks + [BlobChunk(index, key(index), inChunk, digest(current))];
      assert stream[..|stream| - 0] == stream && stream + [] == stream;
      current, inChunk := [], 0;
    }

    /** The chunk list of all that was read, whatever sizes it came in. */
    method Finish() returns (result: seq<BlobChunk>)
      requires Valid()
      modifies this
      ensures result == ChunksOf(Cut(stream, chunkSize), key, digest)
      ensures stream == old(stream) && total == |stream|
    {
      if inChunk > 0 {
        CloseChunk();
      } else {
        assert stream[..|stream| - 0] == stream;
      }
      result := chunks;
    }
  }

  /** However the stream is split into reads, the hasher returns the chunk list of the whole stream. */
  method HashReads(pieces: seq<Bytes>, chunkSize: nat, key: nat -> string, digest: Bytes -> string)
    returns (chunks: seq<BlobChunk>, total: nat)
    requires chunkSize > 0
    ensures chunks == ChunksOf(Cut(Concat(pieces), chunkSize), key, digest)
    ensures total == |Concat(pieces)| == TotalSize(chunks)
  {
    var hasher := new ChunkHasher(chunkSize, key, digest);
    var i := 0;
    while i < |pieces|
      invariant 0 <= i <= |pieces|
      invariant hasher.Valid() && fresh(hasher)
      invariant hasher.chunkSize == chunkSize && hasher.key == key && hasher.digest == digest
      invariant hasher.stream == Concat(pieces[..i])
    {
      hasher.Read(pieces[i]);
      ConcatLast(pieces[..i + 1]);
      assert pieces[..i + 1][..i] == pieces[..i];
      i := i + 1;
    }
    assert pieces[..i] == pieces;
    total := hasher.total;
    chunks := hasher.Finish();
    CutParts(Concat(pieces), chunkSize);
    SizesSum(Cut(Concat(pieces), chunkSize), key, digest);
  }

  // ---------------------------------------------------------------- the local persist loop

  /** The chunk files of a local snapshot, by key. */
  function Stored(parts: seq<Bytes>, key: nat -> string): map<string, Bytes> {
    if parts == [] then map[]
    else Stored(parts[..|parts| - 1], key)[key(|parts| - 1) := parts[|parts| - 1]]
  }

  /** One more chunk of the file, after whole ones. */
  lemma NextPart(file: Bytes, chunkSize: nat, index: nat, read: nat)
    requires chunkSize > 0 && 0 < read <= chunkSize && Span(index, chunkSize) + read <= |file|
    ensures var offset := Span(index, chunkSize);
            && |Cut(file[..offset], chunkSize)| == index
            && Cut(file[..offset + read], chunkSize) == Cut(file[..offset], chunkSize) + [file[offset..offset + read]]
  {
    var offset := Span(index, chunkSize);
    var payload := file[offset..offset + read];
    assert file[..offset + read] == file[..offset] + payload;
    CutAppend(file[..offset], payload, chunkSize, index);
    assert Cut(payload, chunkSize) == [payload];
  }

  lemma ListedNext(parts: seq<Bytes>, payload: Bytes, key: nat -> string, digest: Bytes -> string)
    ensures ChunksOf(parts + [payload], key, digest) ==
              ChunksOf(parts, key, digest) + [BlobChunk(|parts|, key(|parts|), |payload|, digest(payload))]
  {
  }

  lemma StoredNext(parts: seq<Bytes>, payload: Bytes, key: nat -> string)
    ensures Stored(parts + [payload], key) == Stored(parts, key)[key(|parts|) := payload]
  {
    var all := parts + [payload];
    assert all[..|all| - 1] == parts;
  }

  /** What was read so far is listed and stored chunk by chunk. */
  ghost predicate Persisted(done: Bytes, chunkSize: nat, key: nat -> string, digest: Bytes -> string,
                            chunks: seq<BlobChunk>, stored: map<string, Bytes>)
    requires chunkSize > 0
  {
    chunks == ChunksOf(Cut(done, chunkSize), key, digest) && stored == Stored(Cut(done, chunkSize), key)
  }

  lemma PersistedNext(file: Bytes, chunkSize: nat, index: nat, read: nat, key: nat -> string, digest: Bytes -> string,
                      chunks: seq<BlobChunk>, stored: map<string, Bytes>)
    requires chunkSize > 0 && 0 < read <= chunkSize && Span(index, chunkSize) + read <= |file|
    requires Persisted(file[..Span(index, chunkSize)], chunkSize, key, digest, chunks, stored)
    ensures var offset := Span(index, chunkSize);
            var payload := file[offset..offset + read];
            Persisted(file[..offset + read], chunkSize, key, digest,
                      chunks + [BlobChunk(index, key(index), read, digest(payload))], stored[key(index) := payload])
  {
    var offset := Span(index, chunkSize);
    var payload := file[offset..offset + read];
    NextPart(file, chunkSize, index, read);
    ListedNext(Cut(file[..offset], chunkSize), payload, key, digest);
    StoredNext(Cut(file[..offset], chunkSize), payload, key);
  }

  /** A snapshot of as many full chunks as a manifest may list is refused; anything shorter is cut and stored. */
  method PersistChunks(file: Bytes, chunkSize: nat, key: nat -> string, digest: Bytes -> string)
    returns (result: Result<(seq<BlobChunk>, map<string, Bytes>)>)
    requires chunkSize > 0
    ensures result.Err? <==> |file| == 0 || |file| >= MAX_BLOB_MANIFEST_CHUNKS * chunkSize
    ensures result.Ok? ==>
              && result.value.0 == ChunksOf(Cut(file, chunkSize), key, digest)
              && result.value.1 == Stored(Cut(file, chunkSize), key)
  {
    var chunks: seq<BlobChunk>, stored: map<string, Bytes> := [], map[];
    var index, offset := 0, 0;
    while true
      invariant offset == Span(index, chunkSize) <= |file| && 0 <= index <= MAX_BLOB_MANIFEST_CHUNKS
      invariant Persisted(file[..offset], chunkSize, key, digest, chunks, stored)
      decreases MAX_BLOB_MANIFEST_CHUNKS - index
    {
      if index >= MAX_BLOB_MANIFEST_CHUNKS {
        AtLimit(index, chunkSize, |file|);
        return Err;
      }
      var read := Min(chunkSize, |file| - offset);
      if read > 0 {
        var payload := file[offset..offset + read];
        PersistedNext(file, chunkSize, index, read, key, digest, chunks, stored);
        chunks := chunks + [BlobChunk(index, key(index), read, digest(payload))];
        stored := stored[key(index) := payload];
      }
      if read < chunkSize {
        assert file[..offset + read] == file;
        BelowLimit(index, chunkSize, |file|);
        return if |chunks| == 0 then Err else Ok((chunks, stored));
      }
      offset, index := offset + read, index + 1;
    }
  }

  lemma AtLimit(index: nat, size: nat, length: nat)
    requires index == MAX_BLOB_MANIFEST_CHUNKS && Span(index, size) <= length
    ensures length >= MAX_BLOB_MANIFEST_CHUNKS * size
  {
    SpanIsProduct(index, size);
  }

  /** The loop's last chunk is a short one, within the limit. */
  lemma BelowLimit(index: nat, size: nat, length: nat)
    requires index < MAX_BLOB_MANIFEST_CHUNKS && length < Span(index, size) + size
    ensures length < MAX_BLOB_MANIFEST_CHUNKS * size
  {
    SpanIsProduct(index + 1, size);
    MulMonotone(index + 1, MAX_BLOB_MANIFEST_CHUNKS, size);
  }

  lemma MulMonotone(a: nat, b: nat, c: nat)
    requires a <= b
    ensures a * c <= b * c
  {
  }
}
