/** The local and the Sia store: persisting a directory, and restoring it from what the store holds. */
module Stores {
  import opened Common
  import opened Paths
  import opened Chunks
  import opened Manifests
  import Archive
  import opened ArchiveWalk
  import opened Snapshot

  function Lower(s: string): string {
    seq(|s|, i requires 0 <= i < |s| => if 'A' <= s[i] <= 'F' then s[i] + ' ' else s[i])
  }

  /** The checks both copy loops make on a chunk that was read. */
  predicate Intact(chunk: BlobChunk, payload: Bytes, digest: Bytes -> string) {
    0 < chunk.size <= MAX_BLOB_CHUNK_SIZE && |payload| == chunk.size && digest(payload) == Lower(chunk.sha256)
  }

  /** The chunk list describes these parts. */
  ghost predicate Lists(chunks: seq<BlobChunk>, parts: seq<Bytes>, digest: Bytes -> string) {
    && |chunks| == |parts|
    && (forall i :: 0 <= i < |parts| ==>
          && 0 < |parts[i]| == chunks[i].size <= MAX_BLOB_CHUNK_SIZE
          && chunks[i].sha256 == digest(parts[i])
          && LowerHex64(chunks[i].sha256))
  }

  lemma LowerIsIdentity(s: string)
    requires LowerHex64(s)
    ensures Lower(s) == s
  {
  }

  /** A digest written in capitals is the same digest. */
  lemma LowerOfHex(s: string)
    requires Hex64(s)
    ensures LowerHex64(Lower(s))
    ensures forall i :: 0 <= i < |s| ==> Lower(s)[i] == s[i] || ('A' <= s[i] <= 'F' && Lower(s)[i] as int == s[i] as int + 32)
  {
  }

  lemma ListedPartIsIntact(chunks: seq<BlobChunk>, parts: seq<Bytes>, digest: Bytes -> string, i: nat)
    requires Lists(chunks, parts, digest) && i < |parts|
    ensures Intact(chunks[i], parts[i], digest)
  {
    LowerIsIdentity(chunks[i].sha256);
  }

  // ---------------------------------------------------------------- the local store

  type Disk = map<string, Bytes>

  ghost predicate AllIntact(chunks: seq<BlobChunk>, disk: Disk, digest: Bytes -> string) {
    forall i :: 0 <= i < |chunks| ==> chunks[i].key in disk && Intact(chunks[i], disk[chunks[i].key], digest)
  }

  function Files(chunks: seq<BlobChunk>, disk: Disk): seq<Bytes>
    requires forall i :: 0 <= i < |chunks| ==> chunks[i].key in disk
  {
    seq(|chunks|, i requires 0 <= i < |chunks| => disk[chunks[i].key])
  }

  /** The chunk files one after the other, each checked; at most one byte more than expected is read. */
  method ReadChunks(chunks: seq<BlobChunk>, disk: Disk, digest: Bytes -> string) returns (file: Result<Bytes>)
    ensures file.Ok? <==> AllIntact(chunks, disk, digest)
    ensures file.Ok? ==> file.value == Concat(Files(chunks, disk))
  {
    var bytes: Bytes := [];
    var i := 0;
    while i < |chunks|
      invariant 0 <= i <= |chunks|
      invariant forall j :: 0 <= j < i ==> chunks[j].key in disk && Intact(chunks[j], disk[chunks[j].key], digest)
      invariant bytes == Concat(Files(chunks[..i], disk))
    {
      var chunk := chunks[i];
      if chunk.key !in disk || chunk.size <= 0 || chunk.size > MAX_BLOB_CHUNK_SIZE { return Err; }
      var read := disk[chunk.key][..Min(|disk[chunk.key]|, chunk.size + 1)];
      assert |disk[chunk.key]| <= chunk.size ==> read == disk[chunk.key];
      if |read| != chunk.size || digest(read) != Lower(chunk.sha256) { return Err; }
      var files := Files(chunks[..i + 1], disk);
      ConcatLast(files);
      assert files[..i] == Files(chunks[..i], disk);
      bytes := bytes + read;
      i := i + 1;
    }
    assert chunks[..i] == chunks;
    return Ok(bytes);
  }

  /** The disk holds the parts of a snapshot under its keys. */
  ghost predicate Holds(disk: Disk, parts: seq<Bytes>, key: nat -> string) {
    forall i :: 0 <= i < |parts| ==> key(i) in disk && disk[key(i)] == parts[i]
  }

  lemma HeldPartsAreRead(chunks: seq<BlobChunk>, parts: seq<Bytes>, key: nat -> string, disk: Disk, digest: Bytes -> string)
    requires Lists(chunks, parts, digest) && Holds(disk, parts, key)
    requires forall i :: 0 <= i < |chunks| ==> chunks[i].key == key(i)
    ensures AllIntact(chunks, disk, digest)
    ensures Concat(Files(chunks, disk)) == Concat(parts)
  {
    forall i | 0 <= i < |chunks| ensures chunks[i].key in disk && Intact(chunks[i], disk[chunks[i].key], digest) {
      ListedPartIsIntact(chunks, parts, digest, i);
    }
    assert Files(chunks, disk) == parts;
  }

  /** No file on the disk shares a part's digest without being that part. */
  ghost predicate NoCollision(parts: seq<Bytes>, disk: Disk, digest: Bytes -> string) {
    forall i, k :: 0 <= i < |parts| && k in disk && digest(disk[k]) == digest(parts[i]) ==> disk[k] == parts[i]
  }

  /** Whatever the disk holds, what is read back is the saved file, unless some content collides with a part's digest. */
  lemma ChangedPartsAreRefused(chunks: seq<BlobChunk>, parts: seq<Bytes>, disk: Disk, digest: Bytes -> string)
    requires Lists(chunks, parts, digest) && AllIntact(chunks, disk, digest)
    requires NoCollision(parts, disk, digest)
    ensures Concat(Files(chunks, disk)) == Concat(parts)
  {
    forall i | 0 <= i < |chunks| ensures Files(chunks, disk)[i] == parts[i] {
      LowerIsIdentity(chunks[i].sha256);
      var k := chunks[i].key;
      assert k in disk && digest(disk[k]) == digest(parts[i]);
    }
    assert Files(chunks, disk) == parts;
  }

  // ---------------------------------------------------------------- the Sia store

  /** The object is the listed chunks one after the other, and nothing more. */
  predicate StreamMatches(chunks: seq<BlobChunk>, blob: Bytes, digest: Bytes -> string)
    decreases |chunks|
  {
    if chunks == [] then blob == []
    else
      && 0 <= chunks[0].size <= |blob|
      && Intact(chunks[0], blob[..chunks[0].size], digest)
      && StreamMatches(chunks[1..], blob[chunks[0].size..], digest)
  }

  /** The copy loop over the object's stream, then the check for an extra byte. */
  method ReadStream(chunks: seq<BlobChunk>, blob: Bytes, digest: Bytes -> string) returns (file: Result<Bytes>)
    ensures file.Ok? <==> StreamMatches(chunks, blob, digest)
    ensures file.Ok? ==> file.value == blob
  {
    var bytes: Bytes, reader := [], blob;
    var i := 0;
    assert chunks[0..] == chunks;
    while i < |chunks|
      invariant 0 <= i <= |chunks|
      invariant bytes + reader == blob
      invariant StreamMatches(chunks, blob, digest) <==> StreamMatches(chunks[i..], reader, digest)
    {
      var chunk := chunks[i];
      assert chunks[i..][0] == chunk && chunks[i..][1..] == chunks[i + 1..];
      if chunk.size <= 0 || chunk.size > MAX_BLOB_CHUNK_SIZE || |reader| < chunk.size { return Err; }
      var read := reader[..chunk.size];
      if digest(read) != Lower(chunk.sha256) { return Err; }
      bytes, reader := bytes + read, reader[chunk.size..];
      i := i + 1;
    }
    return if reader != [] then Err else Ok(bytes);
  }

  lemma ListsTail(chunks: seq<BlobChunk>, parts: seq<Bytes>, digest: Bytes -> string)
    requires Lists(chunks, parts, digest) && parts != []
    ensures Lists(chunks[1..], parts[1..], digest)
  {
  }

  lemma {:induction false} SavedStreamMatches(chunks: seq<BlobChunk>, parts: seq<Bytes>, digest: Bytes -> string)
    requires Lists(chunks, parts, digest)
    ensures StreamMatches(chunks, Concat(parts), digest)
    decreases |parts|
  {
    if parts != [] {
      ListsTail(chunks, parts, digest);
      SavedStreamMatches(chunks[1..], parts[1..], digest);
      ListedPartIsIntact(chunks, parts, digest, 0);
      assert Concat(parts)[..chunks[0].size] == parts[0];
      assert Concat(parts)[chunks[0].size..] == Concat(parts[1..]);
    }
  }

  /** No stretch of the object shares a part's digest without being that part. */
  ghost predicate NoStretchCollides(parts: seq<Bytes>, blob: Bytes, digest: Bytes -> string) {
    forall i, a, b :: 0 <= i < |parts| && 0 <= a <= b <= |blob| && digest(blob[a..b]) == digest(parts[i]) ==>
      blob[a..b] == parts[i]
  }

  lemma StretchOfTail(blob: Bytes, size: nat, a: nat, b: nat)
    requires size <= |blob| && a <= b <= |blob| - size
    ensures blob[size..][a..b] == blob[size + a..size + b]
  {
  }

  lemma NoStretchOfTailCollides(parts: seq<Bytes>, blob: Bytes, digest: Bytes -> string, size: nat)
    requires NoStretchCollides(parts, blob, digest) && parts != [] && size <= |blob|
    ensures NoStretchCollides(parts[1..], blob[size..], digest)
  {
    var rest := blob[size..];
    forall i, a, b | 0 <= i < |parts[1..]| && 0 <= a <= b <= |rest| && digest(rest[a..b]) == digest(parts[1..][i])
      ensures rest[a..b] == parts[1..][i]
    {
      StretchOfTail(blob, size, a, b);
      assert parts[1..][i] == parts[i + 1];
    }
  }

  /** Whatever the object holds, what is read is the saved file, unless a stretch of it collides with a part's digest. */
  lemma {:induction false} ChangedStreamIsRefused(chunks: seq<BlobChunk>, parts: seq<Bytes>, blob: Bytes, digest: Bytes -> string)
    requires Lists(chunks, parts, digest) && StreamMatches(chunks, blob, digest)
    requires NoStretchCollides(parts, blob, digest)
    ensures blob == Concat(parts)
    decreases |parts|
  {
    if parts != [] {
      var size := chunks[0].size;
      LowerIsIdentity(chunks[0].sha256);
      assert blob[..size] == blob[0..size];
      assert digest(blob[0..size]) == digest(parts[0]);
      ListsTail(chunks, parts, digest);
      NoStretchOfTailCollides(parts, blob, digest, size);
      ChangedStreamIsRefused(chunks[1..], parts[1..], blob[size..], digest);
    }
  }
}
