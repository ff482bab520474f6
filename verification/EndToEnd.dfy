/** A data directory saved to a store, committed, and restored: what comes back is the directory. */
module EndToEnd {
  import opened Common
  import opened Paths
  import opened Chunks
  import opened Manifests
  import Archive
  import opened ArchiveWalk
  import opened Snapshot
  import opened Stores

  /** What one persist draws or is given: the runtime's keys, randomness, the new snapshot's id. */
  datatype Session = Session(
    p: Primitives,
    runtimeID: string,
    keys: RuntimeKeys,
    snapshotKey: Bytes,
    salt: Bytes,
    nonce: Bytes,
    id: string)

  ghost predicate Usable(s: Session) {
    && Lawful(s.p) && Hex64(s.keys.namespace) && ValidSnapshotID(s.id)
    && |s.salt| == SALT_SIZE && |s.nonce| == NONCE_SIZE
  }

  function ChunkKeysOf(s: Session): nat -> string {
    ChunkKeys(s.keys.namespace + "/" + s.id)
  }

  /** The encrypted snapshot of a tree that can be archived. */
  function FileOf(s: Session, children: seq<Child>): Bytes
    requires WalkRoot(children).Ok?
  {
    SealFile(s.p, s.snapshotKey, s.salt, s.nonce, s.p.pack(WalkRoot(children).value))
  }

  /** The snapshot can be written, and is no longer than the store's limit. */
  predicate Fits(s: Session, children: seq<Child>, chunkSize: int, limit: int) {
    && 0 < chunkSize <= MAX_BLOB_CHUNK_SIZE && !Blank(s.runtimeID)
    && WalkRoot(children).Ok?
    && |FileOf(s, children)| <= MAX_BLOB_SNAPSHOT_BYTES
    && |FileOf(s, children)| <= limit
  }

  /** The manifest lists the chunks of this tree's snapshot, of some chunk size. */
  ghost predicate Describes(m: BlobManifest, s: Session, children: seq<Child>, chunkSize: nat) {
    && 0 < chunkSize <= MAX_BLOB_CHUNK_SIZE && WalkRoot(children).Ok?
    && |FileOf(s, children)| <= MAX_BLOB_SNAPSHOT_BYTES
    && m.totalBytes == |FileOf(s, children)|
    && m.chunks == ChunksOf(Cut(FileOf(s, children), chunkSize), ChunkKeysOf(s), s.p.digest)
  }

  /** What the store returns for a persist: trusted, in this store, and of this tree. */
  ghost predicate Saved(m: BlobManifest, store: string, s: Session, children: seq<Child>, chunkSize: nat) {
    && Candidate(m, s.runtimeID, s.keys)
    && m.store == store
    && Describes(m, s, children, chunkSize)
  }

  lemma FileIsNotEmpty(s: Session, children: seq<Child>)
    requires WalkRoot(children).Ok?
    ensures |FileOf(s, children)| >= 8
  {
    assert |SNAPSHOT_MAGIC| == 8;
  }

  /** The end of every persist: build the manifest, authenticate it, validate it. */
  method FinishManifest(s: Session, children: seq<Child>, store: string, chunkSize: nat,
                        chunks: seq<BlobChunk>, siaObject: string)
    returns (manifest: Result<BlobManifest>)
    requires Usable(s) && Nameable(store, s.keys, s.id, siaObject) && 0 < chunkSize <= MAX_BLOB_CHUNK_SIZE
    requires WalkRoot(children).Ok? && |FileOf(s, children)| <= MAX_BLOB_SNAPSHOT_BYTES
    requires chunks == ChunksOf(Cut(FileOf(s, children), chunkSize), ChunkKeysOf(s), s.p.digest)
    ensures manifest.Ok? <==> Fits(s, children, chunkSize, MAX_BLOB_MANIFEST_CHUNKS * chunkSize)
    ensures manifest.Ok? ==>
              Saved(manifest.value, store, s, children, chunkSize) && manifest.value.siaObject == siaObject
  {
    var file := FileOf(s, children);
    FileIsNotEmpty(s, children);
    var unsigned := FreshManifest(store, s.runtimeID, s.keys, s.id, chunkSize, |file|, chunks, siaObject);
    FreshManifestValidIff(store, s.runtimeID, s.keys, s.id, chunkSize, file, s.p.digest, siaObject);
    var signed := Authenticate(unsigned, s.keys).value;
    var ok := ValidateBlobManifestForRuntime(signed, s.runtimeID);
    return if ok then Ok(signed) else Err;
  }

  /** Authenticated, but with another key, or for another namespace. */
  ghost predicate MadeElsewhere(m: BlobManifest, keys: RuntimeKeys) {
    exists original, signer: RuntimeKeys ::
      Authenticate(original, signer) == Ok(m) && (signer.macKey != keys.macKey || m.namespace != keys.namespace)
  }

  lemma MadeElsewhereIsRefused(m: BlobManifest, keys: RuntimeKeys)
    requires MadeElsewhere(m, keys)
    ensures !Verifies(m, keys)
  {
    var original, signer: RuntimeKeys :|
      Authenticate(original, signer) == Ok(m) && (signer.macKey != keys.macKey || m.namespace != keys.namespace);
    if signer.macKey != keys.macKey { OtherKeyIsRefused(original, signer, keys); }
  }

  // ---------------------------------------------------------------- local

  lemma {:induction false} StoredHolds(parts: seq<Bytes>, key: nat -> string, i: nat)
    requires forall a, b :: 0 <= a < |parts| && 0 <= b < |parts| && key(a) == key(b) ==> a == b
    requires i < |parts|
    ensures key(i) in Stored(parts, key) && Stored(parts, key)[key(i)] == parts[i]
    decreases |parts|
  {
    var last := |parts| - 1;
    if i < last {
      StoredHolds(parts[..last], key, i);
      assert parts[..last][i] == parts[i];
      assert key(i) != key(last);
    }
  }

  /** A disk to which a snapshot's files were added holds the snapshot. */
  lemma AddedSnapshotIsHeld(disk: Disk, s: Session, parts: seq<Bytes>)
    requires Hex64(s.keys.namespace) && ValidSnapshotID(s.id) && |parts| <= MAX_BLOB_MANIFEST_CHUNKS
    ensures Holds(disk + Stored(parts, ChunkKeysOf(s)), parts, ChunkKeysOf(s))
  {
    var key := ChunkKeysOf(s);
    assert Proper(s.keys.namespace) by { assert s.keys.namespace[0] != '.'; }
    assert Proper(s.id);
    forall a, b | 0 <= a < |parts| && 0 <= b < |parts| && key(a) == key(b) ensures a == b {
      ChunkKeysDiffer(s.keys.namespace, s.id, a, b);
    }
    forall i | 0 <= i < |parts| ensures key(i) in Stored(parts, key) && Stored(parts, key)[key(i)] == parts[i] {
      StoredHolds(parts, key, i);
    }
  }

  /** The local persistFromDir: a disk that fails leaves what was there before. */
  method PersistLocal(s: Session, children: seq<Child>, chunkSize: nat, disk: Disk)
    returns (manifest: Result<BlobManifest>, after: Disk)
    requires Usable(s)
    ensures manifest.Ok? <==> Fits(s, children, chunkSize, MAX_BLOB_MANIFEST_CHUNKS * chunkSize - 1)
    ensures manifest.Err? ==> after == disk
    ensures manifest.Ok? ==>
              && Saved(manifest.value, LOCAL_STORE, s, children, chunkSize)
              && after == disk + Stored(Cut(FileOf(s, children), chunkSize), ChunkKeysOf(s))
              && Holds(after, Cut(FileOf(s, children), chunkSize), ChunkKeysOf(s))
  {
    if chunkSize <= 0 || chunkSize > MAX_BLOB_CHUNK_SIZE { return Err, disk; }
    var file := WriteSnapshot(s.p, children, s.snapshotKey, s.salt, s.nonce);
    if file.Err? { return Err, disk; }
    FileIsNotEmpty(s, children);
    var written := PersistChunks(file.value, chunkSize, ChunkKeysOf(s), s.p.digest);
    if written.Err? { return Err, disk; }
    manifest := FinishManifest(s, children, LOCAL_STORE, chunkSize, written.value.0, "");
    if manifest.Err? { return Err, disk; }
    ChunkCount(file.value, chunkSize);
    AddedSnapshotIsHeld(disk, s, Cut(file.value, chunkSize));
    after := disk + written.value.1;
  }

  /** The local restoreToDir. */
  method RestoreLocal(p: Primitives, m: BlobManifest, disk: Disk, runtimeID: string, keys: RuntimeKeys, key: Bytes, now: int)
    returns (restored: Result<Archive.Fs>)
    ensures restored ==
              if m.store == LOCAL_STORE && Valid(m, runtimeID) && Verifies(m, keys) && AllIntact(m.chunks, disk, p.digest)
              then RestoreSnapshot(p, key, Concat(Files(m.chunks, disk)), now)
              else Err
    ensures MadeElsewhere(m, keys) ==> restored.Err?
  {
    if MadeElsewhere(m, keys) { MadeElsewhereIsRefused(m, keys); }
    if m.store != LOCAL_STORE { return Err; }
    var valid := ValidateBlobManifestForRuntime(m, runtimeID);
    if !valid || !Verifies(m, keys) { return Err; }
    var file := ReadChunks(m.chunks, disk, p.digest);
    if file.Err? { return Err; }
    restored := RestoreSnapshot(p, key, file.value, now);
  }

  lemma DescribedPartsAreListed(m: BlobManifest, s: Session, children: seq<Child>, chunkSize: nat)
    requires Lawful(s.p) && Describes(m, s, children, chunkSize)
    ensures Lists(m.chunks, Cut(FileOf(s, children), chunkSize), s.p.digest)
    ensures Concat(Cut(FileOf(s, children), chunkSize)) == FileOf(s, children)
  {
    CutParts(FileOf(s, children), chunkSize);
  }

  /** Whichever manifest names a held snapshot, now or later as a fallback, its chunks restore the tree. */
  lemma HeldSnapshotRestores(m: BlobManifest, s: Session, children: seq<Child>, chunkSize: nat, disk: Disk, now: int)
    requires Usable(s) && PlainEntries(children) && Describes(m, s, children, chunkSize)
    requires Holds(disk, Cut(FileOf(s, children), chunkSize), ChunkKeysOf(s))
    ensures AllIntact(m.chunks, disk, s.p.digest)
    ensures RestoreSnapshot(s.p, s.snapshotKey, Concat(Files(m.chunks, disk)), now) == Rebuilt(children)
  {
    DescribedPartsAreListed(m, s, children, chunkSize);
    HeldPartsAreRead(m.chunks, Cut(FileOf(s, children), chunkSize), ChunkKeysOf(s), disk, s.p.digest);
    SnapshotRoundTrips(s.p, children, s.snapshotKey, s.salt, s.nonce, now);
  }

  /** A disk that was tampered with gives an error or the tree, never other contents, short of a digest collision. */
  lemma ChangedDiskRestoresNothingElse(m: BlobManifest, s: Session, children: seq<Child>, chunkSize: nat, disk: Disk, now: int)
    requires Usable(s) && PlainEntries(children) && Describes(m, s, children, chunkSize)
    requires AllIntact(m.chunks, disk, s.p.digest)
    requires NoCollision(Cut(FileOf(s, children), chunkSize), disk, s.p.digest)
    ensures RestoreSnapshot(s.p, s.snapshotKey, Concat(Files(m.chunks, disk)), now) == Rebuilt(children)
  {
    DescribedPartsAreListed(m, s, children, chunkSize);
    ChangedPartsAreRefused(m.chunks, Cut(FileOf(s, children), chunkSize), disk, s.p.digest);
    SnapshotRoundTrips(s.p, children, s.snapshotKey, s.salt, s.nonce, now);
  }

  /**
   * The whole local path: persist, complete the manifest whatever was committed before, and
   * restore it from a disk on which anything but this snapshot's files has changed meanwhile.
   */
  method LocalRoundTrip(s: Session, children: seq<Child>, chunkSize: nat, disk: Disk, later: Disk,
                        previous: Option<BlobManifest>, floor: Option<int>, now: int)
    returns (committed: Result<BlobManifest>, restored: Result<Archive.Fs>)
    requires Usable(s) && PlainEntries(children)
    requires previous.Some? ==> Trusted(previous.value, s.runtimeID, s.keys)
    requires floor.Some? ==> 0 <= floor.value < MAX_INT64
    requires forall i: nat :: ChunkKeysOf(s)(i) !in later
    ensures committed.Ok? <==>
              && Fits(s, children, chunkSize, MAX_BLOB_MANIFEST_CHUNKS * chunkSize - 1)
              && Manifests.NextGeneration(previous, floor).Some?
    ensures committed.Ok? ==> restored == Rebuilt(children) && Restores(children, restored)
  {
    committed, restored := Err, Err;
    var manifest, after := PersistLocal(s, children, chunkSize, disk);
    if manifest.Err? { return; }
    committed := PersistSessionData(manifest.value, previous, floor, None, None, s.runtimeID, s.keys);
    if committed.Err? { return; }
    restored := RestoreLocal(s.p, committed.value, after + later, s.runtimeID, s.keys, s.snapshotKey, now);
    HeldSnapshotRestores(committed.value, s, children, chunkSize, after + later, now);
    RebuiltRestores(children);
  }

  // ---------------------------------------------------------------- Sia

  /** The Sia persistFromDir: the upload reads the file through the hasher in pieces of its choosing. */
  method PersistSia(s: Session, children: seq<Child>, chunkSize: nat, remaining: int, reading: Bytes -> seq<Bytes>, objectID: string)
    returns (manifest: Result<BlobManifest>, uploaded: Bytes)
    requires Usable(s) && Hex64(objectID)
    requires forall file :: Concat(reading(file)) <= file
    ensures manifest.Ok? <==>
              && Fits(s, children, chunkSize, Min(MAX_BLOB_MANIFEST_CHUNKS * chunkSize, remaining))
              && Concat(reading(FileOf(s, children))) == FileOf(s, children)
    ensures manifest.Ok? ==>
              && Saved(manifest.value, SIA_STORE, s, children, chunkSize)
              && manifest.value.siaObject == objectID
              && uploaded == FileOf(s, children)
  {
    uploaded := [];
    if chunkSize <= 0 || chunkSize > MAX_BLOB_CHUNK_SIZE { return Err, []; }
    var file := WriteSnapshot(s.p, children, s.snapshotKey, s.salt, s.nonce);
    if file.Err? || remaining < |file.value| { return Err, []; }
    var pieces := reading(file.value);
    var chunks, total := HashReads(pieces, chunkSize, ChunkKeysOf(s), s.p.digest);
    if total != |file.value| { return Err, []; }
    uploaded := Concat(pieces);
    assert uploaded == file.value;
    manifest := FinishManifest(s, children, SIA_STORE, chunkSize, chunks, objectID);
  }

  /** The Sia restoreToDir, given what the object holds. */
  method RestoreSia(p: Primitives, m: BlobManifest, blob: Bytes, runtimeID: string, keys: RuntimeKeys, key: Bytes, now: int)
    returns (restored: Result<Archive.Fs>)
    ensures restored ==
              if && m.store == SIA_STORE && Valid(m, runtimeID) && Verifies(m, keys)
                 && |blob| == m.totalBytes && StreamMatches(m.chunks, blob, p.digest)
              then RestoreSnapshot(p, key, blob, now)
              else Err
    ensures MadeElsewhere(m, keys) ==> restored.Err?
  {
    if MadeElsewhere(m, keys) { MadeElsewhereIsRefused(m, keys); }
    if m.store != SIA_STORE { return Err; }
    var valid := ValidateBlobManifestForRuntime(m, runtimeID);
    if !valid || !Verifies(m, keys) || |blob| != m.totalBytes { return Err; }
    var file := ReadStream(m.chunks, blob, p.digest);
    if file.Err? { return Err; }
    restored := RestoreSnapshot(p, key, file.value, now);
  }

  lemma UploadedSnapshotRestores(m: BlobManifest, s: Session, children: seq<Child>, chunkSize: nat, now: int)
    requires Usable(s) && PlainEntries(children) && Describes(m, s, children, chunkSize)
    ensures StreamMatches(m.chunks, FileOf(s, children), s.p.digest)
    ensures RestoreSnapshot(s.p, s.snapshotKey, FileOf(s, children), now) == Rebuilt(children)
  {
    DescribedPartsAreListed(m, s, children, chunkSize);
    SavedStreamMatches(m.chunks, Cut(FileOf(s, children), chunkSize), s.p.digest);
    SnapshotRoundTrips(s.p, children, s.snapshotKey, s.salt, s.nonce, now);
  }

  /** An object that was tampered with gives an error or the tree, never other contents, short of a digest collision. */
  lemma ChangedObjectRestoresNothingElse(m: BlobManifest, s: Session, children: seq<Child>, chunkSize: nat, blob: Bytes, now: int)
    requires Usable(s) && PlainEntries(children) && Describes(m, s, children, chunkSize)
    requires StreamMatches(m.chunks, blob, s.p.digest)
    requires NoStretchCollides(Cut(FileOf(s, children), chunkSize), blob, s.p.digest)
    ensures RestoreSnapshot(s.p, s.snapshotKey, blob, now) == Rebuilt(children)
  {
    DescribedPartsAreListed(m, s, children, chunkSize);
    ChangedStreamIsRefused(m.chunks, Cut(FileOf(s, children), chunkSize), blob, s.p.digest);
    SnapshotRoundTrips(s.p, children, s.snapshotKey, s.salt, s.nonce, now);
  }

  /** The whole Sia path: persist, complete the manifest whatever was committed before, and restore it. */
  method SiaRoundTrip(s: Session, children: seq<Child>, chunkSize: nat, remaining: int, reading: Bytes -> seq<Bytes>, objectID: string,
                      previous: Option<BlobManifest>, floor: Option<int>, now: int)
    returns (committed: Result<BlobManifest>, restored: Result<Archive.Fs>)
    requires Usable(s) && PlainEntries(children) && Hex64(objectID)
    requires forall file :: Concat(reading(file)) == file
    requires previous.Some? ==> Trusted(previous.value, s.runtimeID, s.keys)
    requires floor.Some? ==> 0 <= floor.value < MAX_INT64
    ensures committed.Ok? <==>
              && Fits(s, children, chunkSize, Min(MAX_BLOB_MANIFEST_CHUNKS * chunkSize, remaining))
              && Manifests.NextGeneration(previous, floor).Some?
    ensures committed.Ok? ==> restored == Rebuilt(children) && Restores(children, restored)
  {
    committed, restored := Err, Err;
    var manifest, uploaded := PersistSia(s, children, chunkSize, remaining, reading, objectID);
    if manifest.Err? { return; }
    committed := PersistSessionData(manifest.value, previous, floor, None, None, s.runtimeID, s.keys);
    if committed.Err? { return; }
    restored := RestoreSia(s.p, committed.value, uploaded, s.runtimeID, s.keys, s.snapshotKey, now);
    UploadedSnapshotRestores(committed.value, s, children, chunkSize, now);
    RebuiltRestores(children);
  }
}
