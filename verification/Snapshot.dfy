/** Saving a data directory as an encrypted, chunked snapshot and restoring it: the file format and both stores. */
module Snapshot {
  import opened Common
  import opened Paths
  import opened Chunks
  import opened Manifests
  import Archive
  import opened ArchiveWalk
  import opened ArchiveRoundTrip
  import opened ArchiveMeaning
  import opened ArchiveLoops

  const SNAPSHOT_MAGIC: Bytes := [86, 82, 84, 66, 76, 79, 66, 50]
  const SNAPSHOT_MAGIC_V1: Bytes := [86, 82, 84, 66, 76, 79, 66, 49]
  const SALT_SIZE: nat := 32
  const NONCE_SIZE: nat := 16
  const HEADER_SIZE: nat := 56
  const TAG_SIZE: nat := 32

  /** SHA-256 in hexadecimal, key derivation, the cipher's key stream, HMAC, and tar with gzip. */
  datatype Primitives = Primitives(
    digest: Bytes -> string,
    derive: (Bytes, Bytes) -> (Bytes, Bytes),
    deriveV1: (Bytes, Bytes) -> (Bytes, Bytes),
    keystream: (Bytes, Bytes, nat) -> bv8,
    mac: (Bytes, Bytes) -> Bytes,
    pack: seq<Archive.Header> -> Bytes,
    unpack: Bytes -> Option<seq<Archive.Header>>)

  predicate LowerHex64(s: string) {
    |s| == 64 && forall i :: 0 <= i < |s| ==> '0' <= s[i] <= '9' || 'a' <= s[i] <= 'f'
  }

  /** Packing loses nothing and is never empty; digests and tags have their lengths. */
  ghost predicate Lawful(p: Primitives) {
    && (forall b :: LowerHex64(p.digest(b)))
    && (forall k, b :: |p.mac(k, b)| == TAG_SIZE)
    && (forall entries :: p.unpack(p.pack(entries)) == Some(entries) && |p.pack(entries)| > 0)
  }

  // ---------------------------------------------------------------- the snapshot file

  function Xor(p: Primitives, key: Bytes, nonce: Bytes, data: Bytes): Bytes {
    seq(|data|, i requires 0 <= i < |data| => data[i] ^ p.keystream(key, nonce, i))
  }

  lemma XorTwice(p: Primitives, key: Bytes, nonce: Bytes, data: Bytes)
    ensures Xor(p, key, nonce, Xor(p, key, nonce, data)) == data
  {
    var once := Xor(p, key, nonce, data);
    forall i | 0 <= i < |data| ensures Xor(p, key, nonce, once)[i] == data[i] {
      BitsTwice(data[i], p.keystream(key, nonce, i));
    }
  }

  lemma BitsTwice(a: bv8, b: bv8)
    ensures a ^ b ^ b == a
  {
  }

  /** newEncryptedWriter: magic, salt and nonce, the encrypted payload, and the MAC over both. */
  function SealFile(p: Primitives, key: Bytes, salt: Bytes, nonce: Bytes, payload: Bytes): Bytes {
    var (encryptionKey, macKey) := p.derive(key, salt);
    var header := SNAPSHOT_MAGIC + salt + nonce;
    var ciphertext := Xor(p, encryptionKey, nonce, payload);
    header + ciphertext + p.mac(macKey, header + ciphertext)
  }

  /** restoreSnapshot up to the archive: the payload, once the file's MAC verifies. */
  function OpenFile(p: Primitives, key: Bytes, file: Bytes): Result<Bytes> {
    if |file| > MAX_BLOB_SNAPSHOT_BYTES || |file| <= HEADER_SIZE + TAG_SIZE then Err
    else
      var header := file[..HEADER_SIZE];
      var magic := header[..8];
      if magic != SNAPSHOT_MAGIC && magic != SNAPSHOT_MAGIC_V1 then Err
      else
        var salt := header[8..8 + SALT_SIZE];
        var nonce := header[8 + SALT_SIZE..];
        var (encryptionKey, macKey) := if magic == SNAPSHOT_MAGIC_V1 then p.deriveV1(key, salt) else p.derive(key, salt);
        var ciphertext := file[HEADER_SIZE..|file| - TAG_SIZE];
        if file[|file| - TAG_SIZE..] != p.mac(macKey, header + ciphertext) then Err
        else Ok(Xor(p, encryptionKey, nonce, ciphertext))
  }

  lemma SealedFileOpens(p: Primitives, key: Bytes, salt: Bytes, nonce: Bytes, payload: Bytes)
    requires Lawful(p) && |salt| == SALT_SIZE && |nonce| == NONCE_SIZE && payload != []
    requires |SealFile(p, key, salt, nonce, payload)| <= MAX_BLOB_SNAPSHOT_BYTES
    ensures OpenFile(p, key, SealFile(p, key, salt, nonce, payload)) == Ok(payload)
  {
    var file := SealFile(p, key, salt, nonce, payload);
    var (encryptionKey, macKey) := p.derive(key, salt);
    var header := SNAPSHOT_MAGIC + salt + nonce;
    var ciphertext := Xor(p, encryptionKey, nonce, payload);
    assert file[..HEADER_SIZE] == header && header[..8] == SNAPSHOT_MAGIC;
    assert SNAPSHOT_MAGIC[7] != SNAPSHOT_MAGIC_V1[7];
    assert header[8..8 + SALT_SIZE] == salt && header[8 + SALT_SIZE..] == nonce;
    assert file[HEADER_SIZE..|file| - TAG_SIZE] == ciphertext;
    assert file[|file| - TAG_SIZE..] == p.mac(macKey, header + ciphertext);
    XorTwice(p, encryptionKey, nonce, payload);
  }

  /** What the tag of a sealed file is made over. */
  function SealedBody(p: Primitives, key: Bytes, salt: Bytes, nonce: Bytes, payload: Bytes): Bytes {
    SNAPSHOT_MAGIC + salt + nonce + Xor(p, p.derive(key, salt).0, nonce, payload)
  }

  /** A tag that fits the file under a key derived from its salt was made over this body. */
  ghost predicate NotForged(p: Primitives, key: Bytes, file: Bytes, body: Bytes)
    requires |file| > HEADER_SIZE + TAG_SIZE
  {
    var n, salt := |file| - TAG_SIZE, file[8..8 + SALT_SIZE];
    p.mac(p.derive(key, salt).1, file[..n]) == file[n..] || p.mac(p.deriveV1(key, salt).1, file[..n]) == file[n..] ==>
      file[..n] == body
  }

  /** Whatever stands in a snapshot's place, only the sealed file opens, byte for byte, short of a forged tag. */
  lemma OnlySealedFileOpens(p: Primitives, key: Bytes, salt: Bytes, nonce: Bytes, payload: Bytes, file: Bytes)
    requires Lawful(p) && |salt| == SALT_SIZE && |nonce| == NONCE_SIZE && payload != []
    requires |file| > HEADER_SIZE + TAG_SIZE ==> NotForged(p, key, file, SealedBody(p, key, salt, nonce, payload))
    ensures OpenFile(p, key, file).Ok? ==>
              file == SealFile(p, key, salt, nonce, payload) && OpenFile(p, key, file) == Ok(payload)
  {
    if OpenFile(p, key, file).Ok? {
      var header, n := file[..HEADER_SIZE], |file| - TAG_SIZE;
      var body := SealedBody(p, key, salt, nonce, payload);
      assert header + file[HEADER_SIZE..n] == file[..n] && header[8..8 + SALT_SIZE] == file[8..8 + SALT_SIZE];
      assert file[..n] == body && body[..8] == SNAPSHOT_MAGIC && body[8..8 + SALT_SIZE] == salt;
      assert header[..8] == file[..n][..8] && file[8..8 + SALT_SIZE] == file[..n][8..8 + SALT_SIZE];
      assert SNAPSHOT_MAGIC[7] != SNAPSHOT_MAGIC_V1[7];
      assert file == file[..n] + file[n..];
      assert SealFile(p, key, salt, nonce, payload) == body + p.mac(p.derive(key, salt).1, body);
      SealedFileOpens(p, key, salt, nonce, payload);
    }
  }

  /** writeSnapshotWithContext: the bounded file of the directory's archive. */
  method WriteSnapshot(p: Primitives, children: seq<Child>, key: Bytes, salt: Bytes, nonce: Bytes)
    returns (file: Result<Bytes>)
    ensures file.Ok? <==>
              && WalkRoot(children).Ok?
              && |SealFile(p, key, salt, nonce, p.pack(WalkRoot(children).value))| <= MAX_BLOB_SNAPSHOT_BYTES
    ensures file.Ok? ==> file.value == SealFile(p, key, salt, nonce, p.pack(WalkRoot(children).value))
  {
    var archive := ArchiveDirectory(children);
    if archive.Err? { return Err; }
    var sealed := SealFile(p, key, salt, nonce, p.pack(archive.value));
    return if |sealed| > MAX_BLOB_SNAPSHOT_BYTES then Err else Ok(sealed);
  }

  /** restoreSnapshot: the data directory is replaced only by a complete extraction. */
  function RestoreSnapshot(p: Primitives, key: Bytes, file: Bytes, now: int): Result<Archive.Fs> {
    match OpenFile(p, key, file)
    case Err => Err
    case Ok(payload) =>
      match p.unpack(payload)
      case None => Err
      case Some(entries) =>
        match Archive.Extract(map[], entries, now)
        case Complete(fs) => Ok(fs)
        case _ => Err
  }

  /** What a saved tree restores to. */
  ghost function Rebuilt(children: seq<Child>): Result<Archive.Fs> {
    if DirectoriesFit(children, []) then Ok(FlatEntries(children, [])) else Err
  }

  lemma SnapshotRoundTrips(p: Primitives, children: seq<Child>, key: Bytes, salt: Bytes, nonce: Bytes, now: int)
    requires Lawful(p) && |salt| == SALT_SIZE && |nonce| == NONCE_SIZE
    requires PlainEntries(children) && WalkRoot(children).Ok?
    requires |SealFile(p, key, salt, nonce, p.pack(WalkRoot(children).value))| <= MAX_BLOB_SNAPSHOT_BYTES
    ensures RestoreSnapshot(p, key, SealFile(p, key, salt, nonce, p.pack(WalkRoot(children).value)), now) == Rebuilt(children)
  {
    var entries := WalkRoot(children).value;
    SealedFileOpens(p, key, salt, nonce, p.pack(entries));
    ArchiveRoundTrips(children, now);
  }

  /** What a restore is to give: the tree that was saved, or an error when a directory path is too long. */
  ghost predicate Restores(children: seq<Child>, restored: Result<Archive.Fs>) {
    if DirectoriesFit(children, []) then restored.Ok? && ComesBack(children, restored.value) else restored.Err?
  }

  lemma RebuiltRestores(children: seq<Child>)
    requires PlainEntries(children) && WalkRoot(children).Ok?
    ensures Restores(children, Rebuilt(children))
  {
    ArchivedTreeComesBack(children, 0);
    ArchiveRoundTrips(children, 0);
  }

  // ---------------------------------------------------------------- manifests of fresh snapshots

  /** The manifest a store builds, before it is authenticated. */
  function FreshManifest(store: string, runtimeID: string, keys: RuntimeKeys, id: string, chunkSize: int,
                         totalBytes: int, chunks: seq<BlobChunk>, siaObject: string): BlobManifest {
    BlobManifest(3, runtimeID, keys.namespace, store, "", OBJECT_TYPE, id, 0, chunkSize, totalBytes,
                 COMPRESSION, AUTHENTICATED_ENCRYPTION, chunks, siaObject, NoMac, None)
  }

  /** The key that manifest validation expects is the key chunks are listed under, and it is acceptable. */
  lemma ListedKeyIsValid(m: BlobManifest, runtimeID: string, index: nat)
    requires m.version == 3 && Hex64(m.namespace) && ValidSnapshotID(m.snapshotID) && index < MAX_BLOB_MANIFEST_CHUNKS
    ensures ValidChunkKey(m, runtimeID, index, ChunkKey(m.namespace + "/" + m.snapshotID, index))
  {
    var key := ChunkKey(m.namespace + "/" + m.snapshotID, index);
    assert Proper(m.namespace) by { assert m.namespace[0] != '.'; }
    assert Proper(m.snapshotID);
    ChunkKeyIsPlain(m.namespace, m.snapshotID, index);
    assert key[0] == m.namespace[0];
    assert key[|key| - 1] == 'n';
  }

  lemma ChunkCount(file: Bytes, size: nat)
    requires size > 0
    ensures |Cut(file, size)| <= MAX_BLOB_MANIFEST_CHUNKS <==> |file| <= MAX_BLOB_MANIFEST_CHUNKS * size
  {
    CutParts(file, size);
    var n := |Cut(file, size)|;
    SpanIsProduct(n, size);
    if file != [] {
      SpanIsProduct(n - 1, size);
      if n <= MAX_BLOB_MANIFEST_CHUNKS {
        MulMonotone(n, MAX_BLOB_MANIFEST_CHUNKS, size);
      } else {
        MulMonotone(MAX_BLOB_MANIFEST_CHUNKS, n - 1, size);
      }
    }
  }

  ghost predicate Nameable(store: string, keys: RuntimeKeys, id: string, siaObject: string) {
    && Hex64(keys.namespace) && ValidSnapshotID(id)
    && (if store == SIA_STORE then Hex64(siaObject) else siaObject == "")
  }

  /** The chunk list of a file is valid, as long as it is not too long. */
  lemma FreshChunksAreValid(m: BlobManifest, runtimeID: string, file: Bytes, digest: Bytes -> string)
    requires m.version == 3 && Hex64(m.namespace) && ValidSnapshotID(m.snapshotID)
    requires 0 < m.chunkSize <= MAX_BLOB_CHUNK_SIZE && m.totalBytes == |file|
    requires m.chunks == ChunksOf(Cut(file, m.chunkSize), ChunkKeys(m.namespace + "/" + m.snapshotID), digest)
    requires |m.chunks| <= MAX_BLOB_MANIFEST_CHUNKS
    requires forall b :: LowerHex64(digest(b))
    ensures ValidChunks(m, runtimeID)
  {
    CutParts(file, m.chunkSize);
    SizesSum(Cut(file, m.chunkSize), ChunkKeys(m.namespace + "/" + m.snapshotID), digest);
    forall i | 0 <= i < |m.chunks| ensures ValidChunk(m, runtimeID, i, m.chunks[i]) {
      ListedKeyIsValid(m, runtimeID, i);
    }
  }

  /** The chunk list of a file passes validation exactly when it is neither empty nor too long. */
  lemma FreshManifestValidIff(store: string, runtimeID: string, keys: RuntimeKeys, id: string, chunkSize: nat,
                              file: Bytes, digest: Bytes -> string, siaObject: string)
    requires Nameable(store, keys, id, siaObject) && 0 < chunkSize <= MAX_BLOB_CHUNK_SIZE
    requires forall b :: LowerHex64(digest(b))
    ensures var chunks := ChunksOf(Cut(file, chunkSize), ChunkKeys(keys.namespace + "/" + id), digest);
            var m := Authenticate(FreshManifest(store, runtimeID, keys, id, chunkSize, |file|, chunks, siaObject), keys).value;
            && (Valid(m, runtimeID) <==>
                  && !Blank(runtimeID) && 0 < |file| <= MAX_BLOB_SNAPSHOT_BYTES
                  && |file| <= MAX_BLOB_MANIFEST_CHUNKS * chunkSize)
            && Verifies(m, keys)
  {
    var parts := Cut(file, chunkSize);
    var key := ChunkKeys(keys.namespace + "/" + id);
    var chunks := ChunksOf(parts, key, digest);
    var m := Authenticate(FreshManifest(store, runtimeID, keys, id, chunkSize, |file|, chunks, siaObject), keys).value;
    ChunkCount(file, chunkSize);
    if |chunks| <= MAX_BLOB_MANIFEST_CHUNKS {
      FreshChunksAreValid(m, runtimeID, file, digest);
    }
  }
}
