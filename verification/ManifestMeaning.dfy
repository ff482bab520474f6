/** What a valid manifest says: whose it is, which objects it names, and how large they may be. */
module ManifestMeaning {
  import opened Common
  import opened Paths
  import opened Chunks
  import opened Manifests

  // ---------------------------------------------------------------- whose

  lemma AppendedDiffer(a: string, b: string, tail: string)
    requires a != b
    ensures a + tail != b + tail
  {
    assert (a + tail)[..|a|] == a && (b + tail)[..|b|] == b;
  }

  /** The same chunk of the same snapshot has another key under another runtime id. */
  lemma KeysOfRuntimesDiffer(a: string, b: string, id: string, index: nat)
    requires Proper(a) && Proper(b) && Proper(id) && index < 100_000 && a != b
    ensures ChunkKey(a + "/" + id, index) != ChunkKey(b + "/" + id, index)
  {
    ChunkKeyIsPlain(a, id, index);
    ChunkKeyIsPlain(b, id, index);
    AppendedDiffer(a, b, "/");
    AppendedDiffer(a + "/", b + "/", id);
    AppendedDiffer(a + "/" + id, b + "/" + id, "/");
    AppendedDiffer(a + "/" + id + "/", b + "/" + id + "/", ChunkName(index));
  }

  /** A manifest is valid for one runtime at most, of whatever version. */
  lemma ValidForOneRuntime(m: BlobManifest, a: string, b: string)
    requires Proper(a) && Proper(b) && Valid(m, a) && Valid(m, b)
    ensures a == b
  {
    assert Proper(m.snapshotID);
    assert ValidChunk(m, a, 0, m.chunks[0]) && ValidChunk(m, b, 0, m.chunks[0]);
    if m.version == 1 && a != b { KeysOfRuntimesDiffer(a, b, m.snapshotID, 0); }
  }

  // ---------------------------------------------------------------- which objects

  /** The first component of its keys. */
  function Root(m: BlobManifest, runtimeID: string): string {
    if m.version == 3 then m.namespace else runtimeID
  }

  /** The objects of a valid manifest all lie under its own snapshot, each at its place, and are all different. */
  lemma ValidKeysAreItsOwn(m: BlobManifest, runtimeID: string)
    requires Proper(runtimeID) && Valid(m, runtimeID)
    ensures forall i :: 0 <= i < |m.chunks| ==>
              m.chunks[i].index == i && m.chunks[i].key == Root(m, runtimeID) + "/" + m.snapshotID + "/" + ChunkName(i)
    ensures forall i, j :: 0 <= i < j < |m.chunks| ==> m.chunks[i].key != m.chunks[j].key
  {
    var root := Root(m, runtimeID);
    assert Proper(root) by { if m.version == 3 { assert m.namespace[0] != '.'; } }
    assert Proper(m.snapshotID);
    forall i | 0 <= i < |m.chunks|
      ensures m.chunks[i].index == i && m.chunks[i].key == ChunkKey(root + "/" + m.snapshotID, i)
      ensures m.chunks[i].key == root + "/" + m.snapshotID + "/" + ChunkName(i)
    {
      assert ValidChunk(m, runtimeID, i, m.chunks[i]);
      ChunkKeyIsPlain(root, m.snapshotID, i);
    }
    forall i, j | 0 <= i < j < |m.chunks| ensures m.chunks[i].key != m.chunks[j].key {
      if m.chunks[i].key == m.chunks[j].key { ChunkKeysDiffer(root, m.snapshotID, i, j); }
    }
  }

  // ---------------------------------------------------------------- how large

  lemma {:induction false} TotalWithin(chunks: seq<BlobChunk>, size: nat)
    requires forall i :: 0 <= i < |chunks| ==> 0 < chunks[i].size <= size
    ensures |chunks| <= TotalSize(chunks) <= |chunks| * size
    decreases |chunks|
  {
    if chunks != [] {
      var n := |chunks| - 1;
      TotalWithin(chunks[..n], size);
      assert (n + 1) * size == n * size + size;
    }
  }

  /** A valid manifest names at most 4096 objects of at most 16 MiB each, none empty, that add up to its total. */
  lemma ValidIsBounded(m: BlobManifest, runtimeID: string)
    requires Valid(m, runtimeID)
    ensures 0 < |m.chunks| <= 4096 && forall i :: 0 <= i < |m.chunks| ==> 0 < m.chunks[i].size <= m.chunkSize <= 0x100_0000
    ensures |m.chunks| <= m.totalBytes == TotalSize(m.chunks) <= |m.chunks| * m.chunkSize && m.totalBytes <= 0x4_0000_0000
  {
    forall i | 0 <= i < |m.chunks| ensures 0 < m.chunks[i].size <= m.chunkSize {
      assert ValidChunk(m, runtimeID, i, m.chunks[i]);
    }
    TotalWithin(m.chunks, m.chunkSize);
  }

  /** Whatever its version: gzip, full digests, a snapshot id that is one path component, and numbers that count up. */
  lemma ValidIsWellFormed(m: BlobManifest, runtimeID: string)
    requires Valid(m, runtimeID)
    ensures m.compression == "gzip" && m.objectType == "runtime-userdata" && (m.version == 3 ==> m.generation >= 0)
    ensures forall i :: 0 <= i < |m.chunks| ==> |m.chunks[i].sha256| == 64
    ensures '/' !in m.snapshotID && '\\' !in m.snapshotID && m.snapshotID != "" && m.snapshotID != "." && m.snapshotID != ".."
  {
    forall i | 0 <= i < |m.chunks| ensures |m.chunks[i].sha256| == 64 {
      assert ValidChunk(m, runtimeID, i, m.chunks[i]);
    }
  }

  // ---------------------------------------------------------------- which version

  /** Before version 3 a manifest carries neither MAC, namespace nor fallback, and Sia holds none of them. */
  lemma OldVersionsAreBare(m: BlobManifest, runtimeID: string)
    requires Valid(m, runtimeID) && m.version != 3
    ensures m.mac.NoMac? && m.namespace == "" && m.fallback.None? && m.store != SIA_STORE && m.siaObject == ""
    ensures m.encryption == if m.version == 2 then RUNTIME_BOUND_ENCRYPTION else PLAIN_ENCRYPTION
  {
  }

  /** The fallback is another store's snapshot of the same runtime, and goes no deeper. */
  lemma FallbackIsElsewhere(m: BlobManifest, runtimeID: string)
    requires Valid(m, runtimeID) && m.fallback.Some?
    ensures m.version == 3 && Valid(m.fallback.value, runtimeID) && m.fallback.value.fallback.None?
    ensures m.fallback.value.store != m.store
  {
  }
}
