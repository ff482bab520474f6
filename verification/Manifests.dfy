/** Blob manifests: what is accepted as valid, how they are authenticated, and what a save makes of them. */
module Manifests {
  import opened Common
  import opened Paths
  import opened Chunks

  const LOCAL_STORE := "local-disk"
  const RENTERD_STORE := "sia-renterd"
  const SIA_STORE := "sia-indexd"
  const OBJECT_TYPE := "runtime-userdata"
  const PLAIN_ENCRYPTION := "aes-ctr+hmac-sha256"
  const RUNTIME_BOUND_ENCRYPTION := "aes-ctr+hmac-sha256+runtime-kdf-v2"
  const AUTHENTICATED_ENCRYPTION := "aes-ctr+hmac-sha256+runtime-kdf-v2+manifest-mac-v3"
  const COMPRESSION := "gzip"
  const MAX_BLOB_CHUNK_SIZE: nat := 0x100_0000
  const MAX_BLOB_SNAPSHOT_BYTES: nat := 0x4_0000_0000

  /** The manifest MAC field: none, one made with a key over a manifest without it, or any other text. */
  datatype MacField = NoMac | Mac(key: string, over: BlobManifest) | OtherMac(text: string)

  datatype BlobManifest = BlobManifest(
    version: int,
    runtimeID: string,
    namespace: string,
    store: string,
    bucket: string,
    objectType: string,
    snapshotID: string,
    generation: int,
    chunkSize: int,
    totalBytes: int,
    compression: string,
    encryption: string,
    chunks: seq<BlobChunk>,
    siaObject: string,
    mac: MacField,
    fallback: Option<BlobManifest>)

  /** What the runtime's key material gives for manifests: the MAC key and the namespace. */
  datatype RuntimeKeys = RuntimeKeys(macKey: string, namespace: string)

  // ---------------------------------------------------------------- validity

  predicate IsSpace(c: char) {
    c == ' ' || '\t' <= c <= '\r' || c == '\U{85}' || c == '\U{A0}'
  }

  predicate Blank(s: string) {
    forall i :: 0 <= i < |s| ==> IsSpace(s[i])
  }

  /** strings.TrimSpace(s) == s. */
  predicate Trimmed(s: string) {
    s != "" ==> !IsSpace(s[0]) && !IsSpace(s[|s| - 1])
  }

  predicate Hex64(s: string) {
    |s| == 64 && forall i :: 0 <= i < |s| ==> '0' <= s[i] <= '9' || 'a' <= s[i] <= 'f' || 'A' <= s[i] <= 'F'
  }

  predicate ValidSnapshotID(id: string) {
    !Blank(id) && Trimmed(id) && id != "." && id != ".." && '/' !in id && '\\' !in id
  }

  function KeyPrefix(m: BlobManifest, runtimeID: string): string {
    (if m.version == 3 then m.namespace else runtimeID) + "/" + m.snapshotID
  }

  predicate ValidChunkKey(m: BlobManifest, runtimeID: string, index: nat, key: string) {
    && !Blank(key) && Trimmed(key) && (key != "" ==> key[0] != '/')
    && (runtimeID != "" ==> key == ChunkKey(KeyPrefix(m, runtimeID), index))
  }

  predicate ValidChunk(m: BlobManifest, runtimeID: string, index: nat, chunk: BlobChunk) {
    && chunk.index == index
    && ValidChunkKey(m, runtimeID, index, chunk.key)
    && 0 < chunk.size <= m.chunkSize && chunk.size <= MAX_BLOB_CHUNK_SIZE
    && |chunk.sha256| == 64
  }

  predicate ValidMacField(m: BlobManifest) {
    if m.version == 3 then
      && m.generation >= 0 && Hex64(m.namespace)
      && (m.mac.Mac? || (m.mac.OtherMac? && Hex64(m.mac.text)))
    else m.namespace == "" && m.mac.NoMac?
  }

  predicate ValidHeader(m: BlobManifest, runtimeID: string) {
    && (m.version == 1 || m.version == 2 || m.version == 3)
    && (m.version >= 2 ==> !Blank(m.runtimeID) && (runtimeID != "" ==> m.runtimeID == runtimeID))
    && ValidMacField(m)
    && m.objectType == OBJECT_TYPE
    && m.encryption == (if m.version == 3 then AUTHENTICATED_ENCRYPTION
                        else if m.version == 2 then RUNTIME_BOUND_ENCRYPTION else PLAIN_ENCRYPTION)
    && m.compression == COMPRESSION
    && 0 < |m.chunks| <= MAX_BLOB_MANIFEST_CHUNKS
    && 0 < m.chunkSize <= MAX_BLOB_CHUNK_SIZE
    && 0 < m.totalBytes <= MAX_BLOB_SNAPSHOT_BYTES
    && ValidSnapshotID(m.snapshotID)
  }

  predicate ValidStore(m: BlobManifest) {
    if m.store == SIA_STORE then m.version == 3 && Hex64(m.siaObject) else m.siaObject == ""
  }

  /** The chunks are listed in order under their keys and sum to the total. */
  ghost predicate ValidChunks(m: BlobManifest, runtimeID: string) {
    && (forall i :: 0 <= i < |m.chunks| ==> ValidChunk(m, runtimeID, i, m.chunks[i]))
    && TotalSize(m.chunks) == m.totalBytes
  }

  /** A manifest the node acts on: a fallback is valid too, elsewhere, and has none of its own. */
  ghost predicate Valid(m: BlobManifest, runtimeID: string)
    decreases m
  {
    && ValidHeader(m, runtimeID)
    && ValidChunks(m, runtimeID)
    && ValidStore(m)
    && (m.fallback.Some? ==>
          && m.version == 3
          && m.fallback.value.fallback.None?
          && m.fallback.value.store != m.store
          && Valid(m.fallback.value, runtimeID))
  }

  lemma {:induction false} SizesOnlyGrow(chunks: seq<BlobChunk>, n: nat)
    requires n <= |chunks| && forall i :: 0 <= i < |chunks| ==> chunks[i].size > 0
    ensures 0 <= TotalSize(chunks[..n]) <= TotalSize(chunks)
    decreases |chunks|
  {
    if n < |chunks| {
      var last := |chunks| - 1;
      SizesOnlyGrow(chunks[..last], n);
      assert chunks[..last][..n] == chunks[..n];
    } else {
      assert chunks[..n] == chunks;
      if n > 0 { SizesOnlyGrow(chunks[..n - 1], n - 1); assert chunks[..n - 1][..n - 1] == chunks[..n - 1]; }
    }
  }

  /** The validation loop: checks each chunk and adds up sizes, stopping before the sum passes the limit. */
  method SumSizes(chunks: seq<BlobChunk>, valid: (nat, BlobChunk) -> bool) returns (total: Result<int>)
    requires forall i, chunk :: valid(i, chunk) ==> chunk.size > 0
    ensures total.Ok? <==>
              && (forall i :: 0 <= i < |chunks| ==> valid(i, chunks[i]))
              && TotalSize(chunks) <= MAX_BLOB_SNAPSHOT_BYTES
    ensures total.Ok? ==> total.value == TotalSize(chunks)
  {
    var index, sum := 0, 0;
    while index < |chunks|
      invariant 0 <= index <= |chunks|
      invariant forall i :: 0 <= i < index ==> valid(i, chunks[i])
      invariant 0 <= sum == TotalSize(chunks[..index]) <= MAX_BLOB_SNAPSHOT_BYTES
    {
      if !valid(index, chunks[index]) { return Err; }
      assert chunks[..index + 1][..index] == chunks[..index];
      if sum > MAX_BLOB_SNAPSHOT_BYTES - chunks[index].size {
        if forall i :: 0 <= i < |chunks| ==> valid(i, chunks[i]) { SizesOnlyGrow(chunks, index + 1); }
        return Err;
      }
      sum := sum + chunks[index].size;
      index := index + 1;
    }
    assert chunks[..index] == chunks;
    return Ok(sum);
  }

  /** validateBlobManifestForRuntime. */
  method ValidateBlobManifestForRuntime(m: BlobManifest, runtimeID: string) returns (ok: bool)
    ensures ok <==> Valid(m, runtimeID)
    decreases m
  {
    if !ValidHeader(m, runtimeID) { return false; }
    var total := SumSizes(m.chunks, (i: nat, chunk: BlobChunk) => ValidChunk(m, runtimeID, i, chunk));
    if total.Err? || m.totalBytes != total.value || !ValidStore(m) { return false; }
    if m.fallback.None? { return true; }
    var fallback := m.fallback.value;
    if m.version != 3 || fallback.fallback.Some? || fallback.store == m.store { return false; }
    ok := ValidateBlobManifestForRuntime(fallback, runtimeID);
  }

  // ---------------------------------------------------------------- authentication

  function Unsigned(m: BlobManifest): BlobManifest {
    m.(mac := NoMac)
  }

  /** authenticateBlobManifest: only version 3 can carry a MAC. */
  function Authenticate(m: BlobManifest, keys: RuntimeKeys): Result<BlobManifest> {
    if m.version != 3 then Err else Ok(m.(mac := Mac(keys.macKey, Unsigned(m))))
  }

  /** verifyBlobManifestAuthentication: versions before 3 have nothing to verify. */
  predicate Verifies(m: BlobManifest, keys: RuntimeKeys) {
    m.version >= 3 ==> m.mac == Mac(keys.macKey, Unsigned(m)) && m.namespace == keys.namespace
  }

  /** A MAC covers every field, the fallback's included: a changed manifest no longer verifies. */
  lemma MacCoversEverything(m: BlobManifest, changed: BlobManifest, keys: RuntimeKeys)
    requires m.version == 3 && Verifies(m, keys)
    requires changed.mac == m.mac && changed.version >= 3 && Verifies(changed, keys)
    ensures changed == m
  {
    assert Unsigned(changed) == Unsigned(m);
    assert changed == Unsigned(changed).(mac := m.mac) && m == Unsigned(m).(mac := m.mac);
  }

  /** What verifies is exactly what was authenticated with this key, in this key's namespace. */
  lemma VerifiesIffAuthenticated(m: BlobManifest, keys: RuntimeKeys)
    requires m.version == 3
    ensures Verifies(m, keys) <==>
              m.namespace == keys.namespace && exists original :: Authenticate(original, keys) == Ok(m)
  {
    if Verifies(m, keys) {
      assert Authenticate(m, keys) == Ok(m);
    }
    if original :| Authenticate(original, keys) == Ok(m) {
      assert Unsigned(m) == Unsigned(original);
    }
  }

  /** A manifest authenticated with one key does not verify with another. */
  lemma OtherKeyIsRefused(m: BlobManifest, signer: RuntimeKeys, keys: RuntimeKeys)
    requires Authenticate(m, signer).Ok? && signer.macKey != keys.macKey
    ensures !Verifies(Authenticate(m, signer).value, keys)
  {
    assert Authenticate(m, signer).value.mac.key == signer.macKey;
  }

  /** One manifest, one key: MAC key and namespace are those it was made with. */
  lemma VerifiesForOneKey(m: BlobManifest, a: RuntimeKeys, b: RuntimeKeys)
    requires m.version == 3 && Verifies(m, a) && Verifies(m, b)
    ensures a == b
  {
    assert Mac(a.macKey, Unsigned(m)).key == Mac(b.macKey, Unsigned(m)).key;
  }

  // ---------------------------------------------------------------- quota

  /** manifestStorageBytes, on a manifest that validates. */
  function StorageBytes(m: BlobManifest): int {
    m.totalBytes + if m.fallback.Some? then m.fallback.value.totalBytes else 0
  }

  /** enforceRuntimeStorageQuota: no check unless the control plane reported both numbers. */
  predicate WithinQuota(bytes: int, current: Option<BlobManifest>, limit: Option<int>, used: Option<int>) {
    limit.Some? && used.Some? ==>
      && limit.value >= 0 && used.value >= 0
      && var others := Max(used.value - (if current.Some? then StorageBytes(current.value) else 0), 0);
         limit.value > 0 && bytes <= limit.value - others
  }

  /** A save is within the quota exactly when the account's use stays within it once the save has replaced the current manifest. */
  lemma WithinQuotaIff(bytes: int, current: Option<BlobManifest>, limit: int, used: int)
    requires 0 <= (if current.Some? then StorageBytes(current.value) else 0) <= used && bytes > 0
    ensures var replaced := if current.Some? then StorageBytes(current.value) else 0;
            WithinQuota(bytes, current, Some(limit), Some(used)) <==> used - replaced + bytes <= limit
  {
  }

  // ---------------------------------------------------------------- a save

  function NextGeneration(previous: Option<BlobManifest>, floor: Option<int>): Option<int> {
    NextSnapshotGeneration(if previous.Some? then Some(previous.value.generation) else None, floor)
  }

  /** What the node trusts: valid for the runtime, authentic, and with an authentic fallback. */
  ghost predicate Trusted(m: BlobManifest, runtimeID: string, keys: RuntimeKeys) {
    && Valid(m, runtimeID)
    && Verifies(m, keys)
    && (m.fallback.Some? ==> Verifies(m.fallback.value, keys))
  }

  /** What a store returns: a trusted version 3 manifest without number or fallback. */
  ghost predicate Candidate(m: BlobManifest, runtimeID: string, keys: RuntimeKeys) {
    Trusted(m, runtimeID, keys) && m.version == 3 && m.fallback.None?
  }

  lemma RenumberedIsTrusted(m: BlobManifest, generation: int, fallback: Option<BlobManifest>, runtimeID: string, keys: RuntimeKeys)
    requires Candidate(m, runtimeID, keys) && generation >= 0
    requires fallback.Some? ==>
               Trusted(fallback.value, runtimeID, keys) && fallback.value.fallback.None? && fallback.value.store != m.store
    ensures Trusted(Authenticate(m.(generation := generation, fallback := fallback), keys).value, runtimeID, keys)
  {
    var r := Authenticate(m.(generation := generation, fallback := fallback), keys).value;
    forall i | 0 <= i < |r.chunks| ensures ValidChunk(r, runtimeID, i, r.chunks[i]) {
      assert ValidChunk(m, runtimeID, i, m.chunks[i]);
    }
  }

  lemma StrippedIsTrusted(m: BlobManifest, runtimeID: string, keys: RuntimeKeys)
    requires Trusted(m, runtimeID, keys) && m.version == 3
    ensures Trusted(Authenticate(m.(fallback := None), keys).value, runtimeID, keys)
  {
    var r := Authenticate(m.(fallback := None), keys).value;
    forall i | 0 <= i < |r.chunks| ensures ValidChunk(r, runtimeID, i, r.chunks[i]) {
      assert ValidChunk(m, runtimeID, i, m.chunks[i]);
    }
  }

  predicate Switched(candidate: BlobManifest, previous: Option<BlobManifest>) {
    previous.Some? && previous.value.store != candidate.store
  }

  /** The fallback is the manifest committed before, without its own fallback; signed again only if it had one. */
  predicate KeepsPrevious(fallback: BlobManifest, previous: BlobManifest) {
    fallback == previous.(fallback := None, mac := if previous.fallback.Some? then fallback.mac else previous.mac)
  }

  /** Snapshots kept once the save commits: the new one, and the previous one across a store switch. */
  function BytesAfter(candidate: BlobManifest, previous: Option<BlobManifest>): int {
    candidate.totalBytes + if Switched(candidate, previous) then previous.value.totalBytes else 0
  }

  /** What the save commits, given what the store returned: only number, fallback and MAC are new. */
  predicate SavedAs(m: BlobManifest, candidate: BlobManifest, previous: Option<BlobManifest>) {
    && m == candidate.(generation := m.generation, fallback := m.fallback, mac := m.mac)
    && (m.fallback.Some? <==> Switched(candidate, previous))
    && (m.fallback.Some? ==> KeepsPrevious(m.fallback.value, previous.value))
  }

  /** The previous manifest as a fallback: signed again only when its own fallback was taken off. */
  method FallbackOf(previous: BlobManifest, runtimeID: string, keys: RuntimeKeys) returns (result: Result<BlobManifest>)
    requires Trusted(previous, runtimeID, keys)
    ensures result.Ok?
    ensures Trusted(result.value, runtimeID, keys) && KeepsPrevious(result.value, previous)
  {
    var fallback := previous;
    if fallback.fallback.Some? {
      StrippedIsTrusted(fallback, runtimeID, keys);
      fallback := fallback.(fallback := None);
      result := Authenticate(fallback, keys);
      return;
    }
    result := Ok(fallback);
  }

  /**
   * persistSessionData once the store returned its manifest: number it, keep the previous
   * generation as fallback across a store switch, and authenticate last.
   */
  method Complete(candidate: BlobManifest, previous: Option<BlobManifest>, floor: Option<int>,
                  runtimeID: string, keys: RuntimeKeys)
    returns (result: Result<BlobManifest>)
    requires Candidate(candidate, runtimeID, keys)
    requires previous.Some? ==> Trusted(previous.value, runtimeID, keys)
    requires floor.Some? ==> 0 <= floor.value < MAX_INT64
    ensures result.Ok? <==> NextGeneration(previous, floor).Some?
    ensures result.Ok? ==>
              && Trusted(result.value, runtimeID, keys)
              && NextGeneration(previous, floor) == Some(result.value.generation)
              && SavedAs(result.value, candidate, previous)
              && StorageBytes(result.value) == BytesAfter(candidate, previous)
  {
    var generation := NextGeneration(previous, floor);
    if generation.None? { return Err; }
    var manifest := candidate.(generation := generation.value);
    if previous.Some? && previous.value.store != manifest.store {
      var fallback := FallbackOf(previous.value, runtimeID, keys);
      manifest := manifest.(fallback := Some(fallback.value));
    }
    RenumberedIsTrusted(candidate, generation.value, manifest.fallback, runtimeID, keys);
    result := Authenticate(manifest, keys);
  }

  /** persistSessionData: the completed manifest, unless it does not fit the quota. */
  method PersistSessionData(candidate: BlobManifest, previous: Option<BlobManifest>, floor: Option<int>,
                            limit: Option<int>, used: Option<int>, runtimeID: string, keys: RuntimeKeys)
    returns (result: Result<BlobManifest>)
    requires Candidate(candidate, runtimeID, keys)
    requires previous.Some? ==> Trusted(previous.value, runtimeID, keys)
    requires floor.Some? ==> 0 <= floor.value < MAX_INT64
    ensures result.Ok? <==>
              NextGeneration(previous, floor).Some? && WithinQuota(BytesAfter(candidate, previous), previous, limit, used)
    ensures result.Ok? ==>
              && Trusted(result.value, runtimeID, keys)
              && NextGeneration(previous, floor) == Some(result.value.generation)
              && SavedAs(result.value, candidate, previous)
  {
    result := Complete(candidate, previous, floor, runtimeID, keys);
    if result.Ok? && !WithinQuota(StorageBytes(result.value), previous, limit, used) {
      result := Err;
    }
  }

  /** One stop's save: what the store returned, the floor noted by then and the quota reported. */
  datatype SaveRequest = SaveRequest(candidate: BlobManifest, floor: Option<int>, limit: Option<int>, used: Option<int>)

  /** Each number is above the ones before it, starting above the first manifest's. */
  ghost predicate Rising(first: Option<BlobManifest>, history: seq<BlobManifest>) {
    && (first.Some? ==> forall i :: 0 <= i < |history| ==> first.value.generation < history[i].generation)
    && (forall i, j :: 0 <= i < j < |history| ==> history[i].generation < history[j].generation)
  }

  function Newest(first: Option<BlobManifest>, history: seq<BlobManifest>): Option<BlobManifest> {
    if history == [] then first else Some(history[|history| - 1])
  }

  lemma RisingAppend(first: Option<BlobManifest>, history: seq<BlobManifest>, m: BlobManifest)
    requires Rising(first, history)
    requires Newest(first, history).Some? ==> Newest(first, history).value.generation < m.generation
    ensures Rising(first, history + [m])
  {
    var all := history + [m];
    assert forall i :: 0 <= i < |history| ==> all[i] == history[i];
    forall i, j | 0 <= i < j < |all| ensures all[i].generation < all[j].generation {
      if j == |history| {
        assert history[i].generation <= history[|history| - 1].generation;
      }
    }
  }

  /** Over any number of saves and store switches, every committed manifest is trusted and numbers rise. */
  method SaveAll(first: Option<BlobManifest>, requests: seq<SaveRequest>, runtimeID: string, keys: RuntimeKeys)
    returns (history: seq<BlobManifest>)
    requires first.Some? ==> Trusted(first.value, runtimeID, keys)
    requires forall i :: 0 <= i < |requests| ==>
               && Candidate(requests[i].candidate, runtimeID, keys)
               && (requests[i].floor.Some? ==> 0 <= requests[i].floor.value < MAX_INT64)
    ensures forall i :: 0 <= i < |history| ==> Trusted(history[i], runtimeID, keys)
    ensures Rising(first, history)
  {
    history := [];
    var current := first;
    var n := 0;
    while n < |requests|
      invariant 0 <= n <= |requests|
      invariant current == Newest(first, history)
      invariant forall i :: 0 <= i < |history| ==> Trusted(history[i], runtimeID, keys)
      invariant Rising(first, history)
    {
      var request := requests[n];
      var saved := PersistSessionData(request.candidate, current, request.floor, request.limit, request.used, runtimeID, keys);
      if saved.Ok? {
        RisingAppend(first, history, saved.value);
        history := history + [saved.value];
        current := Some(saved.value);
      }
      n := n + 1;
    }
  }
}
