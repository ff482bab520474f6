/** Deleting snapshots from renterd, with a journal of the deletions that failed. */
module Journal {
  import opened Common
  import opened Chunks
  import opened Manifests

  const MAX_PENDING_BLOB_DELETIONS: nat := 128
  const MAX_PENDING_DELETION_BYTES: nat := 0x400_0000

  /** How a request to delete one object ends; a failed one may still have removed it. */
  datatype DeleteOutcome = Removed | Failed | RemovedButFailed

  /** How replacing the journal file ends; a failed one may still have replaced it. */
  datatype WriteOutcome = Written | NotWritten | WrittenButFailed

  function Identity(m: BlobManifest): string {
    m.store + "\0" + m.bucket + "\0" + m.runtimeID + "\0" + m.namespace + "\0" + m.snapshotID
  }

  /** A valid renterd manifest: what the journal may hold. */
  ghost predicate Own(m: BlobManifest) {
    m.store == RENTERD_STORE && Valid(m, m.runtimeID)
  }

  /** Whatever the predicate accepts is a valid renterd manifest. */
  ghost predicate OnlyOwn(own: BlobManifest -> bool) {
    forall m {:trigger Own(m)} :: own(m) ==> Own(m)
  }

  ghost predicate Gone(chunks: seq<BlobChunk>, objects: set<string>) {
    forall i :: 0 <= i < |chunks| ==> chunks[i].key !in objects
  }

  /** What loadPendingBlobDeletions accepts. */
  ghost predicate Loadable(journal: seq<BlobManifest>, size: seq<BlobManifest> -> nat) {
    && |journal| <= MAX_PENDING_BLOB_DELETIONS
    && size(journal) <= MAX_PENDING_DELETION_BYTES
    && forall i :: 0 <= i < |journal| ==> Own(journal[i])
  }

  method OwnManifest(m: BlobManifest) returns (ok: bool)
    ensures ok <==> Own(m)
  {
    if m.store != RENTERD_STORE { return false; }
    ok := ValidateBlobManifestForRuntime(m, m.runtimeID);
  }

  // ---------------------------------------------------------------- deleting a manifest's objects

  predicate AllRemoved(chunks: seq<BlobChunk>, outcome: string -> DeleteOutcome) {
    forall i :: 0 <= i < |chunks| ==> outcome(chunks[i].key) == Removed
  }

  /** The loop over chunks: every object is tried, whatever happened to the ones before. */
  method DeleteChunks(objects: set<string>, chunks: seq<BlobChunk>, outcome: string -> DeleteOutcome)
    returns (left: set<string>, ok: bool)
    ensures left == objects - set i | 0 <= i < |chunks| && outcome(chunks[i].key) != Failed :: chunks[i].key
    ensures ok <==> AllRemoved(chunks, outcome)
  {
    left, ok := objects, true;
    var i := 0;
    while i < |chunks|
      invariant 0 <= i <= |chunks|
      invariant left == objects - set j | 0 <= j < i && outcome(chunks[j].key) != Failed :: chunks[j].key
      invariant ok <==> forall j :: 0 <= j < i ==> outcome(chunks[j].key) == Removed
    {
      var key := chunks[i].key;
      if outcome(key) != Failed { left := left - {key}; }
      if outcome(key) != Removed { ok := false; }
      i := i + 1;
    }
  }

  // ---------------------------------------------------------------- the journal's entries

  ghost predicate Listed<T>(journal: seq<T>, id: T -> string, identity: string) {
    exists i :: 0 <= i < |journal| && id(journal[i]) == identity
  }

  method IsListed<T>(journal: seq<T>, id: T -> string, identity: string) returns (listed: bool)
    ensures listed <==> Listed(journal, id, identity)
  {
    var i := 0;
    while i < |journal|
      invariant 0 <= i <= |journal|
      invariant forall j :: 0 <= j < i ==> id(journal[j]) != identity
    {
      if id(journal[i]) == identity { return true; }
      i := i + 1;
    }
    return false;
  }

  ghost predicate Distinct<T>(journal: seq<T>, id: T -> string) {
    forall i, j :: 0 <= i < j < |journal| ==> id(journal[i]) != id(journal[j])
  }

  /** The entries whose deletion did not fully succeed, in their order. */
  function Failures<T>(journal: seq<T>, n: nat, succeeded: seq<bool>): seq<T>
    requires n <= |journal| && n <= |succeeded|
  {
    if n == 0 then []
    else Failures(journal, n - 1, succeeded) + if succeeded[n - 1] then [] else [journal[n - 1]]
  }

  ghost predicate FailedIn<T>(journal: seq<T>, n: nat, succeeded: seq<bool>, m: T)
    requires n <= |journal| && n <= |succeeded|
  {
    exists i :: 0 <= i < n && journal[i] == m && !succeeded[i]
  }

  /** Failures keeps an entry exactly when its deletion failed. */
  lemma {:induction false} FailuresAre<T>(journal: seq<T>, n: nat, succeeded: seq<bool>)
    requires n <= |journal| && n <= |succeeded|
    ensures |Failures(journal, n, succeeded)| <= n
    ensures forall m :: m in Failures(journal, n, succeeded) <==> FailedIn(journal, n, succeeded, m)
  {
    if n > 0 {
      FailuresAre(journal, n - 1, succeeded);
      forall m ensures m in Failures(journal, n, succeeded) <==> FailedIn(journal, n, succeeded, m) {
        assert FailedIn(journal, n, succeeded, m) <==>
               FailedIn(journal, n - 1, succeeded, m) || (m == journal[n - 1] && !succeeded[n - 1]);
      }
    }
  }

  lemma {:induction false} FailuresStayDistinct<T>(journal: seq<T>, n: nat, succeeded: seq<bool>, id: T -> string)
    requires n <= |journal| && n <= |succeeded| && Distinct(journal, id)
    ensures Distinct(Failures(journal, n, succeeded), id)
  {
    if n > 0 {
      FailuresStayDistinct(journal, n - 1, succeeded, id);
      FailuresAre(journal, n - 1, succeeded);
      var before := Failures(journal, n - 1, succeeded);
      forall i | 0 <= i < |before| ensures id(before[i]) != id(journal[n - 1]) {
        assert before[i] in before && FailedIn(journal, n - 1, succeeded, before[i]);
        var j :| 0 <= j < n - 1 && journal[j] == before[i];
      }
    }
  }

  lemma {:induction false} FailuresExtend<T>(journal: seq<T>, n: nat, succeeded: seq<bool>, ok: bool)
    requires n < |journal| && n == |succeeded|
    ensures Failures(journal, n + 1, succeeded + [ok]) == Failures(journal, n, succeeded) + if ok then [] else [journal[n]]
  {
    FailuresSame(journal, n, succeeded, succeeded + [ok]);
  }

  lemma {:induction false} FailuresSame<T>(journal: seq<T>, n: nat, succeeded: seq<bool>, more: seq<bool>)
    requires n <= |journal| && n <= |succeeded| && succeeded <= more
    ensures Failures(journal, n, more) == Failures(journal, n, succeeded)
  {
    if n > 0 { FailuresSame(journal, n - 1, succeeded, more); }
  }

  /** After i entries the failures stand in front, and what is left to do is untouched. */
  ghost predicate Filtering<T>(manifests: seq<T>, pending: seq<T>, i: int, count: int, succeeded: seq<bool>) {
    && 0 <= count <= i <= |pending| == |manifests| && |succeeded| == i
    && (forall j :: i <= j < |pending| ==> manifests[j] == pending[j])
    && manifests[..count] == Failures(pending, i, succeeded)
  }

  lemma FilterNext<T>(manifests: seq<T>, pending: seq<T>, i: nat, count: nat, succeeded: seq<bool>, ok: bool)
    requires Filtering(manifests, pending, i, count, succeeded) && i < |pending|
    ensures if ok then Filtering(manifests, pending, i + 1, count, succeeded + [ok])
            else Filtering(manifests[count := manifests[i]], pending, i + 1, count + 1, succeeded + [ok])
  {
    FailuresExtend(pending, i, succeeded, ok);
    if !ok {
      assert manifests[count := manifests[i]][..count + 1] == manifests[..count] + [manifests[i]];
    }
  }

  // ---------------------------------------------------------------- what deletes and drains keep

  /** Each manifest asked to be deleted has no object left, or its identity is in the journal. */
  ghost predicate Covered(asked: set<BlobManifest>, journal: seq<BlobManifest>, objects: set<string>, id: BlobManifest -> string) {
    forall m :: m in asked ==> Gone(m.chunks, objects) || Listed(journal, id, id(m))
  }

  /** A snapshot id is never used again: one identity, one list of objects. */
  ghost predicate OneSnapshot(asked: set<BlobManifest>, id: BlobManifest -> string) {
    forall a, b :: a in asked && b in asked && id(a) == id(b) ==> a.chunks == b.chunks
  }

  lemma ListedAppend(journal: seq<BlobManifest>, m: BlobManifest, id: BlobManifest -> string, identity: string)
    ensures Listed(journal + [m], id, identity) <==> Listed(journal, id, identity) || id(m) == identity
  {
    var more := journal + [m];
    if Listed(journal, id, identity) {
      var i :| 0 <= i < |journal| && id(journal[i]) == identity;
      assert more[i] == journal[i];
    }
    assert more[|journal|] == m;
  }

  lemma DistinctAppend(journal: seq<BlobManifest>, m: BlobManifest, id: BlobManifest -> string)
    requires Distinct(journal, id) && !Listed(journal, id, id(m))
    ensures Distinct(journal + [m], id)
  {
  }

  lemma CoveredAppend(asked: set<BlobManifest>, journal: seq<BlobManifest>, m: BlobManifest, objects: set<string>, id: BlobManifest -> string)
    requires Covered(asked, journal, objects, id)
    ensures Covered(asked + {m}, journal + [m], objects, id)
  {
    forall a | a in asked + {m} ensures Gone(a.chunks, objects) || Listed(journal + [m], id, id(a)) {
      ListedAppend(journal, m, id, id(a));
    }
  }

  /** Entries that are dropped have no object left, so whoever they stand for is still covered. */
  lemma CoveredByFailures(asked: set<BlobManifest>, journal: seq<BlobManifest>, left: set<string>, id: BlobManifest -> string,
                          succeeded: seq<bool>)
    requires Covered(asked, journal, left, id) && OneSnapshot(asked, id) && |succeeded| == |journal|
    requires forall i :: 0 <= i < |journal| ==> journal[i] in asked
    requires forall i :: 0 <= i < |journal| && succeeded[i] ==> Gone(journal[i].chunks, left)
    ensures Covered(asked, Failures(journal, |journal|, succeeded), left, id)
  {
    var kept := Failures(journal, |journal|, succeeded);
    FailuresAre(journal, |journal|, succeeded);
    forall m | m in asked && !Gone(m.chunks, left) ensures Listed(kept, id, id(m)) {
      var i :| 0 <= i < |journal| && id(journal[i]) == id(m);
      assert !succeeded[i];
      assert FailedIn(journal, |journal|, succeeded, journal[i]);
      var k :| 0 <= k < |kept| && kept[k] == journal[i];
    }
  }

  lemma CoveredShrinks(asked: set<BlobManifest>, journal: seq<BlobManifest>, objects: set<string>, left: set<string>, id: BlobManifest -> string)
    requires Covered(asked, journal, objects, id) && left <= objects
    ensures Covered(asked, journal, left, id)
  {
  }

  /** What was kept was there before. */
  lemma KeptWereThere<T>(journal: seq<T>, kept: seq<T>, succeeded: seq<bool>, k: nat) returns (i: nat)
    requires |succeeded| == |journal| && kept == Failures(journal, |journal|, succeeded) && k < |kept|
    ensures i < |journal| && kept[k] == journal[i]
  {
    FailuresAre(journal, |journal|, succeeded);
    assert FailedIn(journal, |journal|, succeeded, kept[k]);
    i :| 0 <= i < |journal| && journal[i] == kept[k];
  }

  /** What was kept of a good journal is a good journal. */
  lemma DrainedJournal(asked: set<BlobManifest>, journal: seq<BlobManifest>, kept: seq<BlobManifest>, succeeded: seq<bool>, id: BlobManifest -> string)
    requires |succeeded| == |journal| && kept == Failures(journal, |journal|, succeeded)
    requires Distinct(journal, id) && forall i :: 0 <= i < |journal| ==> journal[i] in asked && Own(journal[i])
    ensures |kept| <= |journal| && Distinct(kept, id)
    ensures forall k :: 0 <= k < |kept| ==> kept[k] in asked && Own(kept[k])
  {
    FailuresAre(journal, |journal|, succeeded);
    FailuresStayDistinct(journal, |journal|, succeeded, id);
    forall k | 0 <= k < |kept| ensures kept[k] in asked && Own(kept[k]) {
      var i := KeptWereThere(journal, kept, succeeded, k);
    }
  }

  /** What every delete and drain keeps. */
  ghost predicate Good(asked: set<BlobManifest>, journal: seq<BlobManifest>, objects: set<string>,
                       id: BlobManifest -> string, size: seq<BlobManifest> -> nat) {
    && Loadable(journal, size)
    && Distinct(journal, id)
    && (forall i :: 0 <= i < |journal| ==> journal[i] in asked)
    && OneSnapshot(asked, id)
    && Covered(asked, journal, objects, id)
  }

  lemma DrainKeepsGood(asked: set<BlobManifest>, journal: seq<BlobManifest>, kept: seq<BlobManifest>, succeeded: seq<bool>,
                       objects: set<string>, left: set<string>, id: BlobManifest -> string, size: seq<BlobManifest> -> nat)
    requires Good(asked, journal, objects, id, size) && left <= objects
    requires |succeeded| == |journal| && kept == Failures(journal, |journal|, succeeded)
    requires forall i :: 0 <= i < |journal| && succeeded[i] ==> Gone(journal[i].chunks, left)
    ensures Good(asked, journal, left, id, size)
    ensures size(kept) <= MAX_PENDING_DELETION_BYTES ==> Good(asked, kept, left, id, size)
  {
    DrainedJournal(asked, journal, kept, succeeded, id);
    CoveredShrinks(asked, journal, objects, left, id);
    CoveredByFailures(asked, journal, left, id, succeeded);
  }

  // ---------------------------------------------------------------- the store

  class RenterdBlobStore {
    const bucket: string
    /** Whether a journal path is configured. */
    const journaling: bool
    /** Identity; the contracts use it only as a function. */
    const identity: BlobManifest -> string
    /** The length of the journal file. */
    const size: seq<BlobManifest> -> nat
    /** The objects in the bucket. */
    var objects: set<string>
    var journal: seq<BlobManifest>
    /** Manifests whose deletion was asked for, apart from calls that returned a journal error. */
    ghost var asked: set<BlobManifest>

    ghost predicate Valid()
      reads this
    {
      Good(asked, journal, objects, identity, size)
    }

    /** A store with an empty journal, whatever objects the bucket holds. */
    constructor (bucket: string, journaling: bool, size: seq<BlobManifest> -> nat, objects: set<string>)
      requires size([]) <= MAX_PENDING_DELETION_BYTES
      ensures Valid() && identity == Identity
      ensures this.bucket == bucket && this.journaling == journaling && this.size == size
      ensures this.objects == objects && journal == [] && asked == {}
    {
      this.bucket, this.journaling, this.identity, this.size := bucket, journaling, Identity, size;
      this.objects, journal, asked := objects, [], {};
    }

    ghost predicate Deletable(m: BlobManifest) {
      Own(m) && (Blank(m.bucket) || m.bucket == bucket)
    }

    method DeleteManifestObjects(m: BlobManifest, outcome: string -> DeleteOutcome) returns (ok: bool)
      modifies this`objects
      ensures ok <==> Deletable(m) && AllRemoved(m.chunks, outcome)
      ensures ok ==> Gone(m.chunks, objects)
      ensures objects <= old(objects)
      ensures forall key :: key in old(objects) && key !in objects ==>
                Deletable(m) && outcome(key) != Failed && exists i :: 0 <= i < |m.chunks| && m.chunks[i].key == key
    {
      var own := OwnManifest(m);
      if !own { return false; }
      if !Blank(m.bucket) && m.bucket != bucket { return false; }
      objects, ok := DeleteChunks(objects, m.chunks, outcome);
    }

    method WriteJournal(pending: seq<BlobManifest>, write: WriteOutcome) returns (ok: bool)
      modifies this`journal
      ensures ok <==> size(pending) <= MAX_PENDING_DELETION_BYTES && write == Written
      ensures journal == if size(pending) <= MAX_PENDING_DELETION_BYTES && write != NotWritten then pending else old(journal)
    {
      if size(pending) > MAX_PENDING_DELETION_BYTES { return false; }
      if write != NotWritten { journal := pending; }
      ok := write == Written;
    }

    /** The checks of loadPendingBlobDeletions. */
    method LoadJournal() returns (ok: bool)
      ensures ok <==> Loadable(journal, size)
    {
      if size(journal) > MAX_PENDING_DELETION_BYTES || |journal| > MAX_PENDING_BLOB_DELETIONS { return false; }
      var i := 0;
      while i < |journal|
        invariant 0 <= i <= |journal|
        invariant forall j :: 0 <= j < i ==> Own(journal[j])
      {
        ok := OwnManifest(journal[i]);
        if !ok { return; }
        i := i + 1;
      }
      ok := true;
    }

    /** There is room in the journal, and the manifest is not in it. */
    ghost predicate Appends(pending: seq<BlobManifest>, m: BlobManifest) {
      && journaling && Loadable(pending, size) && !Listed(pending, identity, identity(m))
      && |pending| < MAX_PENDING_BLOB_DELETIONS && size(pending + [m]) <= MAX_PENDING_DELETION_BYTES
    }

    /** enqueuePendingDeletion. */
    method Enqueue(m: BlobManifest, write: WriteOutcome) returns (ok: bool)
      modifies this`journal
      ensures journal == old(journal) || (journaling && journal == old(journal) + [m] && !Listed(old(journal), identity, identity(m)))
      ensures journal != old(journal) ==> |journal| <= MAX_PENDING_BLOB_DELETIONS && size(journal) <= MAX_PENDING_DELETION_BYTES
      ensures ok && journaling ==> Loadable(old(journal), size) && Listed(journal, identity, identity(m))
      ensures !journaling ==> ok
      ensures Appends(old(journal), m) && write != NotWritten ==> journal == old(journal) + [m]
    {
      if !journaling { return true; }
      ok := LoadJournal();
      if !ok { return; }
      var listed := IsListed(journal, identity, identity(m));
      if listed { return true; }
      if |journal| >= MAX_PENDING_BLOB_DELETIONS { return false; }
      ListedAppend(journal, m, identity, identity(m));
      ok := WriteJournal(journal + [m], write);
    }

    /** deleteManifest: on a failure the manifest is journaled, or the caller is told it is not. */
    method DeleteManifest(m: BlobManifest, outcome: string -> DeleteOutcome, write: WriteOutcome)
      returns (deleted: bool, journaled: bool)
      requires Valid() && Own(m) && OneSnapshot(asked + {m}, identity)
      modifies this
      ensures Valid() && old(asked) <= asked
      ensures deleted || (journaled && journaling) ==> m in asked
      ensures deleted <==> (Blank(m.bucket) || m.bucket == bucket) && AllRemoved(m.chunks, outcome)
      ensures deleted ==> Gone(m.chunks, objects) && journal == old(journal)
      ensures journal == old(journal) || journal == old(journal) + [m]
      ensures !deleted && journaling && journaled ==> Listed(journal, identity, identity(m))
      ensures !journaling ==> journaled && journal == old(journal)
    {
      deleted := DeleteManifestObjects(m, outcome);
      journaled := true;
      assert Covered(asked, journal, objects, identity);
      if deleted {
        asked := asked + {m};
        return;
      }
      ghost var before := journal;
      CoveredAppend(asked, journal, m, objects, identity);
      journaled := Enqueue(m, write);
      if journal != before { DistinctAppend(before, m, identity); }
      if journal != before || (journaled && journaling) { asked := asked + {m}; }
    }

    /**
     * The same call on any manifest there is room for: one that is not a valid renterd manifest cannot be
     * deleted, is journaled all the same, and from then on the journal does not load.
     */
    method DeleteAny(m: BlobManifest, outcome: string -> DeleteOutcome) returns (deleted: bool)
      requires Appends(journal, m)
      modifies this`objects, this`journal
      ensures Loadable(journal, size) <==> Own(m)
      ensures !Own(m) ==> !deleted && journal == old(journal) + [m]
    {
      deleted := DeleteManifestObjects(m, outcome);
      if !deleted {
        var journaled := Enqueue(m, Written);
        assert journal[|old(journal)|] == m;
      }
    }

    /** The deletion of an entry of the journal succeeds: it is in this bucket and every object was removed. */
    predicate Succeeds(i: nat, m: BlobManifest, outcome: (nat, string) -> DeleteOutcome) {
      (Blank(m.bucket) || m.bucket == bucket) && forall j :: 0 <= j < |m.chunks| ==> outcome(i, m.chunks[j].key) == Removed
    }

    method Retry(i: nat, m: BlobManifest, outcome: (nat, string) -> DeleteOutcome, ghost own: BlobManifest -> bool) returns (ok: bool)
      requires own(m) && OnlyOwn(own)
      modifies this`objects
      ensures objects <= old(objects) && (ok ==> Gone(m.chunks, objects))
      ensures ok <==> Succeeds(i, m, outcome)
    {
      assert Own(m);
      ok := DeleteManifestObjects(m, key => outcome(i, key));
    }

    /** The loop of drainPendingDeletions: the list is filtered in place, failures moving to the front. */
    method FilterInPlace(outcome: (nat, string) -> DeleteOutcome, ghost own: BlobManifest -> bool)
      returns (kept: seq<BlobManifest>, succeeded: seq<bool>)
      requires OnlyOwn(own) && forall i :: 0 <= i < |journal| ==> own(journal[i])
      modifies this`objects
      ensures objects <= old(objects)
      ensures |succeeded| == |journal| && kept == Failures(journal, |journal|, succeeded)
      ensures forall i :: 0 <= i < |journal| ==> succeeded[i] == Succeeds(i, journal[i], outcome)
      ensures forall i :: 0 <= i < |journal| && succeeded[i] ==> Gone(journal[i].chunks, objects)
    {
      var pending := journal;
      var manifests, i, count := pending, 0, 0;
      succeeded := [];
      while i < |pending|
        invariant Filtering(manifests, pending, i, count, succeeded)
        invariant objects <= old(objects) && journal == pending
        invariant forall j :: 0 <= j < i ==> succeeded[j] == Succeeds(j, pending[j], outcome)
        invariant forall j :: 0 <= j < i && succeeded[j] ==> Gone(pending[j].chunks, objects)
      {
        var manifest := manifests[i];
        var ok := Retry(i, manifest, outcome, own);
        FilterNext(manifests, pending, i, count, succeeded, ok);
        if !ok { manifests, count := manifests[count := manifest], count + 1; }
        succeeded := succeeded + [ok];
        i := i + 1;
      }
      kept := manifests[..count];
    }

    /** The journal always loads. */
    method Loads() returns (ok: bool)
      requires Valid()
      ensures ok
    {
      ok := LoadJournal();
    }

    /** drainPendingDeletions. */
    method Drain(outcome: (nat, string) -> DeleteOutcome, write: WriteOutcome)
      returns (remaining: nat, ok: bool, succeeded: seq<bool>)
      requires Valid()
      modifies this`objects, this`journal
      ensures Valid()
      ensures !journaling ==> journal == old(journal)
      ensures journaling ==>
                && |succeeded| == |old(journal)|
                && (forall i :: 0 <= i < |succeeded| ==> succeeded[i] == Succeeds(i, old(journal)[i], outcome))
                && remaining == |Failures(old(journal), |old(journal)|, succeeded)|
                && (journal == Failures(old(journal), |old(journal)|, succeeded) || (!ok && journal == old(journal)))
      ensures ok && journaling ==> journal == [] && remaining == 0
    {
      remaining, ok, succeeded := 0, true, [];
      if !journaling { return; }
      ok := Loads();
      if |journal| == 0 { return; }
      var kept;
      kept, succeeded := FilterInPlace(outcome, m => Own(m));
      DrainKeepsGood(asked, journal, kept, succeeded, old(objects), objects, identity, size);
      remaining := |kept|;
      ok := WriteJournal(kept, write);
      ok := ok && |kept| == 0;
    }
  }
}
