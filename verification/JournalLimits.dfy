/** Where the deletion journal stops loading: a manifest a restore accepts and no delete does. */
module JournalLimits {
  import opened Common
  import opened Paths
  import opened Chunks
  import opened Manifests
  import opened ManifestMeaning
  import opened Journal

  /** The runtime id is a plain name, as a key's first component has to be. */
  predicate PlainID(id: string) {
    !Blank(id) && Trimmed(id) && Proper(id)
  }

  /**
   * Version 1 does not bind the runtime id field. A manifest of one runtime that carries the id of
   * another restores for the one, and is refused by every delete, which goes by the field.
   */
  lemma MisnamedIsNotOwn(m: BlobManifest, runtimeID: string)
    requires m.version == 1 && Valid(m, runtimeID)
    requires Proper(runtimeID) && Proper(m.runtimeID) && m.runtimeID != runtimeID
    ensures !Own(m)
  {
    assert Proper(m.snapshotID);
    KeysOfRuntimesDiffer(runtimeID, m.runtimeID, m.snapshotID, 0);
    assert ValidChunk(m, runtimeID, 0, m.chunks[0]);
    assert !ValidChunk(m, m.runtimeID, 0, m.chunks[0]);
  }

  /** One byte of runtime a's snapshot under the id of b. */
  function Misnamed(a: string, b: string): BlobManifest {
    BlobManifest(1, b, "", RENTERD_STORE, "bucket", OBJECT_TYPE, "s", 0, 1, 1, COMPRESSION, PLAIN_ENCRYPTION,
                 [BlobChunk(0, ChunkKey(a + "/" + "s", 0), 1, seq(64, _ => '0'))], "", NoMac, None)
  }

  lemma MisnamedIsValid(a: string, b: string)
    requires PlainID(a)
    ensures Valid(Misnamed(a, b), a)
  {
    var m := Misnamed(a, b);
    var key := ChunkKey(a + "/" + "s", 0);
    ChunkKeyIsPlain(a, "s", 0);
    assert key[0] == a[0] && key[|key| - 1] == 'n';
    assert m.chunks[..0] == [];
    assert ValidChunk(m, a, 0, m.chunks[0]);
  }

  /** From an empty journal, with every object deletable and every write done: one delete, and nothing loads. */
  method OneDeleteBlocksTheJournal(a: string, b: string) returns (m: BlobManifest, deleted: bool, loads: bool)
    requires PlainID(a) && PlainID(b) && a != b
    ensures Valid(m, a) && !deleted && !loads
  {
    m := Misnamed(a, b);
    MisnamedIsValid(a, b);
    MisnamedIsNotOwn(m, a);
    var store := new RenterdBlobStore("bucket", true, journal => |journal|, {});
    deleted := store.DeleteAny(m, key => Removed);
    loads := store.LoadJournal();
  }

  // ---------------------------------------------------------------- identities

  predicate NulFree(s: string) {
    '\0' !in s
  }

  /** The fields an identity is made of can be told apart in it. */
  predicate Separable(m: BlobManifest) {
    NulFree(m.store) && NulFree(m.bucket) && NulFree(m.runtimeID) && NulFree(m.namespace) && NulFree(m.snapshotID)
  }

  lemma UpToNul(a: string, restA: string, b: string, restB: string)
    requires NulFree(a) && NulFree(b) && a + "\0" + restA == b + "\0" + restB
    ensures a == b && restA == restB
  {
    var s := a + "\0" + restA;
    assert s[|a|] == '\0' && s[|b|] == '\0';
    assert forall i :: 0 <= i < |a| ==> s[i] == a[i];
    assert forall i :: 0 <= i < |b| ==> s[i] == b[i];
    assert s[..|a|] == a && s[..|b|] == b && s[|a| + 1..] == restA && s[|b| + 1..] == restB;
  }

  function IdentityFrom(fields: seq<string>): string
    requires fields != []
  {
    if |fields| == 1 then fields[0] else fields[0] + "\0" + IdentityFrom(fields[1..])
  }

  lemma {:induction false} FieldsFromIdentity(a: seq<string>, b: seq<string>)
    requires |a| == |b| > 0 && forall i :: 0 <= i < |a| ==> NulFree(a[i]) && NulFree(b[i])
    requires IdentityFrom(a) == IdentityFrom(b)
    ensures a == b
    decreases |a|
  {
    if |a| > 1 {
      UpToNul(a[0], IdentityFrom(a[1..]), b[0], IdentityFrom(b[1..]));
      FieldsFromIdentity(a[1..], b[1..]);
      assert a == [a[0]] + a[1..] && b == [b[0]] + b[1..];
    }
  }

  function Fields(m: BlobManifest): seq<string> {
    [m.store, m.bucket, m.runtimeID, m.namespace, m.snapshotID]
  }

  lemma IdentityIsJoined(m: BlobManifest)
    ensures Identity(m) == IdentityFrom(Fields(m))
  {
    var f := Fields(m);
    assert f[1..][1..][1..][1..] == [m.snapshotID];
    assert IdentityFrom(f[1..][1..][1..]) == m.namespace + "\0" + m.snapshotID;
    assert IdentityFrom(f[1..][1..]) == m.runtimeID + "\0" + IdentityFrom(f[1..][1..][1..]);
    assert IdentityFrom(f[1..]) == m.bucket + "\0" + IdentityFrom(f[1..][1..]);
    assert IdentityFrom(f) == m.store + "\0" + IdentityFrom(f[1..]);
  }

  /** Two manifests have one identity exactly when they name the same snapshot of the same runtime in the same place. */
  lemma IdentityIff(a: BlobManifest, b: BlobManifest)
    requires Separable(a) && Separable(b)
    ensures Identity(a) == Identity(b) <==>
              && a.store == b.store && a.bucket == b.bucket && a.runtimeID == b.runtimeID
              && a.namespace == b.namespace && a.snapshotID == b.snapshotID
  {
    IdentityIsJoined(a);
    IdentityIsJoined(b);
    if Identity(a) == Identity(b) {
      FieldsFromIdentity(Fields(a), Fields(b));
      assert Fields(a)[0] == Fields(b)[0] && Fields(a)[1] == Fields(b)[1] && Fields(a)[2] == Fields(b)[2];
      assert Fields(a)[3] == Fields(b)[3] && Fields(a)[4] == Fields(b)[4];
    }
  }

  /** If no snapshot id was ever used for two lists of objects, an identity stands for one list. */
  lemma SnapshotsHaveOneIdentity(asked: set<BlobManifest>)
    requires forall m :: m in asked ==> Separable(m)
    requires forall a, b :: a in asked && b in asked && a.snapshotID == b.snapshotID ==> a.chunks == b.chunks
    ensures OneSnapshot(asked, Identity)
  {
    forall a, b | a in asked && b in asked && Identity(a) == Identity(b) ensures a.chunks == b.chunks {
      IdentityIff(a, b);
    }
  }
}
