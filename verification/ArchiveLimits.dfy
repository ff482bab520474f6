/** A tree that is archived and does not come back: directories nested until a path is as long as allowed. */
module ArchiveLimits {
  import opened Common
  import opened Paths
  import opened Archive
  import opened ArchiveWalk
  import opened ArchiveRoundTrip

  /** A directory name of 240 bytes: seventeen of them with their slashes are 4096. */
  predicate LongName(name: string) {
    |name| == 240 && forall i :: 0 <= i < |name| ==> name[i] == 'd'
  }

  ghost predicate AllNamed(at: Path, name: string) {
    forall i :: 0 <= i < |at| ==> at[i] == name
  }

  /** A directory in a directory, n deep. */
  function Nested(name: string, meta: Meta, n: nat): seq<Child> {
    if n == 0 then [] else [Child(name, Directory(meta, Nested(name, meta, n - 1)))]
  }

  lemma {:induction false} JoinedLength(at: Path, name: string)
    requires LongName(name) && |at| > 0 && AllNamed(at, name)
    ensures |Join(at)| == 241 * |at| - 1
    ensures forall i :: 0 <= i < |Join(at)| ==> Join(at)[i] == 'd' || Join(at)[i] == '/'
    decreases |at|
  {
    if |at| > 1 { JoinedLength(at[1..], name); }
  }

  /** The walker accepts each of these directory paths up to the limit. */
  lemma PathAccepted(at: Path, name: string)
    requires LongName(name) && AllNamed(at, name) && |at| < 17
    ensures AllProper(at + [name])
    ensures Canonical(RelativePath(PathString(at), name), true) == Ok(Join(at + [name]))
    ensures |Join(at + [name])| == 241 * |at + [name]| - 1
  {
    var path := at + [name];
    JoinedLength(path, name);
    PathStringOf(at, name);
    CanonicalIff(Join(path), true);
  }

  lemma DirectoryWalks(at: Path, name: string, meta: Meta, below: seq<Child>)
    requires LongName(name) && AllNamed(at, name) && |at| < 17
    requires WalkEntries(below, PathString(at + [name]), |at| + 1, |at| + 1, 0).Ok?
    ensures WalkEntry(Child(name, Directory(meta, below)), PathString(at), |at|, |at|, 0).Ok?
  {
    PathAccepted(at, name);
    PathStringOf(at, name);
  }

  lemma {:induction false} NestedWalks(at: Path, name: string, meta: Meta, n: nat)
    requires LongName(name) && AllNamed(at, name) && |at| + n <= 17
    ensures WalkEntries(Nested(name, meta, n), PathString(at), |at|, |at|, 0).Ok?
    decreases n
  {
    if n > 0 {
      NestedWalks(at + [name], name, meta, n - 1);
      DirectoryWalks(at, name, meta, Nested(name, meta, n - 1));
      assert Nested(name, meta, n)[1..] == [];
    }
  }

  lemma {:induction false} NestedIsPlain(name: string, meta: Meta, n: nat)
    requires LongName(name)
    ensures PlainEntries(Nested(name, meta, n))
  {
    if n > 0 {
      NestedIsPlain(name, meta, n - 1);
      assert Proper(name);
    }
  }

  lemma {:induction false} NestedDoesNotFit(at: Path, name: string, meta: Meta, n: nat)
    requires LongName(name) && AllNamed(at, name) && n > 0 && |at| + n == 17
    ensures !DirectoriesFit(Nested(name, meta, n), at)
    decreases n
  {
    var children := Nested(name, meta, n);
    assert children[0].node.Directory?;
    if n == 1 {
      PathAccepted(at, name);
    } else {
      NestedDoesNotFit(at + [name], name, meta, n - 1);
    }
  }

  /** Seventeen nested directories: the snapshot is taken, and its extraction stops. */
  lemma DeepTreeIsLost(name: string, meta: Meta, now: int)
    requires LongName(name)
    ensures var children := Nested(name, meta, 17);
            PlainEntries(children) && WalkRoot(children).Ok? && Extract(map[], WalkRoot(children).value, now).Stopped?
  {
    NestedIsPlain(name, meta, 17);
    NestedWalks([], name, meta, 17);
    NestedDoesNotFit([], name, meta, 17);
    ArchiveRoundTrips(Nested(name, meta, 17), now);
  }
}
