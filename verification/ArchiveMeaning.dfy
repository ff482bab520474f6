/** What it means for a tree to have come back, said of the two trees alone. */
module ArchiveMeaning {
  import opened Common
  import opened Paths
  import opened Archive
  import opened ArchiveWalk
  import opened ArchiveRoundTrip

  const SECOND: int := 1_000_000_000

  /** Owner and group, the nine permission bits, and the nearest whole second, half seconds up. */
  predicate SameMeta(was: Meta, back: Meta) {
    && back.uid == was.uid && back.gid == was.gid
    && 0 <= back.mode < 0x200 && (was.mode - back.mode) % 0x200 == 0
    && back.mtime % SECOND == 0 && -SECOND < 2 * (back.mtime - was.mtime) <= SECOND
  }

  /** The entry at p is what the tree has there: same kind, contents and metadata, and so on below it. */
  ghost predicate EntryStands(child: Child, at: Path, fs: Fs)
    decreases child, 1
  {
    var p := at + [child.name];
    match child.node
    case Directory(meta, children) =>
      p in fs && fs[p].FsDirectory? && SameMeta(meta, fs[p].meta) && AllStand(children, p, fs)
    case Regular(meta, data) =>
      p in fs && fs[p].FsFile? && SameMeta(meta, fs[p].meta) && fs[p].data == data
    case Symlink(meta, target) =>
      p in fs && fs[p] == FsLink(meta.uid, meta.gid, target)
    case Transient => p !in fs
    case Unsupported => false
  }

  ghost predicate AllStand(children: seq<Child>, at: Path, fs: Fs)
    decreases children, 0
  {
    forall i :: 0 <= i < |children| ==> EntryStands(children[i], at, fs)
  }

  /** The tree has an entry at this path. */
  predicate Reaches(children: seq<Child>, p: Path)
    decreases |p|
  {
    && p != []
    && exists i :: 0 <= i < |children| && children[i].name == p[0] &&
                   (|p| == 1 || (children[i].node.Directory? && Reaches(children[i].node.children, p[1..])))
  }

  /** Everything in the tree but sockets, pipes and devices is there as it was, and nothing else is. */
  ghost predicate ComesBack(children: seq<Child>, fs: Fs) {
    AllStand(children, [], fs) && forall p :: p in fs ==> Reaches(children, p)
  }

  /** It leaves no choice. */
  lemma SameMetaIsUnique(was: Meta, a: Meta, b: Meta)
    requires SameMeta(was, a) && SameMeta(was, b)
    ensures a == b
  {
  }

  lemma KeptIsSame(meta: Meta)
    ensures SameMeta(meta, Kept(meta))
  {
  }

  // ---------------------------------------------------------------- the flat tree is the tree

  /** No file of a kind snapshots do not take. */
  ghost predicate Supported(children: seq<Child>)
    decreases children
  {
    forall i :: 0 <= i < |children| ==>
      && !children[i].node.Unsupported?
      && (children[i].node.Directory? ==> Supported(children[i].node.children))
  }

  lemma {:induction false} WalkedIsSupported(children: seq<Child>, prefix: string, depth: nat, count: nat, bytes: nat)
    requires WalkEntries(children, prefix, depth, count, bytes).Ok?
    ensures Supported(children)
    decreases children
  {
    if children != [] {
      var first := WalkEntry(children[0], prefix, depth, count, bytes).value;
      WalkedIsSupported(children[1..], prefix, depth, first.count, first.bytes);
      if children[0].node.Directory? {
        var path := RelativePath(prefix, children[0].name);
        assert WalkDirectory(children[0].node.children, path, depth + 1, count + 1, bytes).Ok?;
        WalkedIsSupported(children[0].node.children, path, depth + 1, count + 1, bytes);
      }
      forall i | 0 <= i < |children|
        ensures !children[i].node.Unsupported? && (children[i].node.Directory? ==> Supported(children[i].node.children))
      {
        if i > 0 { assert children[1..][i - 1] == children[i]; }
      }
    }
  }

  /** At and below an entry's path, the two trees are the same. */
  ghost predicate AgreeAt(fs: Fs, flat: Fs, at: Path, name: string) {
    forall p :: Under(p, at, name) ==> (p in fs <==> p in flat) && (p in fs ==> fs[p] == flat[p])
  }

  lemma {:induction false} FlatEntriesAgree(children: seq<Child>, at: Path, i: nat)
    requires PlainEntries(children) && i < |children|
    ensures AgreeAt(FlatEntries(children, at), FlatEntry(children[i], at), at, children[i].name)
    decreases children
  {
    var rest := children[1..];
    FlatEntryIsUnder(children[0], at);
    FlatEntriesAreUnder(rest, at);
    if i > 0 {
      PlainByParts(children);
      FlatEntriesAgree(rest, at, i - 1);
    }
  }

  lemma {:induction false} FlatEntryStands(child: Child, at: Path, fs: Fs)
    requires PlainEntries([child]) && Supported([child]) && AgreeAt(fs, FlatEntry(child, at), at, child.name)
    ensures EntryStands(child, at, fs)
    decreases child
  {
    var p := at + [child.name];
    assert [child][0] == child && Under(p, at, child.name) by { assert p[..|at|] == at; }
    if child.node.Directory? {
      var children := child.node.children;
      KeptIsSame(child.node.meta);
      forall i | 0 <= i < |children| ensures EntryStands(children[i], p, fs) {
        DeeperAgrees(child, at, fs, i);
        assert children[i..i + 1] == [children[i]];
        FlatEntryStands(children[i], p, fs);
      }
    } else if child.node.Regular? {
      KeptIsSame(child.node.meta);
    }
  }

  lemma DeeperAgrees(child: Child, at: Path, fs: Fs, i: nat)
    requires child.node.Directory? && PlainEntries(child.node.children) && i < |child.node.children|
    requires AgreeAt(fs, FlatEntry(child, at), at, child.name)
    ensures AgreeAt(fs, FlatEntry(child.node.children[i], at + [child.name]), at + [child.name], child.node.children[i].name)
  {
    var p, deeper := at + [child.name], child.node.children[i];
    FlatEntriesAgree(child.node.children, p, i);
    forall q | Under(q, p, deeper.name)
      ensures (q in fs <==> q in FlatEntry(deeper, p)) && (q in fs ==> fs[q] == FlatEntry(deeper, p)[q])
    {
      assert q[..|at|] == q[..|p|][..|at|] == at && q[|at|] == q[..|p|][|at|];
      assert Under(q, at, child.name) && q != p;
    }
  }

  lemma {:induction false} FlatEntryIsReached(child: Child, at: Path, p: Path)
    requires p in FlatEntry(child, at)
    ensures Under(p, at, child.name)
    ensures |p| == |at| + 1 || (child.node.Directory? && Reaches(child.node.children, p[|at| + 1..]))
    decreases child, 1
  {
    FlatEntryIsUnder(child, at);
    if child.node.Directory? && p != at + [child.name] {
      FlatEntriesAreReached(child.node.children, at + [child.name], p);
    }
  }

  lemma {:induction false} FlatEntriesAreReached(children: seq<Child>, at: Path, p: Path)
    requires p in FlatEntries(children, at)
    ensures |p| > |at| && Reaches(children, p[|at|..])
    decreases children, 0
  {
    var tail := if |p| > |at| then p[|at|..] else [];
    if p in FlatEntry(children[0], at) {
      FlatEntryIsReached(children[0], at, p);
      assert tail[1..] == p[|at| + 1..];
      assert children[0].name == tail[0];
    } else {
      FlatEntriesAreReached(children[1..], at, p);
      var i :| 0 <= i < |children[1..]| && children[1..][i].name == tail[0] &&
               (|tail| == 1 || (children[1..][i].node.Directory? && Reaches(children[1..][i].node.children, tail[1..])));
      assert children[i + 1] == children[1..][i];
    }
  }

  lemma FlatComesBack(children: seq<Child>)
    requires PlainEntries(children) && Supported(children)
    ensures ComesBack(children, FlatEntries(children, []))
  {
    var fs := FlatEntries(children, []);
    forall i | 0 <= i < |children| ensures EntryStands(children[i], [], fs) {
      FlatEntriesAgree(children, [], i);
      assert children[i..i + 1] == [children[i]];
      FlatEntryStands(children[i], [], fs);
    }
    forall p | p in fs ensures Reaches(children, p) {
      FlatEntriesAreReached(children, [], p);
      assert p[0..] == p;
    }
  }

  /**
   * The archive round trip in terms of the two trees: what a complete extraction leaves is the tree
   * that was archived, and it is complete if and only if every directory path leaves room for its slash.
   */
  lemma ArchivedTreeComesBack(children: seq<Child>, now: int)
    requires PlainEntries(children) && WalkRoot(children).Ok?
    ensures var outcome := Extract(map[], WalkRoot(children).value, now);
            && (outcome.Complete? <==> DirectoriesFit(children, []))
            && (outcome.Complete? ==> ComesBack(children, outcome.fs))
  {
    ArchiveRoundTrips(children, now);
    WalkedIsSupported(children, "", 0, 0, 0);
    FlatComesBack(children);
  }
}
