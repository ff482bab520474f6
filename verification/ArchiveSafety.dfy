/**
 * Extraction is safe for every archive, hostile or not: no operation acts
 * through a symbolic link, everything made lies below the root, and nothing
 * that exists changes its kind.
 */
module ArchiveSafety {
  import opened Common
  import opened Paths
  import opened Archive

  /** Plain names all the way, and real directories above every node. */
  ghost predicate Tree(fs: Fs) {
    && (forall p :: p in fs ==> |p| > 0 && AllProper(p))
    && (forall p, k :: p in fs && 0 < k < |p| ==> IsDirectory(fs, p[..k]))
  }

  /** Nothing is lost or changes kind; files and links stay exactly as they are. */
  ghost predicate Grows(before: Fs, after: Fs) {
    forall p :: p in before ==>
      && p in after
      && (if before[p].FsDirectory? then after[p].FsDirectory? else after[p] == before[p])
  }

  /** Every directory above p, and p itself when asked, is missing or a directory. */
  ghost predicate ClearPath(fs: Fs, p: Path) {
    forall k :: 0 < k <= |p| && p[..k] in fs ==> fs[p[..k]].FsDirectory?
  }

  lemma {:induction false} NoSymlinksClears(fs: Fs, p: Path, k: nat)
    requires Tree(fs) && k < |p| && NoSymlinks(fs, p, k)
    requires forall j :: 0 < j <= k ==> IsDirectory(fs, p[..j])
    ensures ClearPath(fs, Parent(p))
    ensures p in fs ==> !fs[p].FsLink?
    decreases |p| - k
  {
    assert p[..|p|] == p;
    forall j | 0 < j <= |Parent(p)| && Parent(p)[..j] in fs
      ensures fs[Parent(p)[..j]].FsDirectory?
    {
      assert Parent(p)[..j] == p[..j];
      if j > k {
        assert p[..j][..k + 1] == p[..k + 1];
        if j > k + 1 { assert IsDirectory(fs, p[..j][..k + 1]); }
        NoSymlinksClears(fs, p, k + 1);
      }
    }
    if p in fs {
      if k + 1 < |p| {
        assert IsDirectory(fs, p[..k + 1]);
        NoSymlinksClears(fs, p, k + 1);
      }
    }
  }

  lemma AddNodeSafe(fs: Fs, p: Path, node: FsNode, now: int)
    requires Tree(fs) && |p| > 0 && AllProper(p) && ClearPath(fs, Parent(p))
    requires |p| > 1 ==> IsDirectory(fs, Parent(p))
    ensures p in fs ==> AddNode(fs, p, node, now) == Exists
    ensures p !in fs ==>
              && AddNode(fs, p, node, now) == Done(Touch(fs, Parent(p), now)[p := node])
              && Tree(Touch(fs, Parent(p), now)[p := node])
              && Grows(fs, Touch(fs, Parent(p), now)[p := node])
  {
    forall k | 0 < k < |p| && p[..k] in fs
      ensures !fs[p[..k]].FsLink?
    {
      assert p[..k] == Parent(p)[..k];
    }
    if p !in fs {
      var after := Touch(fs, Parent(p), now)[p := node];
      forall q, k | q in after && 0 < k < |q|
        ensures IsDirectory(after, q[..k])
      {
        if q == p {
          if k < |p| - 1 {
            assert q[..k] == Parent(p)[..k];
            assert IsDirectory(fs, Parent(p)[..k]);
          }
        } else {
          assert IsDirectory(fs, q[..k]);
        }
      }
    }
  }

  lemma {:induction false} MkdirAllSafe(fs: Fs, p: Path, now: int)
    requires Tree(fs) && AllProper(p) && ClearPath(fs, p)
    ensures MkdirAll(fs, p, now).Done?
    ensures var after := MkdirAll(fs, p, now).fs;
            && Tree(after) && Grows(fs, after)
            && (p != [] ==> IsDirectory(after, p))
            && (forall q :: q in after ==> q in fs || (|q| <= |p| && q == p[..|q|]))
    decreases |p|
  {
    if p != [] {
      var up := Parent(p);
      assert ClearPath(fs, up) by {
        forall k | 0 < k <= |up| && up[..k] in fs ensures fs[up[..k]].FsDirectory? { assert up[..k] == p[..k]; }
      }
      MkdirAllSafe(fs, up, now);
      var above := MkdirAll(fs, up, now).fs;
      assert p[..|p|] == p;
      forall q | q in above && q !in fs ensures q == p[..|q|] { assert up[..|q|] == p[..|q|]; }
      if p in above {
        assert p in fs;
      } else {
        assert ClearPath(above, up) by {
          forall k | 0 < k <= |up| && up[..k] in above ensures above[up[..k]].FsDirectory? {
            if k < |up| { assert IsDirectory(above, up[..k]); } else { assert up[..k] == up; }
          }
        }
        AddNodeSafe(above, p, NewDirectory(now), now);
      }
    }
  }

  /** Whatever Create does, it does not follow a link, and what it makes belongs there. */
  lemma CreateSafe(fs: Fs, p: Path, node: FsNode, now: int)
    requires Tree(fs) && |p| > 0 && AllProper(p)
    ensures var effect := Create(fs, p, node, now);
            && !effect.Followed?
            && (effect.Exists? ==> p in fs && !fs[p].FsLink?)
            && (effect.Done? ==> Tree(effect.fs) && Grows(fs, effect.fs) && p !in fs && p in effect.fs && effect.fs[p] == node)
  {
    if NoSymlinks(fs, p, 0) {
      NoSymlinksClears(fs, p, 0);
      var up := Parent(p);
      MkdirAllSafe(fs, up, now);
      var above := MkdirAll(fs, up, now).fs;
      assert ClearPath(above, up) by {
        forall k | 0 < k <= |up| && up[..k] in above ensures above[up[..k]].FsDirectory? {
          if k < |up| { assert IsDirectory(above, up[..k]); } else { assert up[..k] == up; }
        }
      }
      AddNodeSafe(above, p, node, now);
      assert p in above <==> p in fs;
    }
  }

  // ---------------------------------------------------------------- entries

  /** The extraction's own view: a tree, and only real directories waiting for metadata. */
  ghost predicate Sound(x: Extraction) {
    && Tree(x.fs)
    && forall i :: 0 <= i < |x.directories| ==> |x.directories[i].path| > 0 && IsDirectory(x.fs, x.directories[i].path)
  }

  /** A step that follows no link and only adds to the tree. */
  ghost predicate SafeStep(before: Fs, progress: Progress) {
    match progress
    case ThroughLink => false
    case Failed(fs) => Tree(fs) && Grows(before, fs)
    case Next(y) => Sound(y) && Grows(before, y.fs)
  }

  /** Replacing the bytes or metadata of the file just made. */
  lemma FillFileSafe(before: Fs, fs: Fs, p: Path, node: FsNode)
    requires Tree(fs) && Grows(before, fs) && p !in before && p in fs && fs[p].FsFile? && node.FsFile?
    ensures Tree(fs[p := node]) && Grows(before, fs[p := node])
  {
    var after := fs[p := node];
    forall q, k | q in after && 0 < k < |q| ensures IsDirectory(after, q[..k]) {
      assert IsDirectory(fs, q[..k]);
    }
  }

  lemma ExtractEntrySafe(x: Extraction, h: Header, now: int)
    requires Sound(x)
    ensures SafeStep(x.fs, ExtractEntry(x, h, now))
  {
    CanonicalIff(h.name, h.kind.DirectoryEntry?);
    match Canonical(h.name, h.kind.DirectoryEntry?)
    case Err =>
    case Ok(name) =>
      var p := Split(name);
      match h.kind
      case DirectoryEntry =>
        CreateSafe(x.fs, p, NewDirectory(now), now);
      case SymlinkEntry =>
        CreateSafe(x.fs, p, FsLink(h.meta.uid, h.meta.gid, h.linkname), now);
      case RegularEntry =>
        var empty := FsFile(Meta(0, 0, 0x180, now), []);
        CreateSafe(x.fs, p, empty, now);
        var effect := Create(x.fs, p, empty, now);
        if effect.Done? {
          FillFileSafe(x.fs, effect.fs, p, FsFile(Meta(0, 0, 0x180, now), h.data));
          if 0 <= h.size <= |h.data| {
            FillFileSafe(x.fs, effect.fs, p, FsFile(Restored(h.meta), h.data[..h.size]));
          }
        }
      case HardLinkEntry =>
      case OtherEntry =>
  }

  lemma {:induction false} ExtractEntriesSafe(x: Extraction, headers: seq<Header>, now: int)
    requires Sound(x)
    ensures SafeStep(x.fs, ExtractEntries(x, headers, now))
    decreases |headers|
  {
    if headers != [] {
      ExtractEntrySafe(x, headers[0], now);
      match ExtractEntry(x, headers[0], now)
      case Next(y) => ExtractEntriesSafe(y, headers[1..], now);
      case Failed(_) =>
      case ThroughLink =>
    }
  }

  // ---------------------------------------------------------------- directory metadata

  lemma {:induction false} InsertKeeps(d: DirectoryMeta, sorted: seq<DirectoryMeta>)
    ensures multiset(InsertDeepest(d, sorted)) == multiset(sorted) + multiset{d}
    decreases |sorted|
  {
    if sorted != [] && !Precedes(d, sorted[0]) {
      InsertKeeps(d, sorted[1..]);
      assert sorted == [sorted[0]] + sorted[1..];
    }
  }

  lemma {:induction false} DeepestFirstKeeps(directories: seq<DirectoryMeta>)
    ensures multiset(DeepestFirst(directories)) == multiset(directories)
    decreases |directories|
  {
    if directories != [] {
      var n := |directories| - 1;
      DeepestFirstKeeps(directories[..n]);
      InsertKeeps(directories[n], DeepestFirst(directories[..n]));
      assert directories == directories[..n] + [directories[n]];
    }
  }

  lemma {:induction false} NameBelowTransitive(a: string, b: string, c: string)
    requires NameBelow(a, b) && NameBelow(b, c)
    ensures NameBelow(a, c)
    decreases |a|
  {
    if a != "" && a[0] == b[0] && b[0] == c[0] {
      NameBelowTransitive(a[1..], b[1..], c[1..]);
    }
  }

  lemma PrecedesTransitive(a: DirectoryMeta, b: DirectoryMeta, c: DirectoryMeta)
    requires Precedes(a, b) && Precedes(b, c)
    ensures Precedes(a, c)
  {
    if |a.path| == |b.path| == |c.path| {
      NameBelowTransitive(PathString(a.path), PathString(b.path), PathString(c.path));
    }
  }

  /** No directory stands behind one it should precede; in particular depths never rise. */
  ghost predicate InOrder(directories: seq<DirectoryMeta>) {
    forall i, j :: 0 <= i < j < |directories| ==> !Precedes(directories[j], directories[i])
  }

  lemma {:induction false} InsertOrders(d: DirectoryMeta, sorted: seq<DirectoryMeta>)
    requires InOrder(sorted)
    ensures InOrder(InsertDeepest(d, sorted))
    decreases |sorted|
  {
    if sorted == [] {
    } else if Precedes(d, sorted[0]) {
      forall j | 0 <= j < |sorted| ensures !Precedes(sorted[j], d) {
        if Precedes(sorted[j], d) { PrecedesTransitive(sorted[j], d, sorted[0]); NotBeforeItself(sorted[0]); }
      }
    } else {
      InsertOrders(d, sorted[1..]);
      InsertKeeps(d, sorted[1..]);
      var rest := InsertDeepest(d, sorted[1..]);
      forall j | 0 <= j < |rest| ensures !Precedes(rest[j], sorted[0]) {
        assert rest[j] in multiset(sorted[1..]) + multiset{d};
      }
    }
  }

  lemma {:induction false} NameNotBelowItself(a: string)
    ensures !NameBelow(a, a)
    decreases |a|
  {
    if a != "" { NameNotBelowItself(a[1..]); }
  }

  lemma NotBeforeItself(d: DirectoryMeta)
    ensures !Precedes(d, d)
  {
    NameNotBelowItself(PathString(d.path));
  }

  /** Metadata goes to every directory entry once, deeper directories first and equally deep ones by name. */
  lemma {:induction false} DeepestFirstOrders(directories: seq<DirectoryMeta>)
    ensures InOrder(DeepestFirst(directories))
    ensures multiset(DeepestFirst(directories)) == multiset(directories)
    decreases |directories|
  {
    DeepestFirstKeeps(directories);
    if directories != [] {
      var n := |directories| - 1;
      DeepestFirstOrders(directories[..n]);
      InsertOrders(directories[n], DeepestFirst(directories[..n]));
    }
  }

  lemma {:induction false} ApplyAllSafe(fs: Fs, directories: seq<DirectoryMeta>)
    requires Tree(fs)
    requires forall i :: 0 <= i < |directories| ==> |directories[i].path| > 0 && IsDirectory(fs, directories[i].path)
    ensures ApplyAll(fs, directories).Done?
    ensures Tree(ApplyAll(fs, directories).fs) && Grows(fs, ApplyAll(fs, directories).fs)
    ensures ApplyAll(fs, directories).fs.Keys == fs.Keys
    decreases |directories|
  {
    if directories != [] {
      var d := directories[0];
      forall k | 0 < k < |d.path| && d.path[..k] in fs ensures !fs[d.path[..k]].FsLink? {
        assert IsDirectory(fs, d.path[..k]);
      }
      var next := fs[d.path := FsDirectory(d.meta)];
      forall q, k | q in next && 0 < k < |q| ensures IsDirectory(next, q[..k]) {
        assert IsDirectory(fs, q[..k]);
      }
      ApplyAllSafe(next, directories[1..]);
    }
  }

  /**
   * For every archive and every tree it is extracted over: no link is followed, all that results
   * lies below the root under real directories, and nothing that was there changes kind.
   */
  lemma ExtractNeverFollowsLinks(fs: Fs, headers: seq<Header>, now: int)
    requires Tree(fs)
    ensures var outcome := Extract(fs, headers, now);
            && !outcome.Escaped?
            && Tree(outcome.fs)
            && Grows(fs, outcome.fs)
  {
    var x := Extraction(fs, {}, [], 0, 0);
    ExtractEntriesSafe(x, headers, now);
    match ExtractEntries(x, headers, now)
    case Next(y) =>
      var sorted := DeepestFirst(y.directories);
      DeepestFirstKeeps(y.directories);
      forall i | 0 <= i < |sorted| ensures |sorted[i].path| > 0 && IsDirectory(y.fs, sorted[i].path) {
        assert sorted[i] in multiset(y.directories);
      }
      ApplyAllSafe(y.fs, sorted);
    case Failed(_) =>
    case ThroughLink =>
  }
}
