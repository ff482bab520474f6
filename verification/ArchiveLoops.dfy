/** The walker and the extractor as they run: counters and sets updated entry by entry. */
module ArchiveLoops {
  import opened Common
  import opened Paths
  import opened Archive
  import opened ArchiveSafety
  import opened ArchiveWalk
  import opened ArchiveRoundTrip

  /** One entry further: what was left of the walk is what that entry gives and the walk of the others. */
  lemma WalkedOne(whole: Result<Walk>, done: seq<Header>, children: seq<Child>, i: nat, prefix: string, depth: nat,
                  count: nat, bytes: nat)
    requires i < |children| && whole == Prepend(done, WalkEntries(children[i..], prefix, depth, count, bytes))
    ensures var entry := WalkEntry(children[i], prefix, depth, count, bytes);
            if entry.Err? then whole.Err?
            else whole == Prepend(done + entry.value.out,
                                  WalkEntries(children[i + 1..], prefix, depth, entry.value.count, entry.value.bytes))
  {
    assert children[i..][0] == children[i] && children[i..][1..] == children[i + 1..];
    match WalkEntry(children[i], prefix, depth, count, bytes)
    case Err =>
    case Ok(w) => PrependTwice(done, w.out, WalkEntries(children[i + 1..], prefix, depth, w.count, w.bytes));
  }

  class SnapshotTarWalker {
    /** What was given to the archive writer. */
    var written: seq<Header>
    var entryCount: nat
    var sourceBytes: nat

    constructor ()
      ensures written == [] && entryCount == 0 && sourceBytes == 0
    {
      written, entryCount, sourceBytes := [], 0, 0;
    }

    /** The fields follow one call of the walk: what it wrote and counted when it succeeded. */
    twostate predicate Follows(new ok: bool, new walk: Result<Walk>)
      reads this
    {
      match walk
      case Err => !ok
      case Ok(w) => ok && written == old(written) + w.out && entryCount == w.count && sourceBytes == w.bytes
    }

    method WalkDirectory(children: seq<Child>, prefix: string, depth: nat) returns (ok: bool)
      modifies this
      ensures Follows(ok, ArchiveWalk.WalkDirectory(children, prefix, depth, old(entryCount), old(sourceBytes)))
      decreases children, 1
    {
      if depth > MAX_SNAPSHOT_DIRECTORY_DEPTH { return false; }
      ghost var whole := WalkEntries(children, prefix, depth, entryCount, sourceBytes);
      ghost var start, done := written, [];
      PrependTwice([], [], whole);
      assert children[0..] == children;
      var i := 0;
      while i < |children|
        invariant 0 <= i <= |children| && written == start + done
        invariant whole == Prepend(done, WalkEntries(children[i..], prefix, depth, entryCount, sourceBytes))
      {
        ok, done := AddNext(children, i, prefix, depth, whole, start, done);
        if !ok { return; }
        i := i + 1;
      }
      assert children[i..] == [] && done + [] == done;
      ok := true;
    }

    /** One turn of the loop: the entry is added to what was written since the start of the directory. */
    method AddNext(children: seq<Child>, i: nat, prefix: string, depth: nat, ghost whole: Result<Walk>,
                   ghost start: seq<Header>, ghost done: seq<Header>)
      returns (ok: bool, ghost after: seq<Header>)
      requires i < |children| && written == start + done
      requires whole == Prepend(done, WalkEntries(children[i..], prefix, depth, entryCount, sourceBytes))
      modifies this
      ensures if ok then
                && written == start + after
                && whole == Prepend(after, WalkEntries(children[i + 1..], prefix, depth, entryCount, sourceBytes))
              else whole.Err?
      decreases children, 0
    {
      ghost var entry := WalkEntry(children[i], prefix, depth, entryCount, sourceBytes);
      WalkedOne(whole, done, children, i, prefix, depth, entryCount, sourceBytes);
      ok := AddEntry(children[i], prefix, depth);
      after := if ok then done + entry.value.out else done;
    }

    method AddEntry(child: Child, prefix: string, depth: nat) returns (ok: bool)
      modifies this
      ensures Follows(ok, WalkEntry(child, prefix, depth, old(entryCount), old(sourceBytes)))
      decreases child, 1
    {
      entryCount := entryCount + 1;
      if entryCount > MAX_RESTORED_FILE_COUNT { return false; }
      var path := RelativePath(prefix, child.name);
      match child.node
      case Symlink(meta, target) =>
        if !LinkTargetOk(target) { return false; }
        match Canonical(path, false) {
          case Err => return false;
          case Ok(name) => written := written + [Header(SymlinkEntry, name, target, 0, Archived(meta), [])];
        }
        ok := true;
      case Transient =>
        ok := true;
      case Unsupported =>
        ok := false;
      case Directory(meta, children) =>
        var canonical := Canonical(path, true);
        if canonical.Err? { return false; }
        written := written + [DirectoryHeader(canonical.value, meta)];
        ghost var below := ArchiveWalk.WalkDirectory(children, path, depth + 1, entryCount, sourceBytes);
        ok := this.WalkDirectory(children, path, depth + 1);
        assert ok ==> written == old(written) + ([DirectoryHeader(canonical.value, meta)] + below.value.out);
      case Regular(meta, data) =>
        match Canonical(path, false) {
          case Err => return false;
          case Ok(name) =>
            if |data| > MAX_RESTORED_SNAPSHOT_DATA - sourceBytes { return false; }
            sourceBytes := sourceBytes + |data|;
            written := written + [Header(RegularEntry, name, "", |data|, Archived(meta), data)];
        }
        ok := true;
    }
  }

  /** ensureRootPathHasNoSymlinks: looks at each component until one is missing. */
  method EnsureNoSymlinks(fs: Fs, p: Path) returns (ok: bool)
    ensures ok <==> NoSymlinks(fs, p, 0)
  {
    var k := 0;
    while k < |p|
      invariant 0 <= k <= |p|
      invariant NoSymlinks(fs, p, 0) <==> NoSymlinks(fs, p, k)
    {
      var current := p[..k + 1];
      if current !in fs { return true; }
      if fs[current].FsLink? { return false; }
      if k < |p| - 1 && !fs[current].FsDirectory? { return false; }
      k := k + 1;
    }
    return true;
  }

  /** The link check, the parents, then the entry itself. */
  method CreateNode(fs: Fs, p: Path, node: FsNode, now: int) returns (made: Effect)
    requires |p| > 0
    ensures made == Create(fs, p, node, now)
  {
    var ok := EnsureNoSymlinks(fs, p);
    if !ok { return Refused; }
    made := MkdirAll(fs, Parent(p), now);
    if made.Done? { made := AddNode(made.fs, p, node, now); }
  }

  /** One turn of extractTarToRoot's loop. */
  method ExtractNext(x: Extraction, h: Header, now: int) returns (progress: Progress)
    ensures progress == ExtractEntry(x, h, now)
  {
    if x.count + 1 > MAX_RESTORED_FILE_COUNT { return Failed(x.fs); }
    var canonical := Canonical(h.name, h.kind.DirectoryEntry?);
    if canonical.Err? || canonical.value in x.seen { return Failed(x.fs); }
    var y := x.(count := x.count + 1, seen := x.seen + {canonical.value});
    var p := Split(canonical.value);
    match h.kind
    case DirectoryEntry =>
      var made := CreateNode(y.fs, p, NewDirectory(now), now);
      progress := DirectoryCreated(y, p, h, made);
    case SymlinkEntry =>
      if !LinkTargetOk(h.linkname) { return Failed(x.fs); }
      var made := CreateNode(y.fs, p, FsLink(h.meta.uid, h.meta.gid, h.linkname), now);
      progress := LinkCreated(y, made);
    case RegularEntry =>
      if h.size < 0 || h.size > MAX_RESTORED_SNAPSHOT_DATA - y.bytes { return Failed(x.fs); }
      var made := CreateNode(y.fs, p, FsFile(NewFileMeta(now), []), now);
      progress := FileCreated(y, p, h, now, made);
    case HardLinkEntry =>
      progress := Failed(x.fs);
    case OtherEntry =>
      progress := Failed(x.fs);
  }

  /** extractTarToRoot: entry by entry, then the directories' metadata, deepest first. */
  method ExtractTarToRoot(root: Fs, headers: seq<Header>, now: int) returns (outcome: Outcome)
    requires Tree(root)
    ensures outcome == Extract(root, headers, now)
    ensures !outcome.Escaped? && Tree(outcome.fs) && Grows(root, outcome.fs)
  {
    ExtractNeverFollowsLinks(root, headers, now);
    var x := Extraction(root, {}, [], 0, 0);
    ghost var whole := ExtractEntries(x, headers, now);
    var i := 0;
    while i < |headers|
      invariant 0 <= i <= |headers|
      invariant whole == ExtractEntries(x, headers[i..], now)
    {
      assert headers[i..][0] == headers[i] && headers[i..][1..] == headers[i + 1..];
      var progress := ExtractNext(x, headers[i], now);
      match progress {
        case ThroughLink => return Escaped;
        case Failed(partial) => return Stopped(partial);
        case Next(y) => x := y;
      }
      i := i + 1;
    }
    assert headers[i..] == [];
    outcome := ApplyMetadata(x.fs, DeepestFirst(x.directories));
  }

  /** The metadata pass: every directory is opened once, in the given order. */
  method ApplyMetadata(restored: Fs, directories: seq<DirectoryMeta>) returns (outcome: Outcome)
    ensures outcome == match ApplyAll(restored, directories)
                       case Done(complete) => Complete(complete)
                       case Followed => Escaped
                       case _ => Stopped(restored)
  {
    var fs, i := restored, 0;
    while i < |directories|
      invariant 0 <= i <= |directories|
      invariant ApplyAll(restored, directories) == ApplyAll(fs, directories[i..])
    {
      assert directories[i..][0] == directories[i] && directories[i..][1..] == directories[i + 1..];
      match ApplyMeta(fs, directories[i]) {
        case Done(next) => fs := next;
        case Followed => return Escaped;
        case _ => return Stopped(restored);
      }
      i := i + 1;
    }
    assert directories[i..] == [];
    return Complete(fs);
  }

  /** A data directory's archive, by a fresh walker. */
  method ArchiveDirectory(children: seq<Child>) returns (archive: Result<seq<Header>>)
    ensures archive == WalkRoot(children)
  {
    var walker := new SnapshotTarWalker();
    var ok := walker.WalkDirectory(children, "", 0);
    ghost var walk := ArchiveWalk.WalkDirectory(children, "", 0, 0, 0);
    assert ok ==> [] + walk.value.out == walk.value.out;
    archive := if ok then Ok(walker.written) else Err;
  }
}
