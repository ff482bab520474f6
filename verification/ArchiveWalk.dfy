/** Turning a directory tree into archive entries, as the snapshot walker does. */
module ArchiveWalk {
  import opened Common
  import opened Paths
  import opened Archive

  const MAX_SNAPSHOT_DIRECTORY_DEPTH: nat := 256

  /** What a data directory holds. Sockets, pipes and devices are transient; other special files unsupported. */
  datatype Node =
    | Directory(meta: Meta, children: seq<Child>)
    | Regular(meta: Meta, data: Bytes)
    | Symlink(meta: Meta, target: string)
    | Transient
    | Unsupported

  /** An entry of a directory, in whatever order reading it returns them. */
  datatype Child = Child(name: string, node: Node)

  /** What walking part of a tree adds: its archive entries, and the walker's counters after it. */
  datatype Walk = Walk(out: seq<Header>, count: nat, bytes: nat)

  /** Archives keep whole seconds. */
  function WholeSeconds(nanos: int): int {
    (nanos + 500_000_000) / 1_000_000_000 * 1_000_000_000
  }

  function Archived(meta: Meta): Meta {
    meta.(mtime := WholeSeconds(meta.mtime))
  }

  function RelativePath(prefix: string, name: string): string {
    if prefix == "" then name else prefix + "/" + name
  }

  function AddSymlink(path: string, meta: Meta, target: string, count: nat, bytes: nat): Result<Walk> {
    if !LinkTargetOk(target) then Err
    else
      match Canonical(path, false)
      case Err => Err
      case Ok(name) => Ok(Walk([Header(SymlinkEntry, name, target, 0, Archived(meta), [])], count, bytes))
  }

  function AddRegularFile(path: string, meta: Meta, data: Bytes, count: nat, bytes: nat): Result<Walk> {
    match Canonical(path, false)
    case Err => Err
    case Ok(name) =>
      if |data| > MAX_RESTORED_SNAPSHOT_DATA - bytes then Err
      else Ok(Walk([Header(RegularEntry, name, "", |data|, Archived(meta), data)], count, bytes + |data|))
  }

  function DirectoryHeader(name: string, meta: Meta): Header {
    Header(DirectoryEntry, name + "/", "", 0, Archived(meta), [])
  }

  /** Puts entries already written before what a later part of the walk adds. */
  function Prepend(done: seq<Header>, rest: Result<Walk>): Result<Walk> {
    match rest
    case Err => Err
    case Ok(walk) => Ok(walk.(out := done + walk.out))
  }

  lemma PrependTwice(done: seq<Header>, more: seq<Header>, rest: Result<Walk>)
    ensures Prepend(done, Prepend(more, rest)) == Prepend(done + more, rest)
    ensures Prepend([], rest) == rest
  {
    if rest.Ok? {
      assert done + (more + rest.value.out) == (done + more) + rest.value.out;
      assert [] + rest.value.out == rest.value.out;
    }
  }

  /** addEntry: every entry counts, even one that is left out. */
  function WalkEntry(child: Child, prefix: string, depth: nat, before: nat, bytes: nat): Result<Walk>
    decreases child, 1
  {
    var count := before + 1;
    if count > MAX_RESTORED_FILE_COUNT then Err
    else
      var path := RelativePath(prefix, child.name);
      match child.node
      case Symlink(meta, target) => AddSymlink(path, meta, target, count, bytes)
      case Transient => Ok(Walk([], count, bytes))
      case Unsupported => Err
      case Regular(meta, data) => AddRegularFile(path, meta, data, count, bytes)
      case Directory(meta, children) =>
        match Canonical(path, true)
        case Err => Err
        case Ok(name) =>
          Prepend([DirectoryHeader(name, meta)], WalkDirectory(children, path, depth + 1, count, bytes))
  }

  function WalkDirectory(children: seq<Child>, prefix: string, depth: nat, count: nat, bytes: nat): Result<Walk>
    decreases children, 1
  {
    if depth > MAX_SNAPSHOT_DIRECTORY_DEPTH then Err else WalkEntries(children, prefix, depth, count, bytes)
  }

  function WalkEntries(children: seq<Child>, prefix: string, depth: nat, count: nat, bytes: nat): Result<Walk>
    decreases children, 0
  {
    if children == [] then Ok(Walk([], count, bytes))
    else
      match WalkEntry(children[0], prefix, depth, count, bytes)
      case Err => Err
      case Ok(first) => Prepend(first.out, WalkEntries(children[1..], prefix, depth, first.count, first.bytes))
  }

  /** addRootToTar: the archive of a whole data directory. */
  function WalkRoot(children: seq<Child>): Result<seq<Header>> {
    match WalkDirectory(children, "", 0, 0, 0)
    case Err => Err
    case Ok(walk) => Ok(walk.out)
  }

  // ---------------------------------------------------------------- what a restore should rebuild

  /** Metadata a restore keeps: owner, permission bits and whole seconds. */
  function Kept(meta: Meta): Meta {
    Restored(Archived(meta))
  }

  /** A tree as a map from paths, without what snapshots leave out. */
  function FlatEntry(child: Child, at: Path): Fs
    decreases child, 1
  {
    var p := at + [child.name];
    match child.node
    case Directory(meta, children) => FlatEntries(children, p)[p := FsDirectory(Kept(meta))]
    case Regular(meta, data) => map[p := FsFile(Kept(meta), data)]
    case Symlink(meta, target) => map[p := FsLink(meta.uid, meta.gid, target)]
    case Transient => map[]
    case Unsupported => map[]
  }

  function FlatEntries(children: seq<Child>, at: Path): Fs
    decreases children, 0
  {
    if children == [] then map[] else FlatEntry(children[0], at) + FlatEntries(children[1..], at)
  }

  /** A tree a file system can hold: plain names, each once in its directory. */
  ghost predicate PlainEntries(children: seq<Child>)
    decreases children
  {
    && (forall i :: 0 <= i < |children| ==> Proper(children[i].name))
    && (forall i, j :: 0 <= i < j < |children| ==> children[i].name != children[j].name)
    && (forall i :: 0 <= i < |children| && children[i].node.Directory? ==> PlainEntries(children[i].node.children))
  }

  /** Every directory's path leaves room for the slash its archive name ends in. */
  ghost predicate DirectoriesFit(children: seq<Child>, at: Path)
    decreases children
  {
    forall i :: 0 <= i < |children| && children[i].node.Directory? ==>
      && |Join(at + [children[i].name])| < MAX_ARCHIVE_PATH_BYTES
      && DirectoriesFit(children[i].node.children, at + [children[i].name])
  }
}
