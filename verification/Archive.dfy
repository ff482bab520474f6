/**
 * Restoring a snapshot's archive under a root directory. Every operation that
 * would act through a symbolic link says so with an outcome of its own, so
 * that "never follows a link" is a statement about outcomes.
 */
module Archive {
  import opened Common
  import opened Paths

  const MAX_RESTORED_FILE_COUNT: nat := 1_000_000
  const MAX_RESTORED_SNAPSHOT_DATA: nat := 0x8_0000_0000

  type Bytes = seq<int>

  /** A path below the root, one plain name per component. */
  type Path = seq<string>

  datatype Meta = Meta(uid: int, gid: int, mode: int, mtime: int)

  datatype Kind = DirectoryEntry | SymlinkEntry | RegularEntry | HardLinkEntry | OtherEntry

  /** One archive entry: the header and the bytes the archive holds for it. */
  datatype Header = Header(kind: Kind, name: string, linkname: string, size: int, meta: Meta, data: Bytes)

  datatype FsNode =
    | FsDirectory(meta: Meta)
    | FsFile(meta: Meta, data: Bytes)
    | FsLink(uid: int, gid: int, target: string)

  type Fs = map<Path, FsNode>

  // ---------------------------------------------------------------- file system operations

  /** Followed: the operation would have resolved a symbolic link. */
  datatype Effect = Done(fs: Fs) | Exists | Refused | Followed

  function Parent(p: Path): Path
    requires |p| > 0
  {
    p[..|p| - 1]
  }

  /** A directory above p is a link. */
  predicate Crosses(fs: Fs, p: Path) {
    exists k :: 0 < k < |p| && p[..k] in fs && fs[p[..k]].FsLink?
  }

  predicate IsDirectory(fs: Fs, p: Path) {
    p in fs && fs[p].FsDirectory?
  }

  /** A new entry changes its directory's modification time. */
  function Touch(fs: Fs, p: Path, now: int): Fs {
    if IsDirectory(fs, p) then fs[p := FsDirectory(fs[p].meta.(mtime := now))] else fs
  }

  /** Mkdir, Symlink or an exclusive create: the leaf itself is never followed. */
  function AddNode(fs: Fs, p: Path, node: FsNode, now: int): Effect
    requires |p| > 0
  {
    if Crosses(fs, p) then Followed
    else if |p| > 1 && !IsDirectory(fs, Parent(p)) then Refused
    else if p in fs then Exists
    else Done(Touch(fs, Parent(p), now)[p := node])
  }

  function NewDirectory(now: int): FsNode {
    FsDirectory(Meta(0, 0, 0x1C0, now))
  }

  function MkdirAll(fs: Fs, p: Path, now: int): Effect
    decreases |p|
  {
    if p == [] then Done(fs)
    else
      match MkdirAll(fs, Parent(p), now)
      case Done(above) =>
        if p !in above then AddNode(above, p, NewDirectory(now), now)
        else if above[p].FsDirectory? then Done(above)
        else if above[p].FsLink? then Followed
        else Refused
      case other => other
  }

  /** ensureRootPathHasNoSymlinks from the component after k on: stops at the first that is missing. */
  predicate NoSymlinks(fs: Fs, p: Path, k: nat)
    requires k <= |p|
    decreases |p| - k
  {
    || k == |p|
    || p[..k + 1] !in fs
    || (&& !fs[p[..k + 1]].FsLink?
        && (k < |p| - 1 ==> fs[p[..k + 1]].FsDirectory?)
        && NoSymlinks(fs, p, k + 1))
  }

  /** The link check, the parents, then the entry itself. */
  function Create(fs: Fs, p: Path, node: FsNode, now: int): Effect
    requires |p| > 0
  {
    if !NoSymlinks(fs, p, 0) then Refused
    else
      match MkdirAll(fs, Parent(p), now)
      case Done(above) => AddNode(above, p, node, now)
      case other => other
  }

  // ---------------------------------------------------------------- extraction

  datatype DirectoryMeta = DirectoryMeta(path: Path, meta: Meta)

  /** extractTarToRoot's loop state. */
  datatype Extraction = Extraction(fs: Fs, seen: set<string>, directories: seq<DirectoryMeta>, bytes: int, count: nat)

  datatype Progress = Next(state: Extraction) | Failed(fs: Fs) | ThroughLink

  predicate LinkTargetOk(target: string) {
    target != "" && |target| <= MAX_ARCHIVE_PATH_BYTES && '\0' !in target
  }

  /** Permission bits only. */
  function Restored(meta: Meta): Meta {
    meta.(mode := meta.mode % 0x200)
  }

  function DirectoryCreated(x: Extraction, p: Path, h: Header, made: Effect): Progress {
    var listed := x.(directories := x.directories + [DirectoryMeta(p, Restored(h.meta))]);
    match made
    case Done(fs) => Next(listed.(fs := fs))
    case Exists => if IsDirectory(x.fs, p) then Next(listed) else Failed(x.fs)
    case Refused => Failed(x.fs)
    case Followed => ThroughLink
  }

  function LinkCreated(x: Extraction, made: Effect): Progress {
    match made
    case Done(fs) => Next(x.(fs := fs))
    case Exists => Failed(x.fs)
    case Refused => Failed(x.fs)
    case Followed => ThroughLink
  }

  /** A file is created empty, filled with as much as the archive holds, and only then given its metadata. */
  function FileCreated(x: Extraction, p: Path, h: Header, now: int, made: Effect): Progress
    requires h.size >= 0
  {
    match made
    case Done(fs) =>
      if |h.data| < h.size then Failed(fs[p := FsFile(NewFileMeta(now), h.data)])
      else Next(x.(fs := fs[p := FsFile(Restored(h.meta), h.data[..h.size])], bytes := x.bytes + h.size))
    case Exists => Failed(x.fs)
    case Refused => Failed(x.fs)
    case Followed => ThroughLink
  }

  function NewFileMeta(now: int): Meta {
    Meta(0, 0, 0x180, now)
  }

  function ExtractDirectory(x: Extraction, p: Path, h: Header, now: int): Progress
    requires |p| > 0
  {
    DirectoryCreated(x, p, h, Create(x.fs, p, NewDirectory(now), now))
  }

  function ExtractLink(x: Extraction, p: Path, h: Header, now: int): Progress
    requires |p| > 0
  {
    if !LinkTargetOk(h.linkname) then Failed(x.fs)
    else LinkCreated(x, Create(x.fs, p, FsLink(h.meta.uid, h.meta.gid, h.linkname), now))
  }

  function ExtractFile(x: Extraction, p: Path, h: Header, now: int): Progress
    requires |p| > 0
  {
    if h.size < 0 || h.size > MAX_RESTORED_SNAPSHOT_DATA - x.bytes then Failed(x.fs)
    else FileCreated(x, p, h, now, Create(x.fs, p, FsFile(NewFileMeta(now), []), now))
  }

  function ExtractEntry(x: Extraction, h: Header, now: int): Progress {
    if x.count + 1 > MAX_RESTORED_FILE_COUNT then Failed(x.fs)
    else
      match Canonical(h.name, h.kind.DirectoryEntry?)
      case Err => Failed(x.fs)
      case Ok(name) =>
        if name in x.seen then Failed(x.fs)
        else
          var y := x.(count := x.count + 1, seen := x.seen + {name});
          match h.kind
          case DirectoryEntry => ExtractDirectory(y, Split(name), h, now)
          case SymlinkEntry => ExtractLink(y, Split(name), h, now)
          case RegularEntry => ExtractFile(y, Split(name), h, now)
          case HardLinkEntry => Failed(x.fs)
          case OtherEntry => Failed(x.fs)
  }

  /** Runs step over the entries until one does not go on. */
  function OverEntries(step: (Extraction, Header) -> Progress, x: Extraction, headers: seq<Header>): Progress
    decreases |headers|
  {
    if headers == [] then Next(x)
    else
      match step(x, headers[0])
      case Next(y) => OverEntries(step, y, headers[1..])
      case other => other
  }

  function Extractor(now: int): (Extraction, Header) -> Progress {
    (x, h) => ExtractEntry(x, h, now)
  }

  function ExtractEntries(x: Extraction, headers: seq<Header>, now: int): Progress {
    OverEntries(Extractor(now), x, headers)
  }

  // ---------------------------------------------------------------- directory metadata

  function PathString(p: Path): string {
    if p == [] then "" else Join(p)
  }

  /** Deeper first, then by the whole name: the order metadata is applied in. */
  predicate Precedes(a: DirectoryMeta, b: DirectoryMeta) {
    |a.path| > |b.path| || (|a.path| == |b.path| && NameBelow(PathString(a.path), PathString(b.path)))
  }

  predicate NameBelow(a: string, b: string)
    decreases |a|
  {
    b != "" && (a == "" || a[0] < b[0] || (a[0] == b[0] && NameBelow(a[1..], b[1..])))
  }

  function InsertDeepest(d: DirectoryMeta, sorted: seq<DirectoryMeta>): seq<DirectoryMeta>
    decreases |sorted|
  {
    if sorted == [] || Precedes(d, sorted[0]) then [d] + sorted
    else [sorted[0]] + InsertDeepest(d, sorted[1..])
  }

  function DeepestFirst(directories: seq<DirectoryMeta>): seq<DirectoryMeta>
    decreases |directories|
  {
    if directories == [] then []
    else InsertDeepest(directories[|directories| - 1], DeepestFirst(directories[..|directories| - 1]))
  }

  /** Opening a directory to set its metadata would follow a link in any component. */
  function ApplyMeta(fs: Fs, d: DirectoryMeta): Effect {
    if Crosses(fs, d.path) then Followed
    else if d.path !in fs then Refused
    else
      match fs[d.path]
      case FsLink(_, _, _) => Followed
      case FsFile(_, _) => Refused
      case FsDirectory(_) => Done(fs[d.path := FsDirectory(d.meta)])
  }

  function ApplyAll(fs: Fs, directories: seq<DirectoryMeta>): Effect
    decreases |directories|
  {
    if directories == [] then Done(fs)
    else
      match ApplyMeta(fs, directories[0])
      case Done(next) => ApplyAll(next, directories[1..])
      case other => other
  }

  datatype Outcome = Complete(fs: Fs) | Stopped(fs: Fs) | Escaped

  /** extractTarToRoot: all entries, then the metadata of every directory entry. */
  function Extract(fs: Fs, headers: seq<Header>, now: int): Outcome {
    match ExtractEntries(Extraction(fs, {}, [], 0, 0), headers, now)
    case ThroughLink => Escaped
    case Failed(partial) => Stopped(partial)
    case Next(x) =>
      match ApplyAll(x.fs, DeepestFirst(x.directories))
      case Done(complete) => Complete(complete)
      case Followed => Escaped
      case _ => Stopped(x.fs)
  }
}
