/** Extracting the archive of a tree rebuilds exactly that tree, exactly when its directory paths fit. */
module ArchiveRoundTrip {
  import opened Common
  import opened Paths
  import opened Archive
  import opened ArchiveSafety
  import opened ArchiveWalk

  // ---------------------------------------------------------------- paths

  /** The walker's string for an entry is its path, and splits back into it. */
  lemma PathStringOf(at: Path, name: string)
    requires AllProper(at) && Proper(name)
    ensures RelativePath(PathString(at), name) == Join(at + [name])
    ensures Split(Join(at + [name])) == at + [name]
    ensures TrimSlash(Join(at + [name])) == Join(at + [name])
    ensures TrimSlash(Join(at + [name]) + "/") == Join(at + [name])
  {
    var path := at + [name];
    SplitJoin(path);
    if at == [] {
      assert path == [name];
    } else {
      JoinAppend(at, name);
      assert Join(at) != "" by { SplitJoin(at); assert Split("") == [""]; }
    }
    NoTrailingSlash(Join(path));
  }

  lemma NoTrailingSlash(s: string)
    requires AllProper(Split(s))
    ensures s != "" && s[|s| - 1] != '/'
  {
    assert Split("") == [""];
    if s != "" && s[|s| - 1] == '/' { LastPart(s); }
  }

  // ---------------------------------------------------------------- creating one entry

  predicate Under(p: Path, at: Path, name: string) {
    |p| > |at| && p[..|at|] == at && p[|at|] == name
  }

  /** Nothing is at or below the entry name of directory at yet. */
  ghost predicate Untouched(fs: Fs, at: Path, name: string) {
    forall p :: p in fs ==> !Under(p, at, name)
  }

  ghost predicate Standing(fs: Fs, at: Path) {
    Tree(fs) && AllProper(at) && (at == [] || IsDirectory(fs, at))
  }

  lemma {:induction false} MkdirAllExisting(fs: Fs, at: Path, now: int)
    requires Standing(fs, at)
    ensures MkdirAll(fs, at, now) == Done(fs)
    decreases |at|
  {
    if |at| > 1 {
      assert IsDirectory(fs, at[..|at| - 1]);
      MkdirAllExisting(fs, Parent(at), now);
    } else if |at| == 1 {
      assert Parent(at) == [];
    }
  }

  lemma {:induction false} NoSymlinksStanding(fs: Fs, at: Path, name: string, k: nat)
    requires Standing(fs, at) && at + [name] !in fs && k <= |at| + 1
    ensures NoSymlinks(fs, at + [name], k)
    decreases |at| + 1 - k
  {
    var p := at + [name];
    if k < |at| {
      assert p[..k + 1] == at[..k + 1];
      if k + 1 == |at| { assert at[..k + 1] == at; }
      NoSymlinksStanding(fs, at, name, k + 1);
    } else if k == |at| {
      assert p[..k + 1] == p;
    }
  }

  /** A fresh entry of a standing directory is created there, whatever else the tree holds. */
  lemma CreateFresh(fs: Fs, at: Path, name: string, node: FsNode, now: int)
    requires Standing(fs, at) && Proper(name) && Untouched(fs, at, name)
    ensures Create(fs, at + [name], node, now).Done?
    ensures var after := Create(fs, at + [name], node, now).fs;
            && after.Keys == fs.Keys + {at + [name]} && after[at + [name]] == node
            && Tree(after) && Grows(fs, after)
  {
    var p := at + [name];
    assert Under(p, at, name) by { assert p[..|at|] == at; }
    assert Parent(p) == at;
    NoSymlinksStanding(fs, at, name, 0);
    MkdirAllExisting(fs, at, now);
    assert ClearPath(fs, at) by {
      forall k | 0 < k <= |at| && at[..k] in fs ensures fs[at[..k]].FsDirectory? {
        if k < |at| { assert IsDirectory(fs, at[..k]); } else { assert at[..k] == at; }
      }
    }
    AddNodeSafe(fs, p, node, now);
  }

  // ---------------------------------------------------------------- extracting what was walked

  /** Names seen so far are in the tree. */
  ghost predicate SeenAreThere(x: Extraction) {
    forall s :: s in x.seen ==> Split(s) in x.fs
  }

  /** Where walker and extractor stand to each other before a subtree. */
  ghost predicate InStep(x: Extraction, at: Path, count: nat, bytes: nat) {
    Sound(x) && Standing(x.fs, at) && SeenAreThere(x) && x.count <= count && x.bytes == bytes
  }

  /** The tree gained exactly flat, up to directory metadata. */
  ghost predicate Gained(x: Extraction, y: Extraction, flat: Fs) {
    && y.fs.Keys == x.fs.Keys + flat.Keys
    && Grows(x.fs, y.fs)
    && (forall p :: p in flat ==> if flat[p].FsDirectory? then IsDirectory(y.fs, p) else p in y.fs && y.fs[p] == flat[p])
  }

  /** The directory entries of a subtree, in archive order, with the metadata to apply. */
  function DirectoriesOfEntry(child: Child, at: Path): seq<DirectoryMeta>
    decreases child, 1
  {
    match child.node
    case Directory(meta, children) =>
      [DirectoryMeta(at + [child.name], Kept(meta))] + DirectoriesOf(children, at + [child.name])
    case _ => []
  }

  function DirectoriesOf(children: seq<Child>, at: Path): seq<DirectoryMeta>
    decreases children, 0
  {
    if children == [] then [] else DirectoriesOfEntry(children[0], at) + DirectoriesOf(children[1..], at)
  }

  /** The extraction after a subtree, in step with the walker again. */
  ghost predicate Extracted(x: Extraction, progress: Progress, at: Path, flat: Fs, directories: seq<DirectoryMeta>, walk: Walk) {
    && progress.Next?
    && Gained(x, progress.state, flat)
    && progress.state.directories == x.directories + directories
    && InStep(progress.state, at, walk.count, walk.bytes)
  }

  lemma {:induction false} OverConcat(step: (Extraction, Header) -> Progress, x: Extraction, first: seq<Header>, rest: seq<Header>)
    requires OverEntries(step, x, first).Next?
    ensures OverEntries(step, x, first + rest) == OverEntries(step, OverEntries(step, x, first).state, rest)
    decreases |first|
  {
    if first == [] {
      assert first + rest == rest;
    } else {
      assert (first + rest)[1..] == first[1..] + rest;
      OverConcat(step, step(x, first[0]).state, first[1..], rest);
    }
  }

  lemma ExtractConcat(x: Extraction, first: seq<Header>, rest: seq<Header>, now: int)
    requires ExtractEntries(x, first, now).Next?
    ensures ExtractEntries(x, first + rest, now) == ExtractEntries(ExtractEntries(x, first, now).state, rest, now)
  {
    OverConcat(Extractor(now), x, first, rest);
  }

  lemma ExtractOne(x: Extraction, h: Header, now: int)
    ensures ExtractEntries(x, [h], now) == ExtractEntry(x, h, now)
  {
    var step := Extractor(now);
    assert [h][0] == h && [h][1..] == [];
    assert step(x, h) == ExtractEntry(x, h, now);
    if step(x, h).Next? { assert OverEntries(step, step(x, h).state, []) == step(x, h); }
  }

  /** A path nothing is at yet has not been seen. */
  lemma FreshIsUnseen(x: Extraction, at: Path, name: string)
    requires SeenAreThere(x) && AllProper(at) && Proper(name) && Untouched(x.fs, at, name)
    ensures Join(at + [name]) !in x.seen && at + [name] !in x.fs
  {
    PathStringOf(at, name);
    assert Under(at + [name], at, name) by { assert (at + [name])[..|at|] == at; }
  }

  /** An entry the extractor takes in: counted, remembered, then created by its kind. */
  function Admitted(x: Extraction, path: string): Extraction {
    x.(count := x.count + 1, seen := x.seen + {path})
  }

  lemma EntryIsAdmitted(x: Extraction, h: Header, at: Path, name: string, now: int)
    requires SeenAreThere(x) && AllProper(at) && Proper(name) && Untouched(x.fs, at, name)
    requires x.count < MAX_RESTORED_FILE_COUNT
    requires Canonical(h.name, h.kind.DirectoryEntry?) == Ok(Join(at + [name]))
    ensures var y := Admitted(x, Join(at + [name]));
            match h.kind
            case DirectoryEntry => ExtractEntry(x, h, now) == ExtractDirectory(y, at + [name], h, now)
            case SymlinkEntry => ExtractEntry(x, h, now) == ExtractLink(y, at + [name], h, now)
            case RegularEntry => ExtractEntry(x, h, now) == ExtractFile(y, at + [name], h, now)
            case _ => true
  {
    PathStringOf(at, name);
    FreshIsUnseen(x, at, name);
  }

  /** The state once the entry exists is in step with a walker that counted it. */
  lemma AdmittedStaysInStep(x: Extraction, at: Path, name: string, after: Fs, count: nat, bytes: nat)
    requires InStep(x, at, count, bytes) && Proper(name)
    requires Tree(after) && Grows(x.fs, after) && after.Keys == x.fs.Keys + {at + [name]}
    ensures InStep(Admitted(x, Join(at + [name])).(fs := after), at, count + 1, bytes)
  {
    PathStringOf(at, name);
  }

  lemma AdmittedGains(x: Extraction, y: Extraction, p: Path, node: FsNode)
    requires Grows(x.fs, y.fs) && y.fs.Keys == x.fs.Keys + {p}
    requires if node.FsDirectory? then y.fs[p].FsDirectory? else y.fs[p] == node
    ensures Gained(x, y, map[p := node])
  {
  }

  lemma LinkBack(x: Extraction, h: Header, at: Path, name: string, count: nat, bytes: nat, now: int)
    requires InStep(x, at, count, bytes) && Proper(name) && Untouched(x.fs, at, name)
    requires h.kind.SymlinkEntry? && LinkTargetOk(h.linkname) && count < MAX_RESTORED_FILE_COUNT
    requires Canonical(h.name, false) == Ok(Join(at + [name]))
    ensures Extracted(x, ExtractEntry(x, h, now), at, map[at + [name] := FsLink(h.meta.uid, h.meta.gid, h.linkname)], [],
                      Walk([h], count + 1, bytes))
  {
    EntryIsAdmitted(x, h, at, name, now);
    var node := FsLink(h.meta.uid, h.meta.gid, h.linkname);
    CreateFresh(x.fs, at, name, node, now);
    AdmittedStaysInStep(x, at, name, Create(x.fs, at + [name], node, now).fs, count, bytes);
  }

  /** The file as the extractor leaves it: created empty, filled, given its metadata. */
  lemma FileMade(fs: Fs, at: Path, name: string, node: FsNode, now: int)
    requires Standing(fs, at) && Proper(name) && Untouched(fs, at, name) && node.FsFile?
    ensures var made := Create(fs, at + [name], FsFile(NewFileMeta(now), []), now);
            && made.Done?
            && Tree(made.fs[at + [name] := node]) && Grows(fs, made.fs[at + [name] := node])
            && made.fs[at + [name] := node].Keys == fs.Keys + {at + [name]}
  {
    var p, empty := at + [name], FsFile(NewFileMeta(now), []);
    CreateFresh(fs, at, name, empty, now);
    assert Under(p, at, name) by { assert p[..|at|] == at; }
    FillFileSafe(fs, Create(fs, p, empty, now).fs, p, node);
  }

  lemma FileFills(y: Extraction, p: Path, h: Header, now: int)
    requires |p| > 0 && h.size == |h.data| <= MAX_RESTORED_SNAPSHOT_DATA - y.bytes
    requires Create(y.fs, p, FsFile(NewFileMeta(now), []), now).Done?
    ensures var after := Create(y.fs, p, FsFile(NewFileMeta(now), []), now).fs[p := FsFile(Restored(h.meta), h.data)];
            ExtractFile(y, p, h, now) == Next(y.(fs := after, bytes := y.bytes + |h.data|))
  {
    assert h.data[..|h.data|] == h.data;
  }

  lemma FileBack(x: Extraction, h: Header, at: Path, name: string, count: nat, bytes: nat, now: int)
    requires InStep(x, at, count, bytes) && Proper(name) && Untouched(x.fs, at, name)
    requires h.kind.RegularEntry? && h.size == |h.data| <= MAX_RESTORED_SNAPSHOT_DATA - bytes && count < MAX_RESTORED_FILE_COUNT
    requires Canonical(h.name, false) == Ok(Join(at + [name]))
    ensures Extracted(x, ExtractEntry(x, h, now), at, map[at + [name] := FsFile(Restored(h.meta), h.data)], [],
                      Walk([h], count + 1, bytes + |h.data|))
  {
    var p, node := at + [name], FsFile(Restored(h.meta), h.data);
    FileMade(x.fs, at, name, node, now);
    EntryIsAdmitted(x, h, at, name, now);
    FileFills(Admitted(x, Join(p)), p, h, now);
    var after := Create(x.fs, p, FsFile(NewFileMeta(now), []), now).fs[p := node];
    AdmittedStaysInStep(x, at, name, after, count, bytes);
    var y := Admitted(x, Join(p)).(fs := after, bytes := x.bytes + |h.data|);
    AdmittedGains(x, y, p, node);
    assert InStep(y, at, count + 1, bytes + |h.data|);
  }

  /** A directory's own entry; what is below it follows. */
  lemma DirectoryBack(x: Extraction, h: Header, at: Path, name: string, count: nat, bytes: nat, now: int)
    requires InStep(x, at, count, bytes) && Proper(name) && Untouched(x.fs, at, name)
    requires h.kind.DirectoryEntry? && count < MAX_RESTORED_FILE_COUNT
    requires Canonical(h.name, true) == Ok(Join(at + [name]))
    ensures ExtractEntry(x, h, now).Next?
    ensures var y := ExtractEntry(x, h, now).state;
            && Gained(x, y, map[at + [name] := FsDirectory(Restored(h.meta))])
            && y.directories == x.directories + [DirectoryMeta(at + [name], Restored(h.meta))]
            && y.fs.Keys == x.fs.Keys + {at + [name]}
            && Standing(y.fs, at)
            && InStep(y, at + [name], count + 1, bytes)
  {
    EntryIsAdmitted(x, h, at, name, now);
    CreateFresh(x.fs, at, name, NewDirectory(now), now);
    var p, after := at + [name], Create(x.fs, at + [name], NewDirectory(now), now).fs;
    AdmittedStaysInStep(x, at, name, after, count, bytes);
    var y := Admitted(x, Join(p)).(fs := after, directories := x.directories + [DirectoryMeta(p, Restored(h.meta))]);
    assert ExtractEntry(x, h, now) == Next(y);
    AdmittedGains(x, y, p, FsDirectory(Restored(h.meta)));
    ListedStaysInStep(Admitted(x, Join(p)).(fs := after), at, name, Restored(h.meta), count + 1, bytes);
  }

  lemma ListedStaysInStep(x: Extraction, at: Path, name: string, meta: Meta, count: nat, bytes: nat)
    requires InStep(x, at, count, bytes) && Proper(name) && IsDirectory(x.fs, at + [name])
    ensures InStep(x.(directories := x.directories + [DirectoryMeta(at + [name], meta)]), at + [name], count, bytes)
  {
  }

  /** All paths of a subtree lie at or below its entry. */
  lemma {:induction false} FlatEntryIsUnder(child: Child, at: Path)
    ensures forall p :: p in FlatEntry(child, at) ==> Under(p, at, child.name)
    decreases child, 1
  {
    var q := at + [child.name];
    assert q[..|at|] == at;
    match child.node
    case Directory(meta, children) =>
      FlatEntriesAreUnder(children, q);
      forall p | p in FlatEntries(children, q) ensures Under(p, at, child.name) {
        assert p[..|q|] == q;
        assert p[..|at|] == q[..|at|];
        assert p[|at|] == q[|at|];
      }
    case _ =>
  }

  lemma {:induction false} FlatEntriesAreUnder(children: seq<Child>, at: Path)
    ensures forall p :: p in FlatEntries(children, at) ==>
              |p| > |at| && p[..|at|] == at && exists i :: 0 <= i < |children| && p[|at|] == children[i].name
    decreases children, 0
  {
    if children != [] {
      FlatEntryIsUnder(children[0], at);
      FlatEntriesAreUnder(children[1..], at);
      forall p | p in FlatEntries(children, at)
        ensures |p| > |at| && p[..|at|] == at && exists i :: 0 <= i < |children| && p[|at|] == children[i].name
      {
        if p !in FlatEntry(children[0], at) {
          var i :| 0 <= i < |children[1..]| && p[|at|] == children[1..][i].name;
          assert p[|at|] == children[i + 1].name;
        }
      }
    }
  }

  lemma LinkEntryBack(child: Child, at: Path, depth: nat, x: Extraction, count: nat, bytes: nat, now: int)
    requires child.node.Symlink? && InStep(x, at, count, bytes) && Untouched(x.fs, at, child.name) && Proper(child.name)
    requires WalkEntry(child, PathString(at), depth, count, bytes).Ok?
    ensures var walk := WalkEntry(child, PathString(at), depth, count, bytes).value;
            Extracted(x, ExtractEntries(x, walk.out, now), at, FlatEntry(child, at), [], walk)
  {
    var head := WalkEntry(child, PathString(at), depth, count, bytes).value.out[0];
    PathStringOf(at, child.name);
    CanonicalIff(Join(at + [child.name]), false);
    ExtractOne(x, head, now);
    LinkBack(x, head, at, child.name, count, bytes, now);
  }

  lemma FileEntryBack(child: Child, at: Path, depth: nat, x: Extraction, count: nat, bytes: nat, now: int)
    requires child.node.Regular? && InStep(x, at, count, bytes) && Untouched(x.fs, at, child.name) && Proper(child.name)
    requires WalkEntry(child, PathString(at), depth, count, bytes).Ok?
    ensures var walk := WalkEntry(child, PathString(at), depth, count, bytes).value;
            Extracted(x, ExtractEntries(x, walk.out, now), at, FlatEntry(child, at), [], walk)
  {
    var head := WalkEntry(child, PathString(at), depth, count, bytes).value.out[0];
    PathStringOf(at, child.name);
    CanonicalIff(Join(at + [child.name]), false);
    ExtractOne(x, head, now);
    FileBack(x, head, at, child.name, count, bytes, now);
  }

  lemma {:induction false} EntryBack(child: Child, at: Path, depth: nat, x: Extraction, count: nat, bytes: nat, now: int)
    requires InStep(x, at, count, bytes) && Untouched(x.fs, at, child.name)
    requires PlainEntries([child]) && DirectoriesFit([child], at)
    requires WalkEntry(child, PathString(at), depth, count, bytes).Ok?
    ensures var walk := WalkEntry(child, PathString(at), depth, count, bytes).value;
            Extracted(x, ExtractEntries(x, walk.out, now), at, FlatEntry(child, at), DirectoriesOfEntry(child, at), walk)
    decreases child, 1
  {
    assert Proper([child][0].name);
    match child.node
    case Symlink(meta, target) => LinkEntryBack(child, at, depth, x, count, bytes, now);
    case Regular(meta, data) => FileEntryBack(child, at, depth, x, count, bytes, now);
    case Directory(meta, children) =>
      assert [child][0].node.Directory?;
      SubtreeBack(child, at, depth, x, count, bytes, now);
    case Transient =>
      assert x.directories + [] == x.directories;
    case Unsupported =>
  }

  /** What the walker emits for a directory: its own header, then everything below. */
  lemma DirectoryWalked(child: Child, at: Path, depth: nat, count: nat, bytes: nat)
    requires child.node.Directory? && AllProper(at) && Proper(child.name)
    requires WalkEntry(child, PathString(at), depth, count, bytes).Ok?
    ensures var p := at + [child.name];
            var below := WalkEntries(child.node.children, PathString(p), depth + 1, count + 1, bytes);
            && count < MAX_RESTORED_FILE_COUNT
            && (|Join(p)| < MAX_ARCHIVE_PATH_BYTES ==> Canonical(Join(p) + "/", true) == Ok(Join(p)))
            && below.Ok?
            && WalkEntry(child, PathString(at), depth, count, bytes).value ==
                 below.value.(out := [DirectoryHeader(Join(p), child.node.meta)] + below.value.out)
  {
    PathStringOf(at, child.name);
    CanonicalIff(Join(at + [child.name]), true);
    CanonicalIff(Join(at + [child.name]) + "/", true);
  }

  lemma DirectoryFlat(child: Child, at: Path)
    requires child.node.Directory?
    ensures var p := at + [child.name];
            FlatEntry(child, at) == map[p := FsDirectory(Kept(child.node.meta))] + FlatEntries(child.node.children, p)
  {
    FlatEntriesAreUnder(child.node.children, at + [child.name]);
  }

  lemma {:induction false} SubtreeBack(child: Child, at: Path, depth: nat, x: Extraction, count: nat, bytes: nat, now: int)
    requires child.node.Directory? && InStep(x, at, count, bytes) && Proper(child.name) && Untouched(x.fs, at, child.name)
    requires PlainEntries(child.node.children) && DirectoriesFit(child.node.children, at + [child.name])
    requires |Join(at + [child.name])| < MAX_ARCHIVE_PATH_BYTES
    requires WalkEntry(child, PathString(at), depth, count, bytes).Ok?
    ensures var walk := WalkEntry(child, PathString(at), depth, count, bytes).value;
            Extracted(x, ExtractEntries(x, walk.out, now), at, FlatEntry(child, at), DirectoriesOfEntry(child, at), walk)
    decreases child, 0
  {
    var p, children := at + [child.name], child.node.children;
    DirectoryWalked(child, at, depth, count, bytes);
    var head := DirectoryHeader(Join(p), child.node.meta);
    DirectoryBack(x, head, at, child.name, count, bytes, now);
    var y := ExtractEntry(x, head, now).state;
    BelowIsUntouched(x, y, child, at);
    EntriesBack(children, p, depth + 1, y, count + 1, bytes, now);
    SubtreeComposes(x, y, child, at, WalkEntries(children, PathString(p), depth + 1, count + 1, bytes).value, now);
  }

  lemma SubtreeComposes(x: Extraction, y: Extraction, child: Child, at: Path, below: Walk, now: int)
    requires child.node.Directory? && Standing(y.fs, at)
    requires ExtractEntry(x, DirectoryHeader(Join(at + [child.name]), child.node.meta), now) == Next(y)
    requires Gained(x, y, map[at + [child.name] := FsDirectory(Kept(child.node.meta))])
    requires y.directories == x.directories + [DirectoryMeta(at + [child.name], Kept(child.node.meta))]
    requires Extracted(y, ExtractEntries(y, below.out, now), at + [child.name],
                       FlatEntries(child.node.children, at + [child.name]),
                       DirectoriesOf(child.node.children, at + [child.name]), below)
    ensures Extracted(x, ExtractEntries(x, [DirectoryHeader(Join(at + [child.name]), child.node.meta)] + below.out, now), at,
                      FlatEntry(child, at), DirectoriesOfEntry(child, at), below)
  {
    var p := at + [child.name];
    var head := DirectoryHeader(Join(p), child.node.meta);
    ExtractOne(x, head, now);
    ExtractConcat(x, [head], below.out, now);
    ExtractedCompose(x, y, ExtractEntries(y, below.out, now), at, p, map[p := FsDirectory(Kept(child.node.meta))],
                     FlatEntries(child.node.children, p), [DirectoryMeta(p, Kept(child.node.meta))],
                     DirectoriesOf(child.node.children, p), below);
    DirectoryFlat(child, at);
  }

  lemma BelowIsUntouched(x: Extraction, y: Extraction, child: Child, at: Path)
    requires child.node.Directory? && Untouched(x.fs, at, child.name)
    requires y.fs.Keys == x.fs.Keys + {at + [child.name]}
    ensures AllUntouched(y.fs, at + [child.name], child.node.children)
  {
    var p, children := at + [child.name], child.node.children;
    forall i, q | 0 <= i < |children| && q in y.fs ensures !Under(q, p, children[i].name) {
      UnderDeeper(q, at, child.name, children[i].name);
    }
  }

  lemma UnderDeeper(q: Path, at: Path, name: string, below: string)
    ensures Under(q, at + [name], below) ==> Under(q, at, name)
  {
    var p := at + [name];
    if Under(q, p, below) {
      assert q[..|p|] == p;
      assert q[..|at|] == p[..|at|] == at && q[|at|] == p[|at|];
    }
  }

  /** Two stretches of extraction in a row are one over both parts. */
  lemma ExtractedCompose(x: Extraction, y: Extraction, progress: Progress, at: Path, inner: Path, first: Fs, second: Fs,
                         listed: seq<DirectoryMeta>, more: seq<DirectoryMeta>, walk: Walk)
    requires Gained(x, y, first) && y.directories == x.directories + listed && Standing(y.fs, at)
    requires Extracted(y, progress, inner, second, more, walk)
    ensures Extracted(x, progress, at, first + second, listed + more, walk)
  {
    var z := progress.state;
    assert z.directories == x.directories + (listed + more);
    assert at == [] || IsDirectory(z.fs, at);
  }

  ghost predicate AllUntouched(fs: Fs, at: Path, children: seq<Child>) {
    forall i :: 0 <= i < |children| ==> Untouched(fs, at, children[i].name)
  }

  lemma {:induction false} EntriesBack(children: seq<Child>, at: Path, depth: nat, x: Extraction, count: nat, bytes: nat, now: int)
    requires InStep(x, at, count, bytes) && AllUntouched(x.fs, at, children)
    requires PlainEntries(children) && DirectoriesFit(children, at)
    requires WalkEntries(children, PathString(at), depth, count, bytes).Ok?
    ensures var walk := WalkEntries(children, PathString(at), depth, count, bytes).value;
            Extracted(x, ExtractEntries(x, walk.out, now), at, FlatEntries(children, at), DirectoriesOf(children, at), walk)
    decreases children, 0
  {
    if children != [] {
      var first := WalkEntry(children[0], PathString(at), depth, count, bytes).value;
      PlainByParts(children);
      FitsByParts(children, at);
      EntryBack(children[0], at, depth, x, count, bytes, now);
      var y := ExtractEntries(x, first.out, now).state;
      FlatEntryIsUnder(children[0], at);
      assert AllUntouched(y.fs, at, children[1..]) by {
        forall i, q | 0 <= i < |children[1..]| && q in y.fs ensures !Under(q, at, children[1..][i].name) {
          assert children[1..][i] == children[i + 1];
          assert Untouched(x.fs, at, children[i + 1].name);
        }
      }
      EntriesBack(children[1..], at, depth, y, first.count, first.bytes, now);
      var rest := WalkEntries(children[1..], PathString(at), depth, first.count, first.bytes).value;
      ExtractConcat(x, first.out, rest.out, now);
      ExtractedCompose(x, y, ExtractEntries(y, rest.out, now), at, at, FlatEntry(children[0], at),
                       FlatEntries(children[1..], at), DirectoriesOfEntry(children[0], at),
                       DirectoriesOf(children[1..], at), rest);
    } else {
      assert x.directories + [] == x.directories;
    }
  }

  lemma PlainByParts(children: seq<Child>)
    requires children != [] && PlainEntries(children)
    ensures PlainEntries([children[0]]) && PlainEntries(children[1..])
  {
    assert [children[0]][0] == children[0];
    assert forall i :: 0 <= i < |children[1..]| ==> children[1..][i] == children[i + 1];
  }

  lemma FitsByParts(children: seq<Child>, at: Path)
    requires children != []
    ensures DirectoriesFit(children, at) <==> DirectoriesFit([children[0]], at) && DirectoriesFit(children[1..], at)
  {
    assert [children[0]][0] == children[0];
    assert forall i :: 0 <= i < |children[1..]| ==> children[1..][i] == children[i + 1];
    assert forall i :: 1 <= i < |children| ==> children[i] == children[1..][i - 1];
  }

  // ---------------------------------------------------------------- directory metadata

  /** Applied metadata lands on exactly the listed directories. */
  lemma {:induction false} ApplyAllSets(fs: Fs, directories: seq<DirectoryMeta>, goal: Fs)
    requires Tree(fs)
    requires forall i :: 0 <= i < |directories| ==>
               var d := directories[i];
               |d.path| > 0 && IsDirectory(fs, d.path) && d.path in goal && goal[d.path] == FsDirectory(d.meta)
    ensures ApplyAll(fs, directories).Done? && ApplyAll(fs, directories).fs.Keys == fs.Keys
    ensures forall p :: p in fs ==>
              ApplyAll(fs, directories).fs[p] == if exists i :: 0 <= i < |directories| && directories[i].path == p then goal[p] else fs[p]
    decreases |directories|
  {
    ApplyAllSafe(fs, directories);
    if directories != [] {
      var d := directories[0];
      ApplyAllSafe(fs, [d]);
      var next := fs[d.path := FsDirectory(d.meta)];
      assert ApplyAll(fs, [d]) == Done(next) by { assert [d][1..] == []; }
      ApplyAllSets(next, directories[1..], goal);
      forall p | p in fs
        ensures (exists i :: 0 <= i < |directories| && directories[i].path == p) <==>
                  p == d.path || exists i :: 0 <= i < |directories[1..]| && directories[1..][i].path == p
      {
        if i :| 0 <= i < |directories| && directories[i].path == p {
          assert i == 0 || directories[1..][i - 1].path == p;
        }
        if i :| 0 <= i < |directories[1..]| && directories[1..][i].path == p {
          assert directories[i + 1].path == p;
        }
      }
    }
  }

  /** The listed directories are the tree's, with their metadata, and none is missing. */
  ghost predicate Lists(directories: seq<DirectoryMeta>, flat: Fs) {
    && (forall i :: 0 <= i < |directories| ==>
          directories[i].path in flat && flat[directories[i].path] == FsDirectory(directories[i].meta))
    && (forall p :: p in flat && flat[p].FsDirectory? ==> exists i :: 0 <= i < |directories| && directories[i].path == p)
  }

  lemma ListsCompose(first: seq<DirectoryMeta>, second: seq<DirectoryMeta>, a: Fs, b: Fs)
    requires Lists(first, a) && Lists(second, b) && a.Keys !! b.Keys
    ensures Lists(first + second, a + b)
  {
    forall p | p in a + b && (a + b)[p].FsDirectory?
      ensures exists i :: 0 <= i < |first + second| && (first + second)[i].path == p
    {
      if p in a {
        var i :| 0 <= i < |first| && first[i].path == p;
        assert (first + second)[i].path == p;
      } else {
        var i :| 0 <= i < |second| && second[i].path == p;
        assert (first + second)[|first| + i].path == p;
      }
    }
  }

  lemma {:induction false} EntryLists(child: Child, at: Path)
    requires PlainEntries([child])
    ensures Lists(DirectoriesOfEntry(child, at), FlatEntry(child, at))
    decreases child, 1
  {
    match child.node
    case Directory(meta, children) =>
      assert [child][0].node.Directory?;
      var p := at + [child.name];
      EntriesList(children, p);
      DirectoryFlat(child, at);
      FlatEntriesAreUnder(children, p);
      var own := [DirectoryMeta(p, Kept(meta))];
      assert own[0].path == p;
      ListsCompose(own, DirectoriesOf(children, p), map[p := FsDirectory(Kept(meta))], FlatEntries(children, p));
    case _ =>
  }

  lemma {:induction false} EntriesList(children: seq<Child>, at: Path)
    requires PlainEntries(children)
    ensures Lists(DirectoriesOf(children, at), FlatEntries(children, at))
    decreases children, 0
  {
    if children != [] {
      PlainByParts(children);
      EntryLists(children[0], at);
      EntriesList(children[1..], at);
      FlatEntryIsUnder(children[0], at);
      FlatEntriesAreUnder(children[1..], at);
      assert FlatEntry(children[0], at).Keys !! FlatEntries(children[1..], at).Keys;
      ListsCompose(DirectoriesOfEntry(children[0], at), DirectoriesOf(children[1..], at),
                   FlatEntry(children[0], at), FlatEntries(children[1..], at));
    }
  }

  // ---------------------------------------------------------------- the round trip

  lemma ListsInAnyOrder(directories: seq<DirectoryMeta>, sorted: seq<DirectoryMeta>, flat: Fs)
    requires Lists(directories, flat) && multiset(sorted) == multiset(directories)
    ensures Lists(sorted, flat)
  {
    forall i | 0 <= i < |sorted| ensures sorted[i] in directories {
      assert sorted[i] in multiset(sorted);
    }
    forall p | p in flat && flat[p].FsDirectory? ensures exists j :: 0 <= j < |sorted| && sorted[j].path == p {
      var i :| 0 <= i < |directories| && directories[i].path == p;
      assert directories[i] in multiset(sorted);
    }
  }

  lemma ListedMetadataCompletes(fs: Fs, sorted: seq<DirectoryMeta>, flat: Fs)
    requires Tree(fs) && fs.Keys == flat.Keys && Lists(sorted, flat)
    requires forall p :: p in flat ==> if flat[p].FsDirectory? then IsDirectory(fs, p) else fs[p] == flat[p]
    ensures ApplyAll(fs, sorted) == Done(flat)
  {
    ApplyAllSets(fs, sorted, flat);
    assert ApplyAll(fs, sorted).fs == flat;
  }

  /** A tree with the right shape and the right list of directories ends up exact. */
  lemma MetadataCompletes(fs: Fs, directories: seq<DirectoryMeta>, flat: Fs)
    requires Tree(fs) && fs.Keys == flat.Keys && Lists(directories, flat)
    requires forall p :: p in flat ==> if flat[p].FsDirectory? then IsDirectory(fs, p) else fs[p] == flat[p]
    ensures ApplyAll(fs, DeepestFirst(directories)) == Done(flat)
  {
    DeepestFirstKeeps(directories);
    ListsInAnyOrder(directories, DeepestFirst(directories), flat);
    ListedMetadataCompletes(fs, DeepestFirst(directories), flat);
  }

  lemma FittingTreeComesBack(children: seq<Child>, now: int)
    requires PlainEntries(children) && WalkRoot(children).Ok? && DirectoriesFit(children, [])
    ensures Extract(map[], WalkRoot(children).value, now) == Complete(FlatEntries(children, []))
  {
    var x := Extraction(map[], {}, [], 0, 0);
    EntriesBack(children, [], 0, x, 0, 0, now);
    var y := ExtractEntries(x, WalkRoot(children).value, now).state;
    EntriesList(children, []);
    assert y.directories == DirectoriesOf(children, []);
    MetadataCompletes(y.fs, y.directories, FlatEntries(children, []));
  }

  lemma ExtractedNameFits(x: Extraction, h: Header, now: int)
    requires ExtractEntry(x, h, now).Next?
    ensures |h.name| <= MAX_ARCHIVE_PATH_BYTES
  {
  }

  /** An extraction that gets through took every entry's name. */
  lemma {:induction false} ExtractedNamesFit(x: Extraction, headers: seq<Header>, now: int, i: nat)
    requires ExtractEntries(x, headers, now).Next? && i < |headers|
    ensures |headers[i].name| <= MAX_ARCHIVE_PATH_BYTES
    decreases |headers|
  {
    if i == 0 {
      ExtractedNameFits(x, headers[0], now);
    } else {
      ExtractedNamesFit(ExtractEntry(x, headers[0], now).state, headers[1..], now, i - 1);
    }
  }

  ghost predicate HasLongName(headers: seq<Header>) {
    exists i :: 0 <= i < |headers| && |headers[i].name| > MAX_ARCHIVE_PATH_BYTES
  }

  lemma LongNameStays(first: seq<Header>, rest: seq<Header>)
    requires HasLongName(first) || HasLongName(rest)
    ensures HasLongName(first + rest)
  {
    if i :| 0 <= i < |first| && |first[i].name| > MAX_ARCHIVE_PATH_BYTES {
      assert (first + rest)[i] == first[i];
    } else {
      var j :| 0 <= j < |rest| && |rest[j].name| > MAX_ARCHIVE_PATH_BYTES;
      assert (first + rest)[|first| + j] == rest[j];
    }
  }

  /** The walker lets a directory path of the full length pass, and its archive name is one byte longer. */
  lemma {:induction false} LongDirectoryIsArchived(child: Child, at: Path, depth: nat, count: nat, bytes: nat)
    requires AllProper(at) && PlainEntries([child]) && !DirectoriesFit([child], at)
    requires WalkEntry(child, PathString(at), depth, count, bytes).Ok?
    ensures HasLongName(WalkEntry(child, PathString(at), depth, count, bytes).value.out)
    decreases child, 1
  {
    assert Proper([child][0].name) && [child][0].node.Directory?;
    var p := at + [child.name];
    DirectoryWalked(child, at, depth, count, bytes);
    var head := DirectoryHeader(Join(p), child.node.meta);
    var below := WalkEntries(child.node.children, PathString(p), depth + 1, count + 1, bytes).value.out;
    if |Join(p)| >= MAX_ARCHIVE_PATH_BYTES {
      assert ([head] + below)[0] == head;
    } else {
      LongDirectoriesAreArchived(child.node.children, p, depth + 1, count + 1, bytes);
      LongNameStays([head], below);
    }
  }

  lemma EntriesWalked(children: seq<Child>, prefix: string, depth: nat, count: nat, bytes: nat)
    requires children != [] && WalkEntries(children, prefix, depth, count, bytes).Ok?
    ensures var first := WalkEntry(children[0], prefix, depth, count, bytes);
            && first.Ok?
            && var rest := WalkEntries(children[1..], prefix, depth, first.value.count, first.value.bytes);
            && rest.Ok?
            && WalkEntries(children, prefix, depth, count, bytes).value.out == first.value.out + rest.value.out
  {
  }

  lemma {:induction false} LongDirectoriesAreArchived(children: seq<Child>, at: Path, depth: nat, count: nat, bytes: nat)
    requires AllProper(at) && PlainEntries(children) && !DirectoriesFit(children, at)
    requires WalkEntries(children, PathString(at), depth, count, bytes).Ok?
    ensures HasLongName(WalkEntries(children, PathString(at), depth, count, bytes).value.out)
    decreases children, 0
  {
    EntriesWalked(children, PathString(at), depth, count, bytes);
    var first := WalkEntry(children[0], PathString(at), depth, count, bytes).value;
    var rest := WalkEntries(children[1..], PathString(at), depth, first.count, first.bytes).value;
    PlainByParts(children);
    FitsByParts(children, at);
    if !DirectoriesFit([children[0]], at) {
      LongDirectoryIsArchived(children[0], at, depth, count, bytes);
    } else {
      LongDirectoriesAreArchived(children[1..], at, depth, first.count, first.bytes);
    }
    LongNameStays(first.out, rest.out);
  }

  /**
   * Restoring an archived tree rebuilds exactly that tree, without sockets, pipes and devices,
   * if and only if every directory path is shorter than the limit: the walker checks the path
   * without its slash and the extractor with it.
   */
  lemma ArchiveRoundTrips(children: seq<Child>, now: int)
    requires PlainEntries(children) && WalkRoot(children).Ok?
    ensures var outcome := Extract(map[], WalkRoot(children).value, now);
            if DirectoriesFit(children, []) then outcome == Complete(FlatEntries(children, []))
            else outcome.Stopped?
  {
    var headers := WalkRoot(children).value;
    if DirectoriesFit(children, []) {
      FittingTreeComesBack(children, now);
    } else {
      var x := Extraction(map[], {}, [], 0, 0);
      LongDirectoriesAreArchived(children, [], 0, 0, 0);
      var i :| 0 <= i < |headers| && |headers[i].name| > MAX_ARCHIVE_PATH_BYTES;
      if ExtractEntries(x, headers, now).Next? {
        ExtractedNamesFit(x, headers, now, i);
      }
      ExtractNeverFollowsLinks(map[], headers, now);
    }
  }
}
