/** What any archive and any tree must be for a restore or a snapshot to go through: counts, sizes, names, depth. */
module ArchiveBounds {
  import opened Common
  import opened Paths
  import opened Archive
  import opened ArchiveWalk

  // ---------------------------------------------------------------- extraction

  /** What the regular files of an archive add up to. */
  function FileBytes(headers: seq<Header>): int {
    if headers == [] then 0
    else (if headers[0].kind.RegularEntry? then headers[0].size else 0) + FileBytes(headers[1..])
  }

  /** An entry of a kind that is restored, whole and with a usable target. */
  predicate EntryUsable(h: Header) {
    && Canonical(h.name, h.kind.DirectoryEntry?).Ok?
    && match h.kind
       case DirectoryEntry => true
       case SymlinkEntry => h.linkname != "" && |h.linkname| <= MAX_ARCHIVE_PATH_BYTES && '\0' !in h.linkname
       case RegularEntry => 0 <= h.size <= |h.data|
       case HardLinkEntry => false
       case OtherEntry => false
  }

  function NameOf(h: Header): string {
    if Canonical(h.name, h.kind.DirectoryEntry?).Ok? then Canonical(h.name, h.kind.DirectoryEntry?).value else ""
  }

  ghost predicate NamedOnce(headers: seq<Header>) {
    forall i, j :: 0 <= i < j < |headers| ==> NameOf(headers[i]) != NameOf(headers[j])
  }

  lemma NextMeans(x: Extraction, h: Header, now: int)
    requires ExtractEntry(x, h, now).Next?
    ensures var y := ExtractEntry(x, h, now).state;
            && x.count < MAX_RESTORED_FILE_COUNT && y.count == x.count + 1
            && EntryUsable(h) && NameOf(h) !in x.seen && y.seen == x.seen + {NameOf(h)}
            && y.bytes == x.bytes + FileBytes([h]) && (y.bytes != x.bytes ==> y.bytes <= MAX_RESTORED_SNAPSHOT_DATA)
  {
    assert [h][1..] == [];
  }

  lemma {:induction false} EntriesMean(x: Extraction, headers: seq<Header>, now: int)
    requires ExtractEntries(x, headers, now).Next? && x.bytes <= MAX_RESTORED_SNAPSHOT_DATA
    ensures headers != [] ==> x.count + |headers| <= MAX_RESTORED_FILE_COUNT
    ensures x.bytes + FileBytes(headers) <= MAX_RESTORED_SNAPSHOT_DATA
    ensures forall i :: 0 <= i < |headers| ==> EntryUsable(headers[i]) && NameOf(headers[i]) !in x.seen
    ensures NamedOnce(headers)
    decreases |headers|
  {
    if headers != [] {
      var h, rest := headers[0], headers[1..];
      NextMeans(x, h, now);
      assert [h][1..] == [];
      var y := ExtractEntry(x, h, now).state;
      EntriesMean(y, rest, now);
      forall i | 0 <= i < |headers|
        ensures EntryUsable(headers[i]) && NameOf(headers[i]) !in x.seen && (i > 0 ==> NameOf(headers[i]) != NameOf(h))
      {
        if i > 0 { assert headers[i] == rest[i - 1]; }
      }
      assert forall i, j :: 0 < i < j < |headers| ==> headers[i] == rest[i - 1] && headers[j] == rest[j - 1];
    }
  }

  /**
   * Whatever the archive, a restore goes through only if it has at most a million entries, at most 32 GiB of
   * files, every name once, and nothing but whole files, directories and links with usable targets.
   */
  lemma CompleteIsBounded(fs: Fs, headers: seq<Header>, now: int)
    requires Extract(fs, headers, now).Complete?
    ensures |headers| <= MAX_RESTORED_FILE_COUNT && FileBytes(headers) <= MAX_RESTORED_SNAPSHOT_DATA && NamedOnce(headers)
    ensures forall i :: 0 <= i < |headers| ==> EntryUsable(headers[i])
  {
    EntriesMean(Extraction(fs, {}, [], 0, 0), headers, now);
  }

  // ---------------------------------------------------------------- archiving

  /** No directory lies deeper than the limit. */
  ghost predicate WithinDepth(children: seq<Child>, depth: nat)
    decreases children
  {
    && depth <= MAX_SNAPSHOT_DIRECTORY_DEPTH
    && forall i :: 0 <= i < |children| && children[i].node.Directory? ==> WithinDepth(children[i].node.children, depth + 1)
  }

  /** Entries and file bytes of a tree, what is left out included in the count. */
  function CountOf(children: seq<Child>): nat
    decreases children
  {
    if children == [] then 0
    else 1 + (if children[0].node.Directory? then CountOf(children[0].node.children) else 0) + CountOf(children[1..])
  }

  function BytesOf(children: seq<Child>): nat
    decreases children
  {
    if children == [] then 0
    else
      (match children[0].node
       case Directory(_, below) => BytesOf(below)
       case Regular(_, data) => |data|
       case _ => 0) + BytesOf(children[1..])
  }

  lemma {:induction false} WalkedIsBounded(children: seq<Child>, prefix: string, depth: nat, count: nat, bytes: nat)
    requires WalkDirectory(children, prefix, depth, count, bytes).Ok?
    ensures WithinDepth(children, depth)
    ensures var walk := WalkDirectory(children, prefix, depth, count, bytes).value;
            walk.count == count + CountOf(children) && walk.bytes == bytes + BytesOf(children)
    ensures children != [] ==> count + CountOf(children) <= MAX_RESTORED_FILE_COUNT
    ensures bytes <= MAX_RESTORED_SNAPSHOT_DATA ==> bytes + BytesOf(children) <= MAX_RESTORED_SNAPSHOT_DATA
    decreases children
  {
    if children != [] {
      var first := WalkEntry(children[0], prefix, depth, count, bytes).value;
      var path := RelativePath(prefix, children[0].name);
      if children[0].node.Directory? {
        assert WalkDirectory(children[0].node.children, path, depth + 1, count + 1, bytes).Ok?;
        WalkedIsBounded(children[0].node.children, path, depth + 1, count + 1, bytes);
      }
      assert WalkDirectory(children[1..], prefix, depth, first.count, first.bytes).Ok?;
      WalkedIsBounded(children[1..], prefix, depth, first.count, first.bytes);
      forall i | 0 <= i < |children| && children[i].node.Directory? ensures WithinDepth(children[i].node.children, depth + 1) {
        if i > 0 { assert children[1..][i - 1] == children[i]; }
      }
    }
  }

  /** A snapshot is taken only of a tree within the limits on entries, bytes and depth. */
  lemma ArchivedIsBounded(children: seq<Child>)
    requires WalkRoot(children).Ok?
    ensures WithinDepth(children, 0) && CountOf(children) <= MAX_RESTORED_FILE_COUNT && BytesOf(children) <= MAX_RESTORED_SNAPSHOT_DATA
  {
    WalkedIsBounded(children, "", 0, 0, 0);
  }
}
