/** Archive paths: what a snapshot may name, as strings and as lists of components. */
module Paths {
  import opened Common

  const MAX_ARCHIVE_PATH_BYTES: nat := 4096

  // ---------------------------------------------------------------- strings and components

  /** strings.Split(s, "/"). */
  function Split(s: string): (parts: seq<string>)
    ensures |parts| > 0
  {
    if s == "" then [""]
    else
      var rest := Split(s[1..]);
      if s[0] == '/' then [""] + rest else [[s[0]] + rest[0]] + rest[1..]
  }

  function Join(parts: seq<string>): string
    requires |parts| > 0
  {
    if |parts| == 1 then parts[0] else parts[0] + "/" + Join(parts[1..])
  }

  predicate SlashFree(part: string) {
    '/' !in part
  }

  lemma {:induction false} JoinSplit(s: string)
    ensures Join(Split(s)) == s
    ensures forall i :: 0 <= i < |Split(s)| ==> SlashFree(Split(s)[i])
  {
    if s != "" {
      JoinSplit(s[1..]);
      var rest := Split(s[1..]);
      if s[0] == '/' {
        assert ([""] + rest)[1..] == rest;
      } else if |rest| > 1 {
        assert ([[s[0]] + rest[0]] + rest[1..])[1..] == rest[1..];
      }
    }
  }

  lemma {:induction false} SplitPrepend(part: string, s: string)
    requires SlashFree(part)
    ensures Split(part + s) == [part + Split(s)[0]] + Split(s)[1..]
  {
    if part == "" {
      assert part + s == s && part + Split(s)[0] == Split(s)[0];
      assert [Split(s)[0]] + Split(s)[1..] == Split(s);
    } else {
      SplitPrepend(part[1..], s);
      assert (part + s)[1..] == part[1..] + s;
      assert [part[0]] + (part[1..] + Split(s)[0]) == part + Split(s)[0];
    }
  }

  lemma {:induction false} SplitJoin(parts: seq<string>)
    requires |parts| > 0 && forall i :: 0 <= i < |parts| ==> SlashFree(parts[i])
    ensures Split(Join(parts)) == parts
  {
    if |parts| == 1 {
      SplitPrepend(parts[0], "");
      assert parts[0] + "" == parts[0] && [parts[0]] == parts;
    } else {
      SplitJoin(parts[1..]);
      var tail := "/" + Join(parts[1..]);
      assert tail[1..] == Join(parts[1..]);
      assert Split(tail) == [""] + parts[1..];
      SplitPrepend(parts[0], tail);
      assert parts[0] + tail == Join(parts) && parts[0] + "" == parts[0];
      assert [parts[0]] + parts[1..] == parts;
    }
  }

  /** Splitting a longer path adds one component. */
  lemma {:induction false} JoinAppend(parts: seq<string>, part: string)
    requires |parts| > 0
    ensures Join(parts + [part]) == Join(parts) + "/" + part
  {
    if |parts| > 1 {
      JoinAppend(parts[1..], part);
      assert (parts + [part])[1..] == parts[1..] + [part];
    }
  }

  // ---------------------------------------------------------------- path.Clean

  /** path.Clean's work on a relative path's components. */
  function CleanParts(parts: seq<string>, done: seq<string>): seq<string>
    decreases |parts|
  {
    if parts == [] then done
    else if parts[0] == "" || parts[0] == "." then CleanParts(parts[1..], done)
    else if parts[0] == ".." && done != [] && done[|done| - 1] != ".." then CleanParts(parts[1..], done[..|done| - 1])
    else CleanParts(parts[1..], done + [parts[0]])
  }

  function Clean(s: string): string {
    var parts := CleanParts(Split(s), []);
    if parts == [] then "." else Join(parts)
  }

  /** A component that names an entry of its directory. */
  predicate Proper(part: string) {
    SlashFree(part) && part != "" && part != "." && part != ".."
  }

  predicate AllProper(parts: seq<string>) {
    forall i :: 0 <= i < |parts| ==> Proper(parts[i])
  }

  /** Cleaned components have no "" or ".", and ".." only at the front. */
  predicate Cleaned(parts: seq<string>) {
    && (forall i :: 0 <= i < |parts| ==> SlashFree(parts[i]) && parts[i] != "" && parts[i] != ".")
    && (forall i, j :: 0 <= i < j < |parts| && parts[j] == ".." ==> parts[i] == "..")
  }

  lemma {:induction false} CleanPartsAreCleaned(parts: seq<string>, done: seq<string>)
    requires forall i :: 0 <= i < |parts| ==> SlashFree(parts[i])
    requires Cleaned(done)
    ensures Cleaned(CleanParts(parts, done))
    decreases |parts|
  {
    if parts != [] {
      if parts[0] == "" || parts[0] == "." {
        CleanPartsAreCleaned(parts[1..], done);
      } else if parts[0] == ".." && done != [] && done[|done| - 1] != ".." {
        CleanPartsAreCleaned(parts[1..], done[..|done| - 1]);
      } else {
        CleanPartsAreCleaned(parts[1..], done + [parts[0]]);
      }
    }
  }

  lemma {:induction false} CleanPartsKeepsProper(parts: seq<string>, done: seq<string>)
    requires AllProper(parts)
    ensures CleanParts(parts, done) == done + parts
    decreases |parts|
  {
    if parts == [] {
      assert done + parts == done;
    } else {
      CleanPartsKeepsProper(parts[1..], done + [parts[0]]);
      assert (done + [parts[0]]) + parts[1..] == done + parts;
    }
  }

  // ---------------------------------------------------------------- canonicalArchiveRelativePath

  predicate HasWindowsDrivePrefix(name: string) {
    |name| >= 2 && name[1] == ':' && ('A' <= name[0] <= 'Z' || 'a' <= name[0] <= 'z')
  }

  function TrimSlash(name: string): string {
    if name != "" && name[|name| - 1] == '/' then name[..|name| - 1] else name
  }

  /** The path without a directory's trailing slash, or an error. */
  function Canonical(name: string, directory: bool): Result<string> {
    if name == "" || |name| > MAX_ARCHIVE_PATH_BYTES || '\0' in name then Err
    else if '\\' in name then Err
    else if !directory && name[|name| - 1] == '/' then Err
    else
      var normalized := if directory then TrimSlash(name) else name;
      if normalized == "" || normalized[0] == '/' || HasWindowsDrivePrefix(normalized) then Err
      else
        var cleaned := Clean(normalized);
        if cleaned == "." || cleaned == ".." || "../" <= cleaned then Err
        else if cleaned != normalized then Err
        else Ok(cleaned)
  }

  /** A path an archive may hold: short enough, no NUL or backslash, every component a plain name. */
  predicate Acceptable(path: string) {
    && path != "" && '\0' !in path && '\\' !in path
    && AllProper(Split(path))
    && !HasWindowsDrivePrefix(path)
  }

  /** Clean leaves a path alone and inside exactly when every component is a plain name. */
  lemma CleanIsIdentityIff(s: string)
    requires s != ""
    ensures (Clean(s) == s && s != "." && s != ".." && !("../" <= s)) <==> AllProper(Split(s))
  {
    var parts := Split(s);
    JoinSplit(s);
    if AllProper(parts) {
      CleanPartsKeepsProper(parts, []);
      assert [] + parts == parts;
      FirstPart(s);
    } else if Clean(s) == s && s != "." {
      CleanPartsAreCleaned(parts, []);
      var cleaned := CleanParts(parts, []);
      SplitJoin(cleaned);
      assert cleaned == parts;
      var i :| 0 <= i < |parts| && !Proper(parts[i]);
      assert parts[i] == "..";
      assert parts[0] == "..";
      FirstPart(s);
    }
  }

  /** The first component ends the string or is followed by a slash. */
  lemma FirstPart(s: string)
    ensures s == Split(s)[0] || Split(s)[0] + "/" <= s
    ensures "../" <= s ==> Split(s)[0] == ".."
    ensures s == ".." ==> Split(s) == [".."]
    ensures s == "." ==> Split(s) == ["."]
  {
    JoinSplit(s);
    if "../" <= s {
      assert s == ".." + s[2..];
      assert s[2..][0] == '/';
      assert Split(s[2..])[0] == "";
      SplitPrepend("..", s[2..]);
    }
    if s == ".." { SplitPrepend("..", ""); assert ".." + "" == ".."; }
    if s == "." { SplitPrepend(".", ""); assert "." + "" == "."; }
  }

  lemma SlashFirst(s: string)
    requires s != "" && s[0] == '/'
    ensures Split(s) != [] && Split(s)[0] == ""
  {
  }

  /** Plain names neither begin nor end with a slash. */
  lemma ProperEnds(path: string)
    requires path != "" && AllProper(Split(path))
    ensures path[0] != '/' && path[|path| - 1] != '/'
  {
    JoinSplit(path);
    if path[0] == '/' { SlashFirst(path); }
    if path[|path| - 1] == '/' { LastPart(path); }
  }

  /** What canonicalArchiveRelativePath accepts, both ways, and what it returns. */
  lemma CanonicalIff(name: string, directory: bool)
    ensures var path := if directory then TrimSlash(name) else name;
            && (Canonical(name, directory).Ok? <==> |name| <= MAX_ARCHIVE_PATH_BYTES && Acceptable(path))
            && (Canonical(name, directory).Ok? ==> Canonical(name, directory).value == path)
  {
    var path := if directory then TrimSlash(name) else name;
    if path != "" {
      CleanIsIdentityIff(path);
      if AllProper(Split(path)) { ProperEnds(path); }
    }
  }

  /** What comes out is a way down from the root: no empty, current or parent component, no drive, no other separator. */
  lemma CanonicalStaysBelow(name: string, directory: bool)
    requires Canonical(name, directory).Ok?
    ensures var path := Canonical(name, directory).value;
            && AllProper(Split(path)) && '\\' !in path && '\0' !in path && |path| <= 4096
            && (|path| >= 2 && path[1] == ':' ==> !('A' <= path[0] <= 'Z') && !('a' <= path[0] <= 'z'))
  {
    CanonicalIff(name, directory);
  }

  /** A path that ends in a slash has an empty last component. */
  lemma {:induction false} LastPart(s: string)
    requires s != "" && s[|s| - 1] == '/'
    ensures Split(s)[|Split(s)| - 1] == ""
  {
    if |s| > 1 {
      LastPart(s[1..]);
    }
  }
}
