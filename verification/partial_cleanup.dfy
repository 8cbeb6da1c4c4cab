/** After a cancelled copy or move, rclone leaves `*.partial` files at the
    destination. This module finds them (by name next to a cancelled file,
    or anywhere under a cancelled directory) and deletes the ones the user
    agrees to remove.

    The remote is seen only through its listings: a `Node` carries a
    listing entry and, for a directory, the listing of that directory
    (empty when listing it fails, as `list_directory` then returns []). */
module PartialCleanup {
  import opened Wrappers
  import opened Strings
  import opened PosixPath
  import opened RcloneWrapper
  import opened Navigation

  datatype Node = Node(entry: FileEntry, children: seq<Node>)

  /** A partial file found: its name and its full `remote:path`. */
  datatype Partial = Partial(name: string, fullPath: string)

  const PartialSuffix := ".partial"

  /** The path of entry `name` inside `dirPath`, the root being "". */
  function ChildPath(dirPath: string, name: string): (p: string)
    ensures dirPath == "" ==> p == name
  {
    if dirPath != "" then Join(dirPath, name) else name
  }

  /** `_find_partial_files_recursive`: walk the listing in order, descending
      into every directory, and collect every non-directory entry whose name
      ends in `.partial`. */
  function FindPartialsRecursive(remote: string, dirPath: string, listing: seq<Node>): (found: seq<Partial>)
    ensures forall p :: p in found ==> EndsWith(p.name, PartialSuffix) && StartsWith(p.fullPath, remote + ":")
    decreases listing
  {
    if listing == [] then []
    else
      var entry := listing[0].entry;
      var here :=
        if entry.isDir then FindPartialsRecursive(remote, ChildPath(dirPath, entry.name), listing[0].children)
        else if EndsWith(entry.name, PartialSuffix) then [Partial(entry.name, remote + ":" + ChildPath(dirPath, entry.name))]
        else [];
      here + FindPartialsRecursive(remote, dirPath, listing[1..])
  }

  /** `p` is a partial file somewhere in the subtree listed by `listing`,
      which is the listing of `dirPath`. */
  ghost predicate PartialInTree(remote: string, dirPath: string, listing: seq<Node>, p: Partial)
    decreases listing
  {
    exists i :: 0 <= i < |listing| &&
      var entry := listing[i].entry;
      if entry.isDir then PartialInTree(remote, ChildPath(dirPath, entry.name), listing[i].children, p)
      else EndsWith(entry.name, PartialSuffix) && p == Partial(entry.name, remote + ":" + ChildPath(dirPath, entry.name))
  }

  /** The recursive search finds exactly the partial files of the subtree:
      every non-directory `.partial` entry at any depth, and nothing else. */
  lemma {:induction false} FindsExactlyTheTreesPartials(remote: string, dirPath: string, listing: seq<Node>, p: Partial)
    ensures p in FindPartialsRecursive(remote, dirPath, listing) <==> PartialInTree(remote, dirPath, listing, p)
    decreases listing
  {
    if listing != [] {
      var entry := listing[0].entry;
      var rest := listing[1..];
      FindsExactlyTheTreesPartials(remote, dirPath, rest, p);
      if entry.isDir {
        FindsExactlyTheTreesPartials(remote, ChildPath(dirPath, entry.name), listing[0].children, p);
      }
      // an index of `rest` is an index of `listing` shifted by one
      assert forall i :: 0 <= i < |rest| ==> rest[i] == listing[i + 1];
      if PartialInTree(remote, dirPath, listing, p) {
        var i :| 0 <= i < |listing| &&
          var e := listing[i].entry;
          if e.isDir then PartialInTree(remote, ChildPath(dirPath, e.name), listing[i].children, p)
          else EndsWith(e.name, PartialSuffix) && p == Partial(e.name, remote + ":" + ChildPath(dirPath, e.name));
        if i > 0 {
          assert rest[i - 1] == listing[i];
        }
      }
    }
  }

  /** The partial files rclone leaves for a file `filename`: entries of the
      same directory named `filename.<anything>.partial`. */
  predicate IsPartialOf(name: string, filename: string) {
    StartsWith(name, filename + ".") && EndsWith(name, PartialSuffix)
  }

  /** The matching loop of `_cleanup_partial_file` for a file item: the
      entries of the listing of `dirPath` whose names match, in listing order. */
  function MatchingPartials(remote: string, dirPath: string, filename: string, listing: seq<Node>): (found: seq<Partial>)
    ensures forall p :: p in found <==>
      exists i :: 0 <= i < |listing| && IsPartialOf(listing[i].entry.name, filename)
        && p == Partial(listing[i].entry.name, remote + ":" + ChildPath(dirPath, listing[i].entry.name))
  {
    if listing == [] then []
    else
      var n := |listing| - 1;
      var init := MatchingPartials(remote, dirPath, filename, listing[..n]);
      assert forall i :: 0 <= i < n ==> listing[..n][i] == listing[i];
      var name := listing[n].entry.name;
      if IsPartialOf(name, filename) then init + [Partial(name, remote + ":" + ChildPath(dirPath, name))] else init
  }

  /** How many characters precede the first ':'. */
  function ColonIndex(s: string): (n: nat)
    ensures n <= |s|
    ensures ':' !in s[..n]
    ensures n < |s| ==> s[n] == ':'
  {
    if s == [] || s[0] == ':' then 0 else 1 + ColonIndex(s[1..])
  }

  /** The remote and the path `_cleanup_partial_file` reads from its
      argument with `split(':', 1)`; None when there is no argument or no ':'. */
  function ScanTarget(filePath: Option<string>): (r: Option<(string, string)>)
    ensures r.None? <==> filePath.None? || ':' !in filePath.value
    ensures r.Some? ==> filePath.value == r.value.0 + ":" + r.value.1 && ':' !in r.value.0
  {
    match filePath
    case None => None
    case Some(s) =>
      var k := ColonIndex(s);
      if k == |s| then
        assert s[..k] == s;
        None
      else
        assert s == s[..k] + ":" + s[k + 1..];
        Some((s[..k], s[k + 1..]))
  }

  /** The directory `_cleanup_partial_file` lists: the item itself for a
      directory, the directory holding it for a file. */
  function ScanDirectory(fullPath: string, isDirectory: bool): string {
    if isDirectory then fullPath
    else if fullPath != "" then DirName(fullPath)
    else ""
  }

  /** The partial files `_cleanup_partial_file` offers to delete, given the
      listing of `ScanDirectory` of its target. */
  function PartialsFor(filePath: Option<string>, filename: string, isDirectory: bool, listing: seq<Node>): seq<Partial> {
    match ScanTarget(filePath)
    case None => []
    case Some((remote, fullPath)) =>
      if isDirectory then FindPartialsRecursive(remote, fullPath, listing)
      else MatchingPartials(remote, ScanDirectory(fullPath, false), filename, listing)
  }

  /** For a cancelled file, the cleanup path `build_path(dst, cur, name)`
      leads the scan to the destination remote and to the panel's own
      directory, so the partials are looked for next to where the file was
      being written. */
  lemma CleanupScansDestinationDirectory(dst: string, cur: string, name: string)
    requires ':' !in dst
    requires name != "" && '/' !in name
    requires cur == "" || cur[|cur| - 1] != '/'
    ensures ScanTarget(Some(BuildPath(dst, cur, name))) == Some((dst, Join(cur, name)))
    ensures ScanDirectory(Join(cur, name), false) == cur
  {
    assert !StartsWith(name, "/") by {
      assert name[0] != '/';
    }
    var rest := Join(cur, name);
    assert BuildPath(dst, cur, name) == dst + ":" + rest;
    ScanTargetOf(dst, rest);
    DirNameOfChild(cur, name);
    assert rest != "" by {
      assert EndsWith(rest, name);
    }
  }

  /** Splitting `remote:rest` at its first ':' gives back the remote and
      the rest, whatever colons the rest holds. */
  lemma ScanTargetOf(remote: string, rest: string)
    requires ':' !in remote
    ensures ScanTarget(Some(remote + ":" + rest)) == Some((remote, rest))
  {
    var s := remote + ":" + rest;
    ColonIndexOfPrefix(remote, rest);
    assert s[..|remote|] == remote;
    assert s[|remote| + 1..] == rest;
  }

  lemma {:induction false} ColonIndexOfPrefix(a: string, b: string)
    requires ':' !in a
    ensures ColonIndex(a + ":" + b) == |a|
    decreases |a|
  {
    if a != [] {
      assert (a + ":" + b)[1..] == a[1..] + ":" + b;
      ColonIndexOfPrefix(a[1..], b);
    }
  }

  /** What the user is told once the cleanup is over. */
  datatype CleanupReport = NothingFound | KeptPartials | Deleted(count: nat) | DeleteFailed

  /** How many of `partials` are deleted when deleting `p` exits with `exitOf(p.fullPath)`. */
  function DeletedCount(partials: seq<Partial>, exitOf: string -> int): (n: nat)
    ensures n <= |partials|
  {
    if partials == [] then 0
    else
      var m := |partials| - 1;
      DeletedCount(partials[..m], exitOf) + (if exitOf(partials[m].fullPath) == 0 then 1 else 0)
  }

  /** Nothing is deleted exactly when every deletion fails, which is when
      the user is told that the deletion failed. */
  lemma {:induction false} NoneDeletedIffAllFailed(partials: seq<Partial>, exitOf: string -> int)
    ensures DeletedCount(partials, exitOf) == 0 <==> forall i :: 0 <= i < |partials| ==> exitOf(partials[i].fullPath) != 0
    decreases |partials|
  {
    if partials != [] {
      var m := |partials| - 1;
      NoneDeletedIffAllFailed(partials[..m], exitOf);
      assert forall i :: 0 <= i < m ==> partials[..m][i] == partials[i];
    }
  }

  /** One more attempted deletion adds one to the count exactly when it succeeds. */
  lemma DeletedCountExtends(partials: seq<Partial>, i: nat, exitOf: string -> int)
    requires i < |partials|
    ensures DeletedCount(partials[..i + 1], exitOf) ==
      DeletedCount(partials[..i], exitOf) + (if exitOf(partials[i].fullPath) == 0 then 1 else 0)
  {
    assert partials[..i + 1][..i] == partials[..i];
  }

  /** The confirmation handler `handle_cleanup` once the user agreed:
      delete each partial file as a file (`delete`, never `purge`), going on
      after failures, and count the deletions that succeeded. */
  method DeletePartials(inv: Invocation, partials: seq<Partial>, exitOf: string -> int)
    returns (commands: seq<seq<string>>, deletedCount: nat)
    ensures |commands| == |partials|
    ensures forall i :: 0 <= i < |partials| ==> commands[i] == BaseArgs(inv) + ["delete", partials[i].fullPath]
    ensures deletedCount == DeletedCount(partials, exitOf)
  {
    commands := [];
    deletedCount := 0;
    var i := 0;
    while i < |partials|
      invariant 0 <= i <= |partials|
      invariant deletedCount == DeletedCount(partials[..i], exitOf)
      invariant |commands| == i
      invariant forall j :: 0 <= j < i ==> commands[j] == BaseArgs(inv) + ["delete", partials[j].fullPath]
    {
      var cmd, success := DeleteFile(inv, partials[i].fullPath, false, exitOf(partials[i].fullPath));
      DeletedCountExtends(partials, i, exitOf);
      commands := commands + [cmd];
      if success {
        deletedCount := deletedCount + 1;
      }
      i := i + 1;
    }
    assert partials[..|partials|] == partials;
  }

  /** `_cleanup_partial_file`: find the partial files and, when there are
      some and the user confirms, delete them and report how many went. */
  method CleanupPartialFile(inv: Invocation, filePath: Option<string>, filename: string, isDirectory: bool,
                            listing: seq<Node>, confirmed: bool, exitOf: string -> int)
    returns (commands: seq<seq<string>>, report: CleanupReport)
    ensures var partials := PartialsFor(filePath, filename, isDirectory, listing);
      && (partials == [] ==> report == NothingFound && commands == [])
      && (partials != [] && !confirmed ==> report == KeptPartials && commands == [])
      && (partials != [] && confirmed ==>
            && |commands| == |partials|
            && (forall i :: 0 <= i < |partials| ==> commands[i] == BaseArgs(inv) + ["delete", partials[i].fullPath])
            && report == (if DeletedCount(partials, exitOf) > 0 then Deleted(DeletedCount(partials, exitOf)) else DeleteFailed))
  {
    var partials := PartialsFor(filePath, filename, isDirectory, listing);
    if partials == [] {
      return [], NothingFound;
    }
    if !confirmed {
      return [], KeptPartials;
    }
    var deletedCount;
    commands, deletedCount := DeletePartials(inv, partials, exitOf);
    report := if deletedCount > 0 then Deleted(deletedCount) else DeleteFailed;
  }
}
