/** The two path helpers of the file manager: going up one directory, and
    building an rclone `remote:path` address for an entry of a panel. */
module Navigation {
  import opened Strings
  import opened PosixPath

  /** `navigate_up`: strip trailing '/', split on '/', and keep all but the
      last part; a path of one part goes up to the root "". */
  function NavigateUp(currentPath: string): string {
    var parts := Split(RStripSlash(currentPath));
    if |parts| > 1 then JoinParts(parts[..|parts| - 1]) else ""
  }

  /** Going up keeps exactly what precedes the last '/' of the path once its
      trailing separators are stripped, and a path without a '/' goes to "". */
  lemma {:induction false} NavigateUpDropsLastSegment(p: string)
    ensures var q, up := RStripSlash(p), NavigateUp(p);
      && StartsWith(p, up)
      && ('/' !in q ==> up == "")
      && ('/' in q ==> |up| < |q| && q[..|up|] == up && q[|up|] == '/' && '/' !in q[|up| + 1..])
  {
    var q := RStripSlash(p);
    SplitCount(q);
    if '/' in q {
      var up := BeforeLastSlash(q);
      assert p[..|q|] == q;
      assert p[..|up|] == q[..|up|];
    }
  }

  /** All the parts of a split but the last, joined back, are what precedes
      the last '/'. */
  lemma BeforeLastSlash(q: string) returns (up: string)
    requires '/' in q
    ensures |Split(q)| > 1 && up == JoinParts(Split(q)[..|Split(q)| - 1])
    ensures |up| < |q| && q[..|up|] == up && q[|up|] == '/' && '/' !in q[|up| + 1..]
  {
    var parts := Split(q);
    SplitCount(q);
    JoinSplit(q);
    up := JoinParts(parts[..|parts| - 1]);
    assert q == up + "/" + parts[|parts| - 1];
    assert q[|up| + 1..] == parts[|parts| - 1];
  }

  /** `build_path`: `remote:` followed by the panel's path, joined with the
      entry's name when there is one. */
  function BuildPath(remote: string, currentPath: string, filename: string): (r: string)
    ensures StartsWith(r, remote + ":")
    ensures filename == "" ==> r == remote + ":" + currentPath
  {
    if filename != "" then remote + ":" + Join(currentPath, filename)
    else remote + ":" + currentPath
  }

  /** `build_path` case by case: an absolute name replaces the panel's path,
      and a relative one is appended to it with a single separator. */
  lemma BuildPathCases(remote: string, currentPath: string, filename: string)
    requires filename != ""
    ensures StartsWith(filename, "/") ==> BuildPath(remote, currentPath, filename) == remote + ":" + filename
    ensures !StartsWith(filename, "/") && (currentPath == "" || EndsWith(currentPath, "/")) ==>
      BuildPath(remote, currentPath, filename) == remote + ":" + currentPath + filename
    ensures !StartsWith(filename, "/") && currentPath != "" && !EndsWith(currentPath, "/") ==>
      BuildPath(remote, currentPath, filename) == remote + ":" + currentPath + "/" + filename
  {
    var head := remote + ":";
    if !StartsWith(filename, "/") {
      if currentPath == "" || EndsWith(currentPath, "/") {
        assert Join(currentPath, filename) == currentPath + filename;
        AppendAssoc(head, currentPath, filename);
      } else {
        assert Join(currentPath, filename) == currentPath + "/" + filename;
        AppendAssoc(head, currentPath + "/", filename);
        AppendAssoc(head, currentPath, "/");
      }
    }
  }

  /** The directory part of a child path is the parent it was joined onto,
      as long as the parent does not end in a separator and the name holds none. */
  lemma DirNameOfChild(parent: string, name: string)
    requires name != "" && '/' !in name
    requires parent == "" || parent[|parent| - 1] != '/'
    ensures DirName(Join(parent, name)) == parent
  {
    assert !StartsWith(name, "/") by {
      assert name[0] != '/';
    }
    if parent == "" {
      DirNameOfName(name);
    } else {
      DirNameOfNested(parent, name);
    }
  }

  /** A bare name has no directory part. */
  lemma DirNameOfName(name: string)
    requires '/' !in name
    ensures DirName(name) == ""
  {
    assert RFindSlash(name) == -1;
    assert name[..0] == "";
  }

  /** The directory part of `parent/name` is `parent`. */
  lemma DirNameOfNested(parent: string, name: string)
    requires '/' !in name
    requires parent != "" && parent[|parent| - 1] != '/'
    ensures DirName(parent + "/" + name) == parent
  {
    var j := parent + "/" + name;
    assert forall i :: |parent| < i < |j| ==> j[i] == name[i - |parent| - 1];
    var k := RFindSlash(j);
    assert k == |parent| by {
      assert j[|parent|] == '/';
    }
    var head := j[..k + 1];
    assert head == parent + "/";
    assert !AllSlashes(head) by {
      assert head[|parent| - 1] == parent[|parent| - 1];
    }
    var r := RStripSlash(head);
    assert |r| == |parent| by {
      assert head[|parent| - 1] != '/';
    }
    assert r == parent;
  }

  /** The last part of a path once its trailing separators are removed:
      the name of the directory it denotes. */
  function LastSegment(path: string): (name: string)
    ensures '/' !in name
  {
    var parts := Split(RStripSlash(path));
    parts[|parts| - 1]
  }

  /** Entering directory `name` and then going up returns to the parent, and
      the segment remembered on the way up is `name` again. */
  lemma EnterThenGoUp(parent: string, name: string)
    requires name != "" && '/' !in name
    requires parent == "" || parent[|parent| - 1] != '/'
    ensures NavigateUp(Join(parent, name)) == parent
    ensures LastSegment(Join(parent, name)) == name
  {
    assert !StartsWith(name, "/") by {
      assert name[0] != '/';
    }
    if parent == "" {
      UpFromName(name);
    } else {
      UpFromNested(parent, name);
    }
  }

  /** A top-level directory goes up to the root and is its own last segment. */
  lemma UpFromName(name: string)
    requires name != "" && '/' !in name
    ensures NavigateUp(name) == ""
    ensures LastSegment(name) == name
  {
    assert RStripSlash(name) == name by {
      assert name[|name| - 1] != '/';
    }
    SplitCount(name);
    JoinSplit(name);
  }

  /** `parent/name` goes up to `parent`, and its last segment is `name`. */
  lemma UpFromNested(parent: string, name: string)
    requires name != "" && '/' !in name
    requires parent != "" && parent[|parent| - 1] != '/'
    ensures NavigateUp(parent + "/" + name) == parent
    ensures LastSegment(parent + "/" + name) == name
  {
    var j := parent + "/" + name;
    UpOfNested(parent, name);
    assert RStripSlash(j) == j by {
      assert j[|j| - 1] == name[|name| - 1];
    }
    var parts := Split(j);
    var n := |parts|;
    assert j[|parent|] == '/';
    SplitCount(j);
    JoinSplit(j);
    assert j == parent + "/" + parts[n - 1];
    assert parts[n - 1] == j[|parent| + 1..] == name;
  }

  /** The '/' that `os.path.join` puts after `parent` is the last one of
      `parent/name`, so going up cuts exactly there. */
  lemma UpOfNested(parent: string, name: string)
    requires name != "" && '/' !in name
    requires parent != "" && parent[|parent| - 1] != '/'
    ensures NavigateUp(parent + "/" + name) == parent
  {
    var j := parent + "/" + name;
    assert RStripSlash(j) == j by {
      assert j[|j| - 1] == name[|name| - 1];
    }
    assert forall i :: |parent| < i < |j| ==> j[i] == name[i - |parent| - 1];
    assert j[|parent|] == '/';
    NavigateUpDropsLastSegment(j);
    var up := NavigateUp(j);
    assert |up| == |parent| by {
      assert j[|up|] == '/';
      assert '/' !in j[|up| + 1..];
    }
    assert up == j[..|parent|] == parent;
  }
}
