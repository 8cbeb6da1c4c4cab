/** The thin layer over the `rclone` executable: how its command lines are
    built, how the results of one-shot commands are read, and which old
    progress logs are removed.

    Starting the process, its exit code and its decoded JSON output, the
    directory listing of the logs directory, file times and removals are
    outside the model: they are parameters here. */
module RcloneWrapper {
  import opened Wrappers
  import opened Strings
  import opened PosixPath
  import opened Sorting

  /** A directory-listing entry (`FileEntry`). */
  datatype FileEntry = FileEntry(name: string, path: string, size: int, modified: string, isDir: bool, mimeType: string)

  /** How rclone is started: the executable, the optional config file and the
      user's extra flags (one string, split on white space). */
  datatype Invocation = Invocation(rclonePath: string, configPath: Option<string>, extraFlags: string)

  /** `['--config', path]` when a config path is given and is not empty. */
  function ConfigArgs(configPath: Option<string>): seq<string> {
    if configPath.Some? && configPath.value != "" then ["--config", configPath.value] else []
  }

  /** `extra_flags.split()` when the flags are not empty. */
  function ExtraArgs(extraFlags: string): seq<string> {
    if extraFlags != "" then SplitWhitespace(extraFlags) else []
  }

  /** What every command line starts with: the executable, the config, the extra flags. */
  function BaseArgs(inv: Invocation): seq<string> {
    [inv.rclonePath] + ConfigArgs(inv.configPath) + ExtraArgs(inv.extraFlags)
  }

  /** The flags that make rclone report progress into a log file. */
  function ProgressFlags(statsInterval: string, logPath: string): seq<string> {
    ["--stats", statsInterval, "--log-file", logPath, "--log-level", "INFO", "--no-update-modtime"]
  }

  const LogsDir := "logs"

  /** `logs/rclone_<verb>_<timestamp>.log`, the verb being the first argument
      or "operation" when there is none. */
  function LogPath(args: seq<string>, timestamp: string): string {
    var operation := if |args| > 0 then args[0] else "operation";
    Join(LogsDir, "rclone_" + operation + "_" + timestamp + ".log")
  }

  /** The log file lives in `logs/` and its name carries the verb and the
      timestamp. */
  lemma LogPathShape(args: seq<string>, timestamp: string)
    ensures var operation := if |args| > 0 then args[0] else "operation";
      LogPath(args, timestamp) == "logs/rclone_" + operation + "_" + timestamp + ".log"
  {
    var operation := if |args| > 0 then args[0] else "operation";
    var name := "rclone_" + operation + "_" + timestamp + ".log";
    assert !StartsWith(name, "/") by {
      assert name[0] == 'r';
    }
    assert !EndsWith(LogsDir, "/") by {
      assert LogsDir[|LogsDir| - 1] == 's';
    }
    var dir := LogsDir + "/";
    assert LogPath(args, timestamp) == dir + name;
    assert dir + "rclone_" == "logs/rclone_";
    // regroup `dir + (((r + o) + u) + t) + l` one concatenation at a time
    AppendAssoc(dir, "rclone_" + operation + "_" + timestamp, ".log");
    AppendAssoc(dir, "rclone_" + operation + "_", timestamp);
    AppendAssoc(dir, "rclone_" + operation, "_");
    AppendAssoc(dir, "rclone_", operation);
  }

  /** The log file name ends in `.log`, so the retention pass counts it. */
  lemma LogPathIsLog(args: seq<string>, timestamp: string)
    ensures EndsWith(LogPath(args, timestamp), ".log")
  {
    var operation := if |args| > 0 then args[0] else "operation";
    var stem := "logs/rclone_" + operation + "_" + timestamp;
    LogPathShape(args, timestamp);
    assert LogPath(args, timestamp) == stem + ".log";
  }

  /** The command line of `run_rclone_command`. */
  method RunRcloneCommand(inv: Invocation, args: seq<string>) returns (cmd: seq<string>)
    ensures cmd == BaseArgs(inv) + args
  {
    cmd := [inv.rclonePath];
    if inv.configPath.Some? && inv.configPath.value != "" {
      cmd := cmd + ["--config", inv.configPath.value];
    }
    if inv.extraFlags != "" {
      cmd := cmd + SplitWhitespace(inv.extraFlags);
    }
    cmd := cmd + args;
  }

  /** The command line and log path of `run_rclone_with_progress`. */
  method RunRcloneWithProgress(inv: Invocation, args: seq<string>, statsInterval: string, timestamp: string)
    returns (cmd: seq<string>, logPath: string)
    ensures logPath == LogPath(args, timestamp)
    ensures cmd == BaseArgs(inv) + ProgressFlags(statsInterval, logPath) + args
  {
    var operation := if |args| > 0 then args[0] else "operation";
    var logFilename := "rclone_" + operation + "_" + timestamp + ".log";
    logPath := Join(LogsDir, logFilename);
    cmd := [inv.rclonePath];
    if inv.configPath.Some? && inv.configPath.value != "" {
      cmd := cmd + ["--config", inv.configPath.value];
    }
    if inv.extraFlags != "" {
      cmd := cmd + SplitWhitespace(inv.extraFlags);
    }
    cmd := cmd + ["--stats", statsInterval, "--log-file", logPath, "--log-level", "INFO", "--no-update-modtime"];
    cmd := cmd + args;
  }

  /** Layout of both command lines: the executable first, `--config` right
      after it exactly when a non-empty config path is given, the user's flags
      as white-space-free words, the progress block (if any) just before the
      arguments, and the arguments last. */
  lemma CommandLayout(inv: Invocation, args: seq<string>, statsInterval: string, logPath: string)
    ensures var plain, progress := BaseArgs(inv) + args, BaseArgs(inv) + ProgressFlags(statsInterval, logPath) + args;
      && plain[0] == progress[0] == inv.rclonePath
      && ((inv.configPath.Some? && inv.configPath.value != "") ==>
            |plain| > 2 && plain[1] == "--config" && plain[2] == inv.configPath.value)
      && plain[|plain| - |args|..] == args && progress[|progress| - |args|..] == args
      && |progress| == |plain| + 7
      && progress[|plain| - |args|..|plain| - |args| + 7] == ProgressFlags(statsInterval, logPath)
      && progress[..|plain| - |args|] == plain[..|plain| - |args|]
      && forall w :: w in ExtraArgs(inv.extraFlags) ==> w != "" && NoSpace(w)
  {
    var base := BaseArgs(inv);
    var plain, progress := base + args, base + ProgressFlags(statsInterval, logPath) + args;
    assert plain[..|base|] == base;
    assert progress[..|base|] == base;
    assert progress[|base|..|base| + 7] == ProgressFlags(statsInterval, logPath);
    assert plain[|plain| - |args|..] == args;
    assert progress[|progress| - |args|..] == args;
  }

  /** A JSON object of `lsjson` output; a field is None when the key is missing. */
  datatype ListingObject = ListingObject(
    name: Option<string>,
    path: Option<string>,
    size: Option<int>,
    modTime: Option<string>,
    isDir: Option<bool>,
    mimeType: Option<string>)

  /** `remote:path`, or `remote:` for the root. */
  function RemotePath(remote: string, path: string): string {
    if path != "" then remote + ":" + path else remote + ":"
  }

  /** The arguments `list_directory` passes to rclone. */
  function ListArgs(remote: string, path: string): seq<string> {
    ["lsjson", "--no-mimetype", "--no-modtime", RemotePath(remote, path)]
  }

  /** One `FileEntry` from one JSON object, each missing field at its default. */
  function ToEntry(o: ListingObject): (e: FileEntry)
    ensures o.name.None? ==> e.name == ""
    ensures o.path.None? ==> e.path == ""
    ensures o.size.None? ==> e.size == 0
    ensures o.modTime.None? ==> e.modified == ""
    ensures o.isDir.None? ==> !e.isDir
    ensures o.mimeType.None? ==> e.mimeType == ""
    ensures o.name.Some? ==> e.name == o.name.value
    ensures o.path.Some? ==> e.path == o.path.value
    ensures o.size.Some? ==> e.size == o.size.value
    ensures o.modTime.Some? ==> e.modified == o.modTime.value
    ensures o.isDir.Some? ==> e.isDir == o.isDir.value
    ensures o.mimeType.Some? ==> e.mimeType == o.mimeType.value
  {
    FileEntry(o.name.GetOr(""), o.path.GetOr(""), o.size.GetOr(0), o.modTime.GetOr(""),
              o.isDir.GetOr(false), o.mimeType.GetOr(""))
  }

  /** Both ways of addressing a directory give `remote:` followed by the path. */
  lemma RemotePathIsRemoteColonPath(remote: string, path: string)
    ensures RemotePath(remote, path) == remote + ":" + path
  {
    if path == "" {
      assert remote + ":" + path == remote + ":";
    }
  }

  /** `list_directory`: the command line it runs, and the entries read
      from rclone's exit code and decoded output (None when the output is
      not valid JSON). */
  method ListDirectory(inv: Invocation, remote: string, path: string, exitCode: int,
                       decoded: Option<seq<ListingObject>>)
    returns (cmd: seq<string>, entries: seq<FileEntry>)
    ensures cmd == BaseArgs(inv) + ["lsjson", "--no-mimetype", "--no-modtime", remote + ":" + path]
    ensures exitCode != 0 ==> entries == []
    ensures decoded.None? ==> entries == []
    ensures exitCode == 0 && decoded.Some? ==>
      |entries| == |decoded.value| && forall i :: 0 <= i < |entries| ==> entries[i] == ToEntry(decoded.value[i])
  {
    RemotePathIsRemoteColonPath(remote, path);
    cmd := RunRcloneCommand(inv, ListArgs(remote, path));
    if exitCode != 0 {
      entries := [];
    } else {
      match decoded
      case None =>
        entries := [];
      case Some(objects) =>
        entries := seq(|objects|, i requires 0 <= i < |objects| => ToEntry(objects[i]));
    }
  }

  /** `purge` removes a directory with its contents, `delete` a file. */
  function DeleteArgs(path: string, isDir: bool): seq<string> {
    if isDir then ["purge", path] else ["delete", path]
  }

  /** `delete_file`: the command line it runs and whether it reports success. */
  method DeleteFile(inv: Invocation, path: string, isDir: bool, exitCode: int) returns (cmd: seq<string>, ok: bool)
    ensures cmd == BaseArgs(inv) + [if isDir then "purge" else "delete", path]
    ensures ok <==> exitCode == 0
  {
    cmd := RunRcloneCommand(inv, DeleteArgs(path, isDir));
    ok := exitCode == 0;
  }

  /** `get_directory_size`: the command line and the decoded `size --json`
      object, or None when rclone failed or printed invalid JSON. */
  method GetDirectorySize<T>(inv: Invocation, path: string, exitCode: int, decoded: Option<T>)
    returns (cmd: seq<string>, info: Option<T>)
    ensures cmd == BaseArgs(inv) + ["size", "--json", path]
    ensures exitCode != 0 ==> info.None?
    ensures exitCode == 0 ==> info == decoded
  {
    cmd := RunRcloneCommand(inv, ["size", "--json", path]);
    if exitCode != 0 {
      info := None;
    } else {
      info := decoded;
    }
  }

  /** One name of the logs directory and its modification time. */
  datatype DirEntry = DirEntry(name: string, mtime: int)

  /** A log file found by the retention pass: its path and modification time. */
  datatype LogFile = LogFile(path: string, mtime: int)

  /** The `.log` entries of a listing, in listing order, as paths under `logsDir`. */
  function LogFilesOf(logsDir: string, listing: seq<DirEntry>): (logs: seq<LogFile>)
    ensures |logs| <= |listing|
  {
    if listing == [] then []
    else
      var n := |listing| - 1;
      var init := LogFilesOf(logsDir, listing[..n]);
      if EndsWith(listing[n].name, ".log") then init + [LogFile(Join(logsDir, listing[n].name), listing[n].mtime)]
      else init
  }

  /** The log files are exactly the `.log` entries of the listing. */
  lemma {:induction false} LogFilesOfExactly(logsDir: string, listing: seq<DirEntry>)
    ensures forall f :: f in LogFilesOf(logsDir, listing) ==>
      exists i :: 0 <= i < |listing| && EndsWith(listing[i].name, ".log")
        && f == LogFile(Join(logsDir, listing[i].name), listing[i].mtime)
    ensures forall i :: 0 <= i < |listing| && EndsWith(listing[i].name, ".log") ==>
      LogFile(Join(logsDir, listing[i].name), listing[i].mtime) in LogFilesOf(logsDir, listing)
    decreases |listing|
  {
    if listing != [] {
      var n := |listing| - 1;
      var prefix := listing[..n];
      LogFilesOfExactly(logsDir, prefix);
      var init, logs := LogFilesOf(logsDir, prefix), LogFilesOf(logsDir, listing);
      var last := LogFile(Join(logsDir, listing[n].name), listing[n].mtime);
      assert logs == if EndsWith(listing[n].name, ".log") then init + [last] else init;
      forall f | f in logs
        ensures exists i :: (0 <= i < |listing| && EndsWith(listing[i].name, ".log")
                               && f == LogFile(Join(logsDir, listing[i].name), listing[i].mtime))
      {
        if f in init {
          var i :| 0 <= i < n && EndsWith(prefix[i].name, ".log")
            && f == LogFile(Join(logsDir, prefix[i].name), prefix[i].mtime);
          assert prefix[i] == listing[i];
        } else {
          assert f == last;
        }
      }
      forall i | 0 <= i < |listing| && EndsWith(listing[i].name, ".log")
        ensures LogFile(Join(logsDir, listing[i].name), listing[i].mtime) in logs
      {
        if i < n {
          assert prefix[i] == listing[i];
        }
      }
    }
  }

  /** Newest first: the order of `sort(key=mtime, reverse=True)`. */
  function NewerFirst(): (LogFile, LogFile) -> bool {
    (a: LogFile, b: LogFile) => a.mtime >= b.mtime
  }

  lemma NewerFirstIsTotalPreorder()
    ensures TotalPreorder(NewerFirst())
  {
  }

  /** Where the Python slice `s[k:]` starts in a list of length n. */
  function SliceStart(n: nat, k: int): (start: nat)
    ensures start <= n
    ensures k >= 0 ==> start == if k <= n then k else n
    ensures k < 0 ==> start == if n + k >= 0 then n + k else 0
  {
    if k >= 0 then (if k <= n then k else n)
    else (if n + k >= 0 then n + k else 0)
  }

  /** The log files ordered newest first. */
  function Ranked(logsDir: string, listing: seq<DirEntry>): seq<LogFile> {
    SortBy(LogFilesOf(logsDir, listing), NewerFirst())
  }

  /** `log_files[keep_count:]`: the log files that the pass removes. */
  function Doomed(logsDir: string, listing: seq<DirEntry>, keepCount: int): seq<LogFile> {
    var ranked := Ranked(logsDir, listing);
    ranked[SliceStart(|ranked|, keepCount)..]
  }

  /** `log_files[:keep_count]`: the log files that are left alone. */
  function Kept(logsDir: string, listing: seq<DirEntry>, keepCount: int): seq<LogFile> {
    var ranked := Ranked(logsDir, listing);
    ranked[..SliceStart(|ranked|, keepCount)]
  }

  /** The paths of `doomed` whose removal succeeds, and those whose removal fails. */
  function Outcome(doomed: seq<LogFile>, failing: set<string>): (r: (seq<string>, seq<string>))
    ensures |r.0| + |r.1| == |doomed|
  {
    if doomed == [] then ([], [])
    else
      var n := |doomed| - 1;
      var (removed, failed) := Outcome(doomed[..n], failing);
      var p := doomed[n].path;
      if p in failing then (removed, failed + [p]) else (removed + [p], failed)
  }

  /** Every doomed path ends up removed or failed, and which one depends
      only on whether its removal fails. */
  lemma {:induction false} OutcomeSplits(doomed: seq<LogFile>, failing: set<string>)
    ensures forall p :: p in Outcome(doomed, failing).0 <==> p !in failing && exists i :: 0 <= i < |doomed| && doomed[i].path == p
    ensures forall p :: p in Outcome(doomed, failing).1 <==> p in failing && exists i :: 0 <= i < |doomed| && doomed[i].path == p
    decreases |doomed|
  {
    if doomed != [] {
      var n := |doomed| - 1;
      OutcomeSplits(doomed[..n], failing);
      assert forall i :: 0 <= i < n ==> doomed[..n][i] == doomed[i];
    }
  }

  /** The first loop of `cleanup_old_logs`: the `.log` files of the
      listing with their modification times, in listing order. */
  method CollectLogFiles(logsDir: string, listing: seq<DirEntry>) returns (logFiles: seq<LogFile>)
    ensures logFiles == LogFilesOf(logsDir, listing)
  {
    logFiles := [];
    var i := 0;
    while i < |listing|
      invariant 0 <= i <= |listing|
      invariant logFiles == LogFilesOf(logsDir, listing[..i])
    {
      assert listing[..i + 1][..i] == listing[..i];
      var entry := listing[i];
      if EndsWith(entry.name, ".log") {
        logFiles := logFiles + [LogFile(Join(logsDir, entry.name), entry.mtime)];
      }
      i := i + 1;
    }
    assert listing[..|listing|] == listing;
  }

  /** The removal loop of `cleanup_old_logs`: try every file in order; a
      failure is logged and the loop goes on. */
  method RemoveAll(doomed: seq<LogFile>, failing: set<string>) returns (removed: seq<string>, failed: seq<string>)
    ensures (removed, failed) == Outcome(doomed, failing)
  {
    removed, failed := [], [];
    var j := 0;
    while j < |doomed|
      invariant 0 <= j <= |doomed|
      invariant (removed, failed) == Outcome(doomed[..j], failing)
    {
      assert doomed[..j + 1][..j] == doomed[..j];
      if doomed[j].path in failing {
        failed := failed + [doomed[j].path];
      } else {
        removed := removed + [doomed[j].path];
      }
      j := j + 1;
    }
    assert doomed[..|doomed|] == doomed;
  }

  /** `cleanup_old_logs`: collect the `.log` files with their times, sort
      them newest first, and try to remove all but the first `keepCount`;
      a removal that fails is logged and the pass goes on. Returns the paths
      removed and the paths whose removal failed. */
  method CleanupOldLogs(logsDir: string, dirExists: bool, listing: seq<DirEntry>, keepCount: int, failing: set<string>)
    returns (removed: seq<string>, failed: seq<string>)
    ensures !dirExists ==> removed == [] && failed == []
    ensures dirExists ==> (removed, failed) == Outcome(Doomed(logsDir, listing, keepCount), failing)
  {
    if !dirExists {
      return [], [];
    }
    var logFiles := CollectLogFiles(logsDir, listing);
    logFiles := SortBy(logFiles, NewerFirst());
    removed, failed := RemoveAll(logFiles[SliceStart(|logFiles|, keepCount)..], failing);
  }

  /** Retention keeps the `keepCount` newest log files (all of them when there
      are fewer) and marks the rest for removal: kept and removed together are
      exactly the log files, and no kept file is older than a removed one. */
  lemma KeepsTheNewest(logsDir: string, listing: seq<DirEntry>, keepCount: nat)
    ensures var logs, kept, doomed := LogFilesOf(logsDir, listing), Kept(logsDir, listing, keepCount), Doomed(logsDir, listing, keepCount);
      && |kept| == (if keepCount <= |logs| then keepCount else |logs|)
      && |doomed| == |logs| - |kept|
      && multiset(kept + doomed) == multiset(logs)
      && forall a, b :: a in kept && b in doomed ==> a.mtime >= b.mtime
  {
    var ranked := Ranked(logsDir, listing);
    var s := SliceStart(|ranked|, keepCount);
    assert ranked[..s] + ranked[s..] == ranked;
    NewerFirstIsTotalPreorder();
    SortBySorted(LogFilesOf(logsDir, listing), NewerFirst());
    SortedSplit(ranked, s);
  }

  /** In a list sorted newest first, nothing before a cut is older than
      anything after it. */
  lemma SortedSplit(ranked: seq<LogFile>, s: nat)
    requires s <= |ranked| && SortedBy(ranked, NewerFirst())
    ensures forall a, b :: a in ranked[..s] && b in ranked[s..] ==> a.mtime >= b.mtime
  {
    forall a, b | a in ranked[..s] && b in ranked[s..] ensures a.mtime >= b.mtime {
      var x :| 0 <= x < s && ranked[x] == a;
      var y :| s <= y < |ranked| && ranked[y] == b;
      assert NewerFirst()(ranked[x], ranked[y]);
    }
  }

  /** Only `.log` files of the listing are ever removed; anything else in the
      logs directory is left alone. */
  lemma RemovesOnlyLogFiles(logsDir: string, listing: seq<DirEntry>, keepCount: int, f: LogFile)
    requires f in Doomed(logsDir, listing, keepCount)
    ensures exists i :: 0 <= i < |listing| && EndsWith(listing[i].name, ".log") && f.path == Join(logsDir, listing[i].name)
  {
    var ranked := Ranked(logsDir, listing);
    NewerFirstIsTotalPreorder();
    SortBySorted(LogFilesOf(logsDir, listing), NewerFirst());
    LogFilesOfExactly(logsDir, listing);
    assert f in ranked;
    assert f in multiset(ranked);
    assert f in LogFilesOf(logsDir, listing);
  }
}
