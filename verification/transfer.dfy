/** The copy and move operations of the two-panel view: the selected
    entries are transferred one at a time, each by its own rclone process
    started with progress logging, and the first failure or cancellation
    ends the whole operation.

    Copy and move differ only in the rclone verb and in which panels are
    refreshed afterwards, so they are one model with a `Verb`. What the
    running process and the cancel button do is an input: for every item,
    the sequence of polls the loop observes. */
module Transfer {
  import opened Wrappers
  import opened Strings
  import opened RcloneWrapper
  import opened Navigation

  datatype Verb = Copy | Move

  /** The rclone subcommand for a verb. */
  function VerbArg(verb: Verb): string {
    match verb
    case Copy => "copy"
    case Move => "move"
  }

  /** What a transfer needs of a panel: its remote and the directory it shows. */
  datatype Panel = Panel(remote: string, currentPath: string)

  /** One turn of the poll loop: whether the cancel button has been pressed,
      and then what `process.poll()` returns (None while rclone runs). */
  datatype Tick = Tick(cancelled: bool, exitCode: Option<int>)

  /** How the wait for one item ends. */
  datatype ItemOutcome = ExitedWith(code: int) | CancelObserved

  /** The poll loop ends: some turn sees a cancellation or an exit code. */
  predicate Settles(ticks: seq<Tick>)
    decreases |ticks|
  {
    ticks != [] && (ticks[0].cancelled || ticks[0].exitCode.Some? || Settles(ticks[1..]))
  }

  /** The first cancellation or exit code the loop sees, the cancel flag
      being checked before each poll. */
  function Settle(ticks: seq<Tick>): ItemOutcome
    requires Settles(ticks)
    decreases |ticks|
  {
    if ticks[0].cancelled then CancelObserved
    else if ticks[0].exitCode.Some? then ExitedWith(ticks[0].exitCode.value)
    else Settle(ticks[1..])
  }

  /** The inner `while return_code is None` loop of one item. */
  method PollProcess(ticks: seq<Tick>) returns (outcome: ItemOutcome)
    requires Settles(ticks)
    ensures outcome == Settle(ticks)
  {
    var returnCode: Option<int> := None;
    var i := 0;
    while returnCode.None?
      invariant 0 <= i <= |ticks|
      invariant returnCode.None? ==> Settles(ticks[i..]) && Settle(ticks[i..]) == Settle(ticks)
      invariant returnCode.Some? ==> Settle(ticks) == ExitedWith(returnCode.value)
      decreases |ticks| - i
    {
      assert ticks[i..][1..] == ticks[i + 1..];
      if ticks[i].cancelled {
        return CancelObserved;
      }
      returnCode := ticks[i].exitCode;
      i := i + 1;
    }
    outcome := ExitedWith(returnCode.value);
  }

  /** Every item the loop reaches settles: items are reached as long as the
      ones before them exited with 0. */
  ghost predicate Finishes(polls: seq<seq<Tick>>, k: nat)
    decreases |polls| - k
  {
    k >= |polls| || (Settles(polls[k]) && (Settle(polls[k]) == ExitedWith(0) ==> Finishes(polls, k + 1)))
  }

  /** The index of the first item from `k` on that does not exit with 0,
      or the number of items when they all do. */
  ghost function FirstStop(polls: seq<seq<Tick>>, k: nat): (s: nat)
    requires k <= |polls| && Finishes(polls, k)
    ensures k <= s <= |polls|
    ensures forall j :: k <= j < s ==> Settles(polls[j]) && Settle(polls[j]) == ExitedWith(0)
    ensures s < |polls| ==> Settles(polls[s]) && Settle(polls[s]) != ExitedWith(0)
    decreases |polls| - k
  {
    if k == |polls| || Settle(polls[k]) != ExitedWith(0) then k else FirstStop(polls, k + 1)
  }

  /** `src_path`: the entry in the source panel's directory. */
  function SourcePath(src: Panel, entry: FileEntry): string {
    BuildPath(src.remote, src.currentPath, entry.name)
  }

  /** `dst_path`: a directory is copied into a directory of the same name;
      a file is copied into the destination panel's directory. */
  function DestinationPath(dst: Panel, entry: FileEntry): string {
    if entry.isDir then BuildPath(dst.remote, dst.currentPath, entry.name)
    else BuildPath(dst.remote, dst.currentPath, "")
  }

  /** `partial_file_path`: where the item ends up, which is where leftovers
      are looked for after a cancellation. */
  function CleanupPath(dst: Panel, entry: FileEntry): string {
    BuildPath(dst.remote, dst.currentPath, entry.name)
  }

  /** The rclone arguments for one item. */
  function ItemArgs(verb: Verb, src: Panel, dst: Panel, entry: FileEntry): seq<string> {
    [VerbArg(verb), SourcePath(src, entry), DestinationPath(dst, entry)]
  }

  /** The full command line started for one item. */
  function ItemCommand(inv: Invocation, verb: Verb, src: Panel, dst: Panel, entry: FileEntry,
                       statsInterval: string, timestamp: string): seq<string> {
    var args := ItemArgs(verb, src, dst, entry);
    BaseArgs(inv) + ProgressFlags(statsInterval, LogPath(args, timestamp)) + args
  }

  /** The start of one item of the loop: its source, destination and
      cleanup paths, and the progress-logging command that transfers it. */
  method LaunchItem(inv: Invocation, verb: Verb, src: Panel, dst: Panel, entry: FileEntry,
                    statsInterval: string, timestamp: string)
    returns (cmd: seq<string>, partialFilePath: string)
    ensures cmd == ItemCommand(inv, verb, src, dst, entry, statsInterval, timestamp)
    ensures partialFilePath == CleanupPath(dst, entry)
  {
    var srcPath := BuildPath(src.remote, src.currentPath, entry.name);
    var dstPath;
    if entry.isDir {
      dstPath := BuildPath(dst.remote, dst.currentPath, entry.name);
    } else {
      dstPath := BuildPath(dst.remote, dst.currentPath, "");
    }
    partialFilePath := BuildPath(dst.remote, dst.currentPath, entry.name);
    assert [VerbArg(verb), srcPath, dstPath] == ItemArgs(verb, src, dst, entry);
    var logPath;
    cmd, logPath := RunRcloneWithProgress(inv, [VerbArg(verb), srcPath, dstPath], statsInterval, timestamp);
  }

  /** An item that exits with 0 does not stop the operation: the first stop
      from it on is the first stop from the next item on. */
  lemma FirstStopSkips(polls: seq<seq<Tick>>, k: nat)
    requires k < |polls| && Finishes(polls, k)
    requires Settles(polls[k]) && Settle(polls[k]) == ExitedWith(0)
    ensures Finishes(polls, k + 1) && FirstStop(polls, k) == FirstStop(polls, k + 1)
  {
  }

  /** The command lines of all the items, in order. */
  ghost function ItemCommands(inv: Invocation, verb: Verb, src: Panel, dst: Panel,
                              entries: seq<FileEntry>, statsInterval: string, stamps: seq<string>): (r: seq<seq<string>>)
    requires |stamps| == |entries|
    ensures |r| == |entries|
    ensures forall j :: 0 <= j < |r| ==> r[j] == ItemCommand(inv, verb, src, dst, entries[j], statsInterval, stamps[j])
  {
    seq(|entries|, j requires 0 <= j < |entries| => ItemCommand(inv, verb, src, dst, entries[j], statsInterval, stamps[j]))
  }

  /** The commands started so far are the item commands of the first
      items, in order. */
  ghost predicate LaunchedInOrder(launched: seq<seq<string>>, inv: Invocation, verb: Verb, src: Panel, dst: Panel,
                                  entries: seq<FileEntry>, statsInterval: string, stamps: seq<string>)
  {
    && |stamps| == |entries| && |launched| <= |entries|
    && launched == ItemCommands(inv, verb, src, dst, entries, statsInterval, stamps)[..|launched|]
  }

  /** A prefix followed by the next element is the longer prefix. */
  lemma PrefixExtends<T>(xs: seq<T>, x: T, all: seq<T>)
    requires |xs| < |all| && xs == all[..|xs|] && x == all[|xs|]
    ensures xs + [x] == all[..|xs| + 1]
  {
    assert all[..|xs| + 1] == all[..|xs|] + [all[|xs|]];
  }

  /** Starting the next item keeps the commands in order. */
  lemma LaunchNext(launched: seq<seq<string>>, cmd: seq<string>, inv: Invocation, verb: Verb, src: Panel, dst: Panel,
                   entries: seq<FileEntry>, statsInterval: string, stamps: seq<string>)
    requires LaunchedInOrder(launched, inv, verb, src, dst, entries, statsInterval, stamps)
    requires |launched| < |entries|
    requires cmd == ItemCommand(inv, verb, src, dst, entries[|launched|], statsInterval, stamps[|launched|])
    ensures LaunchedInOrder(launched + [cmd], inv, verb, src, dst, entries, statsInterval, stamps)
  {
    var all := ItemCommands(inv, verb, src, dst, entries, statsInterval, stamps);
    assert cmd == all[|launched|];
    PrefixExtends(launched, cmd, all);
  }

  /** How a transfer ends: every item done, the item at `index` failed with
      `code`, or the user cancelled at item `index` (and is then offered the
      cleanup of `cleanupPath`). */
  datatype Report =
    | Completed(count: nat)
    | ItemFailed(index: nat, name: string, code: int)
    | Cancelled(index: nat, cleanupPath: string, name: string, isDir: bool)

  /** `_do_copy_operation_async` / `_do_move_operation_async`: the command
      lines started, in order, and how the operation ends. `stamps[i]` is
      the clock reading that names item i's log file. */
  method RunTransfer(inv: Invocation, verb: Verb, src: Panel, dst: Panel, entries: seq<FileEntry>,
                     statsInterval: string, stamps: seq<string>, polls: seq<seq<Tick>>)
    returns (launched: seq<seq<string>>, report: Report)
    requires |stamps| == |entries| && |polls| == |entries|
    requires Finishes(polls, 0)
    ensures var s := FirstStop(polls, 0);
      && |launched| == (if s < |entries| then s + 1 else |entries|)
      && LaunchedInOrder(launched, inv, verb, src, dst, entries, statsInterval, stamps)
      && (s == |entries| ==> report == Completed(|entries|))
      && (s < |entries| && Settle(polls[s]) == CancelObserved ==>
            report == Cancelled(s, CleanupPath(dst, entries[s]), entries[s].name, entries[s].isDir))
      && (s < |entries| && Settle(polls[s]).ExitedWith? ==>
            report == ItemFailed(s, entries[s].name, Settle(polls[s]).code))
  {
    launched := [];
    var i := 0;
    while i < |entries|
      invariant 0 <= i <= |entries|
      invariant Finishes(polls, i) && FirstStop(polls, 0) == FirstStop(polls, i)
      invariant |launched| == i
      invariant LaunchedInOrder(launched, inv, verb, src, dst, entries, statsInterval, stamps)
    {
      var entry := entries[i];
      var cmd, partialFilePath := LaunchItem(inv, verb, src, dst, entry, statsInterval, stamps[i]);
      LaunchNext(launched, cmd, inv, verb, src, dst, entries, statsInterval, stamps);
      launched := launched + [cmd];
      var outcome := PollProcess(polls[i]);
      if outcome == CancelObserved {
        report := Cancelled(i, partialFilePath, entry.name, entry.isDir);
        return;
      }
      if outcome.code != 0 {
        report := ItemFailed(i, entry.name, outcome.code);
        return;
      }
      FirstStopSkips(polls, i);
      i := i + 1;
    }
    report := Completed(|entries|);
  }

  /** The operation reports the full count exactly when every item exited
      with 0; otherwise it stops at the first item that did not, and no
      later item is started. */
  lemma CompletedIffAllSucceeded(polls: seq<seq<Tick>>)
    requires Finishes(polls, 0)
    ensures FirstStop(polls, 0) == |polls| <==>
      forall j :: 0 <= j < |polls| ==> Settles(polls[j]) && Settle(polls[j]) == ExitedWith(0)
  {
    var s := FirstStop(polls, 0);
    if s < |polls| {
      assert !(Settles(polls[s]) && Settle(polls[s]) == ExitedWith(0));
    }
  }

  /** Where one item goes: a directory into a same-named directory of the
      destination, a file into the destination directory itself, and in both
      cases the cleanup looks at the path the item would have. */
  lemma ItemPaths(dst: Panel, entry: FileEntry)
    requires entry.name != "" && !StartsWith(entry.name, "/")
    ensures entry.isDir ==> DestinationPath(dst, entry) == CleanupPath(dst, entry)
    ensures !entry.isDir ==> DestinationPath(dst, entry) == dst.remote + ":" + dst.currentPath
    ensures StartsWith(CleanupPath(dst, entry), dst.remote + ":" + dst.currentPath)
    ensures EndsWith(CleanupPath(dst, entry), entry.name)
  {
    var c := CleanupPath(dst, entry);
    var prefix := dst.remote + ":";
    assert c == prefix + c[|prefix|..];
    assert StartsWith(c[|prefix|..], dst.currentPath);
  }
}
