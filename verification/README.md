# rclone-commander: a verified model of the transfer pipeline

rclone-commander is a two-panel terminal file manager built on top of
`rclone`. This project models in Dafny the parts of it that decide what
happens during a transfer, and proves properties about them:

- **Progress parsing** (`progress_parser.dfy`). Each chunk of an rclone log
  is folded line by line. An overall-bytes line, a files-count line, a
  `Transferring:` section header or a per-file line updates one progress
  snapshot, and the per-file list is de-duplicated by filename.
  `tail_log_file` becomes a cursor over the log text. The three regular
  expressions are a parameter `scan` that says what each pattern captures
  on a stripped line.
- **Command construction and result handling** (`rclone_wrapper.dfy`).
  This covers the exact argument vectors of plain and progress-logging
  invocations and the log file name. It also covers `list_directory`,
  `delete_file` and `get_directory_size` with the subprocess exit code and
  the decoded JSON as inputs. Last is the log retention rule of
  `cleanup_old_logs`: two loops with a sort between them, proved against a
  specification.
- **Panel paths** (`navigation.dfy`): `navigate_up` and `build_path`.
- **The file panel** (`file_list_view.dfy`). `FileListView` is a class
  whose fields are the current path, the sorted entries, the set of
  selected names, the remembered directory and the cursor row. Its methods
  are loading a listing, toggling the selection, paging and opening a row.
- **The progress monitor** (`monitor.dfy`). `monitor_progress_log` runs
  over a finite trace of polls, as a method proved against a step
  function.
- **Transfers** (`transfer.dfy`). The copy and move item loops are one
  method parameterised by the verb. Each item has its own inner poll loop
  over what the process and the cancel button show.
- **Partial-file cleanup after a cancellation** (`partial_cleanup.dfy`).
  This covers the name match next to a cancelled file, the recursive search
  under a cancelled directory, and the deletion loop.

Python's string and path operations that the code relies on are written
out in `strings.dfy` and `posix_path.dfy`. These are `strip`, `split()`,
`splitlines`, `lower`, string `<=`, `os.path.join`, `os.path.dirname`,
`split('/')` and `rstrip('/')`. `sorting.dfy` holds a stable sort by a key
order, which stands for `sorted` and `list.sort`.

Subprocesses, the file system, the clock, threads and the UI toolkit are
outside the model. What they return is passed in as parameters: exit codes,
decoded JSON, directory listings, mtimes, timestamps, log file contents at
each poll, and cancel-button states.

## Model

| member | source | states |
|---|---|---|
| ProgressParser.Classify | src/rclone_commander/progress_parser.py:120-169 | A line is an overall-bytes line iff the bytes pattern matches. It is a files-count line iff only the files pattern matches. It is a header iff neither matches and the line starts with or contains `Transferring:`. It is a per-file line iff neither matches, the line holds no `Transferring:`, and the per-file pattern matches. |
| ProgressParser.Kinds | src/rclone_commander/progress_parser.py:114-118 | One classification per line of `splitlines`, each made on the stripped line. |
| ProgressParser.WithoutName | src/rclone_commander/progress_parser.py:165 | Keeps exactly the entries with another filename, as a subsequence in the same order, and keeps names unique. |
| ProgressParser.ParseLogContent | src/rclone_commander/progress_parser.py:99-177 | The imperative line loop computes exactly the fold `ParseChunk` over the chunk's lines. |
| ProgressParser.ApplyLine | src/rclone_commander/progress_parser.py:118-169 | The if-chain of one pass of the line loop, on its three local variables, is one step of the fold for that line's kind. |
| ProgressParser.FoundIffMatched | src/rclone_commander/progress_parser.py:109-169 | `found_any` is set iff some line is an overall-bytes, files-count or per-file line. |
| ProgressParser.NoneIffNothingMatched | src/rclone_commander/progress_parser.py:109-177 | The result is None exactly when no line matched one of the three patterns, so headers and chatter alone give None. |
| ProgressParser.FoldLeavesSnapshotListEmpty | src/rclone_commander/progress_parser.py:108-110 | The fold starts from the default snapshot and never fills its `transferring_files` during the loop. |
| ProgressParser.SnapshotIsFoldResult | src/rclone_commander/progress_parser.py:173-177 | The result is the fold's snapshot with the collected per-file list, which is empty when nothing survived. |
| ProgressParser.OverallDefaultsWithoutOverallLine | src/rclone_commander/progress_parser.py:108-132 | With no overall-bytes line, the overall fields keep the defaults of a fresh `ProgressData`. |
| ProgressParser.OverallFromLastOverallLine | src/rclone_commander/progress_parser.py:121-132 | The overall fields are those captured by the last overall-bytes line. No other kind of line touches them. |
| ProgressParser.CountsDefaultsWithoutCountsLine | src/rclone_commander/progress_parser.py:108-143 | With no files-count line, the two count fields keep their defaults. |
| ProgressParser.CountsFromLastCountsLine | src/rclone_commander/progress_parser.py:134-143 | The count fields are those of the last files-count line. |
| ProgressParser.FilesHaveUniqueNames | src/rclone_commander/progress_parser.py:163-166 | No two entries of the per-file list share a filename. |
| ProgressParser.FilesAreSurvivingWrites | src/rclone_commander/progress_parser.py:145-166 | Last write wins. An entry is in the list iff it comes from a per-file line followed by no header and no other line for the same filename. |
| ProgressParser.HeaderResetsFiles | src/rclone_commander/progress_parser.py:145-151 | A `Transferring:` header discards everything before it. The list is what the lines after the header alone build. |
| ProgressParser.ParseProgressLine | src/rclone_commander/progress_parser.py:50-96 | A bytes line replaces only the overall fields. A files line, tried only when the bytes pattern fails, replaces only the counts. The per-file branch raises, and does so exactly when only the per-file pattern matches. The line is ignored (NoProgress) exactly when none of the three patterns matches. |
| ProgressParser.SingleLineAgreement | src/rclone_commander/progress_parser.py:60-96 | On one line, the one-line parser and the chunk parser give the same snapshot, or both give None, whenever the one-line parser does not raise. |
| ProgressParser.TailLogFile | src/rclone_commander/progress_parser.py:180-201 | A missing file gives ("", last_position). A file shorter than last_position also gives ("", last_position). Otherwise the result is the text from last_position to the end and the end position. The position never decreases, and it advances by the length of the text returned. |
| ProgressParser.TailNeverRedelivers | src/rclone_commander/progress_parser.py:190-195 | Two successive reads of a growing file deliver every character after the start position exactly once, in order. |
| Strings.LStrip | src/rclone_commander/progress_parser.py:118 | Removes exactly the leading whitespace: the result is a suffix that starts with a non-space. |
| Strings.RStrip | src/rclone_commander/progress_parser.py:118 | Removes exactly the trailing whitespace: the result is a prefix that ends with a non-space. |
| Strings.WordLength | src/rclone_commander/rclone_wrapper.py:59 | The length of the leading run of non-space characters. |
| Strings.SplitWhitespace | src/rclone_commander/rclone_wrapper.py:59 | `str.split()` yields only non-empty words with no whitespace in them. |
| Strings.SplitWhitespaceIsMaximalRuns | src/rclone_commander/rclone_wrapper.py:59 | The words are the maximal runs of non-whitespace. The input is its whitespace gaps interleaved with the words. Every gap is whitespace only, and every gap between two words is non-empty. The first gap is non-empty when the input starts with whitespace. |
| Strings.DropSpacesAppend | src/rclone_commander/rclone_wrapper.py:59 | Removing the whitespace of a concatenation removes it from each part. |
| Strings.DropSpacesOfWord | src/rclone_commander/rclone_wrapper.py:59 | A word with no whitespace is unchanged by removing whitespace. |
| Strings.SplitWhitespaceKeepsText | src/rclone_commander/rclone_wrapper.py:59 | `split()` loses only whitespace: its words concatenated give the input without its whitespace. |
| Strings.LineLength | src/rclone_commander/progress_parser.py:114 | The length of the text before the first line break. |
| Strings.SplitLines | src/rclone_commander/progress_parser.py:114 | `splitlines` yields lines without line breaks, and gives no lines exactly for the empty text. |
| Strings.SplitLinesBetweenBreaks | src/rclone_commander/progress_parser.py:114 | The lines are exactly the text between the line breaks: the lines interleaved with the breaks give back the input. Each break is `\r\n` or a single break character, and a `\r` is never followed by an empty line and `\n`. A last line after the final break is non-empty. |
| Strings.LowerChar | src/rclone_commander/main.py:129-130 | Maps an upper-case ASCII letter to its lower-case letter and leaves every other character alone. |
| Strings.Lower | src/rclone_commander/main.py:129-130 | Lower-casing keeps the length and lower-cases each character in place. |
| Strings.LexLeTotal | src/rclone_commander/main.py:129-130 | Python string comparison is total. |
| Strings.LexLeTransitive | src/rclone_commander/main.py:129-130 | Python string comparison is transitive. |
| PosixPath.Join | src/rclone_commander/main.py:2084-2088 | `os.path.join`: an absolute second part replaces the first. Otherwise the first part, a separator when it does not already end in one, then the second part. |
| PosixPath.RFindSlash | src/rclone_commander/main.py:1442 | The index of the last `/`, or -1 when there is none. |
| PosixPath.RStripSlash | src/rclone_commander/main.py:2080 | `rstrip('/')` removes exactly the trailing slashes. |
| PosixPath.Split | src/rclone_commander/main.py:2080 | `split('/')` yields at least one part, and no part contains `/`. |
| PosixPath.JoinSplit | src/rclone_commander/main.py:2080-2081 | `'/'.join(s.split('/'))` gives back `s`. |
| PosixPath.SplitCount | src/rclone_commander/main.py:2081 | `split('/')` yields more than one part iff the text contains `/`. |
| Sorting.InsertSorted | src/rclone_commander/main.py:129-130 | Inserting into a sequence sorted by a total preorder keeps it sorted. |
| Sorting.InsertPermutes | src/rclone_commander/main.py:129-130 | Inserting adds exactly the one element and loses nothing. |
| Sorting.SortBySorted | src/rclone_commander/main.py:129-130 | Sorting by a total preorder returns a sorted permutation of its input. |
| Navigation.NavigateUpDropsLastSegment | src/rclone_commander/main.py:2078-2081 | `navigate_up` strips trailing slashes and drops the last segment. A single-segment path gives "". |
| Navigation.BuildPath | src/rclone_commander/main.py:2084-2088 | The path always starts with `remote:`. With no filename it is `remote:` followed by the current path. |
| Navigation.BuildPathCases | src/rclone_commander/main.py:2084-2088 | An absolute filename replaces the current path. A relative one is appended to a current path that is empty or ends in `/`, and otherwise after one added `/`. |
| Navigation.DirNameOfChild | src/rclone_commander/main.py:1442 | `os.path.dirname` of a child path is its parent directory. |
| Navigation.DirNameOfName | src/rclone_commander/main.py:1442 | `os.path.dirname` of a bare name is "". |
| Navigation.DirNameOfNested | src/rclone_commander/main.py:1442 | `os.path.dirname` of `parent/name` is `parent`. |
| Navigation.LastSegment | src/rclone_commander/main.py:240-242 | The remembered directory name has no `/` in it. |
| Navigation.EnterThenGoUp | src/rclone_commander/main.py:238-265 | Going up from a directory that was entered by name returns to the parent, and remembers that name for the cursor. |
| Navigation.UpFromName | src/rclone_commander/main.py:2078-2081 | Going up from a top-level directory gives the root, and remembers its name. |
| Navigation.UpFromNested | src/rclone_commander/main.py:2078-2081 | Going up from `parent/name` gives `parent`, and remembers `name`. |
| Navigation.UpOfNested | src/rclone_commander/main.py:2078-2081 | `navigate_up` of `parent/name` is `parent`. |
| RcloneWrapper.LogPathShape | src/rclone_commander/rclone_wrapper.py:233-240 | The log path is `logs/rclone_<first argument or "operation">_<timestamp>.log`. |
| RcloneWrapper.LogPathIsLog | src/rclone_commander/rclone_wrapper.py:233-240 | Every progress log path ends in `.log`, so the retention pass counts it among the log files. |
| RcloneWrapper.RunRcloneCommand | src/rclone_commander/rclone_wrapper.py:50-61 | The argv is the executable, then `--config` with its path when one is given, then the split extra flags, then the arguments. |
| RcloneWrapper.RunRcloneWithProgress | src/rclone_commander/rclone_wrapper.py:213-258 | The same prefix, then the `--stats`/`--log-file`/`--log-level INFO`/`--no-update-modtime` block naming the returned log path, then the arguments. |
| RcloneWrapper.CommandLayout | src/rclone_commander/rclone_wrapper.py:242-258 | In both argv forms the executable comes first and the arguments come last. `--config` and the config path follow the executable exactly when a config path is given. The progress block sits right before the arguments, and no extra-flag word contains whitespace. |
| RcloneWrapper.ToEntry | src/rclone_commander/rclone_wrapper.py:103-113 | Each of Name, Path, Size, ModTime, IsDir and MimeType is copied when present and defaults to "", 0 or False when missing. |
| RcloneWrapper.ListDirectory | src/rclone_commander/rclone_wrapper.py:82-115 | Runs `lsjson --no-mimetype --no-modtime remote:path` after the base arguments; [] on a non-zero exit or undecodable JSON, otherwise one entry per JSON object, in order. |
| RcloneWrapper.RemotePathIsRemoteColonPath | src/rclone_commander/rclone_wrapper.py:89 | The listed location is `remote:path`, which is `remote:` for the empty path. |
| RcloneWrapper.DeleteFile | src/rclone_commander/rclone_wrapper.py:140-149 | `purge` for a directory and `delete` for a file, with the path last. The result is true iff the exit code is 0. |
| RcloneWrapper.GetDirectorySize | src/rclone_commander/rclone_wrapper.py:158-175 | Runs `size --json path`. The result is None on a non-zero exit or undecodable JSON, otherwise the decoded object. |
| RcloneWrapper.LogFilesOfExactly | src/rclone_commander/rclone_wrapper.py:189-196 | The collected log files are exactly the `.log` entries of the directory listing, joined to the directory, with their mtimes. |
| RcloneWrapper.CollectLogFiles | src/rclone_commander/rclone_wrapper.py:189-196 | The collecting loop keeps exactly the `.log` entries of the listing, in order, each joined to the directory with its mtime. |
| RcloneWrapper.NewerFirstIsTotalPreorder | src/rclone_commander/rclone_wrapper.py:199 | Newest-first by mtime is a total preorder, so the sort is well defined. |
| RcloneWrapper.SliceStart | src/rclone_commander/rclone_wrapper.py:202 | Where the Python slice `[keep_count:]` starts, for both non-negative and negative `keep_count`. |
| RcloneWrapper.Outcome | src/rclone_commander/rclone_wrapper.py:202-207 | The removed and the failed paths together number the doomed files: a failed removal does not stop the others. |
| RcloneWrapper.OutcomeSplits | src/rclone_commander/rclone_wrapper.py:202-207 | A path is removed exactly when it is doomed and its removal does not fail, and reported as failed exactly when it is doomed and its removal fails. |
| RcloneWrapper.RemoveAll | src/rclone_commander/rclone_wrapper.py:202-207 | The removal loop tries every doomed file in order, and a failure does not stop it. |
| RcloneWrapper.CleanupOldLogs | src/rclone_commander/rclone_wrapper.py:178-210 | A missing directory is a no-op. Otherwise the collect loop, the sort and the removal loop together remove exactly the files past the first `keep_count` of the newest-first order. |
| RcloneWrapper.KeepsTheNewest | src/rclone_commander/rclone_wrapper.py:198-202 | The kept files are the min(keep_count, number of logs) newest, and the doomed files are the rest. Kept and doomed together are exactly the log files, and no doomed file is newer than a kept one. |
| RcloneWrapper.SortedSplit | src/rclone_commander/rclone_wrapper.py:199-202 | In a newest-first list, every file before the cut is at least as new as every file after it. |
| RcloneWrapper.RemovesOnlyLogFiles | src/rclone_commander/rclone_wrapper.py:189-202 | Every file removed is a `.log` entry of the logs directory. |
| Monitor.Advance | src/rclone_commander/main.py:1037-1057 | One poll gives up iff nothing was ever read, the wait count passes 10 and the log is still empty. New content moves the position to the end of the log, resets the wait count, and hands over its parsed snapshot when it parses to one. An empty poll that goes on keeps the position and increments the wait count. |
| Monitor.PollOnce | src/rclone_commander/main.py:1037-1057 | One pass of the loop on its local variables is the step `Advance`. |
| Monitor.MonitorProgressLog | src/rclone_commander/main.py:1019-1066 | The loop delivers the snapshots, and ends in the state, that the step function's run over the polls gives. |
| Monitor.DeliversChunksInOrder | src/rclone_commander/main.py:1019-1066 | Unless the monitor gives up, what it delivers is exactly the snapshots parsed from the successive non-empty new texts of the log, in the order they were read. |
| Monitor.PositionNeverDecreases | src/rclone_commander/main.py:1035-1058 | The log position never goes back, and delivered snapshots are only ever appended. |
| Monitor.NoGiveUpAfterContent | src/rclone_commander/main.py:1051-1057 | Once any text has been read, the monitor never gives up and runs until the stop event. |
| Monitor.GiveUpMeansNoLog | src/rclone_commander/main.py:1051-1057 | Giving up happens only at position 0 on the 11th empty poll in a row, with nothing delivered. |
| Monitor.GiveUpFromStart | src/rclone_commander/main.py:1029-1057 | Started fresh, the monitor gives up only after at least 11 polls and without delivering anything. |
| PartialCleanup.ChildPath | src/rclone_commander/main.py:1398 | A child of the root directory is addressed by its bare name. |
| PartialCleanup.FindPartialsRecursive | src/rclone_commander/main.py:1378-1409 | Every partial file found ends in `.partial` and is addressed on the scanned remote. |
| PartialCleanup.FindsExactlyTheTreesPartials | src/rclone_commander/main.py:1395-1404 | The recursive search finds exactly the non-directory `.partial` entries at any depth of the subtree, each with its full path. |
| PartialCleanup.MatchingPartials | src/rclone_commander/main.py:1453-1456 | For a file item, exactly the entries of the directory named `filename.` + anything + `.partial`, each with its full path. |
| PartialCleanup.ColonIndex | src/rclone_commander/main.py:1426 | The position of the first `:`, or the length when there is none. |
| PartialCleanup.ScanTarget | src/rclone_commander/main.py:1419-1432 | No path or no `:` aborts. Otherwise the path splits at its first `:` into a remote without `:` and the rest. |
| PartialCleanup.ScanTargetOf | src/rclone_commander/main.py:1426-1432 | `remote:rest` with a colon-free remote splits back into that remote and `rest`, whatever colons `rest` holds. |
| PartialCleanup.CleanupScansDestinationDirectory | src/rclone_commander/main.py:1426-1442 | For a cancelled file, the cleanup path leads the scan to the destination remote and to the destination panel's own directory. |
| PartialCleanup.ColonIndexOfPrefix | src/rclone_commander/main.py:1426 | The first `:` of `remote:path` is the one after a colon-free remote. |
| PartialCleanup.DeletedCount | src/rclone_commander/main.py:1466-1477 | At most one deletion per partial file. |
| PartialCleanup.NoneDeletedIffAllFailed | src/rclone_commander/main.py:1476-1482 | The count is 0, and the user is told the deletion failed, exactly when every deletion failed. |
| PartialCleanup.DeletedCountExtends | src/rclone_commander/main.py:1466-1477 | One more attempted deletion adds one to the count exactly when it succeeds. |
| PartialCleanup.DeletePartials | src/rclone_commander/main.py:1466-1477 | One `delete` (never `purge`) per partial file, in order, going on after failures. It counts the deletions that succeeded. |
| PartialCleanup.CleanupPartialFile | src/rclone_commander/main.py:1411-1490 | Nothing found means nothing is done. Declined means nothing is deleted. Confirmed means every partial file is deleted, reporting the count, or a failure when none went. |
| Transfer.PollProcess | src/rclone_commander/main.py:1545-1566 | The inner loop stops at the first cancellation or exit code, checking the cancel flag before each poll. |
| Transfer.FirstStop | src/rclone_commander/main.py:1502-1580 | The first item that does not exit with 0; all items before it do. |
| Transfer.FirstStopSkips | src/rclone_commander/main.py:1578-1584 | An item that exits with 0 does not stop the operation: the first stop is then at a later item. |
| Transfer.LaunchItem | src/rclone_commander/main.py:1505-1528 | One item is started with its source path, its destination path (a directory goes into a same-named directory) and the progress-logging command for them, and its cleanup path is where it ends up. |
| Transfer.LaunchNext | src/rclone_commander/main.py:1501-1528 | Starting the next item keeps the started commands equal, in order, to the item commands of the first items. |
| Transfer.RunTransfer | src/rclone_commander/main.py:1492-1591 | Items are started in order, each with its progress command, and nothing after the first failure or cancellation is started. A failure reports the item index, its name (the only thing the status line at main.py:1578 shows) and its exit code (which the program writes only to its debug log, main.py:1572). A cancellation reports the cleanup path. Full success reports `len(entries)`. |
| Transfer.CompletedIffAllSucceeded | src/rclone_commander/main.py:1574-1585 | Success is reported iff every item exited with 0. |
| Transfer.ItemPaths | src/rclone_commander/main.py:1506-1516 | A directory goes to a same-named directory under the destination. A file goes to the destination directory itself. The cleanup path is where the item ends up in both cases. |
| FileListPanel.EntryIndex | src/rclone_commander/main.py:257-260 | A row maps to an entry after the `..` offset, and only when the index is in range. |
| FileListPanel.Toggled | src/rclone_commander/main.py:284-311 | The set is unchanged on the `..` row or out of range. Otherwise exactly the name under the cursor flips membership. |
| FileListPanel.ToggleTwiceRestores | src/rclone_commander/main.py:284-311 | Toggling the same row twice restores the selection. |
| FileListPanel.EntriesNamed | src/rclone_commander/main.py:360 | The entries whose name is selected, in panel order, each as many times as it occurs in the panel (a subsequence of the panel with the same count of every selected entry); no other entry. |
| FileListPanel.OfKind | src/rclone_commander/main.py:129-130 | The filter keeps only entries of one kind. |
| FileListPanel.OfKindPartitions | src/rclone_commander/main.py:129-133 | Directories and files together are exactly the entries. |
| FileListPanel.ByLowerNameIsTotalPreorder | src/rclone_commander/main.py:129-130 | Ordering by lower-cased name is a total preorder. |
| FileListPanel.DisplayOrderSorts | src/rclone_commander/main.py:128-133 | The arranged list is a permutation of the listing with all directories first, then all files, each group ordered by lower-cased name. |
| FileListPanel.SortedOfKind | src/rclone_commander/main.py:129-130 | Sorting the directories (or the files) keeps them all of that kind. |
| FileListPanel.GroupsInDisplayOrder | src/rclone_commander/main.py:129-133 | Sorted directories followed by sorted files are in display order. |
| FileListPanel.FirstIndexOf | src/rclone_commander/main.py:151-155 | The first entry with the name, or None when there is none. |
| FileListPanel.Clamp | src/rclone_commander/main.py:217 | Textual's `clamp`, which `move_cursor` applies: a value already in range is kept, a value out of range becomes the nearest bound, and reversed bounds are swapped first. |
| FileListPanel.PageSize | src/rclone_commander/main.py:215 | Half the height, and at least 1. |
| FileListPanel.LandingRow | src/rclone_commander/main.py:148-175 | After a load the cursor is on a row that shows an entry named after the directory just left, or on row 0. |
| FileListPanel.LandingRowFindsFirst | src/rclone_commander/main.py:148-155 | The landing row is the first entry with that name. A listed name is always found, on its first index plus the `..` row when there is one. |
| FileListPanel.FileListView.constructor | src/rclone_commander/main.py:65-87 | The `local` remote (any case) starts at the home directory and every other remote starts at the root. Nothing is selected. |
| FileListPanel.FileListView.SetEntries | src/rclone_commander/main.py:122-176 | Entries in display order, selection cleared, one row per entry plus `..` below the root, and the cursor on the landing row. |
| FileListPanel.FileListView.Arrange | src/rclone_commander/main.py:128-175 | What `set_entries` computes before touching the table: the entries in display order, and a landing row that is 0 or a row of the table. |
| FileListPanel.FileListView.CursorAfterLoad | src/rclone_commander/main.py:148-175 | The search loop computes the landing row. |
| FileListPanel.FileListView.RowOf | src/rclone_commander/main.py:149-155 | The loop finds the row of the first entry with the name, or 0. |
| FileListPanel.FileListView.ToggleSelection | src/rclone_commander/main.py:275-319 | The selection becomes the toggled set, and nothing else changes. |
| FileListPanel.FileListView.ToggleSelectDown | src/rclone_commander/main.py:202-210 | Toggles the row, then moves one row down unless on the last row. |
| FileListPanel.FileListView.ToggleSelectUp | src/rclone_commander/main.py:192-200 | Toggles the row, then moves one row up unless on the first row. |
| FileListPanel.FileListView.PageUp | src/rclone_commander/main.py:212-218 | Moves up half a screen, stopping at row 0. |
| FileListPanel.FileListView.PageDown | src/rclone_commander/main.py:220-226 | Moves down half a screen, stopping at the last row; on a non-empty table it never moves up; on an empty one the cursor becomes -1. |
| FileListPanel.FileListView.SelectedEntries | src/rclone_commander/main.py:357-372 | The selected entries in list order, each as often as it occurs in the list, when there are some; otherwise the entry under the cursor when there is one, otherwise []. |
| FileListPanel.FileListView.GoUp | src/rclone_commander/main.py:238-254 | The `..` row moves to the parent path on the same remote and reloads. The selection is cleared, the table has one row per entry plus the `..` row, and the cursor lands on the directory just left. |
| FileListPanel.FileListView.Enter | src/rclone_commander/main.py:256-273 | A directory row moves into the joined path on the same remote and reloads. The selection is cleared, the table has one row per entry plus the `..` row, and the cursor is on row 0. |
| FileListPanel.FileListView.OpenRow | src/rclone_commander/main.py:228-273 | A negative row does nothing. `..` goes up, and a directory row enters it, each with everything `GoUp` and `Enter` promise. Any other row leaves the panel as it was. |

## Left out

- Textual widgets, CSS, modal screens, rendering, border titles, selection markers (`_refresh_all_items`) and status-message texts: these are presentation only.
- Threads, `time.sleep`, `asyncio.sleep`, `monitor_thread.join` and `call_from_thread`: the monitor and the poll loop are sequential step functions over a trace of observations.
- Monitor.MonitorProgressLog: the trace of polls is finite. Where the program would keep polling, the model ends with `TraceExhausted`.
- The monitor's `except` branch and the outer `try` of `cleanup_old_logs` and of the transfer loop: the exceptions they catch come from I/O, which is not modelled.
- Subprocesses (`subprocess.run`, `Popen`), `os.listdir`, `os.path.getmtime`, `os.path.exists`, `os.remove`, `os.makedirs` and `datetime.now`: exit codes, listings, mtimes, the set of files whose removal fails and timestamps are parameters.
- JSON decoding: the decoded listing is a parameter, None when it is malformed. Values of an unexpected JSON type are not modelled.
- The three regular expressions: `scan` stands for what each pattern captures on a line. `int()` of a captured number is assumed to succeed.
- The third branch of `parse_progress_line` passes fields `ProgressData` lacks to `_replace`. It is modelled as raising, not as an update.
- ProgressParser.TailLogFile: newline translation of text mode and multi-byte encodings are not modelled. Positions count characters.
- Strings.Lower: only ASCII letters are lower-cased; Python's `str.lower` also folds other Unicode letters. The same holds for `remote.lower()` in `FileListPanel.FileListView.constructor`.
- Strings.LowerChar: maps only `A`-`Z` to `a`-`z`; every other character, including non-ASCII letters that `str.lower` would fold, is left unchanged.
- RcloneWrapper.LogFilesOf: mtimes are integers, not floats.
- Sorting.SortBySorted: the sort is stable by construction, but stability is not stated as a property.
- RcloneWrapper.KeepsTheNewest: stated for a non-negative `keep_count`. For a negative one, `SliceStart` gives Python's slice start but no lemma describes which files survive.
- `format_size`: float division and formatting.
- `copy_file`, `move_file` and `make_directory`: the panels do not use them on the transfer path modelled here.
- `config.py` and `rclone-commander.py`: configuration plumbing and the entry point.
- FileListPanel.FileListView: Textual's `DataTable` is not part of this model. The model assumes that `clear()` puts the cursor on row 0, that `move_cursor` clamps the row with Textual's `clamp`, and that cursor up/down move one row.
- Transfer.RunTransfer: it requires that every item it reaches settles, meaning its poll trace shows a cancellation or an exit code. The call to `cleanup_old_logs` at the start of a transfer and the panel refreshes afterwards are not composed in.
- The cleanup itself is modelled only after the user has answered the confirmation dialog, and `CleanupPartialFile` takes the answer as a parameter.
