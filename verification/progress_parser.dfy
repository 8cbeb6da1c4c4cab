/** The rclone log parser: turns a chunk of the log written with `--stats`
    into a progress snapshot, and reads the new part of a growing log file.

    The three regular expressions of the parser are not modelled as such: a
    `Scanner` says, for one stripped line, what each of them captures (None
    when it does not match). Everything else (line splitting, stripping, the
    order in which the patterns are tried, the section header test, the
    de-duplication of the per-file list) is modelled as written. */
module ProgressParser {
  import opened Wrappers
  import opened Strings
  import opened Sorting

  /** Progress of one file that rclone is transferring. */
  datatype FileProgress = FileProgress(filename: string, percentage: nat, size: string, speed: string, eta: string)

  /** A progress snapshot (`ProgressData`); the per-file list is a tuple in the source. */
  datatype ProgressData = ProgressData(
    transferredStr: string,
    totalStr: string,
    overallPercentage: nat,
    overallSpeed: string,
    overallEta: string,
    filesTransferred: nat,
    totalFiles: nat,
    transferringFiles: seq<FileProgress>)

  /** `ProgressData()` with every field at its default. */
  const Empty := ProgressData("", "", 0, "", "", 0, 0, [])

  /** The five groups of the overall-bytes pattern
      (e.g. `Transferred: 15.031 MiB / 233.367 MiB, 6%, 817.606 KiB/s, ETA 4m33s`). */
  datatype Overall = Overall(transferred: string, total: string, percentage: nat, speed: string, eta: string)

  /** The two groups of the files-count pattern (e.g. `Transferred: 0 / 1, 0%`). */
  datatype Counts = Counts(done: nat, total: nat)

  /** What the overall-bytes, files-count and per-file patterns capture in one line. */
  datatype Captures = Captures(overall: Option<Overall>, counts: Option<Counts>, perFile: Option<FileProgress>)

  /** The regular-expression search, abstracted. */
  type Scanner = string -> Captures

  /** How one stripped line is treated, the patterns being tried in order. */
  datatype LineKind =
    | OverallLine(o: Overall)
    | CountsLine(c: Counts)
    | Header
    | PerFileLine(f: FileProgress)
    | Chatter

  const SectionHeader := "Transferring:"

  /** Classification of a stripped line: overall bytes first, then files count,
      then the `Transferring:` header, then a per-file line; anything else is chatter. */
  function Classify(line: string, scan: Scanner): (k: LineKind)
    ensures k.OverallLine? <==> scan(line).overall.Some?
    ensures k.CountsLine? <==> scan(line).overall.None? && scan(line).counts.Some?
    ensures k.Header? <==> scan(line).overall.None? && scan(line).counts.None?
                           && (StartsWith(line, SectionHeader) || Contains(line, SectionHeader))
    ensures k.PerFileLine? <==> scan(line).overall.None? && scan(line).counts.None?
                                && !StartsWith(line, SectionHeader) && !Contains(line, SectionHeader)
                                && scan(line).perFile.Some?
  {
    var c := scan(line);
    if c.overall.Some? then OverallLine(c.overall.value)
    else if c.counts.Some? then CountsLine(c.counts.value)
    else if StartsWith(line, SectionHeader) || Contains(line, SectionHeader) then Header
    else if c.perFile.Some? then PerFileLine(c.perFile.value)
    else Chatter
  }

  /** The kind of every line of a chunk, after `splitlines` and `strip`. */
  function Kinds(content: string, scan: Scanner): (ks: seq<LineKind>)
    ensures |ks| == |SplitLines(content)|
  {
    var lines := SplitLines(content);
    seq(|lines|, i requires 0 <= i < |lines| => Classify(Strip(lines[i]), scan))
  }

  predicate UniqueNames(files: seq<FileProgress>) {
    forall i, j :: 0 <= i < j < |files| ==> files[i].filename != files[j].filename
  }

  /** `[f for f in files if f.filename != name]`. */
  function WithoutName(files: seq<FileProgress>, name: string): (r: seq<FileProgress>)
    ensures forall g :: g in r <==> g in files && g.filename != name
    ensures IsSubsequence(r, files)
    ensures UniqueNames(files) ==> UniqueNames(r)
  {
    if files == [] then []
    else
      var rest := WithoutName(files[1..], name);
      if files[0].filename == name then rest
      else
        assert UniqueNames(files) ==> forall g :: g in rest ==> g.filename != files[0].filename by {
          if UniqueNames(files) {
            forall g | g in rest ensures g.filename != files[0].filename {
              var k :| 0 <= k < |files[1..]| && files[1..][k] == g;
              assert files[k + 1] == g;
            }
          }
        }
        assert ([files[0]] + rest)[1..] == rest;
        [files[0]] + rest
  }

  /** The loop state of `parse_log_content`: the snapshot built so far,
      `found_any`, and the per-file list. */
  datatype Scan = Scan(progress: ProgressData, found: bool, files: seq<FileProgress>)

  const Start := Scan(Empty, false, [])

  /** What one line does to the loop state. */
  function Step(st: Scan, k: LineKind): Scan {
    match k
    case OverallLine(o) =>
      st.(progress := st.progress.(transferredStr := o.transferred, totalStr := o.total,
                                   overallPercentage := o.percentage, overallSpeed := o.speed,
                                   overallEta := o.eta),
          found := true)
    case CountsLine(c) =>
      st.(progress := st.progress.(filesTransferred := c.done, totalFiles := c.total), found := true)
    case Header =>
      st.(files := [])
    case PerFileLine(f) =>
      st.(files := WithoutName(st.files, f.filename) + [f], found := true)
    case Chatter =>
      st
  }

  /** The loop state after the lines of kinds `ks`, folded from the first. */
  function Run(ks: seq<LineKind>): Scan {
    if ks == [] then Start else Step(Run(ks[..|ks| - 1]), ks[|ks| - 1])
  }

  /** The end of `parse_log_content`: the per-file list goes into the snapshot
      when it is not empty, and nothing is returned when no line matched. */
  function Finish(st: Scan): Option<ProgressData> {
    if st.found then
      Some(if st.files != [] then st.progress.(transferringFiles := st.files) else st.progress)
    else None
  }

  /** The snapshot that a chunk of log text yields. */
  function ParseChunk(content: string, scan: Scanner): Option<ProgressData> {
    Finish(Run(Kinds(content, scan)))
  }

  lemma KindAt(content: string, scan: Scanner, i: nat)
    requires i < |SplitLines(content)|
    ensures Kinds(content, scan)[i] == Classify(Strip(SplitLines(content)[i]), scan)
  {
  }

  /** One more line of the chunk is one more step of the fold. */
  lemma RunExtends(ks: seq<LineKind>, i: nat)
    requires i < |ks|
    ensures Run(ks[..i + 1]) == Step(Run(ks[..i]), ks[i])
  {
    assert ks[..i + 1][..i] == ks[..i];
  }

  /** The body of the `parse_log_content` loop for one stripped line: the
      patterns are tried in order and the first that applies updates the
      snapshot, `found_any` or the per-file list. */
  method ApplyLine(line: string, scan: Scanner, progress: ProgressData, foundAny: bool, transferring: seq<FileProgress>)
    returns (progress': ProgressData, foundAny': bool, transferring': seq<FileProgress>)
    ensures Scan(progress', foundAny', transferring') == Step(Scan(progress, foundAny, transferring), Classify(line, scan))
  {
    progress', foundAny', transferring' := progress, foundAny, transferring;
    var c := scan(line);
    if c.overall.Some? {
      var o := c.overall.value;
      progress' := progress.(transferredStr := o.transferred, totalStr := o.total,
                             overallPercentage := o.percentage, overallSpeed := o.speed,
                             overallEta := o.eta);
      foundAny' := true;
    } else if c.counts.Some? {
      progress' := progress.(filesTransferred := c.counts.value.done, totalFiles := c.counts.value.total);
      foundAny' := true;
    } else if StartsWith(line, SectionHeader) || Contains(line, SectionHeader) {
      // a new section: forget the files listed before it
      transferring' := [];
    } else if c.perFile.Some? {
      var f := c.perFile.value;
      // de-duplicate by filename: drop the old entry, append the new one
      transferring' := WithoutName(transferring, f.filename);
      transferring' := transferring' + [f];
      foundAny' := true;
    }
  }

  /** `parse_log_content`: one pass over the lines of `content`. */
  method ParseLogContent(content: string, scan: Scanner) returns (result: Option<ProgressData>)
    ensures result == ParseChunk(content, scan)
  {
    var progress := Empty;
    var foundAny := false;
    var transferring: seq<FileProgress> := [];
    var lines := SplitLines(content);
    ghost var ks := Kinds(content, scan);
    var i := 0;
    while i < |lines|
      invariant 0 <= i <= |lines|
      invariant Run(ks[..i]) == Scan(progress, foundAny, transferring)
    {
      KindAt(content, scan, i);
      RunExtends(ks, i);
      progress, foundAny, transferring := ApplyLine(Strip(lines[i]), scan, progress, foundAny, transferring);
      i := i + 1;
    }
    assert ks[..|lines|] == ks;
    if transferring != [] {
      progress := progress.(transferringFiles := transferring);
    }
    result := if foundAny then Some(progress) else None;
  }

  /** A line counts as progress when it is an overall-bytes, files-count or per-file line. */
  predicate Matched(k: LineKind) {
    k.OverallLine? || k.CountsLine? || k.PerFileLine?
  }

  lemma {:induction false} FoundIffMatched(ks: seq<LineKind>)
    ensures Run(ks).found <==> exists i :: 0 <= i < |ks| && Matched(ks[i])
    decreases |ks|
  {
    if ks != [] {
      var init := ks[..|ks| - 1];
      FoundIffMatched(init);
      assert forall i :: 0 <= i < |init| ==> init[i] == ks[i];
      if Matched(ks[|ks| - 1]) {
      } else if Run(ks).found {
        var i :| 0 <= i < |init| && Matched(init[i]);
        assert Matched(ks[i]);
      } else {
        assert forall i :: 0 <= i < |init| ==> !Matched(init[i]);
      }
    }
  }

  /** No snapshot comes out of a chunk exactly when none of its lines is an
      overall-bytes, files-count or per-file line; headers and chatter alone give none. */
  lemma NoneIffNothingMatched(content: string, scan: Scanner)
    ensures var ks := Kinds(content, scan);
      ParseChunk(content, scan).None? <==> forall i :: 0 <= i < |ks| ==> !Matched(ks[i])
  {
    FoundIffMatched(Kinds(content, scan));
  }

  lemma {:induction false} FoldLeavesSnapshotListEmpty(ks: seq<LineKind>)
    ensures Run(ks).progress.transferringFiles == []
    decreases |ks|
  {
    if ks != [] {
      FoldLeavesSnapshotListEmpty(ks[..|ks| - 1]);
    }
  }

  /** A snapshot is the fold's fields with the fold's per-file list, which is
      empty when no per-file line survived. */
  lemma SnapshotIsFoldResult(content: string, scan: Scanner)
    ensures var st := Run(Kinds(content, scan));
      ParseChunk(content, scan).Some? ==>
        ParseChunk(content, scan).value == st.progress.(transferringFiles := st.files)
  {
    FoldLeavesSnapshotListEmpty(Kinds(content, scan));
  }

  function OverallOf(p: ProgressData): Overall {
    Overall(p.transferredStr, p.totalStr, p.overallPercentage, p.overallSpeed, p.overallEta)
  }

  function CountsOf(p: ProgressData): Counts {
    Counts(p.filesTransferred, p.totalFiles)
  }

  /** Without an overall-bytes line the overall fields keep their defaults. */
  lemma {:induction false} OverallDefaultsWithoutOverallLine(ks: seq<LineKind>)
    requires forall j :: 0 <= j < |ks| ==> !ks[j].OverallLine?
    ensures OverallOf(Run(ks).progress) == OverallOf(Empty)
    decreases |ks|
  {
    if ks != [] {
      var init := ks[..|ks| - 1];
      assert forall j :: 0 <= j < |init| ==> init[j] == ks[j];
      OverallDefaultsWithoutOverallLine(init);
    }
  }

  /** The overall fields come from the last overall-bytes line: no other kind
      of line touches them, and a later overall-bytes line overwrites an earlier one. */
  lemma {:induction false} OverallFromLastOverallLine(ks: seq<LineKind>, i: nat)
    requires i < |ks| && ks[i].OverallLine?
    requires forall j :: i < j < |ks| ==> !ks[j].OverallLine?
    ensures OverallOf(Run(ks).progress) == ks[i].o
    decreases |ks|
  {
    var n := |ks| - 1;
    if i < n {
      var init := ks[..n];
      assert forall j :: i < j < |init| ==> init[j] == ks[j];
      OverallFromLastOverallLine(init, i);
      assert !ks[n].OverallLine?;
    }
  }

  /** Without a files-count line the count fields keep their defaults. */
  lemma {:induction false} CountsDefaultsWithoutCountsLine(ks: seq<LineKind>)
    requires forall j :: 0 <= j < |ks| ==> !ks[j].CountsLine?
    ensures CountsOf(Run(ks).progress) == CountsOf(Empty)
    decreases |ks|
  {
    if ks != [] {
      var init := ks[..|ks| - 1];
      assert forall j :: 0 <= j < |init| ==> init[j] == ks[j];
      CountsDefaultsWithoutCountsLine(init);
    }
  }

  /** The count fields come from the last files-count line: no other kind of
      line touches them, and a later files-count line overwrites an earlier one. */
  lemma {:induction false} CountsFromLastCountsLine(ks: seq<LineKind>, i: nat)
    requires i < |ks| && ks[i].CountsLine?
    requires forall j :: i < j < |ks| ==> !ks[j].CountsLine?
    ensures CountsOf(Run(ks).progress) == ks[i].c
    decreases |ks|
  {
    var n := |ks| - 1;
    if i < n {
      var init := ks[..n];
      assert forall j :: i < j < |init| ==> init[j] == ks[j];
      CountsFromLastCountsLine(init, i);
      assert !ks[n].CountsLine?;
    }
  }

  /** No two entries of the per-file list share a filename. */
  lemma {:induction false} FilesHaveUniqueNames(ks: seq<LineKind>)
    ensures UniqueNames(Run(ks).files)
    decreases |ks|
  {
    if ks != [] {
      FilesHaveUniqueNames(ks[..|ks| - 1]);
    }
  }

  /** Line `i` is the per-file line for `g`, and after it there is neither a
      header nor another per-file line for the same filename. */
  ghost predicate SurvivingWrite(ks: seq<LineKind>, i: int, g: FileProgress) {
    && 0 <= i < |ks|
    && ks[i] == PerFileLine(g)
    && forall j :: i < j < |ks| ==> !ks[j].Header? && !(ks[j].PerFileLine? && ks[j].f.filename == g.filename)
  }

  /** Last write wins: an entry is in the per-file list exactly when it comes
      from a per-file line with no later header and no later line for the same file. */
  lemma {:induction false} FilesAreSurvivingWrites(ks: seq<LineKind>, g: FileProgress)
    ensures g in Run(ks).files <==> exists i :: SurvivingWrite(ks, i, g)
    decreases |ks|
  {
    if ks != [] {
      var n := |ks| - 1;
      var init, k := ks[..n], ks[n];
      FilesAreSurvivingWrites(init, g);
      var later := !k.Header? && !(k.PerFileLine? && k.f.filename == g.filename);
      forall i | 0 <= i < n
        ensures SurvivingWrite(ks, i, g) <==> SurvivingWrite(init, i, g) && later
      {
        assert forall j :: i < j < n ==> init[j] == ks[j];
      }
      assert Run(ks) == Step(Run(init), k);
      assert k == PerFileLine(g) ==> g in Run(ks).files;
      assert later && g in Run(init).files ==> g in Run(ks).files;
      assert g in Run(ks).files ==> k == PerFileLine(g) || (later && g in Run(init).files);
      if g in Run(ks).files {
        if k == PerFileLine(g) {
          assert SurvivingWrite(ks, n, g);
        } else {
          var i :| SurvivingWrite(init, i, g);
          assert SurvivingWrite(ks, i, g);
        }
      }
    }
  }

  /** A header discards everything before it: the per-file list is what the
      lines after the header alone would build. */
  lemma {:induction false} HeaderResetsFiles(ks: seq<LineKind>, h: nat)
    requires h < |ks| && ks[h].Header?
    ensures Run(ks).files == Run(ks[h + 1..]).files
    decreases |ks|
  {
    var n := |ks| - 1;
    if h < n {
      HeaderResetsFiles(ks[..n], h);
      var after := ks[h + 1..];
      assert after[..|after| - 1] == ks[..n][h + 1..];
      assert after[|after| - 1] == ks[n];
    }
  }

  /** The result of `parse_progress_line`; a per-file line makes it raise,
      because it replaces fields that `ProgressData` does not have. */
  datatype LineResult = Updated(data: ProgressData) | NoProgress | RaisesValueError

  /** `parse_progress_line`: one line applied to `current` (or to a default snapshot). */
  function ParseProgressLine(line: string, scan: Scanner, current: Option<ProgressData>): (r: LineResult)
    ensures var c, d := scan(Strip(line)), current.GetOr(Empty);
      && (c.overall.Some? ==> r.Updated? && OverallOf(r.data) == c.overall.value && CountsOf(r.data) == CountsOf(d))
      && (c.overall.None? && c.counts.Some? ==> r.Updated? && CountsOf(r.data) == c.counts.value && OverallOf(r.data) == OverallOf(d))
      && (r.Updated? ==> r.data.transferringFiles == d.transferringFiles)
      && (r.RaisesValueError? <==> c.overall.None? && c.counts.None? && c.perFile.Some?)
      && (r.NoProgress? <==> c.overall.None? && c.counts.None? && c.perFile.None?)
  {
    var data := current.GetOr(Empty);
    var c := scan(Strip(line));
    if c.overall.Some? then
      var o := c.overall.value;
      Updated(data.(transferredStr := o.transferred, totalStr := o.total, overallPercentage := o.percentage,
                    overallSpeed := o.speed, overallEta := o.eta))
    else if c.counts.Some? then
      Updated(data.(filesTransferred := c.counts.value.done, totalFiles := c.counts.value.total))
    else if c.perFile.Some? then
      RaisesValueError
    else
      NoProgress
  }

  /** On a single line, the one-line parser and the chunk parser agree
      wherever the one-line parser does not raise. */
  lemma SingleLineAgreement(line: string, scan: Scanner)
    requires line != [] && NoLineBreak(line)
    ensures ParseProgressLine(line, scan, None).Updated? ==>
      ParseChunk(line, scan) == Some(ParseProgressLine(line, scan, None).data)
    ensures ParseProgressLine(line, scan, None).NoProgress? ==> ParseChunk(line, scan) == None
  {
    assert LineLength(line) == |line|;
    assert SplitLines(line) == [line];
    var ks := Kinds(line, scan);
    assert ks == [Classify(Strip(line), scan)];
    assert ks[..0] == [];
    assert Run(ks) == Step(Start, ks[0]);
  }

  /** `tail_log_file`: the text after `lastPosition` and the position after it.
      A missing file (None) gives nothing and keeps the position; so does a
      position beyond the end, where reading yields nothing. */
  function TailLogFile(file: Option<string>, lastPosition: nat): (r: (string, nat))
    ensures r.1 >= lastPosition
    ensures r.1 - lastPosition == |r.0|
    ensures file.None? ==> r == ("", lastPosition)
    ensures file.Some? && lastPosition <= |file.value| ==>
      r.1 == |file.value| && file.value == file.value[..lastPosition] + r.0
    ensures file.Some? && lastPosition > |file.value| ==> r == ("", lastPosition)
  {
    match file
    case None => ("", lastPosition)
    case Some(text) =>
      if lastPosition <= |text| then (text[lastPosition..], |text|) else ("", lastPosition)
  }

  /** Reading a growing file twice delivers every character after the
      starting position exactly once, in order. */
  lemma TailNeverRedelivers(before: string, after: string, pos: nat)
    requires pos <= |before| && |before| <= |after| && after[..|before|] == before
    ensures var (first, mid) := TailLogFile(Some(before), pos);
      var (second, end) := TailLogFile(Some(after), mid);
      first + second == after[pos..] && end == |after|
  {
    assert after[pos..] == after[pos..|before|] + after[|before|..];
  }
}
