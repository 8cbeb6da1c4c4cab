/** The background monitor of a transfer: it polls the progress log, parses
    each new chunk and hands the snapshot to the progress window, and gives
    up only when the log never appears.

    The stop event, the sleep between polls and the log file's contents at
    each poll are not modelled as time: the monitor runs over a finite trace
    of polls, each saying whether the stop event is set and what the log
    file then holds. */
module Monitor {
  import opened Wrappers
  import opened ProgressParser

  /** How many empty polls the monitor waits for the log file to appear. */
  const MaxWait := 10

  /** What one pass of the loop sees: the stop event, and the log file (None while it does not exist). */
  datatype Poll = Poll(stopRequested: bool, logFile: Option<string>)

  /** `last_position` and `wait_count`. */
  datatype MonitorState = MonitorState(position: nat, waits: nat)

  const Initial := MonitorState(0, 0)

  /** Why the loop ended: the stop event, no log file after `MaxWait` polls,
      or the end of the modelled trace (the program would go on polling). */
  datatype Ending = StopSignalled | GaveUp | TraceExhausted

  datatype Outcome = Outcome(ending: Ending, state: MonitorState, delivered: seq<ProgressData>)

  /** What one poll that is not stopped leads to: the loop goes on from
      `next`, having delivered `snapshot` if any, or it gives up. */
  datatype Step = Continue(next: MonitorState, snapshot: seq<ProgressData>) | GiveUp(final: MonitorState)

  /** One pass of the loop after the stop check: read what is new, parse it
      when there is something, otherwise count an empty poll. */
  function Advance(st: MonitorState, logFile: Option<string>, scan: Scanner): (r: Step)
    ensures r.GiveUp? <==> st.position == 0 && st.waits + 1 > MaxWait && TailLogFile(logFile, 0).0 == ""
    ensures r.GiveUp? ==> r.final == MonitorState(0, st.waits + 1)
    ensures r.Continue? ==> r.next.position >= st.position && |r.snapshot| <= 1
    ensures r.Continue? && r.next.position == 0 ==> r.next.waits == st.waits + 1 && r.snapshot == []
    ensures var (content, _) := TailLogFile(logFile, st.position);
      content != "" ==>
        logFile.Some? && r == Continue(MonitorState(|logFile.value|, 0), Snapshot(ParseChunk(content, scan)))
    ensures TailLogFile(logFile, st.position).0 == "" && r.Continue? ==>
      r == Continue(MonitorState(st.position, st.waits + 1), [])
  {
    var (content, position) := TailLogFile(logFile, st.position);
    if content != "" then
      Continue(MonitorState(position, 0), Snapshot(ParseChunk(content, scan)))
    else if st.waits + 1 > MaxWait && position == 0 then
      GiveUp(MonitorState(position, st.waits + 1))
    else
      Continue(MonitorState(position, st.waits + 1), [])
  }

  /** What one parsed chunk hands to the progress window. */
  function Snapshot(parsed: Option<ProgressData>): (r: seq<ProgressData>)
    ensures |r| <= 1
    ensures parsed.Some? ==> r == [parsed.value]
    ensures parsed.None? ==> r == []
  {
    if parsed.Some? then [parsed.value] else []
  }

  /** The snapshots the chunks `chunks` yield, in order: one for each chunk
      that parses to something, none for the others. */
  function Snapshots(chunks: seq<string>, scan: Scanner): (r: seq<ProgressData>)
    ensures |r| <= |chunks|
    ensures chunks == [] ==> r == []
  {
    if chunks == [] then []
    else Snapshot(ParseChunk(chunks[0], scan)) + Snapshots(chunks[1..], scan)
  }

  lemma {:induction false} SnapshotsAppend(xs: seq<string>, ys: seq<string>, scan: Scanner)
    ensures Snapshots(xs + ys, scan) == Snapshots(xs, scan) + Snapshots(ys, scan)
    decreases |xs|
  {
    if xs != [] {
      var rest := xs[1..];
      assert (xs + ys)[0] == xs[0] && (xs + ys)[1..] == rest + ys;
      SnapshotsAppend(rest, ys, scan);
      var h, m, t := Snapshot(ParseChunk(xs[0], scan)), Snapshots(rest, scan), Snapshots(ys, scan);
      assert h + (m + t) == (h + m) + t;
    } else {
      assert xs + ys == ys;
    }
  }

  /** The new text the log shows at each poll, read from `position` on, up to
      the first poll with the stop event set; empty reads are skipped. This
      ignores the empty-poll count, and so the giving up. */
  ghost function ChunksRead(position: nat, polls: seq<Poll>): (r: seq<string>)
    ensures forall k :: 0 <= k < |r| ==> r[k] != ""
    decreases |polls|
  {
    if polls == [] || polls[0].stopRequested then []
    else
      var (content, next) := TailLogFile(polls[0].logFile, position);
      (if content != "" then [content] else []) + ChunksRead(next, polls[1..])
  }

  /** The monitor loop from state `st` over `polls`, having already delivered `acc`. */
  function RunFrom(st: MonitorState, polls: seq<Poll>, scan: Scanner, acc: seq<ProgressData>): Outcome
    decreases |polls|
  {
    if polls == [] then Outcome(TraceExhausted, st, acc)
    else if polls[0].stopRequested then Outcome(StopSignalled, st, acc)
    else
      match Advance(st, polls[0].logFile, scan)
      case GiveUp(final) => Outcome(GaveUp, final, acc)
      case Continue(next, snapshot) => RunFrom(next, polls[1..], scan, acc + snapshot)
  }

  /** One pass of the loop after the stop check, as `monitor_progress_log`
      performs it on its local variables. */
  method PollOnce(st: MonitorState, logFile: Option<string>, scan: Scanner)
    returns (next: MonitorState, snapshot: seq<ProgressData>, giveUp: bool)
    ensures giveUp ==> Advance(st, logFile, scan) == GiveUp(next)
    ensures !giveUp ==> Advance(st, logFile, scan) == Continue(next, snapshot)
  {
    var (newContent, lastPosition) := TailLogFile(logFile, st.position);
    var waitCount := st.waits;
    snapshot := [];
    giveUp := false;
    if newContent != "" {
      // fresh data: the log exists and is being written
      waitCount := 0;
      var progressData := ParseLogContent(newContent, scan);
      if progressData.Some? {
        snapshot := [progressData.value];
      }
    } else {
      waitCount := waitCount + 1;
      giveUp := waitCount > MaxWait && lastPosition == 0;
    }
    next := MonitorState(lastPosition, waitCount);
  }

  /** `monitor_progress_log`: the snapshots it delivers, in order, and how it ends. */
  method MonitorProgressLog(polls: seq<Poll>, scan: Scanner)
    returns (ending: Ending, lastPosition: nat, waitCount: nat, delivered: seq<ProgressData>)
    ensures Outcome(ending, MonitorState(lastPosition, waitCount), delivered) == RunFrom(Initial, polls, scan, [])
  {
    lastPosition, waitCount := 0, 0;
    delivered := [];
    ending := TraceExhausted;
    var i := 0;
    while i < |polls|
      invariant 0 <= i <= |polls|
      invariant RunFrom(Initial, polls, scan, []) == RunFrom(MonitorState(lastPosition, waitCount), polls[i..], scan, delivered)
    {
      assert polls[i..][1..] == polls[i + 1..];
      if polls[i].stopRequested {
        ending := StopSignalled;
        return;
      }
      var next, snapshot, giveUp := PollOnce(MonitorState(lastPosition, waitCount), polls[i].logFile, scan);
      lastPosition, waitCount := next.position, next.waits;
      if giveUp {
        ending := GaveUp;
        return;
      }
      delivered := delivered + snapshot;
      i := i + 1;
    }
  }

  /** A state the loop can be in: while nothing has been read, fewer than
      `MaxWait + 1` empty polls have happened. */
  predicate Reachable(st: MonitorState) {
    st.position == 0 ==> st.waits <= MaxWait
  }

  /** The log position never goes backwards and the delivered snapshots only
      grow, whatever the polls show. */
  lemma {:induction false} PositionNeverDecreases(st: MonitorState, polls: seq<Poll>, scan: Scanner, acc: seq<ProgressData>)
    ensures var r := RunFrom(st, polls, scan, acc);
      r.state.position >= st.position && |r.delivered| >= |acc| && r.delivered[..|acc|] == acc
    decreases |polls|
  {
    if polls != [] && !polls[0].stopRequested {
      var step := Advance(st, polls[0].logFile, scan);
      if step.Continue? {
        PositionNeverDecreases(step.next, polls[1..], scan, acc + step.snapshot);
        assert (acc + step.snapshot)[..|acc|] == acc;
      }
    }
  }

  /** Once any log text has been read the monitor never gives up: it runs
      until the stop event. */
  lemma {:induction false} NoGiveUpAfterContent(st: MonitorState, polls: seq<Poll>, scan: Scanner, acc: seq<ProgressData>)
    requires st.position > 0
    ensures RunFrom(st, polls, scan, acc).ending != GaveUp
    decreases |polls|
  {
    if polls != [] && !polls[0].stopRequested {
      var step := Advance(st, polls[0].logFile, scan);
      NoGiveUpAfterContent(step.next, polls[1..], scan, acc + step.snapshot);
    }
  }

  /** Giving up happens only while the log has never shown any text: no
      snapshot was delivered, the position is still 0, and it is the
      `MaxWait + 1`-th empty poll in a row. */
  lemma {:induction false} GiveUpMeansNoLog(st: MonitorState, polls: seq<Poll>, scan: Scanner, acc: seq<ProgressData>)
    requires Reachable(st)
    requires RunFrom(st, polls, scan, acc).ending == GaveUp
    ensures var r := RunFrom(st, polls, scan, acc);
      st.position == 0 && r.state == MonitorState(0, MaxWait + 1) && r.delivered == acc
    ensures |polls| >= MaxWait + 1 - st.waits
    decreases |polls|
  {
    if st.position > 0 {
      NoGiveUpAfterContent(st, polls, scan, acc);
    } else {
      var step := Advance(st, polls[0].logFile, scan);
      if step.Continue? {
        if step.next.position > 0 {
          NoGiveUpAfterContent(step.next, polls[1..], scan, acc + step.snapshot);
        } else {
          GiveUpMeansNoLog(step.next, polls[1..], scan, acc + step.snapshot);
          assert acc + step.snapshot == acc;
        }
      }
    }
  }

  /** Started fresh, the monitor gives up only after `MaxWait + 1` empty polls
      and without having delivered anything. */
  lemma GiveUpFromStart(polls: seq<Poll>, scan: Scanner)
    requires RunFrom(Initial, polls, scan, []).ending == GaveUp
    ensures RunFrom(Initial, polls, scan, []).delivered == []
    ensures |polls| >= MaxWait + 1
  {
    GiveUpMeansNoLog(Initial, polls, scan, []);
  }

  /** Unless it gives up, the monitor delivers exactly the snapshots parsed
      from the successive non-empty new texts of the log, in the order they
      were read, after what it had already delivered. */
  lemma {:induction false} DeliversChunksInOrder(st: MonitorState, polls: seq<Poll>, scan: Scanner, acc: seq<ProgressData>)
    requires RunFrom(st, polls, scan, acc).ending != GaveUp
    ensures RunFrom(st, polls, scan, acc).delivered == acc + Snapshots(ChunksRead(st.position, polls), scan)
    decreases |polls|
  {
    if polls != [] && !polls[0].stopRequested {
      var (content, next) := TailLogFile(polls[0].logFile, st.position);
      var step := Advance(st, polls[0].logFile, scan);
      var first := if content != "" then [content] else [];
      assert ChunksRead(st.position, polls) == first + ChunksRead(next, polls[1..]);
      DeliversChunksInOrder(step.next, polls[1..], scan, acc + step.snapshot);
      SnapshotsAppend(first, ChunksRead(next, polls[1..]), scan);
      if content != "" {
        assert first[1..] == [];
      }
      assert step.snapshot == Snapshots(first, scan);
    }
  }
}
