/** An undo turn tells the truth: what the protocol did to the working tree is what its undo turns say,
    but for the file at which a write phase was interrupted. */
module UndoHonesty {
  import opened Records
  import opened UndoPlan
  import opened UndoProtocol
  import opened UndoTheorems

  /** The write phase that is open, or was opened last. */
  function PhaseIndex(s: Sys): int {
    |s.history| - 1
  }

  /** A list of reverts is open. */
  predicate HasList(s: Sys) {
    s.phase.Writing? || s.phase.Aborting?
  }

  /** `step` changes what `path` holds. */
  predicate ChangesFile(s: Sys, step: Step, path: Path) {
    ContentAt(Apply(s, step).disk, path) != ContentAt(s.disk, path)
  }

  /** A revert stopped half way, by an I/O error or by a crash. */
  predicate Interrupts(step: Step) {
    step.RevertFaults? || step.CrashInRevert?
  }

  /** `e` says what its path held right before and right after `step`. */
  predicate Describes(e: FileEntry, s: Sys, step: Step) {
    && e.before == HashOf(ContentAt(s.disk, e.path))
    && e.after == HashOf(ContentAt(Apply(s, step).disk, e.path))
  }

  // ---- one step ---------------------------------------------------------------------------

  lemma RevertDescribes(disk: Disk, entry: FileEntry)
    requires ExecuteRevert(disk, entry).outcome.Ok?
    ensures var r := ExecuteRevert(disk, entry);
            && r.outcome.value.path == entry.path
            && r.outcome.value.before == HashOf(ContentAt(disk, entry.path))
            && r.outcome.value.after == HashOf(ContentAt(r.disk, entry.path))
  {
    OneRevert(disk, entry);
  }

  lemma FailedRevertKeepsTree(disk: Disk, entry: FileEntry)
    requires ExecuteRevert(disk, entry).outcome.Err?
    ensures ExecuteRevert(disk, entry).disk.tree == disk.tree
  {}

  /** A revert that changes a file has put the entry that describes it at the end of the list. */
  lemma RevertListsItsChange(s: Sys, path: Path)
    requires ChangesFile(s, RevertNext, path)
    ensures var t := Apply(s, RevertNext);
            && s.phase.Writing? && t.phase.Writing? && t.history == s.history
            && t.phase.inverse != [] && t.phase.inverse[|t.phase.inverse| - 1].path == path
            && Describes(t.phase.inverse[|t.phase.inverse| - 1], s, RevertNext)
  {
    OthersKeepTheTree(s, RevertNext);
    var entry := NextEntry(s.phase);
    RevertTouchesOnePath(s.disk, entry, path);
    if ExecuteRevert(s.disk, entry).outcome.Ok? {
      RevertDescribes(s.disk, entry);
    } else {
      FailedRevertKeepsTree(s.disk, entry);
    }
  }

  // ---- what was written is listed ------------------------------------------------------------

  /** `e` is in the list of write phase `i`: in its turn if it has one, and in the open list until then. */
  ghost predicate Listed(s: Sys, i: nat, e: FileEntry) {
    && i < |s.history|
    && (s.history[i].turn.Some? ==> e in s.history[i].turn.value.files)
    && (i == PhaseIndex(s) && HasList(s) ==> e in s.phase.inverse)
  }

  lemma DecidesNotToWrite(s: Sys, step: Step)
    requires step.ApproveRequest? || step.PresentToken? || step.RefuseRequest?
    ensures var t := Apply(s, step);
            t.history == s.history && (t.phase == s.phase || t.phase.Idle? || t.phase.Claimed?)
  {}

  lemma StepKeepsListed(s: Sys, step: Step, i: nat, e: FileEntry)
    requires Listed(s, i, e)
    ensures Listed(Apply(s, step), i, e)
  {
    if step.ApproveRequest? || step.PresentToken? || step.RefuseRequest? {
      DecidesNotToWrite(s, step);
    }
  }

  lemma {:induction false} RunKeepsListed(s: Sys, steps: seq<Step>, i: nat, e: FileEntry)
    requires Listed(s, i, e)
    ensures Listed(Run(s, steps), i, e)
    decreases |steps|
  {
    if steps != [] {
      StepKeepsListed(s, steps[0], i, e);
      RunKeepsListed(Apply(s, steps[0]), steps[1..], i, e);
    }
  }

  // ---- an interrupted write phase is over ------------------------------------------------------

  /** Write phase `i` writes no more, and any turn it has is marked truncated. */
  ghost predicate Interrupted(s: Sys, i: nat) {
    && i < |s.history|
    && (s.history[i].turn.Some? ==> s.history[i].turn.value.truncated)
    && (i == PhaseIndex(s) ==> !s.phase.Writing?)
  }

  lemma StepKeepsInterrupted(s: Sys, step: Step, i: nat)
    requires Interrupted(s, i)
    ensures Interrupted(Apply(s, step), i)
  {
    if step.ApproveRequest? || step.PresentToken? || step.RefuseRequest? {
      DecidesNotToWrite(s, step);
    }
  }

  lemma {:induction false} RunKeepsInterrupted(s: Sys, steps: seq<Step>, i: nat)
    requires Interrupted(s, i)
    ensures Interrupted(Run(s, steps), i)
    decreases |steps|
  {
    if steps != [] {
      StepKeepsInterrupted(s, steps[0], i);
      RunKeepsInterrupted(Apply(s, steps[0]), steps[1..], i);
    }
  }

  lemma InterruptionEnds(s: Sys, step: Step)
    requires Inv(s) && Interrupts(step) && Reverting(s.phase)
    ensures s.history != [] && Interrupted(Apply(s, step), |s.history| - 1)
  {}

  // ---- what is listed was written ------------------------------------------------------------------

  /** Step `k` of the run was a revert of write phase `i`, and `e` says what it did to its path. */
  predicate WrittenAt(start: Sys, steps: seq<Step>, k: nat, i: nat, e: FileEntry)
    requires k < |steps|
  {
    var s := Run(start, steps[..k]);
    && steps[k].RevertNext? && PhaseIndex(s) == i
    && Reverting(s.phase) && e.path == NextEntry(s.phase).path
    && Describes(e, s, steps[k])
  }

  ghost predicate WasWritten(start: Sys, steps: seq<Step>, i: nat, e: FileEntry) {
    exists k: nat :: k < |steps| && WrittenAt(start, steps, k, i, e)
  }

  ghost predicate AllWritten(start: Sys, steps: seq<Step>, i: nat, files: seq<FileEntry>) {
    forall e :: e in files ==> WasWritten(start, steps, i, e)
  }

  /** Every turn of a write phase, and the open list, names only what was written in it. */
  ghost predicate ListsAreWritten(start: Sys, steps: seq<Step>, s: Sys) {
    && (forall i :: 0 <= i < |s.history| && s.history[i].turn.Some? ==>
          AllWritten(start, steps, i, s.history[i].turn.value.files))
    && (HasList(s) && s.history != [] ==>
          AllWritten(start, steps, |s.history| - 1, s.phase.inverse))
  }

  lemma StillWritten(start: Sys, steps: seq<Step>, step: Step, i: nat, files: seq<FileEntry>)
    requires AllWritten(start, steps, i, files)
    ensures AllWritten(start, steps + [step], i, files)
  {
    forall e | e in files ensures WasWritten(start, steps + [step], i, e) {
      var k: nat :| k < |steps| && WrittenAt(start, steps, k, i, e);
      assert (steps + [step])[..k] == steps[..k] && (steps + [step])[k] == steps[k];
      assert WrittenAt(start, steps + [step], k, i, e);
    }
  }

  lemma StillAllWritten(start: Sys, steps: seq<Step>, step: Step, s: Sys)
    requires ListsAreWritten(start, steps, s)
    ensures ListsAreWritten(start, steps + [step], s)
  {
    forall i | 0 <= i < |s.history| && s.history[i].turn.Some?
      ensures AllWritten(start, steps + [step], i, s.history[i].turn.value.files)
    {
      StillWritten(start, steps, step, i, s.history[i].turn.value.files);
    }
    if HasList(s) && s.history != [] {
      StillWritten(start, steps, step, |s.history| - 1, s.phase.inverse);
    }
  }

  lemma NextRevertIsWritten(start: Sys, steps: seq<Step>)
    requires var s := Run(start, steps);
             Inv(s) && Reverting(s.phase) && ExecuteRevert(s.disk, NextEntry(s.phase)).outcome.Ok?
    ensures var s := Run(start, steps);
            WasWritten(start, steps + [RevertNext], |s.history| - 1,
                       ExecuteRevert(s.disk, NextEntry(s.phase)).outcome.value)
  {
    var s := Run(start, steps);
    RevertDescribes(s.disk, NextEntry(s.phase));
    var all := steps + [RevertNext];
    assert all[..|steps|] == steps && all[|steps|] == RevertNext;
    assert WrittenAt(start, all, |steps|, |s.history| - 1, ExecuteRevert(s.disk, NextEntry(s.phase)).outcome.value);
  }

  lemma RevertShape(s: Sys)
    requires Reverting(s.phase)
    ensures var t := Apply(s, RevertNext);
            var outcome := ExecuteRevert(s.disk, NextEntry(s.phase)).outcome;
            && t.history == s.history
            && t.phase == if outcome.Err? then Aborting(s.phase.grant, s.phase.inverse)
                          else Writing(s.phase.grant, s.phase.entries, s.phase.inverse + [outcome.value])
  {}

  lemma OneMoreWritten(start: Sys, steps: seq<Step>, i: nat, files: seq<FileEntry>, e: FileEntry)
    requires AllWritten(start, steps, i, files) && WasWritten(start, steps, i, e)
    ensures AllWritten(start, steps, i, files + [e])
  {}

  /** The history and the open list decide. */
  lemma SameListsAreWritten(start: Sys, steps: seq<Step>, s: Sys, t: Sys)
    requires ListsAreWritten(start, steps, s) && t.history == s.history && t.history != []
    requires HasList(t)
    requires AllWritten(start, steps, |s.history| - 1, t.phase.inverse)
    ensures ListsAreWritten(start, steps, t)
  {}

  lemma OpenListIsWritten(start: Sys, all: seq<Step>, s: Sys)
    requires Reverting(s.phase) && s.history != [] && AllWritten(start, all, |s.history| - 1, s.phase.inverse)
    requires var outcome := ExecuteRevert(s.disk, NextEntry(s.phase)).outcome;
             outcome.Ok? ==> WasWritten(start, all, |s.history| - 1, outcome.value)
    ensures var t := Apply(s, RevertNext);
            HasList(t) && t.history == s.history && AllWritten(start, all, |s.history| - 1, t.phase.inverse)
  {
    var outcome := ExecuteRevert(s.disk, NextEntry(s.phase)).outcome;
    RevertShape(s);
    if outcome.Ok? {
      OneMoreWritten(start, all, |s.history| - 1, s.phase.inverse, outcome.value);
    }
  }

  lemma RevertStepKeepsWritten(start: Sys, steps: seq<Step>)
    requires Inv(Run(start, steps)) && Reverting(Run(start, steps).phase)
    requires ListsAreWritten(start, steps, Run(start, steps))
    ensures ListsAreWritten(start, steps + [RevertNext], Apply(Run(start, steps), RevertNext))
  {
    var s := Run(start, steps);
    if ExecuteRevert(s.disk, NextEntry(s.phase)).outcome.Ok? {
      NextRevertIsWritten(start, steps);
    }
    StillAllWritten(start, steps, RevertNext, s);
    OpenListIsWritten(start, steps + [RevertNext], s);
    SameListsAreWritten(start, steps + [RevertNext], s, Apply(s, RevertNext));
  }

  /** What a step that reverts nothing may do to the lists: leave them, drop the open one, open an empty one,
      or turn the open one into the turn of its write phase. */
  ghost predicate ListsMove(s: Sys, t: Sys) {
    || (t.history == s.history && (HasList(t) ==> HasList(s) && t.phase.inverse == s.phase.inverse))
    || (t.phase.Writing? && t.phase.inverse == [] && exists g :: t.history == s.history + [WritePhase(g, None)])
    || (HasList(s) && !HasList(t) && s.history != []
        && exists turn: TurnRecord :: turn.files == s.phase.inverse
             && t.history == WithLast(s.history, Last(s.history).(turn := Some(turn))))
  }

  lemma OtherStepShape(s: Sys, step: Step)
    requires step.RevertNext? ==> !Reverting(s.phase)
    ensures ListsMove(s, Apply(s, step))
  {
    var t := Apply(s, step);
    match step
    case ApproveRequest(_, _) => DecidesNotToWrite(s, step);
    case PresentToken(_, _) => DecidesNotToWrite(s, step);
    case RefuseRequest(_) => DecidesNotToWrite(s, step);
    case RecordPartial(turnId) =>
      if t != s {
        assert UndoTurn(turnId, s.phase.inverse, true).files == s.phase.inverse;
      }
    case RecordTurn(turnId) =>
      if t != s {
        assert UndoTurn(turnId, s.phase.inverse, false).files == s.phase.inverse;
      }
    case _ =>
  }

  /** Every step but a revert lists nothing new. */
  lemma OtherStepKeepsWritten(start: Sys, steps: seq<Step>, s: Sys, t: Sys)
    requires ListsAreWritten(start, steps, s) && ListsMove(s, t)
    ensures ListsAreWritten(start, steps, t)
  {
    forall i | 0 <= i < |t.history| && t.history[i].turn.Some?
      ensures AllWritten(start, steps, i, t.history[i].turn.value.files)
    {
      if i < |s.history| && t.history[i] == s.history[i] {
        assert AllWritten(start, steps, i, s.history[i].turn.value.files);
      }
    }
  }

  lemma RunNext(start: Sys, steps: seq<Step>, step: Step)
    ensures Run(start, steps + [step]) == Apply(Run(start, steps), step)
  {
    RunSplits(start, steps, [step]);
    var s := Run(start, steps);
    assert Run(s, [step]) == Run(Apply(s, step), [step][1..]);
  }

  lemma {:induction false} ReachableListsAreWritten(start: Sys, steps: seq<Step>)
    requires Initial(start)
    ensures ListsAreWritten(start, steps, Run(start, steps))
    decreases |steps|
  {
    if steps != [] {
      var front, last := steps[..|steps| - 1], steps[|steps| - 1];
      assert steps == front + [last];
      var s := Run(start, front);
      ReachableListsAreWritten(start, front);
      ReachableInv(start, front);
      RunNext(start, front, last);
      if last.RevertNext? && Reverting(s.phase) {
        RevertStepKeepsWritten(start, front);
      } else {
        StillAllWritten(start, front, last, s);
        OtherStepShape(s, last);
        OtherStepKeepsWritten(start, steps, s, Apply(s, last));
      }
    }
  }

  // ---- over every run ---------------------------------------------------------------------------

  lemma SplitAt(start: Sys, steps: seq<Step>, k: nat)
    requires k < |steps|
    ensures Run(start, steps) == Run(Apply(Run(start, steps[..k]), steps[k]), steps[k + 1..])
  {
    assert steps == steps[..k] + [steps[k]] + steps[k + 1..];
    RunSplits(start, steps[..k] + [steps[k]], steps[k + 1..]);
    RunNext(start, steps[..k], steps[k]);
  }

  /** What a revert did to a file is in its write phase's turn after any further steps. */
  lemma RevertStaysListed(s: Sys, rest: seq<Step>, path: Path)
    requires Inv(s) && ChangesFile(s, RevertNext, path)
    ensures var i, u := PhaseIndex(s), Run(Apply(s, RevertNext), rest);
            && 0 <= i < |u.history|
            && (u.history[i].turn.Some? ==>
                  exists e :: e in u.history[i].turn.value.files && e.path == path && Describes(e, s, RevertNext))
  {
    var t := Apply(s, RevertNext);
    RevertListsItsChange(s, path);
    var e := t.phase.inverse[|t.phase.inverse| - 1];
    assert Listed(t, |s.history| - 1, e);
    RunKeepsListed(t, rest, |s.history| - 1, e);
  }

  lemma InterruptionStaysTruncated(s: Sys, step: Step, rest: seq<Step>)
    requires Inv(s) && Interrupts(step) && Reverting(s.phase)
    ensures var i, u := PhaseIndex(s), Run(Apply(s, step), rest);
            0 <= i < |u.history| && (u.history[i].turn.Some? ==> u.history[i].turn.value.truncated)
  {
    InterruptionEnds(s, step);
    RunKeepsInterrupted(Apply(s, step), rest, |s.history| - 1);
  }

  /** Whatever the protocol did to a file, at any step of any run, the turn of that write phase (if one is
      ever recorded) lists that file with exactly what it held right before and right after; the only
      exception is the file at which the phase was interrupted, and then the turn is marked truncated. */
  lemma UndoTurnIsHonest(start: Sys, steps: seq<Step>, k: nat, path: Path)
    requires Initial(start) && k < |steps| && !steps[k].Edit?
    requires ChangesFile(Run(start, steps[..k]), steps[k], path)
    ensures var s := Run(start, steps[..k]);
            var i := PhaseIndex(s);
            && 0 <= i < |Run(start, steps).history|
            && var turn := Run(start, steps).history[i].turn;
               turn.Some? ==>
                 if Interrupts(steps[k]) then turn.value.truncated
                 else exists e :: e in turn.value.files && e.path == path && Describes(e, s, steps[k])
  {
    var s, step := Run(start, steps[..k]), steps[k];
    ReachableInv(start, steps[..k]);
    SplitAt(start, steps, k);
    OthersKeepTheTree(s, step);
    if Interrupts(step) {
      InterruptionStaysTruncated(s, step, steps[k + 1..]);
    } else {
      assert step == RevertNext;
      RevertStaysListed(s, steps[k + 1..], path);
    }
  }

  /** An interruption is the last thing a write phase does to any file: after it, that phase changes none. */
  lemma InterruptionIsLast(start: Sys, steps: seq<Step>, j: nat, k: nat, path: Path)
    requires Initial(start) && j < k < |steps|
    requires Interrupts(steps[j]) && Reverting(Run(start, steps[..j]).phase)
    requires !steps[k].Edit? && ChangesFile(Run(start, steps[..k]), steps[k], path)
    ensures PhaseIndex(Run(start, steps[..j])) < PhaseIndex(Run(start, steps[..k]))
  {
    var s, front := Run(start, steps[..j]), steps[..k];
    assert front[..j] == steps[..j] && front[j] == steps[j];
    ReachableInv(start, steps[..j]);
    InterruptionEnds(s, steps[j]);
    SplitAt(start, front, j);
    RunKeepsInterrupted(Apply(s, steps[j]), front[j + 1..], |s.history| - 1);
    OthersKeepTheTree(Run(start, front), steps[k]);
  }

  /** And nothing else is listed: each entry of a recorded undo turn is a revert that the run really made in
      that write phase, of a granted path, with exactly what the path held right before and after it. */
  lemma UndoTurnInventsNothing(start: Sys, steps: seq<Step>, i: nat, e: FileEntry)
    requires Initial(start) && i < |Run(start, steps).history|
    requires var turn := Run(start, steps).history[i].turn; turn.Some? && e in turn.value.files
    ensures var w := Run(start, steps).history[i];
            && w.turn.value in Run(start, steps).log && e.path in w.grant.paths
            && (!w.turn.value.truncated ==> Covers(w.grant, w.turn.value.files))
            && exists k: nat :: k < |steps| && WrittenAt(start, steps, k, i, e)
  {
    ReachableListsAreWritten(start, steps);
    ReachableInv(start, steps);
    var w := Run(start, steps).history[i];
    assert WritePhaseOk(Run(start, steps), w);
    assert AllWritten(start, steps, i, w.turn.value.files) && WasWritten(start, steps, i, e);
    var n :| 0 <= n < |w.turn.value.files| && w.turn.value.files[n] == e;
    assert EntryPaths(w.turn.value.files)[n] == e.path;
  }
}
