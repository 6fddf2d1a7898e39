/** Safety of the undo protocol over every run: single use of tokens, evidence for every execution,
    exclusive execution, and two ledger readers that never disagree. */
module UndoTheorems {
  import opened Records
  import opened UndoPlan
  import opened UndoLedger
  import opened UndoDecisions
  import opened UndoProtocol

  lemma RefusedPresentation(t: Sys, token: Bytes, lookup: Option<TurnRecord>)
    requires ClaimToken(t.ledger, t.disk, lookup, token, t.now) == Decision(t.ledger, Err(TokenConsumed))
    ensures Apply(t, PresentToken(token, lookup)) == t
  {}

  /** Single use: over every interleaving of previews, executions, edits, clock steps and crashes, two
      write phases never belong to the same token, and a token's write phase exists only once the
      row that spends it is durable. */
  lemma TokenIsSingleUse(start: Sys, steps: seq<Step>, i: nat, j: nat)
    requires Initial(start)
    requires var h := Run(start, steps).history;
             i < j < |h| && h[i].grant.event == Reserve && h[j].grant.event == Reserve
    ensures var s := Run(start, steps);
            && s.history[i].grant.id != s.history[j].grant.id
            && s.history[i].grant.token != s.history[j].grant.token
            && HasRow(s.ledger, s.history[i].grant.id, Consume)
            && HasRow(s.ledger, s.history[j].grant.id, Consume)
  {
    ReachableInv(start, steps);
    var s := Run(start, steps);
    var a, b := s.history[i].grant, s.history[j].grant;
    assert WritePhaseOk(s, s.history[i]) && WritePhaseOk(s, s.history[j]);
    var k :| 0 <= k < |s.ledger| && s.ledger[k] == a;
    var m :| 0 <= m < |s.ledger| && s.ledger[m] == b;
    assert k != m;
  }

  /** Once a token is spent, no later presentation of it is ever granted, even if the run that spent
      it crashed before, during or after its writes. */
  lemma SpentForever(start: Sys, before: seq<Step>, after: seq<Step>, token: Bytes, lookup: Option<TurnRecord>)
    requires Initial(start)
    requires var found := FindToken(Run(start, before).ledger, Sha256(token));
             found.Some? && HasRow(Run(start, before).ledger, found.value.id, Consume)
    ensures var t := Run(start, before + after); Apply(t, PresentToken(token, lookup)) == t
  {
    var s := Run(start, before);
    var t := Run(start, before + after);
    RunSplits(start, before, after);
    RunGrows(s, after);
    ReachableInv(start, before + after);
    var more := t.ledger[|s.ledger|..];
    assert t.ledger == s.ledger + more;
    SpentTokenStaysSpent(s.ledger, more, t.disk, lookup, token, s.now, t.now);
    RefusedPresentation(t, token, lookup);
  }

  /** In every durable state an `execute` row has its evidence: an undo turn in the log, recorded as
      complete, by a write phase of the same grant, that lists exactly the granted paths. */
  lemma ExecutionHasEvidence(start: Sys, steps: seq<Step>, row: LedgerEvent)
    requires Initial(start)
    requires row in Run(start, steps).ledger && row.event == Execute
    ensures exists w :: w in Run(start, steps).history && Evidence(w, row)
                        && w.turn.value in Run(start, steps).log
                        && Elements(EntryPaths(w.turn.value.files)) == Elements(w.grant.paths)
  {
    ReachableInv(start, steps);
    var s := Run(start, steps);
    var w :| w in s.history && Evidence(w, row);
    assert WritePhaseOk(s, w);
  }

  /** Two live reservations never hold a common path, at any time from the last step on, whether they
      came from a token preview or from a request. */
  lemma LiveGrantsAreDisjoint(start: Sys, steps: seq<Step>, i: nat, j: nat, later: nat)
    requires Initial(start) && Run(start, steps).now <= later
    requires var l := Run(start, steps).ledger;
             i < j < |l| && IsLive(l, l[i], later) && IsLive(l, l[j], later)
    ensures var l := Run(start, steps).ledger; !Overlap(l[i].paths, l[j].paths)
  {
    ReachableInv(start, steps);
    LaterStillOk(Run(start, steps).ledger, Run(start, steps).now, later);
  }

  predicate Executing(p: Phase) {
    p.Claimed? || p.Spent? || p.Writing? || p.Aborting? || p.Failing? || p.Closing?
  }

  /** While a grant executes, even past its own expiry, no other live reservation holds one of its
      paths, and its own resolution has not been recorded. */
  lemma ExecutionIsExclusive(start: Sys, steps: seq<Step>, e: LedgerEvent)
    requires Initial(start) && Executing(Run(start, steps).phase)
    requires var s := Run(start, steps); e in s.ledger && IsLive(s.ledger, e, s.now)
    ensures var s := Run(start, steps);
            && s.phase.grant.id !in ReleasedIds(s.ledger)
            && (e.id != s.phase.grant.id ==> !Overlap(e.paths, s.phase.grant.paths))
  {
    ReachableInv(start, steps);
  }

  /** A claim that was granted covers exactly the granted paths, and there is at least one. */
  lemma ClaimsCoverTheirGrant(start: Sys, steps: seq<Step>)
    requires Initial(start)
    requires var p := Run(start, steps).phase; p.Claimed? || p.Spent? || p.Writing?
    ensures var p := Run(start, steps).phase;
            && p.entries != []
            && Elements(EntryPaths(p.entries)) == Elements(p.grant.paths)
  {
    ReachableInv(start, steps);
    var p := Run(start, steps).phase;
    assert p.grant.paths[0] in Elements(p.grant.paths);
  }

  /** The only steps of the protocol that touch the working tree are a revert and what interrupts one, and
      they touch one granted path; every claim, grant, refusal, spend and ledger row leaves every file
      alone. */
  lemma OnlyGrantedPathsAreWritten(start: Sys, steps: seq<Step>, step: Step, path: Path)
    requires Initial(start) && !step.Edit?
    requires var s := Run(start, steps);
             ContentAt(Apply(s, step).disk, path) != ContentAt(s.disk, path)
    ensures var s := Run(start, steps);
            && (step.RevertNext? || step.RevertFaults? || step.CrashInRevert?)
            && Reverting(s.phase) && path == NextEntry(s.phase).path && path in s.phase.grant.paths
            && (s.phase.grant.event == Reserve ==> HasRow(s.ledger, s.phase.grant.id, Consume))
  {
    ReachableInv(start, steps);
    var s := Run(start, steps);
    OthersKeepTheTree(s, step);
    RevertTouchesOnePath(s.disk, NextEntry(s.phase), path);
    assert EntryPaths(s.phase.entries)[|s.phase.inverse|] in Elements(s.phase.grant.paths);
  }

  lemma OthersKeepTheTree(s: Sys, step: Step)
    requires !step.Edit? && Apply(s, step).disk.tree != s.disk.tree
    ensures (step.RevertNext? || step.RevertFaults? || step.CrashInRevert?) && Reverting(s.phase)
  {}

  /** A resolution the ledger records never changes, over every continuation of every run. */
  lemma RecordedStateNeverChanges(start: Sys, before: seq<Step>, after: seq<Step>, request: LedgerEvent)
    requires Initial(start)
    requires request.id in ReleasedIds(Run(start, before).ledger)
    ensures var s := Run(start, before);
            var t := Run(start, before + after);
            StateFrom(request, t.ledger, t.now) == StateFrom(request, s.ledger, s.now)
  {
    RunSplits(start, before, after);
    RunGrows(Run(start, before), after);
    ReachableInv(start, before);
    ReachableInv(start, before + after);
    var s, t := Run(start, before), Run(start, before + after);
    ResolutionIsFinal(s.ledger, t.ledger, request, s.now, t.now);
  }

  /** A request that nobody executed to the end is never read as executed or approved, whatever crashes
      the run contains: only a complete undo turn can make it so. */
  lemma RestartInventsNoApproval(start: Sys, steps: seq<Step>, request: LedgerEvent)
    requires Initial(start)
    requires forall w :: w in Run(start, steps).history && w.grant.id == request.id ==>
               w.turn.None? || w.turn.value.truncated
    ensures var s := Run(start, steps); StateFrom(request, s.ledger, s.now) !in {Executed, Approved}
  {
    ReachableInv(start, steps);
    var s := Run(start, steps);
    NoCompleteTurnNoExecution(s, request.id);
    NoRowNoState(s.ledger, request, s.now);
  }

  lemma NoCompleteTurnNoExecution(s: Sys, id: Id)
    requires HistoryOk(s)
    requires forall w :: w in s.history && w.grant.id == id ==> w.turn.None? || w.turn.value.truncated
    ensures !HasRow(s.ledger, id, Execute)
  {
    forall w, e | w in s.history && e in s.ledger && e.id == id ensures !Evidence(w, e) {}
  }

  lemma NoRowNoState(l: seq<LedgerEvent>, request: LedgerEvent, now: nat)
    requires !HasRow(l, request.id, Execute) && WellFormedRows(l)
    ensures StateFrom(request, l, now) != Executed && StateFrom(request, l, now) != Approved
  {}

  /** Over every run the two ledger readers agree about every request. */
  lemma ReadersAgreeOnEveryRun(start: Sys, steps: seq<Step>, request: LedgerEvent)
    requires Initial(start)
    requires request in Run(start, steps).ledger && request.event == Request
    ensures var s := Run(start, steps);
            && (request in LiveReservations(s.ledger, s.now) <==> StateFrom(request, s.ledger, s.now) == Pending)
            && (Resolution(s.ledger, request.id).Some? ==>
                  && Terminal(Resolution(s.ledger, request.id).value.event)
                  && StateFrom(request, s.ledger, s.now) == StateOfRow(Resolution(s.ledger, request.id).value.event))
            && (forall kind :: kind in {Execute, Deny, Fail} ==> CountRows(s.ledger, request.id, kind) <= 1)
  {
    ReachableInv(start, steps);
    var s := Run(start, steps);
    ReadersAgree(s.ledger, request, s.now);
    forall kind | kind in {Execute, Deny, Fail} ensures CountRows(s.ledger, request.id, kind) <= 1 {
      RecordedAtMostOnce(s.ledger, request.id, kind);
    }
  }
}
