/** The undo coordinator over a repository it updates in place, and the execution of a claimed grant.
    Every method is tied to the decision functions, and a whole execution to the micro-steps of the
    protocol. */
module UndoCoordinator {
  import opened Records
  import opened UndoPlan
  import opened UndoLedger
  import opened UndoDecisions
  import Protocol = UndoProtocol

  /** A grant row, field by field: what was asked for, until when, and what each path holds at lodging. */
  ghost predicate Lodged(row: LedgerEvent, event: EventKind, tree: map<Path, Bytes>, id: Id, turn: Id, paths: seq<Path>,
                         token: Option<Hash>, expires: nat, at: nat, allowModified: bool)
  {
    && row == LedgerEvent(event, id, turn, paths, token, expires, at, row.hashes, allowModified, None, None)
    && |row.hashes| == |paths|
    && forall i :: 0 <= i < |paths| ==>
         row.hashes[i] == if paths[i] in tree then Some(Sha256(tree[paths[i]])) else None
  }

  /** A request that nothing resolves and whose time has not run out. */
  predicate StillOpen(l: seq<LedgerEvent>, request: LedgerEvent, now: nat) {
    && request.expires > now
    && forall e :: e in l && e.id == request.id ==> e.event !in {Execute, Deny, Fail, Expire, Approve}
  }

  /** A request that lapsed: recorded as lapsed or not recorded at all, and out of time. */
  predicate HasLapsed(l: seq<LedgerEvent>, request: LedgerEvent, now: nat) {
    && (forall e :: e in l && e.id == request.id ==> e.event !in {Execute, Deny, Fail})
    && ((exists e :: e in l && e.id == request.id && e.event == Expire)
        || (request.expires <= now && forall e :: e in l && e.id == request.id ==> e.event != Approve))
  }

  lemma OpenIsPending(l: seq<LedgerEvent>, request: LedgerEvent, now: nat)
    ensures StillOpen(l, request, now) <==> StateFrom(request, l, now) == Pending
    ensures HasLapsed(l, request, now) <==> StateFrom(request, l, now) == Expired
  {}

  /** A reservation that `token` was handed out for. */
  predicate IssuedWith(e: LedgerEvent, token: Bytes) {
    e.event == Reserve && e.token == Some(Sha256(token))
  }

  lemma SpentOrReleased(l: seq<LedgerEvent>, id: Id)
    ensures (HasRow(l, id, Consume) || id in ReleasedIds(l))
            <==> exists e :: e in l && e.id == id && e.event in {Consume, Execute, Deny, Fail, Expire}
  {}

  /** What was reverted so far, and the rest of an execution. */
  function Joined(inverse: seq<FileEntry>, rest: RevertedAll): RevertedAll {
    RevertedAll(rest.disk, inverse + rest.inverse, rest.failure)
  }

  lemma JoinedNext(disk: Disk, entries: seq<FileEntry>, k: nat, inverse: seq<FileEntry>)
    requires k < |entries|
    ensures var r := ExecuteRevert(disk, entries[k]);
            Joined(inverse, ExecuteAll(disk, entries[k..]))
            == if r.outcome.Err? then RevertedAll(r.disk, inverse, Some(r.outcome.error))
               else Joined(inverse + [r.outcome.value], ExecuteAll(r.disk, entries[k + 1..]))
  {
    assert entries[k..][0] == entries[k] && entries[k..][1..] == entries[k + 1..];
    var r := ExecuteRevert(disk, entries[k]);
    if r.outcome.Ok? {
      var rest := ExecuteAll(r.disk, entries[k + 1..]);
      assert inverse + ([r.outcome.value] + rest.inverse) == inverse + [r.outcome.value] + rest.inverse;
    } else {
      assert inverse + [] == inverse;
    }
  }

  /** The row that resolves `request` at `now`, field by field. */
  function ResolvingRow(event: EventKind, request: LedgerEvent, now: nat): LedgerEvent {
    LedgerEvent(event, request.id, request.turn, request.paths, None, request.expires, now, [], false, None, None)
  }

  class Repository {
    var ledger: seq<LedgerEvent>
    var log: seq<TurnRecord>
    var tree: map<Path, Bytes>
    var barred: set<Path>
    var objects: Objects

    function View(): Disk
      reads this
    {
      Disk(tree, barred, objects)
    }

    constructor (tree: map<Path, Bytes>, log: seq<TurnRecord>, objects: Objects)
      ensures this.ledger == [] && this.log == log && this.View() == Disk(tree, {}, objects)
    {
      this.ledger, this.log, this.tree, this.barred, this.objects := [], log, tree, {}, objects;
    }

    /** Append one row.  The caller holds the undo lock. */
    method AppendEvent(row: LedgerEvent)
      modifies this`ledger
      ensures ledger == old(ledger) + [row]
    {
      ledger := ledger + [row];
    }

    /** The conflict check and the append of a grant, both under the lock. */
    method LodgeGrant(row: LedgerEvent, checked: nat) returns (answer: Result<LedgerEvent, UndoError>)
      modifies this`ledger
      ensures Decision(ledger, answer) == Lodge(old(ledger), row, checked)
    {
      var live := LiveReservations(ledger, checked);
      for k := 0 to |live|
        invariant ledger == old(ledger)
        invariant FirstConflict(live, row.paths) == FirstConflict(live[k..], row.paths)
      {
        assert live[k..][0] == live[k] && live[k..][1..] == live[k + 1..];
        var overlap := Overlapping(live[k].paths, row.paths);
        if overlap != [] {
          return Err(Conflict(live[k].id, overlap));
        }
      }
      AppendEvent(row);
      answer := Ok(row);
    }

    /** `reserve`: `token` is `None` when no entropy source is available. */
    method ReservePaths(turn: Id, paths: seq<Path>, id: Id, token: Option<Bytes>, checked: nat, now: nat)
      returns (answer: Result<LedgerEvent, UndoError>)
      requires checked <= now
      modifies this`ledger
      ensures Conflicts(old(ledger), paths, checked) ==> answer.Err? && answer.error.Conflict?
      ensures !Conflicts(old(ledger), paths, checked) && token.None? ==> answer == Err(TokenUnavailable)
      ensures answer.Err? ==> ledger == old(ledger)
      ensures answer.Ok? ==>
                && ledger == old(ledger) + [answer.value] && token.Some?
                && answer.value == GrantRow(Reserve, View(), id, turn, paths, Some(Sha256(token.value)), false, now)
                && Lodged(answer.value, Reserve, tree, id, turn, paths, Some(Sha256(token.value)), now + 60_000, now, false)
      ensures answer.Ok? && LedgerOk(old(ledger), checked) && paths != [] && id !in UsedIds(old(ledger))
              && (forall e :: e in old(ledger) && e.event == Reserve ==> e.token != Some(Sha256(token.value)))
              ==> LedgerOk(ledger, now)
    {
      ghost var before := ledger;
      var hashed := if token.Some? then Some(Sha256(token.value)) else None;
      var row := GrantRow(Reserve, View(), id, turn, paths, hashed, false, now);
      LodgeChecksConflicts(ledger, row, checked);
      if token.None? {
        var conflict := FirstConflict(LiveReservations(ledger, checked), paths);
        return Err(if conflict.Some? then conflict.value else TokenUnavailable);
      }
      answer := LodgeGrant(row, checked);
      if answer.Ok? && LedgerOk(before, checked) && paths != [] && id !in UsedIds(before)
         && (forall e :: e in before && e.event == Reserve ==> e.token != hashed)
      {
        AppendGrantOk(before, row, checked, now);
      }
    }

    /** `request_human`: previewed, checked and lodged under one lock. */
    method RequestHuman(target: TurnRecord, paths: Option<seq<Path>>, mode: Mode, allowModified: bool,
                        id: Id, checked: nat, now: nat)
      returns (answer: Result<LedgerEvent, UndoError>)
      modifies this`ledger
      ensures mode != Confirm ==> answer == Err(WrongMode)
      ensures answer.Err? ==> ledger == old(ledger)
      ensures answer.Ok? ==>
                var shown := PreviewPaths(View(), target, paths, Confirm, allowModified);
                && shown.Ok? && shown.value != [] && !Conflicts(old(ledger), shown.value, checked)
                && answer.value == GrantRow(Request, View(), id, target.id, shown.value, None, allowModified, now)
                && Lodged(answer.value, Request, tree, id, target.id, shown.value, None, now + 600_000, now, allowModified)
                && ledger == old(ledger) + [answer.value]
      ensures mode == Confirm && answer.Err? ==>
                var shown := PreviewPaths(View(), target, paths, Confirm, allowModified);
                shown.Err? || shown.value == [] || Conflicts(old(ledger), shown.value, checked)
    {
      if mode != Confirm {
        return Err(WrongMode);
      }
      var shown := PreviewPaths(View(), target, paths, mode, allowModified);
      if shown.Err? {
        return Err(shown.error);
      }
      if shown.value == [] {
        return Err(NothingExecutable);
      }
      var row := GrantRow(Request, View(), id, target.id, shown.value, None, allowModified, now);
      LodgeChecksConflicts(ledger, row, checked);
      answer := LodgeGrant(row, checked);
    }

    /** `claim_grant`: content drift, scope drift, then the plan; a refusal owes its `fail` row. */
    method Recheck(grant: LedgerEvent, lookup: Option<TurnRecord>, now: nat)
      returns (answer: Result<Claim, UndoError>)
      modifies this`ledger
      ensures Decision(ledger, answer) == ClaimGrant(old(ledger), View(), lookup, grant, now)
    {
      var drifted := Drifted(grant, View());
      if drifted != [] {
        AppendEvent(StaleRow(grant, now));
        return Err(PreviewStale(drifted));
      }
      if lookup.None? {
        return Err(UnknownTurn);
      }
      var plans := BuildPlan(View(), lookup.value.files, grant.paths, grant.allowModified);
      var dropped := DroppedFrom(grant.paths, EntryPaths(Executable(plans)));
      if dropped != [] {
        AppendEvent(StaleRow(grant, now));
        return Err(PreviewStale(dropped));
      }
      answer := Ok(Claim(grant, lookup.value, plans));
    }

    /** `claim`: a reference that names no request, or several, leaves the ledger as it was; of the one request
        it names, an open one is claimed, a lapsed one is recorded as such, and any other is refused. */
    method Approve(reference: Id, lookup: Option<TurnRecord>, now: nat) returns (answer: Result<Claim, UndoError>)
      modifies this`ledger
      ensures Decision(ledger, answer) == ClaimRequest(old(ledger), View(), lookup, reference, now)
      ensures var named := Named(old(ledger), reference);
              && (named == {} ==> answer == Err(BadReference(UnknownRequest)) && ledger == old(ledger))
              && (|named| >= 2 ==> answer == Err(BadReference(AmbiguousRequest(|named|))) && ledger == old(ledger))
      ensures forall i :: Named(old(ledger), reference) == {i} ==>
                var request := old(ledger)[i];
                if StillOpen(old(ledger), request, now) then
                  Decision(ledger, answer) == ClaimGrant(old(ledger), View(), lookup, request, now)
                else if HasLapsed(old(ledger), request, now) then
                  answer == Err(NotPending(Expired)) && ledger == old(ledger) + [ResolvingRow(Expire, request, now)]
                else answer == Err(NotPending(StateFrom(request, old(ledger), now))) && ledger == old(ledger)
    {
      ResolvedExactly(ledger, reference);
      var resolved := ResolveRequest(ledger, reference);
      if resolved.Err? {
        return Err(BadReference(resolved.error));
      }
      OpenIsPending(ledger, resolved.value, now);
      var state := StateFrom(resolved.value, ledger, now);
      if state == Expired {
        AppendEvent(RowFor(Expire, resolved.value, now, None, None));
        return Err(NotPending(Expired));
      }
      if state != Pending {
        return Err(NotPending(state));
      }
      answer := Recheck(resolved.value, lookup, now);
    }

    /** `claim_token`. */
    method PresentToken(token: Bytes, lookup: Option<TurnRecord>, now: nat) returns (answer: Result<Claim, UndoError>)
      modifies this`ledger
      ensures Decision(ledger, answer) == ClaimToken(old(ledger), View(), lookup, token, now)
      ensures (answer == Err(BadToken) <==> forall e :: e in old(ledger) ==> !IssuedWith(e, token))
              && (answer.Err? && answer.error in {BadToken, TokenConsumed, TokenExpired} ==> ledger == old(ledger))
      ensures forall g :: g in old(ledger) && IssuedWith(g, token) && UniqueGrants(old(ledger)) ==>
                if exists e :: e in old(ledger) && e.id == g.id && e.event in {Consume, Execute, Deny, Fail, Expire} then
                  answer == Err(TokenConsumed)
                else if g.expires <= now then answer == Err(TokenExpired)
                else Decision(ledger, answer) == ClaimGrant(old(ledger), View(), lookup, g, now)
    {
      FoundToken(ledger, Sha256(token));
      forall g | g in ledger && IssuedWith(g, token) && UniqueGrants(ledger)
        ensures FindToken(ledger, Sha256(token)) == Some(g)
        ensures (HasRow(ledger, g.id, Consume) || g.id in ReleasedIds(ledger))
                <==> exists e :: e in ledger && e.id == g.id && e.event in {Consume, Execute, Deny, Fail, Expire}
      {
        TokenFindsItsGrant(ledger, Sha256(token), g);
        SpentOrReleased(ledger, g.id);
      }
      var found := FindToken(ledger, Sha256(token));
      if found.None? {
        return Err(BadToken);
      }
      if HasRow(ledger, found.value.id, Consume) || found.value.id in ReleasedIds(ledger) {
        return Err(TokenConsumed);
      }
      if found.value.expires <= now {
        return Err(TokenExpired);
      }
      answer := Recheck(found.value, lookup, now);
    }

    /** `deny`: a terminal row for the one open request the reference names, and not one byte of the tree. */
    method DenyPending(reference: Id, now: nat) returns (answer: Result<LedgerEvent, UndoError>)
      modifies this`ledger
      ensures Decision(ledger, answer) == DenyRequest(old(ledger), reference, now)
      ensures var named := Named(old(ledger), reference);
              && (named == {} ==> answer == Err(BadReference(UnknownRequest)) && ledger == old(ledger))
              && (|named| >= 2 ==> answer == Err(BadReference(AmbiguousRequest(|named|))) && ledger == old(ledger))
      ensures forall i :: Named(old(ledger), reference) == {i} ==>
                var request := old(ledger)[i];
                if StillOpen(old(ledger), request, now) then
                  answer == Ok(request) && ledger == old(ledger) + [ResolvingRow(Deny, request, now)]
                else if HasLapsed(old(ledger), request, now) then
                  answer == Err(NotPending(Expired)) && ledger == old(ledger) + [ResolvingRow(Expire, request, now)]
                else answer == Err(NotPending(StateFrom(request, old(ledger), now))) && ledger == old(ledger)
    {
      ResolvedExactly(ledger, reference);
      var resolved := ResolveRequest(ledger, reference);
      if resolved.Err? {
        return Err(BadReference(resolved.error));
      }
      OpenIsPending(ledger, resolved.value, now);
      var state := StateFrom(resolved.value, ledger, now);
      if state == Expired {
        AppendEvent(RowFor(Expire, resolved.value, now, None, None));
        return Err(NotPending(Expired));
      }
      if state != Pending {
        return Err(NotPending(state));
      }
      AppendEvent(RowFor(Deny, resolved.value, now, None, None));
      answer := Ok(resolved.value);
    }

    /** `execute_revert`: snapshot, then delete or restore, in place. */
    method RevertFile(entry: FileEntry) returns (outcome: Result<FileEntry, RevertError>)
      modifies this`tree, this`objects
      ensures Reverted(View(), outcome) == ExecuteRevert(old(View()), entry)
    {
      var current := CurrentHash(View(), entry.path);
      if entry.path in tree {
        var stored := Put(objects, tree[entry.path]);
        if stored.None? {
          return Err(SnapshotFailed);
        }
        objects := stored.value;
      }
      if entry.op == Create {
        tree := tree - {entry.path};
        return Ok(InverseEntry(entry.path, current, None, Delete));
      }
      if entry.linkKind.Some? || entry.path in barred {
        return Err(RestoreRefused);
      }
      if entry.before.None? {
        return Err(NothingToRestore);
      }
      match Get(objects, entry.before.value)
      case Blob(bytes) =>
        tree := tree[entry.path := bytes];
        outcome := Ok(InverseEntry(entry.path, current, entry.before, if entry.op == Delete then Create else Modify));
      case _ =>
        outcome := Err(ObjectUnreadable);
    }

    /** The revert loop: entry by entry, until one fails. */
    method RevertFiles(entries: seq<FileEntry>) returns (inverse: seq<FileEntry>, failure: Option<RevertError>)
      modifies this`tree, this`objects
      ensures RevertedAll(View(), inverse, failure) == ExecuteAll(old(View()), entries)
    {
      inverse, failure := [], None;
      ghost var whole := ExecuteAll(View(), entries);
      var k := 0;
      while k < |entries| && failure.None?
        invariant 0 <= k <= |entries|
        invariant failure.None? ==> whole == Joined(inverse, ExecuteAll(View(), entries[k..]))
        invariant failure.Some? ==> whole == RevertedAll(View(), inverse, failure)
        decreases |entries| - k, failure.None?
      {
        JoinedNext(View(), entries, k, inverse);
        var outcome := RevertFile(entries[k]);
        match outcome
        case Ok(entry) =>
          inverse := inverse + [entry];
          k := k + 1;
        case Err(error) =>
          failure := Some(error);
      }
      if failure.None? {
        assert entries[k..] == [] && inverse + [] == inverse;
      }
    }

    /** `execute_claim`: revert every file, append the undo turn, and resolve the grant last.  A failed
        revert leaves a truncated turn for whatever was reverted, and a `fail` row. */
    method ExecuteClaim(grant: LedgerEvent, entries: seq<FileEntry>, turnId: Id, now: nat)
      returns (undoTurn: Option<Id>)
      modifies this`ledger, this`log, this`tree, this`objects
      ensures entries == [] ==> undoTurn.None? && ledger == old(ledger) && log == old(log) && View() == old(View())
      ensures entries != [] ==>
                var r := ExecuteAll(old(View()), entries);
                && View() == r.disk
                && log == old(log) + TurnsOf(r, turnId)
                && ledger == old(ledger) + [ResolutionOf(r, grant, turnId, now)]
                && (r.failure.None? ==>
                      && log == old(log) + [TurnRecord(turnId, Rich, false, Some("agentrec"), None, None, [], None, r.inverse)]
                      && ledger == old(ledger) + [LedgerEvent(Execute, grant.id, grant.turn, grant.paths, None,
                                                              grant.expires, now, [], false, Some(turnId), None)])
                && (r.failure.Some? ==>
                      && log == old(log) + (if r.inverse == [] then []
                                            else [TurnRecord(turnId, Rich, true, Some("agentrec"), None, None, [], None, r.inverse)])
                      && ledger == old(ledger) + [LedgerEvent(Fail, grant.id, grant.turn, grant.paths, None,
                                                              grant.expires, now, [], false, None, Some("revert_failed"))])
                && (undoTurn == if r.failure.None? then Some(turnId) else None)
    {
      if entries == [] {
        return None;
      }
      var inverse, failure := RevertFiles(entries);
      if failure.Some? {
        if inverse != [] {
          log := log + [Protocol.UndoTurn(turnId, inverse, true)];
        }
        AppendEvent(RowFor(Fail, grant, now, None, Some("revert_failed")));
        assert old(log) + [] == old(log);
        return None;
      }
      log := log + [Protocol.UndoTurn(turnId, inverse, false)];
      AppendEvent(RowFor(Execute, grant, now, Some(turnId), None));
      undoTurn := Some(turnId);
    }
  }

  /** The undo turn an execution leaves in the log, if it reverted anything. */
  function TurnsOf(r: RevertedAll, turnId: Id): seq<TurnRecord> {
    if r.failure.None? then [Protocol.UndoTurn(turnId, r.inverse, false)]
    else if r.inverse != [] then [Protocol.UndoTurn(turnId, r.inverse, true)]
    else []
  }

  function ResolutionOf(r: RevertedAll, grant: LedgerEvent, turnId: Id, now: nat): LedgerEvent {
    if r.failure.None? then RowFor(Execute, grant, now, Some(turnId), None)
    else RowFor(Fail, grant, now, None, Some("revert_failed"))
  }

  // ---- an execution is a run of micro-steps ----------------------------------

  function Reverts(n: nat): seq<Protocol.Step> {
    seq(n, _ => Protocol.RevertNext)
  }

  /** The micro-steps after the reverts of an execution that came out as `r`. */
  function TailSteps(r: RevertedAll, turnId: Id): seq<Protocol.Step> {
    if r.failure.None? then [Protocol.RecordTurn(turnId), Protocol.AppendExecute]
    else [Protocol.RevertNext] + AfterFailure(r.inverse, turnId)
  }

  /** The micro-steps of an uninterrupted execution whose reverts come out as `r`. */
  function ExecutionSteps(r: RevertedAll, turnId: Id): seq<Protocol.Step> {
    [Protocol.BeginWrites] + Reverts(|r.inverse|) + TailSteps(r, turnId)
  }

  lemma FirstThen(s: Protocol.Sys, first: Protocol.Step, rest: seq<Protocol.Step>)
    ensures Protocol.Run(s, [first] + rest) == Protocol.Run(Protocol.Apply(s, first), rest)
  {
    assert ([first] + rest)[1..] == rest;
  }

  /** The next revert of an open write phase, when it succeeds. */
  lemma OneRevertStep(s: Protocol.Sys)
    requires s.phase.Writing? && |s.phase.inverse| < |s.phase.entries| && s.history != []
    requires ExecuteRevert(s.disk, s.phase.entries[|s.phase.inverse|]).outcome.Ok?
    ensures var first := ExecuteRevert(s.disk, s.phase.entries[|s.phase.inverse|]);
            var t := Protocol.Apply(s, Protocol.RevertNext);
            && t.phase == Protocol.Writing(s.phase.grant, s.phase.entries, s.phase.inverse + [first.outcome.value])
            && t.disk == first.disk && t.ledger == s.ledger && t.log == s.log && t.now == s.now
            && t.history != []
  {}

  /** What is left to revert in an open write phase. */
  function Todo(p: Protocol.Phase): seq<FileEntry>
    requires p.Writing? && |p.inverse| <= |p.entries|
  {
    p.entries[|p.inverse|..]
  }

  /** `t` is where the reverts left of `s` lead, up to the first that fails. */
  ghost predicate RevertedTo(s: Protocol.Sys, t: Protocol.Sys)
    requires s.phase.Writing? && |s.phase.inverse| <= |s.phase.entries|
  {
    var r := ExecuteAll(s.disk, Todo(s.phase));
    && t.phase == Protocol.Writing(s.phase.grant, s.phase.entries, s.phase.inverse + r.inverse)
    && t.ledger == s.ledger && t.log == s.log && t.now == s.now && t.history != []
    && (r.failure.None? ==> t.disk == r.disk)
    && (r.failure.Some? ==>
          && |t.phase.inverse| < |t.phase.entries|
          && ExecuteRevert(t.disk, t.phase.entries[|t.phase.inverse|]) == Reverted(r.disk, Err(r.failure.value)))
  }

  lemma NothingReverted(s: Protocol.Sys)
    requires s.phase.Writing? && |s.phase.inverse| <= |s.phase.entries| && s.history != []
    requires ExecuteAll(s.disk, Todo(s.phase)).inverse == []
    ensures RevertedTo(s, s)
  {
    assert s.phase.inverse + [] == s.phase.inverse;
    if Todo(s.phase) != [] {
      assert Todo(s.phase)[0] == s.phase.entries[|s.phase.inverse|];
    }
  }

  lemma OneMoreReverted(s: Protocol.Sys, t: Protocol.Sys, u: Protocol.Sys)
    requires s.phase.Writing? && |s.phase.inverse| < |s.phase.entries| && s.history != []
    requires ExecuteRevert(s.disk, s.phase.entries[|s.phase.inverse|]).outcome.Ok?
    requires t == Protocol.Apply(s, Protocol.RevertNext)
    requires t.phase.Writing? && |t.phase.inverse| <= |t.phase.entries| && RevertedTo(t, u)
    ensures RevertedTo(s, u)
    ensures |ExecuteAll(s.disk, Todo(s.phase)).inverse| == |ExecuteAll(t.disk, Todo(t.phase)).inverse| + 1
  {
    OneRevertStep(s);
    var k := |s.phase.inverse|;
    var todo := Todo(s.phase);
    assert todo[0] == s.phase.entries[k] && todo[1..] == Todo(t.phase);
    var first := ExecuteRevert(s.disk, todo[0]);
    var rest := ExecuteAll(first.disk, todo[1..]);
    assert s.phase.inverse + [first.outcome.value] + rest.inverse
        == s.phase.inverse + ([first.outcome.value] + rest.inverse);
  }

  /** The first of `n` successful reverts leaves the others to do. */
  lemma FirstOfMany(s: Protocol.Sys, n: nat)
    requires s.phase.Writing? && |s.phase.inverse| <= |s.phase.entries| && s.history != []
    requires 0 < n == |ExecuteAll(s.disk, Todo(s.phase)).inverse|
    ensures |s.phase.inverse| < |s.phase.entries|
    ensures ExecuteRevert(s.disk, s.phase.entries[|s.phase.inverse|]).outcome.Ok?
    ensures var t := Protocol.Apply(s, Protocol.RevertNext);
            && t.phase.Writing? && |t.phase.inverse| <= |t.phase.entries| && t.history != []
            && n - 1 == |ExecuteAll(t.disk, Todo(t.phase)).inverse|
  {
    var todo := Todo(s.phase);
    assert todo[0] == s.phase.entries[|s.phase.inverse|];
    OneRevertStep(s);
    assert todo[1..] == Todo(Protocol.Apply(s, Protocol.RevertNext).phase);
  }

  /** The reverts, one micro-step each, from the middle of a write phase. */
  lemma {:induction false} RevertSteps(s: Protocol.Sys, n: nat)
    requires s.phase.Writing? && |s.phase.inverse| <= |s.phase.entries| && s.history != []
    requires n == |ExecuteAll(s.disk, Todo(s.phase)).inverse|
    ensures RevertedTo(s, Protocol.Run(s, Reverts(n)))
    decreases n
  {
    if n == 0 {
      NothingReverted(s);
    } else {
      var t := Protocol.Apply(s, Protocol.RevertNext);
      FirstOfMany(s, n);
      RevertSteps(t, n - 1);
      OneMoreReverted(s, t, Protocol.Run(t, Reverts(n - 1)));
      FirstThen(s, Protocol.RevertNext, Reverts(n - 1));
      assert Reverts(n) == [Protocol.RevertNext] + Reverts(n - 1);
    }
  }

  /** Recording a complete write phase and closing it. */
  lemma CompletedSteps(w: Protocol.Sys, turnId: Id)
    requires w.phase.Writing? && |w.phase.inverse| == |w.phase.entries| && w.history != []
    ensures var t := Protocol.Run(w, [Protocol.RecordTurn(turnId), Protocol.AppendExecute]);
            && t.disk == w.disk && t.phase.Idle?
            && t.log == w.log + [Protocol.UndoTurn(turnId, w.phase.inverse, false)]
            && t.ledger == w.ledger + [RowFor(Execute, w.phase.grant, w.now, Some(turnId), None)]
  {
    RunTwo(w, Protocol.RecordTurn(turnId), Protocol.AppendExecute);
  }

  function AfterFailure(inverse: seq<FileEntry>, turnId: Id): seq<Protocol.Step> {
    [if inverse != [] then Protocol.RecordPartial(turnId) else Protocol.PartialUnrecorded, Protocol.AppendFail]
  }

  /** A revert that fails, the truncated turn for what was reverted before it, and the `fail` row. */
  lemma FailedSteps(w: Protocol.Sys, turnId: Id)
    requires w.phase.Writing? && |w.phase.inverse| < |w.phase.entries| && w.history != []
    requires ExecuteRevert(w.disk, w.phase.entries[|w.phase.inverse|]).outcome.Err?
    ensures var t := Protocol.Run(w, [Protocol.RevertNext] + AfterFailure(w.phase.inverse, turnId));
            && t.disk == ExecuteRevert(w.disk, w.phase.entries[|w.phase.inverse|]).disk && t.phase.Idle?
            && t.log == w.log + (if w.phase.inverse != [] then [Protocol.UndoTurn(turnId, w.phase.inverse, true)] else [])
            && t.ledger == w.ledger + [RowFor(Fail, w.phase.grant, w.now, None, Some("revert_failed"))]
  {
    var aborting := Protocol.Apply(w, Protocol.RevertNext);
    var after := AfterFailure(w.phase.inverse, turnId);
    RunTwo(aborting, after[0], after[1]);
    assert ([Protocol.RevertNext] + after)[1..] == after == [after[0], after[1]];
  }

  /** What `ExecuteClaim` does is what the protocol does, micro-step by micro-step, when nothing comes
      in between: the same tree, objects, log and ledger, and the lock let go. */
  lemma ExecutionIsARun(s: Protocol.Sys, turnId: Id)
    requires s.phase.Spent? || (s.phase.Claimed? && s.phase.grant.event == Request)
    requires s.phase.entries != []
    ensures var r := ExecuteAll(s.disk, s.phase.entries);
            var t := Protocol.Run(s, ExecutionSteps(r, turnId));
            && t.disk == r.disk
            && t.log == s.log + TurnsOf(r, turnId)
            && t.ledger == s.ledger + [ResolutionOf(r, s.phase.grant, turnId, s.now)]
            && t.phase.Idle?
  {
    var r := ExecuteAll(s.disk, s.phase.entries);
    var begun := Protocol.Apply(s, Protocol.BeginWrites);
    assert begun.phase == Protocol.Writing(s.phase.grant, s.phase.entries, []) && begun.history != [];
    assert begun.disk == s.disk && begun.log == s.log && begun.ledger == s.ledger && begun.now == s.now;
    assert Todo(begun.phase) == s.phase.entries;
    RevertSteps(begun, |r.inverse|);
    var written := Protocol.Run(begun, Reverts(|r.inverse|));
    assert [] + r.inverse == r.inverse;
    var tail := TailSteps(r, turnId);
    Protocol.RunSplits(begun, Reverts(|r.inverse|), tail);
    FirstThen(s, Protocol.BeginWrites, Reverts(|r.inverse|) + tail);
    assert ExecutionSteps(r, turnId) == [Protocol.BeginWrites] + (Reverts(|r.inverse|) + tail);
    if r.failure.None? {
      CompletedSteps(written, turnId);
    } else {
      FailedSteps(written, turnId);
    }
  }

  lemma RunTwo(s: Protocol.Sys, a: Protocol.Step, b: Protocol.Step)
    ensures Protocol.Run(s, [a, b]) == Protocol.Apply(Protocol.Apply(s, a), b)
  {
    assert [a, b][1..] == [b] && [b][1..] == [];
    var t := Protocol.Apply(s, a);
    assert Protocol.Run(t, [b]) == Protocol.Run(Protocol.Apply(t, b), []);
  }
}
