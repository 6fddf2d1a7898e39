/** The undo protocol as a state machine over durable state: every process that takes the undo lock
    runs as a sequence of micro-steps, and previews, edits, recorder appends, clock steps and crashes
    may come between any two of them. */
module UndoProtocol {
  import opened Records
  import opened UndoPlan
  import opened UndoLedger
  import opened UndoDecisions

  /** What an auto-mode preview computed outside the lock. */
  datatype Draft = Draft(turn: Id, paths: seq<Path>)

  /** Where the holder of the undo lock is. */
  datatype Phase =
    | Idle
    | Granting(event: EventKind, draft: Draft, allowModified: bool, checked: nat)
    | Claimed(grant: LedgerEvent, entries: seq<FileEntry>)
    | Spent(grant: LedgerEvent, entries: seq<FileEntry>)
    | Writing(grant: LedgerEvent, entries: seq<FileEntry>, inverse: seq<FileEntry>)
    | Aborting(grant: LedgerEvent, inverse: seq<FileEntry>)
    | Failing(grant: LedgerEvent)
    | Closing(grant: LedgerEvent, turn: TurnRecord)

  /** History: one write phase and the turn that recorded it. */
  datatype WritePhase = WritePhase(grant: LedgerEvent, turn: Option<TurnRecord>)

  datatype Sys = Sys(
    ledger: seq<LedgerEvent>,
    log: seq<TurnRecord>,
    disk: Disk,
    now: nat,
    drafts: set<Draft>,
    phase: Phase,
    history: seq<WritePhase>)

  datatype Step =
    // previews and grants
    | PreviewAuto(target: TurnRecord, paths: Option<seq<Path>>)
    | LockToReserve(draft: Draft)
    | LockToRequest(target: TurnRecord, paths: Option<seq<Path>>, allowModified: bool)
    | AppendGrant(id: Id, token: Bytes)
    // claims and refusals
    | ApproveRequest(reference: Id, lookup: Option<TurnRecord>)
    | PresentToken(token: Bytes, lookup: Option<TurnRecord>)
    | RefuseRequest(reference: Id)
    | GuardRefuses
    // an execution
    | SpendToken
    | BeginWrites
    | RevertNext
    | RevertFaults(content: Option<Bytes>)
    | RecordPartial(turnId: Id)
    | PartialUnrecorded
    | AppendFail
    | RecordTurn(turnId: Id)
    | AppendExecute
    // the environment
    | Crash
    | CrashInRevert(content: Option<Bytes>)
    | Edit(path: Path, content: Option<Bytes>)
    | ChangeGates(barred: set<Path>)
    | ChangeObjects(objects: Objects)
    | RecorderAppends(turn: TurnRecord)
    | ClockAdvances(to: nat)

  function UndoTurn(id: Id, files: seq<FileEntry>, truncated: bool): TurnRecord {
    TurnRecord(id, Rich, truncated, Some("agentrec"), None, None, [], None, files)
  }

  predicate FoundIn(log: seq<TurnRecord>, lookup: Option<TurnRecord>) {
    lookup.Some? ==> lookup.value in log
  }

  /** The disk with other content at one path. */
  function WithContent(disk: Disk, path: Path, content: Option<Bytes>): Disk {
    disk.(tree := if content.Some? then disk.tree[path := content.value] else disk.tree - {path})
  }

  /** A revert is under way. */
  predicate Reverting(p: Phase) {
    p.Writing? && |p.inverse| < |p.entries|
  }

  function NextEntry(p: Phase): FileEntry
    requires Reverting(p)
  {
    p.entries[|p.inverse|]
  }

  function WithLast(history: seq<WritePhase>, last: WritePhase): seq<WritePhase>
    requires history != []
  {
    history[..|history| - 1] + [last]
  }

  function Last(history: seq<WritePhase>): WritePhase
    requires history != []
  {
    history[|history| - 1]
  }

  /** Take up a decision about a claim: its row (if any) is durable, and a granted claim is held. */
  function Decide(s: Sys, d: Decision<Claim>): Sys {
    s.(ledger := d.ledger,
       phase := if d.answer.Ok? then Claimed(d.answer.value.grant, Executable(d.answer.value.plans)) else Idle)
  }

  /** One micro-step.  A step that is not enabled leaves the state as it is. */
  function Apply(s: Sys, step: Step): Sys {
    match step
    case PreviewAuto(target, paths) =>
      var shown := PreviewPaths(s.disk, target, paths, Auto, false);
      if target in s.log && shown.Ok? && shown.value != []
      then s.(drafts := s.drafts + {Draft(target.id, shown.value)}) else s
    case LockToReserve(draft) =>
      if s.phase.Idle? && draft in s.drafts
      then s.(phase := Granting(Reserve, draft, false, s.now)) else s
    case LockToRequest(target, paths, allowModified) =>
      var shown := PreviewPaths(s.disk, target, paths, Confirm, allowModified);
      if s.phase.Idle? && target in s.log && shown.Ok? && shown.value != []
      then s.(phase := Granting(Request, Draft(target.id, shown.value), allowModified, s.now)) else s
    case AppendGrant(id, token) =>
      if !s.phase.Granting? || id in UsedIds(s.ledger)
         || (exists e :: e in s.ledger && e.event == Reserve && e.token == Some(Sha256(token)))
      then s
      else
        var p := s.phase;
        var row := GrantRow(p.event, s.disk, id, p.draft.turn, p.draft.paths,
                            if p.event == Reserve then Some(Sha256(token)) else None, p.allowModified, s.now);
        s.(ledger := Lodge(s.ledger, row, p.checked).ledger, phase := Idle)
    case ApproveRequest(reference, lookup) =>
      if s.phase.Idle? && FoundIn(s.log, lookup)
      then Decide(s, ClaimRequest(s.ledger, s.disk, lookup, reference, s.now)) else s
    case PresentToken(token, lookup) =>
      if s.phase.Idle? && FoundIn(s.log, lookup)
      then Decide(s, ClaimToken(s.ledger, s.disk, lookup, token, s.now)) else s
    case RefuseRequest(reference) =>
      if s.phase.Idle? then s.(ledger := DenyRequest(s.ledger, reference, s.now).ledger) else s
    case GuardRefuses =>
      if s.phase.Claimed? || s.phase.Spent? then s.(phase := Idle) else s
    case SpendToken =>
      if s.phase.Claimed? && s.phase.grant.event == Reserve
      then s.(ledger := s.ledger + [RowFor(Consume, s.phase.grant, s.now, None, None)],
              phase := Spent(s.phase.grant, s.phase.entries))
      else s
    case BeginWrites =>
      if s.phase.Spent? || (s.phase.Claimed? && s.phase.grant.event == Request)
      then
        if s.phase.entries == [] then s.(phase := Idle)
        else s.(phase := Writing(s.phase.grant, s.phase.entries, []),
                history := s.history + [WritePhase(s.phase.grant, None)])
      else s
    case RevertNext =>
      if Reverting(s.phase)
      then
        var r := ExecuteRevert(s.disk, NextEntry(s.phase));
        s.(disk := r.disk,
           phase := if r.outcome.Err? then Aborting(s.phase.grant, s.phase.inverse)
                    else Writing(s.phase.grant, s.phase.entries, s.phase.inverse + [r.outcome.value]))
      else s
    case RevertFaults(content) =>
      // an I/O error, before, during or after the write: the file may hold anything
      if Reverting(s.phase)
      then s.(disk := WithContent(s.disk, NextEntry(s.phase).path, content),
              phase := Aborting(s.phase.grant, s.phase.inverse))
      else s
    case RecordPartial(turnId) =>
      if s.phase.Aborting? && s.phase.inverse != [] && s.history != []
      then
        var turn := UndoTurn(turnId, s.phase.inverse, true);
        s.(log := s.log + [turn], phase := Failing(s.phase.grant),
           history := WithLast(s.history, Last(s.history).(turn := Some(turn))))
      else s
    case PartialUnrecorded =>
      if s.phase.Aborting? then s.(phase := Failing(s.phase.grant)) else s
    case AppendFail =>
      if s.phase.Failing?
      then s.(ledger := s.ledger + [RowFor(Fail, s.phase.grant, s.now, None, Some("revert_failed"))], phase := Idle)
      else s
    case RecordTurn(turnId) =>
      if s.phase.Writing? && |s.phase.inverse| == |s.phase.entries| && s.history != []
      then
        var turn := UndoTurn(turnId, s.phase.inverse, false);
        s.(log := s.log + [turn], phase := Closing(s.phase.grant, turn),
           history := WithLast(s.history, Last(s.history).(turn := Some(turn))))
      else s
    case AppendExecute =>
      if s.phase.Closing?
      then s.(ledger := s.ledger + [RowFor(Execute, s.phase.grant, s.now, Some(s.phase.turn.id), None)],
              phase := Idle)
      else s
    case Crash => s.(phase := Idle)
    case CrashInRevert(content) =>
      if Reverting(s.phase)
      then s.(disk := WithContent(s.disk, NextEntry(s.phase).path, content), phase := Idle) else s
    case Edit(path, content) => s.(disk := WithContent(s.disk, path, content))
    case ChangeGates(barred) => s.(disk := s.disk.(barred := barred))
    case ChangeObjects(objects) => s.(disk := s.disk.(objects := objects))
    case RecorderAppends(turn) => s.(log := s.log + [turn])
    case ClockAdvances(to) => if s.now <= to then s.(now := to) else s
  }

  predicate Initial(s: Sys) {
    s.ledger == [] && s.drafts == {} && s.phase.Idle? && s.history == []
  }

  /** The state after a run of micro-steps. */
  function Run(s: Sys, steps: seq<Step>): Sys
    decreases |steps|
  {
    if steps == [] then s else Run(Apply(s, steps[0]), steps[1..])
  }

  // ---- the invariant -------------------------------------------------------

  /** The holder's grant is open, and nothing else that is live touches its paths. */
  ghost predicate Held(s: Sys, g: LedgerEvent) {
    && g in s.ledger && Reserving(g.event) && g.paths != []
    && g.id !in ReleasedIds(s.ledger)
    && (forall e :: e in s.ledger && IsLive(s.ledger, e, s.now) && e.id != g.id ==> !Overlap(e.paths, g.paths))
  }

  ghost predicate Covers(g: LedgerEvent, entries: seq<FileEntry>) {
    Elements(EntryPaths(entries)) == Elements(g.paths)
  }

  ghost predicate LastIs(s: Sys, g: LedgerEvent, inverse: seq<FileEntry>) {
    && s.history != [] && Last(s.history) == WritePhase(g, None)
    && (g.event == Reserve ==> HasRow(s.ledger, g.id, Consume))
    && (forall p :: p in EntryPaths(inverse) ==> p in g.paths)
  }

  ghost predicate HolderOk(s: Sys) {
    match s.phase
    case Idle => true
    case Granting(event, draft, _, checked) =>
      Reserving(event) && draft.paths != [] && checked <= s.now && LedgerOk(s.ledger, checked)
    case Claimed(g, entries) =>
      Held(s, g) && Covers(g, entries) && (g.event == Reserve ==> !HasRow(s.ledger, g.id, Consume))
    case Spent(g, entries) =>
      && Held(s, g) && Covers(g, entries) && g.event == Reserve && HasRow(s.ledger, g.id, Consume)
      && (forall w :: w in s.history ==> w.grant.id != g.id)
    case Writing(g, entries, inverse) =>
      && Held(s, g) && Covers(g, entries) && LastIs(s, g, inverse)
      && |inverse| <= |entries| && EntryPaths(inverse) == EntryPaths(entries)[..|inverse|]
    case Aborting(g, inverse) => Held(s, g) && LastIs(s, g, inverse)
    case Failing(g) => Held(s, g)
    case Closing(g, turn) =>
      && Held(s, g) && s.history != [] && Last(s.history).grant == g && Last(s.history).turn == Some(turn)
      && !turn.truncated
  }

  ghost predicate WritePhaseOk(s: Sys, w: WritePhase) {
    && w.grant in s.ledger && Reserving(w.grant.event)
    && (w.grant.event == Reserve ==> HasRow(s.ledger, w.grant.id, Consume))
    && (w.turn.Some? ==>
          && w.turn.value in s.log
          && (forall p :: p in EntryPaths(w.turn.value.files) ==> p in w.grant.paths)
          && (!w.turn.value.truncated ==> Covers(w.grant, w.turn.value.files)))
  }

  /** The write phase that an `execute` row points at. */
  ghost predicate Evidence(w: WritePhase, row: LedgerEvent) {
    w.grant.id == row.id && w.turn.Some? && !w.turn.value.truncated && row.undoTurn == Some(w.turn.value.id)
  }

  ghost predicate HistoryOk(s: Sys) {
    && (forall w :: w in s.history ==> WritePhaseOk(s, w))
    && (forall i, j :: 0 <= i < j < |s.history| && s.history[i].grant.event == Reserve
                       && s.history[j].grant.event == Reserve ==>
          s.history[i].grant.id != s.history[j].grant.id)
    && (forall e :: e in s.ledger && e.event == Execute ==> exists w :: w in s.history && Evidence(w, e))
  }

  ghost predicate Inv(s: Sys) {
    && LedgerOk(s.ledger, s.now)
    && (forall d :: d in s.drafts ==> d.paths != [])
    && HistoryOk(s)
    && HolderOk(s)
  }

  lemma InitialInv(s: Sys)
    requires Initial(s)
    ensures Inv(s)
  {}

  // ---- frame lemmas ---------------------------------------------------------

  /** Nothing that the invariant reads changes except the disk and the log, which only grows. */
  lemma EnvironmentKeepsInv(s: Sys, t: Sys)
    requires Inv(s)
    requires t.ledger == s.ledger && t.now == s.now && t.drafts == s.drafts && t.phase == s.phase
    requires t.history == s.history && s.log <= t.log
    ensures Inv(t)
  {
    forall w | w in t.history ensures WritePhaseOk(t, w) {
      assert WritePhaseOk(s, w);
    }
  }

  /** The holder lets go, keeping whatever is durable. */
  lemma ReleaseKeepsInv(s: Sys, disk: Disk)
    requires Inv(s)
    ensures Inv(s.(disk := disk, phase := Idle))
  {
    var t := s.(disk := disk, phase := Idle);
    forall w | w in t.history ensures WritePhaseOk(t, w) {
      assert WritePhaseOk(s, w);
    }
  }

  lemma ClockKeepsInv(s: Sys, to: nat)
    requires Inv(s) && s.now <= to
    ensures Inv(s.(now := to))
  {
    var t := s.(now := to);
    LaterStillOk(s.ledger, s.now, to);
    forall w | w in t.history ensures WritePhaseOk(t, w) {
      assert WritePhaseOk(s, w);
    }
    forall g | Held(s, g) ensures Held(t, g) {
      forall e | e in t.ledger && IsLive(t.ledger, e, t.now) && e.id != g.id
        ensures !Overlap(e.paths, g.paths)
      {
        assert IsLive(s.ledger, e, s.now);
      }
    }
  }

  lemma HasRowAppend(l: seq<LedgerEvent>, row: LedgerEvent, id: Id, kind: EventKind)
    ensures HasRow(l + [row], id, kind) <==> HasRow(l, id, kind) || (row.id == id && row.event == kind)
  {
    if HasRow(l, id, kind) {
      var e :| e in l && e.id == id && e.event == kind;
      assert e in l + [row];
    }
    if row.id == id && row.event == kind {
      assert row in l + [row];
    }
  }

  /** Appending a row keeps the history readable; an `execute` row needs its evidence. */
  lemma AppendKeepsHistory(s: Sys, row: LedgerEvent)
    requires HistoryOk(s)
    requires row.event == Execute ==> exists w :: w in s.history && Evidence(w, row)
    ensures HistoryOk(s.(ledger := s.ledger + [row]))
  {
    var t := s.(ledger := s.ledger + [row]);
    forall w | w in t.history ensures WritePhaseOk(t, w) {
      assert WritePhaseOk(s, w);
      HasRowAppend(s.ledger, row, w.grant.id, Consume);
    }
  }

  lemma AppendKeepsHeld(s: Sys, row: LedgerEvent, g: LedgerEvent)
    requires Held(s, g) && !Reserving(row.event)
    requires Terminal(row.event) ==> row.id != g.id
    ensures Held(s.(ledger := s.ledger + [row]), g)
  {
    var t := s.(ledger := s.ledger + [row]);
    forall id | id in ReleasedIds(t.ledger) ensures id in ReleasedIds(s.ledger) || (Terminal(row.event) && id == row.id) {
    }
    forall e | e in t.ledger && IsLive(t.ledger, e, t.now) && e.id != g.id
      ensures !Overlap(e.paths, g.paths)
    {
      LivenessShrinks(s.ledger, [row], e, s.now, s.now);
    }
  }

  /** Appending a row that resolves the holder's grant (or annotates no grant held) and letting go. */
  lemma CloseKeepsInv(s: Sys, row: LedgerEvent)
    requires Inv(s) && RowFits(s.ledger, row)
    requires row.event == Execute ==> exists w :: w in s.history && Evidence(w, row)
    ensures Inv(s.(ledger := s.ledger + [row], phase := Idle))
  {
    AppendRowOk(s.ledger, row, s.now);
    AppendKeepsHistory(s, row);
    var t := s.(ledger := s.ledger + [row]);
    var u := t.(phase := Idle);
    forall w | w in u.history ensures WritePhaseOk(u, w) {
      assert WritePhaseOk(t, w);
    }
  }

  // ---- grants ---------------------------------------------------------------

  lemma GrantKeepsInv(s: Sys, id: Id, token: Bytes)
    requires Inv(s)
    ensures Inv(Apply(s, AppendGrant(id, token)))
  {
    var t := Apply(s, AppendGrant(id, token));
    if t != s {
      var p := s.phase;
      var row := GrantRow(p.event, s.disk, id, p.draft.turn, p.draft.paths,
                          if p.event == Reserve then Some(Sha256(token)) else None, p.allowModified, s.now);
      LodgeChecksConflicts(s.ledger, row, p.checked);
      ReleaseKeepsInv(s, s.disk);
      if Lodge(s.ledger, row, p.checked).answer.Ok? {
        AppendGrantOk(s.ledger, row, p.checked, s.now);
        AppendKeepsHistory(s.(phase := Idle), row);
        assert t == s.(phase := Idle).(ledger := s.ledger + [row]);
      } else {
        assert t == s.(phase := Idle);
      }
    }
  }

  // ---- claims ---------------------------------------------------------------

  /** Two rows that create a reservation and share an id are the same row. */
  lemma SameGrant(l: seq<LedgerEvent>, a: LedgerEvent, b: LedgerEvent)
    requires UniqueGrants(l) && a in l && b in l && Reserving(a.event) && Reserving(b.event) && a.id == b.id
    ensures a == b
  {
    var i :| 0 <= i < |l| && l[i] == a;
    var j :| 0 <= j < |l| && l[j] == b;
  }

  lemma LiveGrantIsHeld(s: Sys, g: LedgerEvent)
    requires Inv(s) && g in s.ledger && IsLive(s.ledger, g, s.now)
    ensures Held(s, g)
  {
    forall e | e in s.ledger && IsLive(s.ledger, e, s.now) && e.id != g.id
      ensures !Overlap(e.paths, g.paths)
    {
      var i :| 0 <= i < |s.ledger| && s.ledger[i] == e;
      var j :| 0 <= j < |s.ledger| && s.ledger[j] == g;
      OverlapSymmetric(e.paths, g.paths);
    }
  }

  lemma ClaimGrantKeepsInv(s: Sys, lookup: Option<TurnRecord>, g: LedgerEvent)
    requires Inv(s) && s.phase.Idle? && g in s.ledger && IsLive(s.ledger, g, s.now)
    requires g.event == Reserve ==> !HasRow(s.ledger, g.id, Consume)
    ensures Inv(Decide(s, ClaimGrant(s.ledger, s.disk, lookup, g, s.now)))
  {
    var d := ClaimGrant(s.ledger, s.disk, lookup, g, s.now);
    var t := Decide(s, d);
    if d.answer.Ok? {
      ClaimIsExact(s.ledger, s.disk, lookup, g, s.now);
      LiveGrantIsHeld(s, g);
      forall w | w in t.history ensures WritePhaseOk(t, w) {
        assert WritePhaseOk(s, w);
      }
      assert Held(t, g);
    } else if d.answer.error == UnknownTurn {
      assert t == s;
    } else {
      CloseKeepsInv(s, StaleRow(g, s.now));
    }
  }

  /** A request whose state is pending is a live reservation. */
  lemma PendingIsLive(l: seq<LedgerEvent>, g: LedgerEvent, now: nat)
    requires g.event == Request && StateFrom(g, l, now) == Pending
    ensures IsLive(l, g, now)
  {
    assert forall e :: e in l && Terminal(e.event) && e.id == g.id ==> HasRow(l, g.id, e.event);
  }

  /** A request that has lapsed has no terminal row but lapses. */
  lemma LapsedHasOnlyLapses(l: seq<LedgerEvent>, g: LedgerEvent, now: nat)
    requires StateFrom(g, l, now) == Expired
    ensures forall e :: e in l && e.id == g.id && Terminal(e.event) ==> e.event == Expire
  {
    forall e | e in l && e.id == g.id && Terminal(e.event) ensures e.event == Expire {
      assert HasRow(l, g.id, e.event);
    }
  }

  lemma LapseFits(l: seq<LedgerEvent>, g: LedgerEvent, now: nat)
    requires LedgerOk(l, now) && g in l && g.event == Request && StateFrom(g, l, now) == Expired
    ensures RowFits(l, RowFor(Expire, g, now, None, None))
  {
    LapsedHasOnlyLapses(l, g, now);
    forall h | h in l && h.id == g.id ensures h.event != Reserve {
      if h.event == Reserve {
        SameGrant(l, g, h);
      }
    }
  }

  lemma LapseKeepsInv(s: Sys, g: LedgerEvent)
    requires Inv(s) && g in s.ledger && g.event == Request && StateFrom(g, s.ledger, s.now) == Expired
    ensures Inv(s.(ledger := s.ledger + [RowFor(Expire, g, s.now, None, None)], phase := Idle))
  {
    LapseFits(s.ledger, g, s.now);
    CloseKeepsInv(s, RowFor(Expire, g, s.now, None, None));
  }

  lemma DenialFits(l: seq<LedgerEvent>, g: LedgerEvent, now: nat)
    requires LedgerOk(l, now) && g in l && g.event == Request && StateFrom(g, l, now) == Pending
    ensures RowFits(l, RowFor(Deny, g, now, None, None))
  {
    PendingIsLive(l, g, now);
    forall h | h in l && h.id == g.id ensures h.event != Reserve {
      if h.event == Reserve {
        SameGrant(l, g, h);
      }
    }
  }

  lemma ApproveShape(s: Sys, reference: Id, lookup: Option<TurnRecord>, g: LedgerEvent)
    requires s.phase.Idle? && FoundIn(s.log, lookup) && ResolveRequest(s.ledger, reference) == Ok(g)
    ensures var state := StateFrom(g, s.ledger, s.now);
            Apply(s, ApproveRequest(reference, lookup)) ==
            if state == Pending then Decide(s, ClaimGrant(s.ledger, s.disk, lookup, g, s.now))
            else if state == Expired then
              s.(ledger := s.ledger + [RowFor(Expire, g, s.now, None, None)], phase := Idle)
            else s
  {}

  lemma ApproveKeepsInv(s: Sys, reference: Id, lookup: Option<TurnRecord>)
    requires Inv(s)
    ensures Inv(Apply(s, ApproveRequest(reference, lookup)))
  {
    ResolvedRequestMatches(s.ledger, reference);
    var resolved := ResolveRequest(s.ledger, reference);
    if s.phase.Idle? && FoundIn(s.log, lookup) && resolved.Ok? {
      var g := resolved.value;
      ApproveShape(s, reference, lookup, g);
      match StateFrom(g, s.ledger, s.now)
      case Pending =>
        PendingIsLive(s.ledger, g, s.now);
        ClaimGrantKeepsInv(s, lookup, g);
      case Expired => LapseKeepsInv(s, g);
      case other =>
    }
  }

  /** A token that is known, unspent, unreleased and unexpired. */
  predicate Presentable(s: Sys, token: Bytes) {
    var found := FindToken(s.ledger, Sha256(token));
    && found.Some? && !HasRow(s.ledger, found.value.id, Consume) && found.value.id !in ReleasedIds(s.ledger)
    && found.value.expires > s.now
  }

  /** Such a token is claimed; any other changes nothing. */
  lemma PresentShape(s: Sys, token: Bytes, lookup: Option<TurnRecord>)
    requires s.phase.Idle? && FoundIn(s.log, lookup)
    ensures Apply(s, PresentToken(token, lookup)) ==
            if Presentable(s, token)
            then Decide(s, ClaimGrant(s.ledger, s.disk, lookup, FindToken(s.ledger, Sha256(token)).value, s.now)) else s
  {}

  lemma PresentableIsLive(s: Sys, token: Bytes)
    requires Presentable(s, token)
    ensures var g := FindToken(s.ledger, Sha256(token)).value;
            g in s.ledger && IsLive(s.ledger, g, s.now) && !HasRow(s.ledger, g.id, Consume)
  {
    FoundToken(s.ledger, Sha256(token));
  }

  lemma PresentKeepsInv(s: Sys, token: Bytes, lookup: Option<TurnRecord>)
    requires Inv(s)
    ensures Inv(Apply(s, PresentToken(token, lookup)))
  {
    if s.phase.Idle? && FoundIn(s.log, lookup) {
      PresentShape(s, token, lookup);
      if Presentable(s, token) {
        PresentableIsLive(s, token);
        ClaimGrantKeepsInv(s, lookup, FindToken(s.ledger, Sha256(token)).value);
      }
    }
  }

  lemma DenyShape(s: Sys, reference: Id, g: LedgerEvent)
    requires s.phase.Idle? && ResolveRequest(s.ledger, reference) == Ok(g)
    ensures var state := StateFrom(g, s.ledger, s.now);
            Apply(s, RefuseRequest(reference)) ==
            if state == Pending then s.(ledger := s.ledger + [RowFor(Deny, g, s.now, None, None)], phase := Idle)
            else if state == Expired then
              s.(ledger := s.ledger + [RowFor(Expire, g, s.now, None, None)], phase := Idle)
            else s
  {}

  lemma DenyKeepsInv(s: Sys, reference: Id)
    requires Inv(s)
    ensures Inv(Apply(s, RefuseRequest(reference)))
  {
    ResolvedRequestMatches(s.ledger, reference);
    var resolved := ResolveRequest(s.ledger, reference);
    if s.phase.Idle? && resolved.Ok? {
      var g := resolved.value;
      DenyShape(s, reference, g);
      match StateFrom(g, s.ledger, s.now)
      case Pending => DenialKeepsInv(s, g);
      case Expired => LapseKeepsInv(s, g);
      case other =>
    }
  }

  lemma DenialKeepsInv(s: Sys, g: LedgerEvent)
    requires Inv(s) && g in s.ledger && g.event == Request && StateFrom(g, s.ledger, s.now) == Pending
    ensures Inv(s.(ledger := s.ledger + [RowFor(Deny, g, s.now, None, None)], phase := Idle))
  {
    DenialFits(s.ledger, g, s.now);
    CloseKeepsInv(s, RowFor(Deny, g, s.now, None, None));
  }

  // ---- an execution ---------------------------------------------------------

  lemma SpendKeepsInv(s: Sys)
    requires Inv(s)
    ensures Inv(Apply(s, SpendToken))
  {
    if s.phase.Claimed? && s.phase.grant.event == Reserve {
      var g := s.phase.grant;
      var row := RowFor(Consume, g, s.now, None, None);
      forall h | h in s.ledger && h.id == g.id ensures h.event != Request {
        if h.event == Request {
          SameGrant(s.ledger, g, h);
        }
      }
      AppendRowOk(s.ledger, row, s.now);
      AppendKeepsHistory(s, row);
      AppendKeepsHeld(s, row, g);
      HasRowAppend(s.ledger, row, g.id, Consume);
      var t := Apply(s, SpendToken);
      var u := s.(ledger := s.ledger + [row]);
      forall w | w in t.history ensures WritePhaseOk(t, w) && w.grant.id != g.id {
        assert WritePhaseOk(u, w) && WritePhaseOk(s, w);
        if w.grant.id == g.id {
          SameGrant(s.ledger, w.grant, g);
        }
      }
    }
  }

  /** A new write phase at the end of the history. */
  lemma NewPhaseKeepsHistory(s: Sys, t: Sys, g: LedgerEvent)
    requires HistoryOk(s) && t.ledger == s.ledger && t.log == s.log && g in s.ledger && Reserving(g.event)
    requires t.history == s.history + [WritePhase(g, None)]
    requires g.event == Reserve ==> HasRow(s.ledger, g.id, Consume) && forall w :: w in s.history ==> w.grant.id != g.id
    ensures HistoryOk(t)
  {
    forall w | w in t.history ensures WritePhaseOk(t, w) {
      if w in s.history {
        assert WritePhaseOk(s, w);
      }
    }
    forall e | e in t.ledger && e.event == Execute ensures exists w :: w in t.history && Evidence(w, e) {
      var w :| w in s.history && Evidence(w, e);
      assert w in t.history;
    }
    forall i, j | 0 <= i < j < |t.history| && t.history[i].grant.event == Reserve
                  && t.history[j].grant.event == Reserve
      ensures t.history[i].grant.id != t.history[j].grant.id
    {
      assert t.history[i] in s.history;
    }
  }

  lemma BeginKeepsInv(s: Sys)
    requires Inv(s)
    ensures Inv(Apply(s, BeginWrites))
  {
    var t := Apply(s, BeginWrites);
    if t != s {
      if s.phase.entries == [] {
        ReleaseKeepsInv(s, s.disk);
      } else {
        assert Held(t, s.phase.grant) by { assert Held(s, s.phase.grant); }
        NewPhaseKeepsHistory(s, t, s.phase.grant);
      }
    }
  }

  /** Replacing the open write phase at the end of the history. */
  lemma LastChanges(s: Sys, t: Sys, last: WritePhase)
    requires HistoryOk(s) && s.history != [] && Last(s.history).turn.None?
    requires t.ledger == s.ledger && s.log <= t.log && t.history == WithLast(s.history, last)
    requires last.grant == Last(s.history).grant
    requires WritePhaseOk(t, last)
    ensures HistoryOk(t)
  {
    var n := |s.history|;
    forall w | w in t.history ensures WritePhaseOk(t, w) {
      if w != last {
        assert w in s.history[..n - 1];
        assert WritePhaseOk(s, w);
      }
    }
    forall e | e in t.ledger && e.event == Execute ensures exists w :: w in t.history && Evidence(w, e) {
      var w :| w in s.history && Evidence(w, e);
      var i :| 0 <= i < n && s.history[i] == w;
      assert t.history[i] == w;
    }
  }

  lemma OneMorePath(entries: seq<FileEntry>, inverse: seq<FileEntry>, e: FileEntry)
    requires |inverse| < |entries| && EntryPaths(inverse) == EntryPaths(entries)[..|inverse|]
    requires e.path == entries[|inverse|].path
    ensures EntryPaths(inverse + [e]) == EntryPaths(inverse) + [e.path]
    ensures EntryPaths(inverse + [e]) == EntryPaths(entries)[..|inverse| + 1]
  {}

  /** Nothing that the history depends on changes. */
  lemma SameHistory(s: Sys, t: Sys)
    requires HistoryOk(s) && t.ledger == s.ledger && t.history == s.history && s.log <= t.log
    ensures HistoryOk(t)
  {
    forall w | w in t.history ensures WritePhaseOk(t, w) {
      assert WritePhaseOk(s, w);
    }
  }

  lemma SameHeld(s: Sys, t: Sys, g: LedgerEvent)
    requires Held(s, g) && t.ledger == s.ledger && t.now == s.now
    ensures Held(t, g)
  {}

  /** A successful revert: one more entry, of a granted path. */
  lemma RevertedKeepsHolder(s: Sys, e: FileEntry, disk: Disk)
    requires HolderOk(s) && Reverting(s.phase) && e.path == NextEntry(s.phase).path
    ensures HolderOk(s.(disk := disk, phase := Writing(s.phase.grant, s.phase.entries, s.phase.inverse + [e])))
  {
    var g, entries, inverse := s.phase.grant, s.phase.entries, s.phase.inverse;
    var t := s.(disk := disk, phase := Writing(g, entries, inverse + [e]));
    SameHeld(s, t, g);
    OneMorePath(entries, inverse, e);
    assert EntryPaths(entries)[|inverse|] in Elements(g.paths);
  }

  lemma RevertKeepsInv(s: Sys)
    requires Inv(s)
    ensures Inv(Apply(s, RevertNext))
  {
    if Reverting(s.phase) {
      var t := Apply(s, RevertNext);
      var e := NextEntry(s.phase);
      RevertTouchesOnePath(s.disk, e, e.path);
      SameHistory(s, t);
      SameHeld(s, t, s.phase.grant);
      var r := ExecuteRevert(s.disk, e);
      if r.outcome.Ok? {
        RevertedKeepsHolder(s, r.outcome.value, r.disk);
      }
    }
  }

  /** A write phase ends early, whatever is on disk. */
  lemma AbortKeepsInv(s: Sys, disk: Disk)
    requires Inv(s) && (s.phase.Writing? || s.phase.Aborting?)
    ensures s.phase.Writing? ==> Inv(s.(disk := disk, phase := Aborting(s.phase.grant, s.phase.inverse)))
    ensures s.phase.Aborting? ==> Inv(s.(disk := disk, phase := Failing(s.phase.grant)))
  {
    var t := if s.phase.Writing? then s.(disk := disk, phase := Aborting(s.phase.grant, s.phase.inverse))
             else s.(disk := disk, phase := Failing(s.phase.grant));
    SameHeld(s, t, s.phase.grant);
    SameHistory(s, t);
  }

  lemma RecordTurnKeepsInv(s: Sys, turnId: Id)
    requires Inv(s)
    ensures Inv(Apply(s, RecordTurn(turnId)))
  {
    if s.phase.Writing? && |s.phase.inverse| == |s.phase.entries| {
      var t := Apply(s, RecordTurn(turnId));
      SameHeld(s, t, s.phase.grant);
      assert WritePhaseOk(s, Last(s.history));
      assert EntryPaths(s.phase.inverse) == EntryPaths(s.phase.entries);
      LastChanges(s, t, Last(s.history).(turn := Some(t.phase.turn)));
    }
  }

  lemma RecordPartialKeepsInv(s: Sys, turnId: Id)
    requires Inv(s)
    ensures Inv(Apply(s, RecordPartial(turnId)))
  {
    if s.phase.Aborting? && s.phase.inverse != [] {
      var t := Apply(s, RecordPartial(turnId));
      SameHeld(s, t, s.phase.grant);
      assert WritePhaseOk(s, Last(s.history));
      LastChanges(s, t, Last(s.history).(turn := Some(UndoTurn(turnId, s.phase.inverse, true))));
    }
  }

  lemma FailKeepsInv(s: Sys)
    requires Inv(s)
    ensures Inv(Apply(s, AppendFail))
  {
    if s.phase.Failing? {
      CloseKeepsInv(s, RowFor(Fail, s.phase.grant, s.now, None, Some("revert_failed")));
    }
  }

  lemma ExecutionFits(l: seq<LedgerEvent>, g: LedgerEvent, row: LedgerEvent)
    requires g in l && Reserving(g.event) && g.id !in ReleasedIds(l)
    requires row.event == Execute && row.id == g.id && row.undoTurn.Some? && row.token.None?
    ensures RowFits(l, row)
  {}

  lemma ExecutionHasItsTurn(s: Sys, row: LedgerEvent)
    requires Inv(s) && s.phase.Closing?
    requires row == RowFor(Execute, s.phase.grant, s.now, Some(s.phase.turn.id), None)
    ensures RowFits(s.ledger, row) && exists w :: w in s.history && Evidence(w, row)
  {
    assert Last(s.history) in s.history && Evidence(Last(s.history), row);
    ExecutionFits(s.ledger, s.phase.grant, row);
  }

  lemma ExecuteKeepsInv(s: Sys)
    requires Inv(s)
    ensures Inv(Apply(s, AppendExecute))
  {
    if s.phase.Closing? {
      var row := RowFor(Execute, s.phase.grant, s.now, Some(s.phase.turn.id), None);
      ExecutionHasItsTurn(s, row);
      CloseKeepsInv(s, row);
    }
  }

  lemma LockKeepsInv(s: Sys, p: Phase)
    requires Inv(s) && s.phase.Idle?
    requires p.Granting? && Reserving(p.event) && p.draft.paths != [] && p.checked == s.now
    ensures Inv(s.(phase := p))
  {
    var t := s.(phase := p);
    forall w | w in t.history ensures WritePhaseOk(t, w) {
      assert WritePhaseOk(s, w);
    }
  }

  /** Edits, gate changes, store changes, recorder appends and the clock. */
  lemma EnvironmentStepKeepsInv(s: Sys, step: Step)
    requires Inv(s)
    requires step.Edit? || step.ChangeGates? || step.ChangeObjects? || step.RecorderAppends? || step.ClockAdvances?
    ensures Inv(Apply(s, step))
  {
    if step.ClockAdvances? {
      if s.now <= step.to {
        ClockKeepsInv(s, step.to);
      }
    } else {
      EnvironmentKeepsInv(s, Apply(s, step));
    }
  }

  predicate Executes(step: Step) {
    || step.SpendToken? || step.BeginWrites? || step.RevertNext? || step.RevertFaults? || step.RecordPartial?
    || step.PartialUnrecorded? || step.AppendFail? || step.RecordTurn? || step.AppendExecute? || step.CrashInRevert?
  }

  /** The steps of an execution. */
  lemma ExecutionStepKeepsInv(s: Sys, step: Step)
    requires Inv(s) && Executes(step)
    ensures Inv(Apply(s, step))
  {
    match step
    case SpendToken => SpendKeepsInv(s);
    case BeginWrites => BeginKeepsInv(s);
    case RevertNext => RevertKeepsInv(s);
    case RevertFaults(content) =>
      if Reverting(s.phase) {
        AbortKeepsInv(s, Apply(s, step).disk);
      }
    case CrashInRevert(content) =>
      if Reverting(s.phase) {
        ReleaseKeepsInv(s, Apply(s, step).disk);
      }
    case RecordPartial(turnId) => RecordPartialKeepsInv(s, turnId);
    case PartialUnrecorded =>
      if s.phase.Aborting? {
        AbortKeepsInv(s, s.disk);
      }
    case AppendFail => FailKeepsInv(s);
    case RecordTurn(turnId) => RecordTurnKeepsInv(s, turnId);
    case AppendExecute => ExecuteKeepsInv(s);
  }

  lemma PreviewKeepsInv(s: Sys, target: TurnRecord, paths: Option<seq<Path>>)
    requires Inv(s)
    ensures Inv(Apply(s, PreviewAuto(target, paths)))
  {
    var t := Apply(s, PreviewAuto(target, paths));
    SameHistory(s, t);
    forall g | Held(s, g) ensures Held(t, g) {
      SameHeld(s, t, g);
    }
  }

  /** The steps that take the lock to grant, claim or refuse. */
  lemma DecisionStepKeepsInv(s: Sys, step: Step)
    requires Inv(s)
    requires step.LockToReserve? || step.LockToRequest? || step.AppendGrant? || step.ApproveRequest?
             || step.PresentToken? || step.RefuseRequest?
    ensures Inv(Apply(s, step))
  {
    match step
    case LockToReserve(draft) =>
      if s.phase.Idle? && draft in s.drafts {
        LockKeepsInv(s, Apply(s, step).phase);
      }
    case LockToRequest(target, paths, allowModified) =>
      if Apply(s, step) != s {
        LockKeepsInv(s, Apply(s, step).phase);
      }
    case AppendGrant(id, token) => GrantKeepsInv(s, id, token);
    case ApproveRequest(reference, lookup) => ApproveKeepsInv(s, reference, lookup);
    case PresentToken(token, lookup) => PresentKeepsInv(s, token, lookup);
    case RefuseRequest(reference) => DenyKeepsInv(s, reference);
  }

  /** Every micro-step keeps the invariant. */
  lemma StepKeepsInv(s: Sys, step: Step)
    requires Inv(s)
    ensures Inv(Apply(s, step))
  {
    if Executes(step) {
      ExecutionStepKeepsInv(s, step);
    } else {
      match step
      case PreviewAuto(target, paths) => PreviewKeepsInv(s, target, paths);
      case GuardRefuses => ReleaseKeepsInv(s, s.disk);
      case Crash => ReleaseKeepsInv(s, s.disk);
      case Edit(_, _) => EnvironmentStepKeepsInv(s, step);
      case ChangeGates(_) => EnvironmentStepKeepsInv(s, step);
      case ChangeObjects(_) => EnvironmentStepKeepsInv(s, step);
      case RecorderAppends(_) => EnvironmentStepKeepsInv(s, step);
      case ClockAdvances(_) => EnvironmentStepKeepsInv(s, step);
      case _ => DecisionStepKeepsInv(s, step);
    }
  }

  lemma {:induction false} RunKeepsInv(s: Sys, steps: seq<Step>)
    requires Inv(s)
    ensures Inv(Run(s, steps))
    decreases |steps|
  {
    if steps != [] {
      StepKeepsInv(s, steps[0]);
      RunKeepsInv(Apply(s, steps[0]), steps[1..]);
    }
  }

  /** Every reachable state keeps the invariant. */
  lemma ReachableInv(start: Sys, steps: seq<Step>)
    requires Initial(start)
    ensures Inv(Run(start, steps))
  {
    InitialInv(start);
    RunKeepsInv(start, steps);
  }

  // ---- what holds over every run ---------------------------------------------

  lemma {:induction false} RunSplits(s: Sys, a: seq<Step>, b: seq<Step>)
    ensures Run(s, a + b) == Run(Run(s, a), b)
    decreases |a|
  {
    if a == [] {
      assert a + b == b;
    } else {
      assert (a + b)[1..] == a[1..] + b;
      RunSplits(Apply(s, a[0]), a[1..], b);
    }
  }

  lemma DecisionsOnlyAppend(s: Sys, reference: Id, token: Bytes, lookup: Option<TurnRecord>)
    ensures s.ledger <= ClaimRequest(s.ledger, s.disk, lookup, reference, s.now).ledger
    ensures s.ledger <= ClaimToken(s.ledger, s.disk, lookup, token, s.now).ledger
    ensures s.ledger <= DenyRequest(s.ledger, reference, s.now).ledger
  {}

  lemma StepGrows(s: Sys, step: Step)
    ensures var t := Apply(s, step); s.ledger <= t.ledger && s.log <= t.log && s.now <= t.now
  {
    match step
    case ApproveRequest(reference, lookup) => DecisionsOnlyAppend(s, reference, [], lookup);
    case PresentToken(token, lookup) => DecisionsOnlyAppend(s, "", token, lookup);
    case RefuseRequest(reference) => DecisionsOnlyAppend(s, reference, [], None);
    case _ =>
  }

  /** The ledger, the log and the clock only grow. */
  lemma {:induction false} RunGrows(s: Sys, steps: seq<Step>)
    ensures var t := Run(s, steps); s.ledger <= t.ledger && s.log <= t.log && s.now <= t.now
    decreases |steps|
  {
    if steps != [] {
      StepGrows(s, steps[0]);
      RunGrows(Apply(s, steps[0]), steps[1..]);
    }
  }
}
