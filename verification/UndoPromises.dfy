/** What a preview promises over every run: a grant that was lodged from it, and is claimed while it is live
    and the disk is as it was, executes exactly what the preview showed. */
module UndoPromises {
  import opened Records
  import opened UndoPlan
  import opened UndoLedger
  import opened UndoDecisions
  import opened UndoProtocol

  /** The grant row that `row` must be if `shown` was previewed and lodged on `disk`. */
  predicate LodgedFrom(row: LedgerEvent, event: EventKind, disk: Disk, id: Id, turn: Id, shown: seq<Path>,
                       token: Option<Hash>, allowModified: bool)
  {
    row == GrantRow(event, disk, id, turn, shown, token, allowModified, row.at)
  }

  /** The steps that take the lock, check for conflicts and append the grant. */
  function LodgeSteps(first: Step, id: Id, token: Bytes): seq<Step> {
    [first, AppendGrant(id, token)]
  }

  lemma RunOfTwo(s: Sys, a: Step, b: Step)
    ensures Run(s, [a, b]) == Apply(Apply(s, a), b)
  {
    assert [a, b][1..] == [b] && [b][1..] == [];
    var t := Apply(s, a);
    assert Run(t, [b]) == Run(Apply(t, b), []);
  }

  /** Appending a grant either changes no row or appends exactly the row for what is being granted. */
  lemma AppendedGrant(s: Sys, id: Id, token: Bytes)
    requires s.phase.Granting?
    ensures var p := s.phase;
            var t := Apply(s, AppendGrant(id, token));
            t.ledger == s.ledger
            || t.ledger == s.ledger + [GrantRow(p.event, s.disk, id, p.draft.turn, p.draft.paths,
                                                if p.event == Reserve then Some(Sha256(token)) else None,
                                                p.allowModified, s.now)]
  {}

  lemma HonouredByClaim(u: Sys, disk: Disk, target: TurnRecord, paths: Option<seq<Path>>, mode: Mode, allowModified: bool,
                        g: LedgerEvent)
    requires u.disk == disk
    requires var shown := PreviewPaths(disk, target, paths, mode, allowModified);
             && shown.Ok? && shown.value != []
             && LodgedFrom(g, g.event, disk, g.id, target.id, shown.value, g.token, mode == Confirm && allowModified)
    ensures var shown := PreviewPaths(disk, target, paths, mode, allowModified).value;
            var d := Decide(u, ClaimGrant(u.ledger, u.disk, Some(target), g, u.now));
            && d.phase.Claimed? && d.phase.grant == g && d.ledger == u.ledger
            && Elements(EntryPaths(d.phase.entries)) == Elements(shown)
  {
    PreviewIsHonoured(u.ledger, disk, target, paths, mode, allowModified, g.event, g.id, g.token, g.at, u.now);
  }

  lemma OneNamed(l: seq<LedgerEvent>, reference: Id, g: LedgerEvent)
    requires g in l && g.event == Request && reference <= g.id && |Named(l, reference)| == 1
    ensures ResolveRequest(l, reference) == Ok(g)
  {
    ResolvedExactly(l, reference);
    var i :| 0 <= i < |l| && l[i] == g;
    assert i in Named(l, reference);
  }

  lemma LiveIsPending(l: seq<LedgerEvent>, g: LedgerEvent, now: nat)
    requires LedgerOk(l, now) && g in l && g.event == Request && IsLive(l, g, now)
    ensures StateFrom(g, l, now) == Pending
  {
    ReadersAgree(l, g, now);
    LiveAmongMembers(l, l, now);
  }

  /** What a run has reached stays in the ledger and the log. */
  lemma LaterState(start: Sys, before: seq<Step>, steps: seq<Step>, after: seq<Step>)
    requires Initial(start)
    ensures var s := Run(start, before);
            var t := Run(s, steps);
            var u := Run(t, after);
            && Inv(u) && s.ledger <= t.ledger <= u.ledger && s.log <= u.log
            && forall g :: g in t.ledger ==> g in u.ledger
  {
    var s := Run(start, before);
    var t := Run(s, steps);
    RunGrows(s, steps);
    RunGrows(t, after);
    RunSplits(start, before, steps);
    RunSplits(start, before + steps, after);
    ReachableInv(start, before + steps + after);
  }

  lemma RequestedShape(s: Sys, target: TurnRecord, paths: Option<seq<Path>>, allowModified: bool, id: Id)
    requires s.phase.Idle? && target in s.log
    requires var shown := PreviewPaths(s.disk, target, paths, Confirm, allowModified); shown.Ok? && shown.value != []
    ensures var t := Run(s, LodgeSteps(LockToRequest(target, paths, allowModified), id, []));
            var shown := PreviewPaths(s.disk, target, paths, Confirm, allowModified).value;
            t.ledger == s.ledger
            || t.ledger == s.ledger + [GrantRow(Request, s.disk, id, target.id, shown, None, allowModified, s.now)]
  {
    var lock := LockToRequest(target, paths, allowModified);
    RunOfTwo(s, lock, AppendGrant(id, []));
    AppendedGrant(Apply(s, lock), id, []);
  }

  /** Confirm mode, with or without modified files: a request lodged from a preview, after any further run
      that left the disk as it was, is claimed by any reference that names it alone while it is live, and
      the claim covers exactly what the preview showed. */
  lemma RequestIsHonoured(start: Sys, before: seq<Step>, after: seq<Step>, target: TurnRecord, paths: Option<seq<Path>>,
                          allowModified: bool, id: Id, reference: Id)
    requires Initial(start)
    requires var s := Run(start, before);
             && s.phase.Idle? && target in s.log
             && (var shown := PreviewPaths(s.disk, target, paths, Confirm, allowModified); shown.Ok? && shown.value != [])
    requires var s := Run(start, before);
             var t := Run(s, LodgeSteps(LockToRequest(target, paths, allowModified), id, []));
             var u := Run(t, after);
             && |t.ledger| > |s.ledger|
             && u.disk == s.disk && u.phase.Idle? && IsLive(u.ledger, t.ledger[|t.ledger| - 1], u.now)
             && reference <= id && |Named(u.ledger, reference)| == 1
    ensures var s := Run(start, before);
            var t := Run(s, LodgeSteps(LockToRequest(target, paths, allowModified), id, []));
            var v := Apply(Run(t, after), ApproveRequest(reference, Some(target)));
            && v.phase.Claimed? && v.phase.grant == t.ledger[|t.ledger| - 1]
            && Elements(EntryPaths(v.phase.entries))
               == Elements(PreviewPaths(s.disk, target, paths, Confirm, allowModified).value)
  {
    var s := Run(start, before);
    var lock := LockToRequest(target, paths, allowModified);
    var t := Run(s, LodgeSteps(lock, id, []));
    var u := Run(t, after);
    RequestedShape(s, target, paths, allowModified, id);
    var g := t.ledger[|t.ledger| - 1];
    LaterState(start, before, LodgeSteps(lock, id, []), after);
    assert g in u.ledger && target in u.log;
    OneNamed(u.ledger, reference, g);
    LiveIsPending(u.ledger, g, u.now);
    ApproveShape(u, reference, Some(target), g);
    HonouredByClaim(u, s.disk, target, paths, Confirm, allowModified, g);
  }

  /** Auto mode: the token of a reservation made from a preview is honoured in the same way, once, while it is
      live and unspent. */
  lemma TokenIsHonoured(start: Sys, before: seq<Step>, after: seq<Step>, target: TurnRecord, paths: Option<seq<Path>>,
                        id: Id, token: Bytes)
    requires Initial(start)
    requires var s := Run(start, before);
             && s.phase.Idle? && target in s.log
             && (var shown := PreviewPaths(s.disk, target, paths, Auto, false); shown.Ok? && shown.value != [])
    requires var s := Run(start, before);
             var t := Run(s, ReserveSteps(s, target, paths, id, token));
             var u := Run(t, after);
             && |t.ledger| > |s.ledger|
             && u.disk == s.disk && u.phase.Idle? && IsLive(u.ledger, t.ledger[|t.ledger| - 1], u.now)
             && !HasRow(u.ledger, id, Consume)
    ensures var s := Run(start, before);
            var t := Run(s, ReserveSteps(s, target, paths, id, token));
            var v := Apply(Run(t, after), PresentToken(token, Some(target)));
            && v.phase.Claimed? && v.phase.grant == t.ledger[|t.ledger| - 1]
            && Elements(EntryPaths(v.phase.entries)) == Elements(PreviewPaths(s.disk, target, paths, Auto, false).value)
  {
    var s := Run(start, before);
    var steps := ReserveSteps(s, target, paths, id, token);
    var t := Run(s, steps);
    var u := Run(t, after);
    ReservedShape(s, target, paths, id, token);
    var g := t.ledger[|t.ledger| - 1];
    LaterState(start, before, steps, after);
    assert g in u.ledger && target in u.log;
    TokenFindsItsGrant(u.ledger, Sha256(token), g);
    PresentShape(u, token, Some(target));
    HonouredByClaim(u, s.disk, target, paths, Auto, false, g);
  }

  function ReserveSteps(s: Sys, target: TurnRecord, paths: Option<seq<Path>>, id: Id, token: Bytes): seq<Step> {
    var shown := PreviewPaths(s.disk, target, paths, Auto, false);
    [PreviewAuto(target, paths),
     LockToReserve(Draft(target.id, if shown.Ok? then shown.value else [])),
     AppendGrant(id, token)]
  }

  lemma ReservedShape(s: Sys, target: TurnRecord, paths: Option<seq<Path>>, id: Id, token: Bytes)
    requires s.phase.Idle? && target in s.log
    requires var shown := PreviewPaths(s.disk, target, paths, Auto, false); shown.Ok? && shown.value != []
    ensures var t := Run(s, ReserveSteps(s, target, paths, id, token));
            var shown := PreviewPaths(s.disk, target, paths, Auto, false).value;
            t.ledger == s.ledger
            || t.ledger == s.ledger + [GrantRow(Reserve, s.disk, id, target.id, shown, Some(Sha256(token)), false, s.now)]
  {
    var steps := ReserveSteps(s, target, paths, id, token);
    var a := Apply(s, steps[0]);
    var b := Apply(a, steps[1]);
    assert steps[1..] == [steps[1], steps[2]];
    RunOfTwo(a, steps[1], steps[2]);
    AppendedGrant(b, id, token);
  }
}
