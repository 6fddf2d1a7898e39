/** The decisions of the undo coordinator: previewing, granting, claiming and denying, each as a
    function from the ledger and the disk to the ledger afterwards and an answer. */
module UndoDecisions {
  import opened Records
  import opened UndoPlan
  import opened UndoLedger

  datatype Mode = Off | Confirm | Auto

  datatype UndoError =
    | ModeOff | WrongMode | UnknownPaths | NothingExecutable | TokenUnavailable
    | Conflict(reservation: Id, held: seq<Path>)
    | BadReference(reference: RefError)
    | NotPending(state: RequestState)
    | PreviewStale(stale: seq<Path>)
    | UnknownTurn | BadToken | TokenConsumed | TokenExpired

  datatype Decision<T> = Decision(ledger: seq<LedgerEvent>, answer: Result<T, UndoError>)

  datatype Claim = Claim(grant: LedgerEvent, target: TurnRecord, plans: seq<Plan>)

  // ---- preview -----------------------------------------------------------

  predicate Unreconstructible(target: TurnRecord, filter: seq<Path>) {
    target.imported == Some(true)
    && exists f :: f in target.files && Selected(filter, f.path) && f.op != Create && f.before.None?
  }

  /** The paths a preview shows as executable.  Auto mode never admits a modified file, and an
      imported turn with an unreconstructible entry is refused as a whole. */
  function PreviewPaths(disk: Disk, target: TurnRecord, paths: Option<seq<Path>>, mode: Mode, allowModified: bool)
    : Result<seq<Path>, UndoError>
  {
    var filter := if paths.Some? then paths.value else [];
    if mode == Off then Err(ModeOff)
    else if exists p :: p in filter && p !in EntryPaths(target.files) then Err(UnknownPaths)
    else if Unreconstructible(target, filter) then Ok([])
    else Ok(EntryPaths(Executable(PlanOf(disk, target.files, filter, mode == Confirm && allowModified))))
  }

  /** An imported turn of which some selected file cannot be put back. */
  predicate PartlyLost(target: TurnRecord, filter: seq<Path>) {
    && target.imported == Some(true)
    && exists f :: f in target.files && (filter == [] || f.path in filter) && f.op != Create && f.before.None?
  }

  /** Some selected entry for `p` may be written. */
  predicate Offers(disk: Disk, target: TurnRecord, filter: seq<Path>, allowModified: bool, p: Path) {
    exists e :: e in target.files && e.path == p && (filter == [] || p in filter) && Fit(disk, e, allowModified)
  }

  /** What a preview shows, said without the plan: nothing in off mode, nothing for a path the turn does not
      name; otherwise the paths of the selected fit entries, where modified files are admitted only in
      confirm mode and on request, or none at all for an imported turn that cannot be reconstructed. */
  lemma PreviewExactly(disk: Disk, target: TurnRecord, paths: Option<seq<Path>>, mode: Mode, allowModified: bool)
    ensures var filter := if paths.Some? then paths.value else [];
            var shown := PreviewPaths(disk, target, paths, mode, allowModified);
            var unknown := exists p :: p in filter && p !in EntryPaths(target.files);
            && (shown == Err(ModeOff) <==> mode == Off)
            && (shown == Err(UnknownPaths) <==> mode != Off && unknown)
            && (shown.Ok? <==> mode != Off && !unknown)
            && (shown.Ok? ==> forall p :: p in shown.value <==>
                  !PartlyLost(target, filter) && Offers(disk, target, filter, mode == Confirm && allowModified, p))
  {
    var filter := if paths.Some? then paths.value else [];
    var admitted := mode == Confirm && allowModified;
    assert Unreconstructible(target, filter) <==> PartlyLost(target, filter);
    OffersExactly(disk, target, filter, admitted);
  }

  lemma OffersExactly(disk: Disk, target: TurnRecord, filter: seq<Path>, allowModified: bool)
    ensures forall p :: p in EntryPaths(Executable(PlanOf(disk, target.files, filter, allowModified))) <==>
              Offers(disk, target, filter, allowModified, p)
  {
    ExecutableExactly(disk, target.files, filter, allowModified);
    PathsOf(Executable(PlanOf(disk, target.files, filter, allowModified)));
  }

  lemma PathsOf(entries: seq<FileEntry>)
    ensures forall p :: p in EntryPaths(entries) <==> exists e :: e in entries && e.path == p
  {
    forall p | p in EntryPaths(entries) ensures exists e :: e in entries && e.path == p {
      var i :| 0 <= i < |entries| && EntryPaths(entries)[i] == p;
      assert entries[i] in entries;
    }
    forall e | e in entries ensures e.path in EntryPaths(entries) {
      var i :| 0 <= i < |entries| && entries[i] == e;
      assert EntryPaths(entries)[i] == e.path;
    }
  }

  // ---- grants ------------------------------------------------------------

  function HashesOf(disk: Disk, paths: seq<Path>): (hashes: seq<Option<Hash>>)
    ensures |hashes| == |paths|
    ensures forall i :: 0 <= i < |paths| ==>
              hashes[i] == if paths[i] in disk.tree then Some(Sha256(disk.tree[paths[i]])) else None
  {
    seq(|paths|, i requires 0 <= i < |paths| => CurrentHash(disk, paths[i]))
  }

  function Overlapping(held: seq<Path>, wanted: seq<Path>): (overlap: seq<Path>)
    ensures overlap != [] <==> Overlap(held, wanted)
    ensures forall p :: p in overlap <==> p in held && p in wanted
  {
    if held == [] then []
    else
      assert forall p :: p in held <==> p == held[0] || p in held[1..];
      (if held[0] in wanted then [held[0]] else []) + Overlapping(held[1..], wanted)
  }

  /** The error names this reservation and exactly the wanted paths it holds. */
  ghost predicate NamesHeld(conflict: UndoError, e: LedgerEvent, wanted: seq<Path>) {
    && conflict.Conflict? && conflict.reservation == e.id
    && forall p :: p in conflict.held <==> p in e.paths && p in wanted
  }

  /** The first live reservation that holds one of the wanted paths, as the error names it. */
  function FirstConflict(live: seq<LedgerEvent>, wanted: seq<Path>): (conflict: Option<UndoError>)
    ensures conflict.Some? <==> exists e :: e in live && Overlap(e.paths, wanted)
    ensures conflict.Some? ==> conflict.value.Conflict?
    ensures conflict.Some? ==> exists e :: e in live && NamesHeld(conflict.value, e, wanted)
  {
    if live == [] then None
    else
      assert forall e :: e in live <==> e == live[0] || e in live[1..];
      var overlap := Overlapping(live[0].paths, wanted);
      assert overlap != [] ==> NamesHeld(Conflict(live[0].id, overlap), live[0], wanted);
      if overlap != [] then Some(Conflict(live[0].id, overlap))
      else FirstConflict(live[1..], wanted)
  }

  function GrantRow(event: EventKind, disk: Disk, id: Id, turn: Id, paths: seq<Path>,
                    token: Option<Hash>, allowModified: bool, now: nat): LedgerEvent {
    LedgerEvent(event, id, turn, paths, token,
                now + (if event == Reserve then TOKEN_TTL_MS else REQUEST_TTL_MS),
                now, HashesOf(disk, paths), allowModified, None, None)
  }

  /** The part of granting that both modes share: under the lock, refuse any overlap with what was
      live at `checked`, then lodge the row at `now`. */
  function Lodge(ledger: seq<LedgerEvent>, row: LedgerEvent, checked: nat): Decision<LedgerEvent> {
    var conflict := FirstConflict(LiveReservations(ledger, checked), row.paths);
    if conflict.Some? then Decision(ledger, Err(conflict.value))
    else Decision(ledger + [row], Ok(row))
  }

  lemma LodgeChecksConflicts(ledger: seq<LedgerEvent>, row: LedgerEvent, checked: nat)
    ensures Lodge(ledger, row, checked).answer.Ok? <==> !Conflicts(ledger, row.paths, checked)
  {
    LiveAmongMembers(ledger, ledger, checked);
  }

  // ---- claims ------------------------------------------------------------

  /** The granted path at `i` still holds what it held when the grant was lodged. */
  predicate StillHolds(grant: LedgerEvent, disk: Disk, i: nat)
    requires i < |grant.paths|
  {
    i < |grant.hashes| && grant.hashes[i] == CurrentHash(disk, grant.paths[i])
  }

  function DriftedFrom(grant: LedgerEvent, disk: Disk, i: nat): (drifted: seq<Path>)
    requires i <= |grant.paths|
    ensures drifted == [] <==> forall k :: i <= k < |grant.paths| ==> StillHolds(grant, disk, k)
    ensures forall p :: p in drifted <==> exists k :: i <= k < |grant.paths| && grant.paths[k] == p && !StillHolds(grant, disk, k)
    decreases |grant.paths| - i
  {
    if i == |grant.paths| then []
    else (if StillHolds(grant, disk, i) then [] else [grant.paths[i]]) + DriftedFrom(grant, disk, i + 1)
  }

  /** The granted paths that no longer hold what they held when the grant was lodged. */
  function Drifted(grant: LedgerEvent, disk: Disk): seq<Path> {
    DriftedFrom(grant, disk, 0)
  }

  function DroppedFrom(paths: seq<Path>, executable: seq<Path>): (missing: seq<Path>)
    ensures missing == [] <==> forall p :: p in paths ==> p in executable
    ensures forall p :: p in missing <==> p in paths && p !in executable
  {
    if paths == [] then []
    else
      assert forall p :: p in paths <==> p == paths[0] || p in paths[1..];
      (if paths[0] in executable then [] else [paths[0]]) + DroppedFrom(paths[1..], executable)
  }

  function StaleRow(grant: LedgerEvent, now: nat): LedgerEvent {
    RowFor(Fail, grant, now, None, Some("preview_stale"))
  }

  /** `claim_grant`: content drift, then scope drift, then the plan.  `lookup` is the outcome of
      looking the granted turn up in the log. */
  function ClaimGrant(ledger: seq<LedgerEvent>, disk: Disk, lookup: Option<TurnRecord>,
                      grant: LedgerEvent, now: nat): Decision<Claim> {
    var drifted := Drifted(grant, disk);
    if drifted != [] then Decision(ledger + [StaleRow(grant, now)], Err(PreviewStale(drifted)))
    else if lookup.None? then Decision(ledger, Err(UnknownTurn))
    else
      var plans := PlanOf(disk, lookup.value.files, grant.paths, grant.allowModified);
      var dropped := DroppedFrom(grant.paths, EntryPaths(Executable(plans)));
      if dropped != [] then Decision(ledger + [StaleRow(grant, now)], Err(PreviewStale(dropped)))
      else Decision(ledger, Ok(Claim(grant, lookup.value, plans)))
  }

  /** `claim`: a human approves the request `reference` names. */
  function ClaimRequest(ledger: seq<LedgerEvent>, disk: Disk, lookup: Option<TurnRecord>,
                        reference: Id, now: nat): Decision<Claim> {
    var resolved := ResolveRequest(ledger, reference);
    if resolved.Err? then Decision(ledger, Err(BadReference(resolved.error)))
    else match StateFrom(resolved.value, ledger, now)
      case Pending => ClaimGrant(ledger, disk, lookup, resolved.value, now)
      case Expired => Decision(ledger + [RowFor(Expire, resolved.value, now, None, None)], Err(NotPending(Expired)))
      case other => Decision(ledger, Err(NotPending(other)))
  }

  function FindToken(events: seq<LedgerEvent>, token: Hash): Option<LedgerEvent> {
    if events == [] then None
    else if events[0].event == Reserve && events[0].token == Some(token) then Some(events[0])
    else FindToken(events[1..], token)
  }

  lemma {:induction false} FoundToken(events: seq<LedgerEvent>, token: Hash)
    ensures var r := FindToken(events, token);
            && (r.Some? ==> r.value in events && r.value.event == Reserve && r.value.token == Some(token))
            && (r.None? ==> forall e :: e in events && e.event == Reserve ==> e.token != Some(token))
  {
    if events != [] {
      FoundToken(events[1..], token);
      assert events == [events[0]] + events[1..];
    }
  }

  /** Which token a presentation is of: on a reachable ledger the grant that was issued with it, if any. */
  lemma TokenFindsItsGrant(events: seq<LedgerEvent>, token: Hash, grant: LedgerEvent)
    requires UniqueGrants(events) && grant in events && grant.event == Reserve && grant.token == Some(token)
    ensures FindToken(events, token) == Some(grant)
  {
    FoundToken(events, token);
    var found := FindToken(events, token).value;
    var i :| 0 <= i < |events| && events[i] == found;
    var j :| 0 <= j < |events| && events[j] == grant;
    assert i == j;
  }

  /** `claim_token`: an agent presents a token.  A bad, spent or expired token appends nothing. */
  function ClaimToken(ledger: seq<LedgerEvent>, disk: Disk, lookup: Option<TurnRecord>,
                      token: Bytes, now: nat): Decision<Claim> {
    var found := FindToken(ledger, Sha256(token));
    if found.None? then Decision(ledger, Err(BadToken))
    else if HasRow(ledger, found.value.id, Consume) then Decision(ledger, Err(TokenConsumed))
    else if found.value.id in ReleasedIds(ledger) then Decision(ledger, Err(TokenConsumed))
    else if found.value.expires <= now then Decision(ledger, Err(TokenExpired))
    else ClaimGrant(ledger, disk, lookup, found.value, now)
  }

  /** `deny`. */
  function DenyRequest(ledger: seq<LedgerEvent>, reference: Id, now: nat): Decision<LedgerEvent> {
    var resolved := ResolveRequest(ledger, reference);
    if resolved.Err? then Decision(ledger, Err(BadReference(resolved.error)))
    else match StateFrom(resolved.value, ledger, now)
      case Pending => Decision(ledger + [RowFor(Deny, resolved.value, now, None, None)], Ok(resolved.value))
      case Expired => Decision(ledger + [RowFor(Expire, resolved.value, now, None, None)], Err(NotPending(Expired)))
      case other => Decision(ledger, Err(NotPending(other)))
  }

  // ---- what a claim is worth -----------------------------------------------

  /** A claim without a nonempty grant proves nothing: the empty filter means the whole turn.  It is
      exact precisely when the grant names a path or the whole turn has nothing to execute. */
  lemma ClaimExactness(ledger: seq<LedgerEvent>, disk: Disk, lookup: Option<TurnRecord>, grant: LedgerEvent, now: nat)
    requires ClaimGrant(ledger, disk, lookup, grant, now).answer.Ok?
    ensures var claim := ClaimGrant(ledger, disk, lookup, grant, now).answer.value;
            var executable := Executable(claim.plans);
            Elements(EntryPaths(executable)) == Elements(grant.paths)
            <==> grant.paths != [] || executable == []
  {
    var claim := ClaimGrant(ledger, disk, lookup, grant, now).answer.value;
    var executable := Executable(claim.plans);
    ExecutableMembers(disk, claim.target.files, grant.paths, grant.allowModified);
    if grant.paths != [] {
      forall p | p in EntryPaths(executable) ensures p in grant.paths {
        var i :| 0 <= i < |executable| && EntryPaths(executable)[i] == p;
        assert executable[i] in executable;
      }
    } else if executable != [] {
      assert EntryPaths(executable)[0] in Elements(EntryPaths(executable));
    }
  }

  /** The content that `grant.paths[i]` had when the grant was lodged is the content it has. */
  predicate Unchanged(disk: Disk, grant: LedgerEvent, i: nat)
    requires i < |grant.paths|
  {
    && i < |grant.hashes|
    && grant.hashes[i] == if grant.paths[i] in disk.tree then Some(Sha256(disk.tree[grant.paths[i]])) else None
  }

  /** Some entry for `p` may be written under this grant. */
  predicate Covered(disk: Disk, target: TurnRecord, grant: LedgerEvent, p: Path) {
    exists e :: e in target.files && e.path == p && Fit(disk, e, grant.allowModified)
  }

  /** What a claim of a grant comes to, said without the plan: granted exactly when every path is unchanged,
      the turn is found and every path may be written; refused as stale, with a `fail` row, exactly when
      some path changed (these are named) or else cannot be written any more (those are named). */
  lemma ClaimExactly(ledger: seq<LedgerEvent>, disk: Disk, lookup: Option<TurnRecord>, grant: LedgerEvent, now: nat)
    ensures var d := ClaimGrant(ledger, disk, lookup, grant, now);
            var same := forall i :: 0 <= i < |grant.paths| ==> Unchanged(disk, grant, i);
            var whole := lookup.Some? && forall p :: p in grant.paths ==> Covered(disk, lookup.value, grant, p);
            && (d.answer.Ok? <==> same && whole)
            && (d.answer.Ok? ==> d.ledger == ledger && d.answer.value.grant == grant && d.answer.value.target == lookup.value)
            && (d.answer == Err(UnknownTurn) <==> same && lookup.None?)
            && (d.answer.Err? && d.answer.error != UnknownTurn ==>
                  && d.answer.error.PreviewStale?
                  && d.ledger == ledger + [LedgerEvent(Fail, grant.id, grant.turn, grant.paths, None, grant.expires, now,
                                                       [], false, None, Some("preview_stale"))]
                  && forall p :: p in d.answer.error.stale <==>
                       if same then p in grant.paths && !Covered(disk, lookup.value, grant, p)
                       else exists i :: 0 <= i < |grant.paths| && grant.paths[i] == p && !Unchanged(disk, grant, i))
            && (d.answer == Err(UnknownTurn) ==> d.ledger == ledger)
  {
    assert forall i :: 0 <= i < |grant.paths| ==> (Unchanged(disk, grant, i) <==> StillHolds(grant, disk, i));
    if lookup.Some? {
      CoveredExactly(disk, lookup.value, grant);
    }
  }

  lemma CoveredExactly(disk: Disk, target: TurnRecord, grant: LedgerEvent)
    ensures var executable := Executable(PlanOf(disk, target.files, grant.paths, grant.allowModified));
            forall p :: p in grant.paths ==> (p in EntryPaths(executable) <==> Covered(disk, target, grant, p))
  {
    var executable := Executable(PlanOf(disk, target.files, grant.paths, grant.allowModified));
    ExecutableExactly(disk, target.files, grant.paths, grant.allowModified);
    PathsOf(executable);
  }

  /** A grant of what a preview showed, claimed on the same disk: the claim is granted, whatever the mode and
      whether or not modified files were admitted, and it executes exactly what the preview showed. */
  lemma PreviewIsHonoured(ledger: seq<LedgerEvent>, disk: Disk, target: TurnRecord, paths: Option<seq<Path>>, mode: Mode,
                          allowModified: bool, event: EventKind, id: Id, token: Option<Hash>, lodged: nat, now: nat)
    requires var shown := PreviewPaths(disk, target, paths, mode, allowModified); shown.Ok? && shown.value != []
    ensures var shown := PreviewPaths(disk, target, paths, mode, allowModified).value;
            var grant := GrantRow(event, disk, id, target.id, shown, token, mode == Confirm && allowModified, lodged);
            var d := ClaimGrant(ledger, disk, Some(target), grant, now);
            && d.answer.Ok? && d.ledger == ledger && d.answer.value.grant == grant && d.answer.value.target == target
            && Elements(EntryPaths(Executable(d.answer.value.plans))) == Elements(shown)
  {
    var shown := PreviewPaths(disk, target, paths, mode, allowModified).value;
    var grant := GrantRow(event, disk, id, target.id, shown, token, mode == Confirm && allowModified, lodged);
    PreviewExactly(disk, target, paths, mode, allowModified);
    forall p | p in shown ensures Covered(disk, target, grant, p) {}
    ClaimExactly(ledger, disk, Some(target), grant, now);
    ClaimExactness(ledger, disk, Some(target), grant, now);
  }

  /** On a reachable ledger a successful claim is exact, every granted path still holds its lodged
      content, and nothing was appended. */
  lemma ClaimIsExact(ledger: seq<LedgerEvent>, disk: Disk, lookup: Option<TurnRecord>, grant: LedgerEvent, now: nat)
    requires LedgerOk(ledger, now) && grant in ledger && Reserving(grant.event)
    requires ClaimGrant(ledger, disk, lookup, grant, now).answer.Ok?
    ensures var d := ClaimGrant(ledger, disk, lookup, grant, now);
            && d.ledger == ledger
            && grant.paths != []
            && Elements(EntryPaths(Executable(d.answer.value.plans))) == Elements(grant.paths)
            && |grant.hashes| == |grant.paths|
            && forall i :: 0 <= i < |grant.paths| ==> StillHolds(grant, disk, i)
  {
    ClaimExactness(ledger, disk, lookup, grant, now);
  }

  /** Every drift refusal is a real divergence, and it releases the grant: nothing live conflicts
      with the same paths afterwards, so the fresh grant the caller is told to take can be lodged. */
  lemma StaleClaimReleases(ledger: seq<LedgerEvent>, disk: Disk, lookup: Option<TurnRecord>, grant: LedgerEvent, now: nat)
    requires LedgerOk(ledger, now) && grant in ledger && IsLive(ledger, grant, now)
    requires var d := ClaimGrant(ledger, disk, lookup, grant, now); d.answer.Err? && d.answer.error.PreviewStale?
    ensures var d := ClaimGrant(ledger, disk, lookup, grant, now);
            && d.answer.error.stale != []
            && grant.id in ReleasedIds(d.ledger)
            && LedgerOk(d.ledger, now)
            && !Conflicts(d.ledger, grant.paths, now)
  {
    var d := ClaimGrant(ledger, disk, lookup, grant, now);
    var row := StaleRow(grant, now);
    assert d.ledger == ledger + [row];
    assert row in d.ledger;
    AppendRowOk(ledger, row, now);
    forall e | e in d.ledger && IsLive(d.ledger, e, now)
      ensures !Overlap(e.paths, grant.paths)
    {
      LivenessShrinks(ledger, [row], e, now, now);
      var i :| 0 <= i < |ledger| && ledger[i] == e;
      var j :| 0 <= j < |ledger| && ledger[j] == grant;
      assert i != j;
      OverlapSymmetric(e.paths, grant.paths);
    }
  }

  lemma OverlapSymmetric(a: seq<Path>, b: seq<Path>)
    ensures Overlap(a, b) <==> Overlap(b, a)
  {}

  /** The token a spent reservation was issued for is dead for good: whatever the disk holds and
      whatever the clock says, presenting it answers `token_consumed` and appends nothing. */
  lemma SpentTokenStaysSpent(ledger: seq<LedgerEvent>, more: seq<LedgerEvent>, disk: Disk,
                             lookup: Option<TurnRecord>, token: Bytes, now: nat, later: nat)
    requires LedgerOk(ledger + more, later)
    requires var found := FindToken(ledger, Sha256(token));
             found.Some? && (HasRow(ledger, found.value.id, Consume) || found.value.id in ReleasedIds(ledger))
    ensures ClaimToken(ledger + more, disk, lookup, token, later) == Decision(ledger + more, Err(TokenConsumed))
  {
    var all := ledger + more;
    FoundToken(ledger, Sha256(token));
    FoundToken(all, Sha256(token));
    var g := FindToken(ledger, Sha256(token)).value;
    assert g in all;
    var h := FindToken(all, Sha256(token)).value;
    var i :| 0 <= i < |all| && all[i] == g;
    var j :| 0 <= j < |all| && all[j] == h;
    assert i == j;
    ReleasedGrows(ledger, more);
    if HasRow(ledger, g.id, Consume) {
      var e :| e in ledger && e.id == g.id && e.event == Consume;
      assert e in all;
    }
  }
}
