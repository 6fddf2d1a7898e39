/** The turn-boundary engine as functions on its state: one open turn, quiet and git windows, an
    out-of-band queue of closed turns, and the retroactive merge of bare fragments. */
module TurnEngineSpec {
  import opened Records

  const QUIET_MS: nat := 10_000
  const GIT_SETTLE_MS: nat := 2_000
  const MAX_BRACKET_MS: nat := 2 * 60 * 60 * 1000
  const FOLD_WINDOW_MS: nat := 15 * 60 * 1000

  /** Turn ids come from a generator of fresh values; the model's generator counts. */
  type TurnId = nat

  datatype ChangeObs = ChangeObs(
    path: Path,
    beforeHash: Option<Hash>,
    snapshotted: bool,
    withheld: bool,
    baselineUnknown: bool,
    deleted: bool,
    skipReason: Option<string>)

  datatype Source = Bracket | Git | Quiet

  datatype Boundary = BracketStop | StopOnly | GitSettle | QuietWindow | Timeout

  datatype OpenTurn = OpenTurn(
    source: Source,
    tool: Option<string>,
    prompt: Option<string>,
    session: Option<string>,
    openedAt: nat,
    files: seq<ChangeObs>,
    id: TurnId)

  datatype ClosedTurn = ClosedTurn(
    id: TurnId,
    rich: bool,
    boundary: Boundary,
    truncated: bool,
    tool: Option<string>,
    prompt: Option<string>,
    session: Option<string>,
    openedAt: nat,
    closedAt: nat,
    files: seq<ChangeObs>,
    merges: seq<TurnId>)

  datatype Engine = Engine(
    open: Option<OpenTurn>,
    lastChangeAt: Option<nat>,
    gitWindowUntil: nat,
    recentBare: seq<ClosedTurn>,
    lastRichClosedAt: nat,
    pending: seq<ClosedTurn>,
    nextId: TurnId)

  /** What an operation leaves behind and what it hands to its caller. */
  datatype Step = Step(engine: Engine, returned: seq<ClosedTurn>)

  function SaturatingSub(a: nat, b: nat): nat {
    if a <= b then 0 else a - b
  }

  function Max(a: nat, b: nat): nat {
    if a < b then b else a
  }

  // ---- the file list of a turn ---------------------------------------------

  /** The position of the first entry for `path`, or the length of the list. */
  function FindPath(files: seq<ChangeObs>, path: Path): (i: nat)
    ensures i <= |files|
    ensures i < |files| ==> files[i].path == path
    ensures forall j :: 0 <= j < i ==> files[j].path != path
  {
    if files == [] then 0
    else if files[0].path == path then 0
    else 1 + FindPath(files[1..], path)
  }

  predicate HasPath(files: seq<ChangeObs>, path: Path) {
    exists f :: f in files && f.path == path
  }

  /** One observation: the first fixes the original, later ones only the terminal state. */
  function Absorb(files: seq<ChangeObs>, change: ChangeObs): seq<ChangeObs> {
    var i := FindPath(files, change.path);
    if i == |files| then files + [change]
    else files[i := files[i].(deleted := change.deleted, snapshotted := change.snapshotted,
                              withheld := change.withheld)]
  }

  function AbsorbAll(files: seq<ChangeObs>, changes: seq<ChangeObs>): seq<ChangeObs>
    decreases |changes|
  {
    if changes == [] then files else AbsorbAll(Absorb(files, changes[0]), changes[1..])
  }

  // ---- closing and folding -------------------------------------------------

  function Finish(open: OpenTurn, now: nat, boundary: Boundary, rich: bool, truncated: bool): ClosedTurn {
    ClosedTurn(open.id, rich, boundary, truncated, open.tool, open.prompt, open.session,
               open.openedAt, Max(now, open.openedAt), open.files, [])
  }

  /** May `bare` be folded into `turn`?  Both of its ends lie in the fold window, no rich turn closed
      after it, and a bracket takes nothing that closed before its own start. */
  predicate Foldable(bare: ClosedTurn, turn: ClosedTurn, lastRichClosedAt: nat) {
    var cutoff := SaturatingSub(turn.closedAt, FOLD_WINDOW_MS);
    && bare.closedAt >= cutoff
    && bare.openedAt >= cutoff
    && bare.closedAt >= lastRichClosedAt
    && (turn.boundary == BracketStop ==> bare.closedAt >= turn.openedAt)
  }

  function Eligible(bares: seq<ClosedTurn>, turn: ClosedTurn, lastRichClosedAt: nat): (r: seq<ClosedTurn>)
    ensures forall b :: b in r ==> b in bares && Foldable(b, turn, lastRichClosedAt)
  {
    if bares == [] then []
    else (if Foldable(bares[0], turn, lastRichClosedAt) then [bares[0]] else [])
         + Eligible(bares[1..], turn, lastRichClosedAt)
  }

  /** Insertion after every fragment opened no later: the sort is stable. */
  function InsertByOpened(sorted: seq<ClosedTurn>, b: ClosedTurn): (r: seq<ClosedTurn>)
    ensures multiset(r) == multiset(sorted) + multiset{b}
  {
    if sorted == [] then [b]
    else
      var n := |sorted| - 1;
      assert sorted == sorted[..n] + [sorted[n]];
      if sorted[n].openedAt <= b.openedAt then sorted + [b]
      else InsertByOpened(sorted[..n], b) + [sorted[n]]
  }

  function SortByOpened(bares: seq<ClosedTurn>): (r: seq<ClosedTurn>)
    ensures multiset(r) == multiset(bares)
  {
    if bares == [] then []
    else
      var n := |bares| - 1;
      assert bares == bares[..n] + [bares[n]];
      InsertByOpened(SortByOpened(bares[..n]), bares[n])
  }

  /** A merge in progress: the rich turn's files, and the paths whose original a fragment fixed. */
  datatype Merge = Merge(files: seq<ChangeObs>, claimed: set<Path>)

  function FoldFile(m: Merge, file: ChangeObs): Merge {
    if file.path in m.claimed then m
    else
      var i := FindPath(m.files, file.path);
      Merge(if i == |m.files| then m.files + [file]
            else m.files[i := m.files[i].(beforeHash := file.beforeHash, baselineUnknown := file.baselineUnknown)],
            m.claimed + {file.path})
  }

  function FoldFiles(m: Merge, files: seq<ChangeObs>): Merge
    decreases |files|
  {
    if files == [] then m else FoldFiles(FoldFile(m, files[0]), files[1..])
  }

  function FoldFragments(m: Merge, fragments: seq<ClosedTurn>): Merge
    decreases |fragments|
  {
    if fragments == [] then m else FoldFragments(FoldFiles(m, fragments[0].files), fragments[1..])
  }

  function Ids(turns: seq<ClosedTurn>): (ids: seq<TurnId>)
    ensures |ids| == |turns|
    ensures forall i :: 0 <= i < |turns| ==> ids[i] == turns[i].id
  {
    seq(|turns|, i requires 0 <= i < |turns| => turns[i].id)
  }

  function EarliestOpened(at: nat, fragments: seq<ClosedTurn>): nat {
    if fragments == [] then at
    else EarliestOpened(if fragments[0].openedAt < at then fragments[0].openedAt else at, fragments[1..])
  }

  function MergeInto(turn: ClosedTurn, fragments: seq<ClosedTurn>): ClosedTurn {
    turn.(merges := turn.merges + Ids(fragments),
          openedAt := EarliestOpened(turn.openedAt, fragments),
          files := FoldFragments(Merge(turn.files, {}), fragments).files)
  }

  /** `fold_recent_bares`: merge the eligible fragments, oldest first. */
  function Fold(bares: seq<ClosedTurn>, turn: ClosedTurn, lastRichClosedAt: nat): ClosedTurn {
    MergeInto(turn, SortByOpened(Eligible(bares, turn, lastRichClosedAt)))
  }

  // ---- the operations --------------------------------------------------------

  function ObserveChanges(e: Engine, now: nat, changes: seq<ChangeObs>): Engine {
    if changes == [] then e
    else
      var begun :=
        if e.open.Some? then e
        else
          var git := e.gitWindowUntil > 0 && now <= e.gitWindowUntil;
          e.(open := Some(OpenTurn(if git then Git else Quiet, if git then Some("git") else None, None, None,
                                   now, [], e.nextId)),
             nextId := e.nextId + 1);
      var turn := begun.open.value;
      begun.(lastChangeAt := Some(now),
              open := Some(turn.(files := AbsorbAll(turn.files, changes))))
  }

  function ObserveGitChange(e: Engine, now: nat): Engine {
    var w := e.(gitWindowUntil := now + GIT_SETTLE_MS);
    if e.open.None? || e.open.value.source != Quiet then w
    else
      var open := e.open.value;
      if SaturatingSub(now, open.openedAt) <= GIT_SETTLE_MS + QUIET_MS then
        w.(open := Some(open.(source := Git, tool := Some("git"))))
      else
        var at := if e.lastChangeAt.Some? then e.lastChangeAt.value else open.openedAt;
        var turn := Finish(open, at, QuietWindow, false, false);
        w.(open := None, lastChangeAt := None, recentBare := e.recentBare + [turn], pending := e.pending + [turn])
  }

  /** Closing whatever is open on its own terms. */
  function CloseOnItsTerms(open: OpenTurn, now: nat): ClosedTurn {
    match open.source
    case Quiet => Finish(open, now, QuietWindow, false, false)
    case Git => Finish(open, now, GitSettle, true, false)
    case Bracket => Finish(open, now, Timeout, true, true)
  }

  function ObserveStart(e: Engine, now: nat, tool: string, prompt: Option<string>, session: Option<string>): Step {
    Step(e.(open := Some(OpenTurn(Bracket, Some(tool), prompt, session, now, [], e.nextId)),
            lastChangeAt := if e.open.Some? then None else e.lastChangeAt,
            nextId := e.nextId + 1),
         if e.open.Some? then [CloseOnItsTerms(e.open.value, now)] else [])
  }

  /** A rich turn is complete at `now`: fold what may be folded, and forget every fragment. */
  function FoldAndReturn(e: Engine, now: nat, before: seq<ClosedTurn>, turn: ClosedTurn): Step {
    Step(e.(recentBare := [], lastRichClosedAt := now),
         before + [Fold(e.recentBare, turn, e.lastRichClosedAt)])
  }

  predicate StopsBracket(open: Option<OpenTurn>, tool: string) {
    open.Some? && open.value.source == Bracket && open.value.tool == Some(tool)
  }

  predicate StopConverts(open: Option<OpenTurn>, now: nat) {
    open.Some? && open.value.source == Quiet && SaturatingSub(now, open.value.openedAt) <= FOLD_WINDOW_MS
  }

  /** The rich turn a stop closes the open turn as: the bracket it ends, or the quiet turn it claims. */
  function StoppedTurn(open: OpenTurn, now: nat, tool: string, prompt: Option<string>, session: Option<string>)
    : ClosedTurn
  {
    if open.source == Bracket then
      Finish(open, now, BracketStop, true, false)
        .(prompt := if open.prompt.None? then prompt else open.prompt,
          session := if open.session.None? then session else open.session)
    else
      Finish(open, now, StopOnly, true, false).(tool := Some(tool), prompt := prompt, session := session)
  }

  function EmptyRich(id: TurnId, now: nat, tool: string, prompt: Option<string>, session: Option<string>): ClosedTurn {
    ClosedTurn(id, true, StopOnly, false, Some(tool), prompt, session, now, now, [], [])
  }

  function ObserveStop(e: Engine, now: nat, tool: string, prompt: Option<string>, session: Option<string>): Step {
    if StopsBracket(e.open, tool) || StopConverts(e.open, now) then
      FoldAndReturn(e.(open := None, lastChangeAt := None), now, [],
                    StoppedTurn(e.open.value, now, tool, prompt, session))
    else
      var rest := e.(open := None, lastChangeAt := if e.open.Some? then None else e.lastChangeAt,
                     nextId := e.nextId + 1);
      FoldAndReturn(rest, now, if e.open.Some? then [CloseOnItsTerms(e.open.value, now)] else [],
                    EmptyRich(e.nextId, now, tool, prompt, session))
  }

  function Retain(bares: seq<ClosedTurn>, now: nat): (r: seq<ClosedTurn>)
    ensures forall b :: b in r ==> b in bares
  {
    if bares == [] then []
    else (if SaturatingSub(now, bares[0].closedAt) <= FOLD_WINDOW_MS then [bares[0]] else []) + Retain(bares[1..], now)
  }

  function Tick(e: Engine, now: nat): Step {
    var kept := e.(recentBare := Retain(e.recentBare, now), pending := []);
    if e.open.None? then Step(kept, e.pending)
    else
      var open := e.open.value;
      var lastChange := if e.lastChangeAt.Some? then e.lastChangeAt.value else open.openedAt;
      var closes :=
        match open.source
        case Quiet => SaturatingSub(now, lastChange) > QUIET_MS
        case Git => SaturatingSub(now, lastChange) > GIT_SETTLE_MS
        case Bracket => SaturatingSub(now, open.openedAt) > MAX_BRACKET_MS;
      if !closes then Step(kept, e.pending)
      else
        var turn := CloseOnItsTerms(open, if open.source == Bracket then lastChange else now);
        Step(kept.(open := None, lastChangeAt := None,
                   recentBare := if open.source == Quiet then kept.recentBare + [turn] else kept.recentBare),
             e.pending + [turn])
  }

  function ForceClose(e: Engine, now: nat): Step {
    if e.open.None? then Step(e, [])
    else Step(e.(open := None, lastChangeAt := None), [CloseOnItsTerms(e.open.value, now)])
  }
}
