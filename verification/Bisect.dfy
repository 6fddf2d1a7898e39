/** Probe states: subtracting the turns after a point from the current tree, and what that reconstructs. */
module Bisect {
  import opened Records
  import opened Orders
  import opened RelativePaths

  datatype FileAction = Write(bytes: Bytes) | Remove

  datatype Reason =
    | SkippedEntry | WithheldEntry | MissingBefore | DanglingBlob | SynthesizedAfter | NonRegularEntry
    | UnsafePath | FlakyDisagreement

  datatype Unanswerable = Unanswerable(turnId: Id, path: Option<Path>, reason: Reason)

  type ProbeState = map<Path, FileAction>

  // ---- the searched sequence -----------------------------------------------------------

  predicate SupersededIn(turns: seq<TurnRecord>, id: Id) {
    exists t :: t in turns && id in t.merges
  }

  /** Does bisect search this turn?  Not when it was merged away, never when it was imported, and only
      on demand when it is bare. */
  predicate Searched(turns: seq<TurnRecord>, t: TurnRecord, includeBare: bool) {
    && !SupersededIn(turns, t.id)
    && t.imported != Some(true)
    && (t.grade == Rich || (includeBare && t.grade == Bare))
  }

  function IfSearched(turns: seq<TurnRecord>, t: TurnRecord, includeBare: bool): seq<TurnRecord> {
    if Searched(turns, t, includeBare) then [t] else []
  }

  function Filtered(turns: seq<TurnRecord>, from: seq<TurnRecord>, includeBare: bool): seq<TurnRecord> {
    if from == [] then [] else IfSearched(turns, from[0], includeBare) + Filtered(turns, from[1..], includeBare)
  }

  /** The searched turns, in ledger order. */
  function Sequence(turns: seq<TurnRecord>, includeBare: bool): seq<TurnRecord> {
    Filtered(turns, turns, includeBare)
  }

  lemma {:induction false} FilteredAppend(turns: seq<TurnRecord>, a: seq<TurnRecord>, b: seq<TurnRecord>, includeBare: bool)
    ensures Filtered(turns, a + b, includeBare) == Filtered(turns, a, includeBare) + Filtered(turns, b, includeBare)
  {
    if a == [] {
      assert a + b == b;
    } else {
      FilteredAppend(turns, a[1..], b, includeBare);
      assert (a + b)[1..] == a[1..] + b && (a + b)[0] == a[0];
    }
  }

  /** The positions of the searched turns among the first `n`, in order. */
  function SearchedPositions(turns: seq<TurnRecord>, n: nat, includeBare: bool): (r: seq<nat>)
    requires n <= |turns|
    ensures forall x :: 0 <= x < |r| ==> r[x] < n && Searched(turns, turns[r[x]], includeBare)
    ensures forall x, y :: 0 <= x < y < |r| ==> r[x] < r[y]
    ensures forall i :: 0 <= i < n && Searched(turns, turns[i], includeBare) ==> i in r
  {
    if n == 0 then []
    else SearchedPositions(turns, n - 1, includeBare) + if Searched(turns, turns[n - 1], includeBare) then [n - 1] else []
  }

  lemma {:induction false} FilteredAt(turns: seq<TurnRecord>, n: nat, includeBare: bool)
    requires n <= |turns|
    ensures var at := SearchedPositions(turns, n, includeBare);
            var found := Filtered(turns, turns[..n], includeBare);
            |found| == |at| && forall x :: 0 <= x < |at| ==> found[x] == turns[at[x]]
  {
    if n > 0 {
      FilteredAt(turns, n - 1, includeBare);
      FilteredNext(turns, n - 1, includeBare);
    }
  }

  lemma FilteredNext(turns: seq<TurnRecord>, n: nat, includeBare: bool)
    requires n < |turns|
    ensures Filtered(turns, turns[..n + 1], includeBare)
         == Filtered(turns, turns[..n], includeBare) + IfSearched(turns, turns[n], includeBare)
  {
    var one := [turns[n]];
    assert turns[..n + 1] == turns[..n] + one;
    FilteredAppend(turns, turns[..n], one, includeBare);
    assert one[1..] == [] && Filtered(turns, one[1..], includeBare) == [];
    assert IfSearched(turns, turns[n], includeBare) + [] == IfSearched(turns, turns[n], includeBare);
  }

  /** No turn merged this one away, it was not imported, and it is rich, or bare where bare turns were asked for. */
  ghost predicate Eligible(turns: seq<TurnRecord>, i: nat, includeBare: bool)
    requires i < |turns|
  {
    && (forall j :: 0 <= j < |turns| ==> turns[i].id !in turns[j].merges)
    && turns[i].imported != Some(true)
    && (turns[i].grade.Rich? || (turns[i].grade.Bare? && includeBare))
  }

  lemma EligibleIsSearched(turns: seq<TurnRecord>, i: nat, includeBare: bool)
    requires i < |turns|
    ensures Searched(turns, turns[i], includeBare) <==> Eligible(turns, i, includeBare)
  {
    if SupersededIn(turns, turns[i].id) {
      var t :| t in turns && turns[i].id in t.merges;
      var j :| 0 <= j < |turns| && turns[j] == t;
    } else {
      forall j | 0 <= j < |turns| ensures turns[i].id !in turns[j].merges {
        assert turns[j] in turns;
      }
    }
  }

  /** `found` is `turns` at exactly the eligible positions, which increase. */
  ghost predicate PicksSearched(turns: seq<TurnRecord>, includeBare: bool, at: seq<nat>, found: seq<TurnRecord>) {
    && |at| == |found|
    && (forall x :: 0 <= x < |at| ==> at[x] < |turns| && found[x] == turns[at[x]])
    && (forall x, y :: 0 <= x < y < |at| ==> at[x] < at[y])
    && (forall i :: 0 <= i < |turns| ==> (i in at <==> Eligible(turns, i, includeBare)))
  }

  /** The searched sequence is the ledger without the turns that were merged, imported or (unasked) bare:
      every other position once and in ledger order, repeated records included. */
  lemma SequenceKeepsOrder(turns: seq<TurnRecord>, includeBare: bool)
    ensures exists at: seq<nat> :: PicksSearched(turns, includeBare, at, Sequence(turns, includeBare))
  {
    FilteredAt(turns, |turns|, includeBare);
    assert turns[..|turns|] == turns;
    forall i | 0 <= i < |turns|
      ensures i in SearchedPositions(turns, |turns|, includeBare) <==> Eligible(turns, i, includeBare)
    {
      EligibleIsSearched(turns, i, includeBare);
    }
    assert PicksSearched(turns, includeBare, SearchedPositions(turns, |turns|, includeBare), Sequence(turns, includeBare));
  }

  /** Where the subtracted turns begin: after the probe point, or everywhere for the baseline. */
  function Start(turns: seq<TurnRecord>, after: Option<nat>): nat {
    var start := if after.None? then 0 else after.value + 1;
    if start >= |turns| then |turns| else start
  }

  function Subtracted(turns: seq<TurnRecord>, after: Option<nat>): seq<TurnRecord> {
    turns[Start(turns, after)..]
  }

  // ---- one entry -----------------------------------------------------------------------

  /** What one entry contributes, or why it blocks the probe; the checks in their order. */
  function ActionFor(entry: FileEntry, objects: Objects): Result<FileAction, Reason> {
    if !SafeRelative(entry.path) then Err(UnsafePath)
    else if entry.linkKind.Some? then Err(NonRegularEntry)
    else if entry.afterSynthesized == Some(true) then Err(SynthesizedAfter)
    else if entry.skipped then Err(SkippedEntry)
    else if entry.withheld then Err(WithheldEntry)
    else if entry.op == Create then Ok(Remove)
    else if entry.before.None? then Err(MissingBefore)
    else match Get(objects, entry.before.value)
      case Blob(bytes) => Ok(Write(bytes))
      case _ => Err(DanglingBlob)
  }

  /** Undoing `e` is known to be `action`: nothing bars the entry, and it either created its file or its prior
      content is intact in the store. */
  predicate Undoes(objects: Objects, e: FileEntry, action: FileAction) {
    && SafeRelative(e.path) && e.linkKind.None? && e.afterSynthesized != Some(true) && !e.skipped && !e.withheld
    && match action
       case Remove => e.op == Create
       case Write(bytes) => e.op != Create && e.before.Some? && e.before.value in objects
                            && objects[e.before.value] == bytes == e.before.value.content
  }

  ghost predicate CanUndo(objects: Objects, e: FileEntry) {
    exists action :: Undoes(objects, e, action)
  }

  /** The reason is true of the entry. */
  predicate Applies(objects: Objects, e: FileEntry, reason: Reason) {
    match reason
    case UnsafePath => !SafeRelative(e.path)
    case NonRegularEntry => e.linkKind.Some?
    case SynthesizedAfter => e.afterSynthesized == Some(true)
    case SkippedEntry => e.skipped
    case WithheldEntry => e.withheld
    case MissingBefore => e.op != Create && e.before.None?
    case DanglingBlob => e.op != Create && e.before.Some?
                         && (e.before.value in objects ==> objects[e.before.value] != e.before.value.content)
    case FlakyDisagreement => false
  }

  /** The reasons by precedence. */
  function Precedence(reason: Reason): nat {
    match reason
    case UnsafePath => 0
    case NonRegularEntry => 1
    case SynthesizedAfter => 2
    case SkippedEntry => 3
    case WithheldEntry => 4
    case MissingBefore => 5
    case DanglingBlob => 6
    case FlakyDisagreement => 7
  }

  ghost predicate FirstToApply(objects: Objects, e: FileEntry, reason: Reason) {
    Applies(objects, e, reason) && forall other :: Applies(objects, e, other) ==> Precedence(reason) <= Precedence(other)
  }

  /** An entry contributes exactly what undoing it does; otherwise the reason given is true, and of all true
      reasons the one with precedence. */
  lemma ActionExactly(objects: Objects, e: FileEntry, action: FileAction, reason: Reason)
    ensures ActionFor(e, objects) == Ok(action) <==> Undoes(objects, e, action)
    ensures ActionFor(e, objects) == Err(reason) <==> FirstToApply(objects, e, reason)
  {
    var r := ActionFor(e, objects);
    if r.Err? {
      assert FirstToApply(objects, e, r.error);
      if FirstToApply(objects, e, reason) {
        assert Precedence(reason) == Precedence(r.error);
      }
    }
  }

  // ---- what a probe state should be ------------------------------------------------------

  /** A reading of entries; the walk does not depend on what it says. */
  type Acting = FileEntry -> Result<FileAction, Reason>

  function Actions(objects: Objects): Acting {
    e => ActionFor(e, objects)
  }

  /** The action of the last entry for `path` in one turn, if it names the path. */
  function TurnAction(files: seq<FileEntry>, path: Path, act: Acting): Option<Result<FileAction, Reason>> {
    if files == [] then None
    else
      var n := |files| - 1;
      if files[n].path == path then Some(act(files[n])) else TurnAction(files[..n], path, act)
  }

  /** Reading forwards: the first turn that names `path` decides. */
  function EarliestAction(turns: seq<TurnRecord>, path: Path, act: Acting): Option<Result<FileAction, Reason>> {
    if turns == [] then None
    else
      var first := TurnAction(turns[0].files, path, act);
      if first.Some? then first else EarliestAction(turns[1..], path, act)
  }

  predicate Touches(t: TurnRecord, path: Path) {
    exists e :: e in t.files && e.path == path
  }

  predicate AllAnswer(files: seq<FileEntry>, act: Acting) {
    forall e :: e in files ==> act(e).Ok?
  }

  predicate Answerable(turns: seq<TurnRecord>, act: Acting) {
    forall t :: t in turns ==> AllAnswer(t.files, act)
  }

  /** The obstruction that one entry raises, if any. */
  function Obstruction(t: TurnRecord, e: FileEntry, act: Acting): seq<Unanswerable> {
    var action := act(e);
    if action.Err? then [Unanswerable(t.id, Some(e.path), action.error)] else []
  }

  function BlockedIn(t: TurnRecord, files: seq<FileEntry>, act: Acting): seq<Unanswerable> {
    if files == [] then [] else Obstruction(t, files[0], act) + BlockedIn(t, files[1..], act)
  }

  /** Every reason that blocks the probe: latest turn first, and in file order within a turn. */
  function Blocked(turns: seq<TurnRecord>, act: Acting): seq<Unanswerable> {
    if turns == [] then [] else Blocked(turns[1..], act) + BlockedIn(turns[0], turns[0].files, act)
  }

  /** `e`, the `y`-th entry of the `x`-th turn, blocks the probe, and `u` says so. */
  ghost predicate Explains(turns: seq<TurnRecord>, act: Acting, x: nat, y: nat, u: Unanswerable) {
    && x < |turns| && y < |turns[x].files|
    && act(turns[x].files[y]).Err?
    && u == Unanswerable(turns[x].id, Some(turns[x].files[y].path), act(turns[x].files[y]).error)
  }

  /** The order of a report: later turns first, and within a turn in file order. */
  predicate ReportedBefore(a: (nat, nat), b: (nat, nat)) {
    a.0 > b.0 || (a.0 == b.0 && a.1 < b.1)
  }

  ghost predicate InReportOrder(at: seq<(nat, nat)>) {
    forall j, k :: 0 <= j < k < |at| ==> ReportedBefore(at[j], at[k])
  }

  /** `at` are, in the order of a report, the places of exactly the blocking entries that `us` explains. */
  ghost predicate Reports(turns: seq<TurnRecord>, act: Acting, at: seq<(nat, nat)>, us: seq<Unanswerable>) {
    && |at| == |us|
    && (forall k :: 0 <= k < |at| ==> Explains(turns, act, at[k].0, at[k].1, us[k]))
    && InReportOrder(at)
    && (forall x: nat, y: nat :: x < |turns| && y < |turns[x].files| && act(turns[x].files[y]).Err? ==> (x, y) in at)
  }

  /** The state maps exactly the touched paths, each to what its earliest subtracted turn did to it. */
  ghost predicate IsProbe(turns: seq<TurnRecord>, act: Acting, state: ProbeState) {
    forall p ::
      && (p in state <==> EarliestAction(turns, p, act).Some?)
      && (p in state ==> EarliestAction(turns, p, act) == Some(Ok(state[p])))
  }

  lemma {:induction false} TurnActionSome(files: seq<FileEntry>, path: Path, act: Acting)
    ensures TurnAction(files, path, act).Some? <==> exists e :: e in files && e.path == path
    ensures TurnAction(files, path, act).Some? ==>
              exists e :: e in files && e.path == path && TurnAction(files, path, act) == Some(act(e))
  {
    if files != [] {
      var n := |files| - 1;
      TurnActionSome(files[..n], path, act);
      assert files == files[..n] + [files[n]];
    }
  }

  lemma SomeTouches(turns: seq<TurnRecord>, path: Path)
    requires turns != []
    ensures (exists t :: t in turns && Touches(t, path)) <==>
              Touches(turns[0], path) || exists t :: t in turns[1..] && Touches(t, path)
  {
    assert turns == [turns[0]] + turns[1..];
  }

  lemma {:induction false} EarliestIsTouching(turns: seq<TurnRecord>, path: Path, act: Acting)
    ensures EarliestAction(turns, path, act).Some? <==> exists t :: t in turns && Touches(t, path)
    ensures EarliestAction(turns, path, act).Some? && Answerable(turns, act) ==>
              EarliestAction(turns, path, act).value.Ok?
  {
    if turns != [] {
      TurnActionSome(turns[0].files, path, act);
      EarliestIsTouching(turns[1..], path, act);
      SomeTouches(turns, path);
    }
  }

  lemma {:induction false} BlockedInEmpty(t: TurnRecord, files: seq<FileEntry>, act: Acting)
    ensures BlockedIn(t, files, act) == [] <==> AllAnswer(files, act)
  {
    if files != [] {
      BlockedInEmpty(t, files[1..], act);
      assert files == [files[0]] + files[1..];
    }
  }

  /** A probe is answerable exactly when nothing blocks it. */
  lemma {:induction false} NothingBlocks(turns: seq<TurnRecord>, act: Acting)
    ensures Blocked(turns, act) == [] <==> Answerable(turns, act)
  {
    if turns != [] {
      NothingBlocks(turns[1..], act);
      BlockedInEmpty(turns[0], turns[0].files, act);
      assert turns == [turns[0]] + turns[1..];
    }
  }

  /** A probe is answerable exactly when every entry after its point can be undone: none is synthesized,
      skipped, withheld, a link or unsafe, and each has its prior content or created its file. */
  lemma AnswerableExactly(objects: Objects, turns: seq<TurnRecord>)
    ensures Answerable(turns, Actions(objects)) <==> forall t, e :: t in turns && e in t.files ==> CanUndo(objects, e)
  {
    forall e: FileEntry ensures Actions(objects)(e).Ok? <==> CanUndo(objects, e) {
      CanUndoExactly(objects, e);
    }
    if Answerable(turns, Actions(objects)) {
      forall t, e | t in turns && e in t.files ensures CanUndo(objects, e) {
        assert AllAnswer(t.files, Actions(objects));
      }
    }
  }

  lemma CanUndoExactly(objects: Objects, e: FileEntry)
    ensures ActionFor(e, objects).Ok? <==> CanUndo(objects, e)
  {
    var r := ActionFor(e, objects);
    if r.Ok? {
      ActionExactly(objects, e, r.value, UnsafePath);
    } else if action :| Undoes(objects, e, action) {
      ActionExactly(objects, e, action, UnsafePath);
    }
  }

  // ---- the walk -------------------------------------------------------------------------

  /** What `t`'s first entries, read last to first, and then the later turns say about `path`. */
  function ActionAmong(files: seq<FileEntry>, later: seq<TurnRecord>, path: Path, act: Acting)
    : Option<Result<FileAction, Reason>>
  {
    var own := TurnAction(files, path, act);
    if own.Some? then own else EarliestAction(later, path, act)
  }

  /** The state of the walk when it has visited the later turns and `files` of the next one. */
  ghost predicate Visited(files: seq<FileEntry>, later: seq<TurnRecord>, act: Acting, state: ProbeState) {
    forall p ::
      && (p in state <==> ActionAmong(files, later, p, act).Some?)
      && (p in state ==> ActionAmong(files, later, p, act) == Some(Ok(state[p])))
  }

  lemma VisitOne(files: seq<FileEntry>, e: FileEntry, later: seq<TurnRecord>, act: Acting, state: ProbeState)
    requires Visited(files, later, act, state) && act(e).Ok?
    ensures Visited(files + [e], later, act, state[e.path := act(e).value])
  {
    assert (files + [e])[..|files|] == files;
  }

  lemma VisitedTurn(t: TurnRecord, later: seq<TurnRecord>, act: Acting, state: ProbeState)
    requires Visited(t.files, later, act, state)
    ensures IsProbe([t] + later, act, state)
  {
    assert ([t] + later)[1..] == later;
    forall p ensures EarliestAction([t] + later, p, act) == ActionAmong(t.files, later, p, act) {}
  }

  lemma {:induction false} BlockedInAppend(t: TurnRecord, a: seq<FileEntry>, e: FileEntry, act: Acting)
    ensures BlockedIn(t, a + [e], act) == BlockedIn(t, a, act) + Obstruction(t, e, act)
  {
    if a == [] {
      assert a + [e] == [e] && [e][1..] == [];
      assert Obstruction(t, e, act) + [] == [] + Obstruction(t, e, act);
    } else {
      assert (a + [e])[1..] == a[1..] + [e] && (a + [e])[0] == a[0];
      BlockedInAppend(t, a[1..], e, act);
    }
  }

  /** The state and the obstructions of a walk over `later`. */
  ghost predicate Walked(later: seq<TurnRecord>, act: Acting, state: ProbeState, blocked: seq<Unanswerable>) {
    blocked == Blocked(later, act) && (blocked == [] ==> IsProbe(later, act, state))
  }

  /** One turn of the walk: overwrite what later turns said, and collect what blocks. */
  method VisitTurn(t: TurnRecord, ghost later: seq<TurnRecord>, act: Acting, state: ProbeState, blocked: seq<Unanswerable>)
    returns (files: ProbeState, obstructions: seq<Unanswerable>)
    requires Walked(later, act, state, blocked)
    ensures Walked([t] + later, act, files, obstructions)
  {
    files, obstructions := state, blocked;
    for j := 0 to |t.files|
      invariant obstructions == blocked + BlockedIn(t, t.files[..j], act)
      invariant obstructions == [] ==> Visited(t.files[..j], later, act, files)
    {
      var entry := t.files[j];
      assert t.files[..j + 1] == t.files[..j] + [entry];
      BlockedInAppend(t, t.files[..j], entry, act);
      match act(entry) {
        case Ok(action) =>
          if obstructions == [] {
            VisitOne(t.files[..j], entry, later, act, files);
          }
          files := files[entry.path := action];
        case Err(reason) =>
          obstructions := obstructions + [Unanswerable(t.id, Some(entry.path), reason)];
      }
    }
    assert t.files[..|t.files|] == t.files;
    BlockedWithFirst(t, later, act);
    if obstructions == [] {
      VisitedTurn(t, later, act, files);
    }
  }

  /** `ys` are, in order, the blocking entries of `files`, and `us` explains them. */
  ghost predicate ReportsFiles(t: TurnRecord, files: seq<FileEntry>, act: Acting, ys: seq<nat>, us: seq<Unanswerable>) {
    && |ys| == |us|
    && (forall k :: 0 <= k < |ys| ==> ys[k] < |files| && act(files[ys[k]]).Err?)
    && (forall k :: 0 <= k < |ys| ==> us[k] == Unanswerable(t.id, Some(files[ys[k]].path), act(files[ys[k]]).error))
    && (forall j, k :: 0 <= j < k < |ys| ==> ys[j] < ys[k])
    && (forall y :: 0 <= y < |files| && act(files[y]).Err? ==> y in ys)
  }

  lemma {:induction false} BlockedInReports(t: TurnRecord, files: seq<FileEntry>, act: Acting) returns (ys: seq<nat>)
    ensures ReportsFiles(t, files, act, ys, BlockedIn(t, files, act))
    decreases |files|
  {
    if files == [] {
      ys := [];
    } else {
      var n := |files| - 1;
      ys := BlockedInReports(t, files[..n], act);
      assert files == files[..n] + [files[n]];
      BlockedInAppend(t, files[..n], files[n], act);
      ReportsNextFile(t, files[..n], files[n], act, ys, BlockedIn(t, files[..n], act));
      if act(files[n]).Err? {
        ys := ys + [n];
      }
    }
  }

  lemma ReportsNextFile(t: TurnRecord, files: seq<FileEntry>, e: FileEntry, act: Acting, ys: seq<nat>, us: seq<Unanswerable>)
    requires ReportsFiles(t, files, act, ys, us)
    ensures act(e).Err? ==> ReportsFiles(t, files + [e], act, ys + [|files|], us + Obstruction(t, e, act))
    ensures act(e).Ok? ==> ReportsFiles(t, files + [e], act, ys, us + Obstruction(t, e, act))
  {
    var all := files + [e];
    var more := if act(e).Err? then ys + [|files|] else ys;
    forall y | 0 <= y < |all| && act(all[y]).Err? ensures y in more {
      if y < |files| {
        assert all[y] == files[y] && y in ys;
      } else {
        assert more[|ys|] == y;
      }
    }
  }

  /** The places of a report one turn further on, and then those of the new first turn. */
  function Places(later: seq<(nat, nat)>, ys: seq<nat>): (at: seq<(nat, nat)>)
    ensures |at| == |later| + |ys|
    ensures forall k :: 0 <= k < |later| ==> at[k] == (later[k].0 + 1, later[k].1)
    ensures forall k :: 0 <= k < |ys| ==> at[|later| + k] == (0, ys[k])
  {
    seq(|later|, k requires 0 <= k < |later| => (later[k].0 + 1, later[k].1))
      + seq(|ys|, k requires 0 <= k < |ys| => (0, ys[k]))
  }

  lemma PlacesComplete(t: TurnRecord, later: seq<TurnRecord>, act: Acting, at: seq<(nat, nat)>, us: seq<Unanswerable>,
                       ys: seq<nat>, vs: seq<Unanswerable>, x: nat, y: nat)
    requires Reports(later, act, at, us) && ReportsFiles(t, t.files, act, ys, vs)
    requires x <= |later| && y < |([t] + later)[x].files| && act(([t] + later)[x].files[y]).Err?
    ensures (x, y) in Places(at, ys)
  {
    if x == 0 {
      var k :| 0 <= k < |ys| && ys[k] == y;
      assert Places(at, ys)[|at| + k] == (x, y);
    } else {
      assert later[x - 1].files[y] == ([t] + later)[x].files[y];
      assert (x - 1, y) in at;
      var k :| 0 <= k < |at| && at[k] == (x - 1, y);
      assert Places(at, ys)[k] == (x, y);
    }
  }

  lemma PlacesOrdered(at: seq<(nat, nat)>, ys: seq<nat>)
    requires InReportOrder(at) && forall j, k :: 0 <= j < k < |ys| ==> ys[j] < ys[k]
    ensures InReportOrder(Places(at, ys))
  {
    var all := Places(at, ys);
    forall j, k | 0 <= j < k < |all| ensures ReportedBefore(all[j], all[k]) {
      if k < |at| {
        assert ReportedBefore(at[j], at[k]);
      } else if j >= |at| {
        assert ys[j - |at|] < ys[k - |at|];
        assert all[j] == Places(at, ys)[|at| + (j - |at|)];
      }
      assert k >= |at| ==> all[k] == Places(at, ys)[|at| + (k - |at|)];
    }
  }

  lemma PlacesExplain(t: TurnRecord, later: seq<TurnRecord>, act: Acting, at: seq<(nat, nat)>, us: seq<Unanswerable>,
                      ys: seq<nat>, vs: seq<Unanswerable>, k: nat)
    requires |at| == |us| && ReportsFiles(t, t.files, act, ys, vs) && k < |at| + |ys|
    requires k < |at| ==> Explains(later, act, at[k].0, at[k].1, us[k])
    ensures Explains([t] + later, act, Places(at, ys)[k].0, Places(at, ys)[k].1, (us + vs)[k])
  {
    if k < |at| {
      assert ([t] + later)[at[k].0 + 1] == later[at[k].0];
    } else {
      assert Places(at, ys)[|at| + (k - |at|)] == (0, ys[k - |at|]);
      assert (us + vs)[k] == vs[k - |at|];
    }
  }

  lemma ReportsFirst(t: TurnRecord, later: seq<TurnRecord>, act: Acting, at: seq<(nat, nat)>, us: seq<Unanswerable>,
                     ys: seq<nat>, vs: seq<Unanswerable>)
    requires Reports(later, act, at, us) && ReportsFiles(t, t.files, act, ys, vs)
    ensures Reports([t] + later, act, Places(at, ys), us + vs)
  {
    var all := Places(at, ys);
    PlacesOrdered(at, ys);
    forall k | 0 <= k < |all| ensures Explains([t] + later, act, all[k].0, all[k].1, (us + vs)[k]) {
      PlacesExplain(t, later, act, at, us, ys, vs, k);
    }
    forall x: nat, y: nat | x < |[t] + later| && y < |([t] + later)[x].files| && act(([t] + later)[x].files[y]).Err?
      ensures (x, y) in all
    {
      PlacesComplete(t, later, act, at, us, ys, vs, x, y);
    }
  }

  /** A report names every blocking entry after the probe point and nothing else, each with its turn, its path
      and its reason: later turns first, and in file order within a turn. */
  lemma {:induction false} BlockedExactly(turns: seq<TurnRecord>, act: Acting) returns (at: seq<(nat, nat)>)
    ensures Reports(turns, act, at, Blocked(turns, act))
  {
    if turns == [] {
      at := [];
    } else {
      var later := BlockedExactly(turns[1..], act);
      var ys := BlockedInReports(turns[0], turns[0].files, act);
      assert turns == [turns[0]] + turns[1..];
      ReportsFirst(turns[0], turns[1..], act, later, Blocked(turns[1..], act), ys, BlockedIn(turns[0], turns[0].files, act));
      at := Places(later, ys);
    }
  }

  lemma BlockedWithFirst(t: TurnRecord, later: seq<TurnRecord>, act: Acting)
    ensures Blocked([t] + later, act) == Blocked(later, act) + BlockedIn(t, t.files, act)
  {
    assert ([t] + later)[1..] == later;
  }

  /** The walk, latest turn first: each visit overwrites, so the earliest one survives. */
  method WalkBack(span: seq<TurnRecord>, act: Acting) returns (state: ProbeState, blocked: seq<Unanswerable>)
    ensures Walked(span, act, state, blocked)
  {
    state, blocked := map[], [];
    var k := |span|;
    ghost var later: seq<TurnRecord> := [];
    while k > 0
      invariant 0 <= k <= |span| && later == span[k..]
      invariant Walked(later, act, state, blocked)
    {
      k := k - 1;
      state, blocked := VisitTurn(span[k], later, act, state, blocked);
      later := [span[k]] + later;
    }
  }

  /** `probe_state`. */
  method ComputeProbe(turns: seq<TurnRecord>, after: Option<nat>, objects: Objects)
    returns (r: Result<ProbeState, seq<Unanswerable>>)
    ensures r.Ok? <==> Answerable(Subtracted(turns, after), Actions(objects))
    ensures r.Ok? ==> IsProbe(Subtracted(turns, after), Actions(objects), r.value)
    ensures r.Err? ==> r.error == Blocked(Subtracted(turns, after), Actions(objects))
  {
    var state, blocked := WalkBack(Subtracted(turns, after), Actions(objects));
    NothingBlocks(Subtracted(turns, after), Actions(objects));
    r := if blocked == [] then Ok(state) else Err(blocked);
  }

  // ---- composition ----------------------------------------------------------------------

  lemma {:induction false} EarliestOfBoth(a: seq<TurnRecord>, b: seq<TurnRecord>, path: Path, act: Acting)
    ensures EarliestAction(a + b, path, act)
         == if EarliestAction(a, path, act).Some? then EarliestAction(a, path, act)
            else EarliestAction(b, path, act)
  {
    if a == [] {
      assert a + b == b;
    } else {
      assert (a + b)[1..] == a[1..] + b;
      EarliestOfBoth(a[1..], b, path, act);
    }
  }

  lemma {:induction false} BlockedOfBoth(a: seq<TurnRecord>, b: seq<TurnRecord>, act: Acting)
    ensures Blocked(a + b, act) == Blocked(b, act) + Blocked(a, act)
  {
    if a == [] {
      assert a + b == b;
      assert Blocked(b, act) + [] == Blocked(b, act);
    } else {
      assert (a + b)[1..] == a[1..] + b;
      BlockedOfBoth(a[1..], b, act);
    }
  }

  lemma SubtractedSplits(turns: seq<TurnRecord>, i: Option<nat>, j: nat)
    requires j < |turns| && (i.Some? ==> i.value <= j)
    ensures Subtracted(turns, i) == Subtracted(turns[..j + 1], i) + Subtracted(turns, Some(j))
  {
    var s := if i.None? then 0 else i.value + 1;
    assert Start(turns, i) == s && Start(turns[..j + 1], i) == s && Start(turns, Some(j)) == j + 1;
    assert turns[s..] == turns[..j + 1][s..] + turns[j + 1..];
  }

  /** Probing at `i` is probing at a later `j` and then subtracting the turns between: the obstructions
      add up, and the earlier turns' actions overlay the later ones. */
  lemma ProbesCompose(turns: seq<TurnRecord>, i: Option<nat>, j: nat, act: Acting,
                      whole: ProbeState, late: ProbeState, between: ProbeState)
    requires j < |turns| && (i.Some? ==> i.value <= j)
    requires IsProbe(Subtracted(turns, i), act, whole)
    requires IsProbe(Subtracted(turns, Some(j)), act, late)
    requires IsProbe(Subtracted(turns[..j + 1], i), act, between)
    ensures Blocked(Subtracted(turns, i), act)
         == Blocked(Subtracted(turns, Some(j)), act) + Blocked(Subtracted(turns[..j + 1], i), act)
    ensures whole == late + between
  {
    var a, b := Subtracted(turns[..j + 1], i), Subtracted(turns, Some(j));
    SubtractedSplits(turns, i, j);
    BlockedOfBoth(a, b, act);
    forall p ensures p in whole <==> p in late + between
             ensures p in whole ==> whole[p] == (late + between)[p]
    {
      EarliestOfBoth(a, b, p, act);
    }
  }

  /** Once answerable, every later probe point is answerable too. */
  lemma LaterProbesStayAnswerable(turns: seq<TurnRecord>, i: Option<nat>, j: nat, act: Acting)
    requires Answerable(Subtracted(turns, i), act) && (i.Some? ==> i.value <= j)
    ensures Answerable(Subtracted(turns, Some(j)), act)
  {
    var a, b := Subtracted(turns, i), Subtracted(turns, Some(j));
    assert Start(turns, i) <= Start(turns, Some(j));
    assert b == a[Start(turns, Some(j)) - Start(turns, i)..];
  }

  // ---- trees -----------------------------------------------------------------------------

  /** The regular files below the root, by place. */
  type Tree = map<Place, Bytes>

  predicate SameAt(a: Tree, b: Tree, at: Place) {
    (at in a <==> at in b) && (at in a ==> a[at] == b[at])
  }

  /** Can a regular file be reached by this spelling?  Not when it ends in a slash or a dot: then the last
      piece must be a directory. */
  predicate NamesFile(path: Path) {
    var s := Segments(path);
    s[|s| - 1] != "" && s[|s| - 1] != "."
  }

  /** No two of these paths spell the same place. */
  ghost predicate OneSpelling(paths: set<Path>) {
    forall p, q :: p in paths && q in paths && PlaceOf(p) == PlaceOf(q) ==> p == q
  }

  predicate Done(action: FileAction, tree: Tree, at: Place) {
    match action
    case Write(bytes) => at in tree && tree[at] == bytes
    case Remove => at !in tree
  }

  /** `p` is the greatest of the paths that reach the place it spells: the last one to be applied there. */
  ghost predicate Greatest(paths: set<Path>, p: Path) {
    && p in paths && NamesFile(p)
    && forall q :: q in paths && NamesFile(q) && PlaceOf(q) == PlaceOf(p) ==> StringLe(q, p)
  }

  /** No path of `paths` reaches `at`. */
  ghost predicate Unreached(paths: set<Path>, at: Place) {
    forall p :: p in paths && NamesFile(p) ==> PlaceOf(p) != at
  }

  /** `out` is `tree` with the edits of `paths` applied in path order: where several spell one place, the
      greatest decides; every other place is as it was. */
  ghost predicate Edited(tree: Tree, state: ProbeState, paths: set<Path>, out: Tree)
    requires paths <= state.Keys
  {
    && (forall p :: Greatest(paths, p) ==> Done(state[p], out, PlaceOf(p)))
    && (forall at :: Unreached(paths, at) ==> SameAt(out, tree, at))
  }

  function Edit(tree: Tree, at: Place, action: FileAction): Tree {
    match action
    case Write(bytes) => tree[at := bytes]
    case Remove => tree - {at}
  }

  /** Writing through a spelling that cannot name a file fails. */
  predicate FailsToWrite(state: ProbeState, p: Path) {
    p in state && state[p].Write? && !NamesFile(p)
  }

  predicate LeastOf(paths: set<Path>, p: Path) {
    p in paths && forall q :: q in paths ==> StringLe(p, q)
  }

  predicate GreatestOf(paths: set<Path>, p: Path) {
    p in paths && forall q :: q in paths ==> StringLe(q, p)
  }

  lemma LeastOfMore(rest: set<Path>, p: Path, x: Path)
    requires LeastOf(rest, p)
    ensures LeastOf(rest + {x}, if StringLe(p, x) then p else x)
  {
    StringLaws(x, p, x);
    forall q | q in rest ensures StringLe(x, p) ==> StringLe(x, q) {
      StringLaws(x, p, q);
    }
    StringLaws(x, x, x);
  }

  lemma GreatestOfMore(rest: set<Path>, p: Path, x: Path)
    requires GreatestOf(rest, p)
    ensures GreatestOf(rest + {x}, if StringLe(x, p) then p else x)
  {
    StringLaws(x, p, x);
    forall q | q in rest ensures StringLe(p, x) ==> StringLe(q, x) {
      StringLaws(q, p, x);
    }
    StringLaws(x, x, x);
  }

  lemma {:induction false} ExtremesExist(paths: set<Path>)
    requires paths != {}
    ensures (exists p :: LeastOf(paths, p)) && exists p :: GreatestOf(paths, p)
    decreases |paths|
  {
    var x :| x in paths;
    var rest := paths - {x};
    assert paths == rest + {x};
    if rest == {} {
      StringLaws(x, x, x);
      assert LeastOf(paths, x) && GreatestOf(paths, x);
    } else {
      ExtremesExist(rest);
      var p :| LeastOf(rest, p);
      var q :| GreatestOf(rest, q);
      LeastOfMore(rest, p, x);
      GreatestOfMore(rest, q, x);
    }
  }

  /** Every reached place has a greatest spelling. */
  lemma GreatestExists(paths: set<Path>, p: Path)
    requires p in paths && NamesFile(p)
    ensures exists g :: Greatest(paths, g) && PlaceOf(g) == PlaceOf(p)
  {
    var spellings := set q | q in paths && NamesFile(q) && PlaceOf(q) == PlaceOf(p);
    assert p in spellings;
    ExtremesExist(spellings);
    var g :| GreatestOf(spellings, g);
    assert Greatest(paths, g);
  }

  /** The next path in order becomes the greatest of its place. */
  lemma EditNext(tree: Tree, state: ProbeState, paths: set<Path>, out: Tree, p: Path)
    requires paths <= state.Keys && Edited(tree, state, paths, out)
    requires p in state && NamesFile(p) && p !in paths
    requires forall q :: q in paths ==> StringLe(q, p)
    ensures Edited(tree, state, paths + {p}, Edit(out, PlaceOf(p), state[p]))
  {
    var next, more := Edit(out, PlaceOf(p), state[p]), paths + {p};
    forall g | Greatest(more, g) ensures Done(state[g], next, PlaceOf(g)) {
      if g != p {
        StringLaws(p, g, p);
        assert PlaceOf(g) != PlaceOf(p);
        assert Greatest(paths, g);
      }
    }
    forall at | Unreached(more, at) ensures SameAt(next, tree, at) {
      assert p in more && PlaceOf(p) != at;
      assert Unreached(paths, at);
    }
  }

  /** Removing through a spelling that cannot name a file does nothing. */
  lemma SkipNext(tree: Tree, state: ProbeState, paths: set<Path>, out: Tree, p: Path)
    requires paths <= state.Keys && Edited(tree, state, paths, out) && p in state && !NamesFile(p)
    ensures Edited(tree, state, paths + {p}, out)
  {
    forall g | Greatest(paths + {p}, g) ensures Greatest(paths, g) {}
    forall at | Unreached(paths + {p}, at) ensures Unreached(paths, at) {}
  }

  /** `materialize`: apply the edits to a copy of the tree, in path order.  A failed removal is ignored, a
      failed write ends it. */
  method Materialize(tree: Tree, state: ProbeState) returns (r: Result<Tree, Path>)
    ensures r.Ok? <==> forall p :: p in state ==> !FailsToWrite(state, p)
    ensures r.Ok? ==> Edited(tree, state, state.Keys, r.value)
    ensures r.Err? ==> FailsToWrite(state, r.error)
  {
    var out, rest := tree, state.Keys;
    while rest != {}
      invariant rest <= state.Keys
      invariant forall p, q :: p in state.Keys - rest && q in rest ==> StringLe(p, q)
      invariant forall p :: p in state.Keys - rest ==> !FailsToWrite(state, p)
      invariant Edited(tree, state, state.Keys - rest, out)
      decreases |rest|
    {
      ExtremesExist(rest);
      var p :| p in rest && LeastOf(rest, p);
      ghost var done := state.Keys - rest;
      if NamesFile(p) {
        EditNext(tree, state, done, out, p);
        out := Edit(out, PlaceOf(p), state[p]);
      } else if state[p].Write? {
        return Err(p);
      } else {
        SkipNext(tree, state, done, out, p);
      }
      rest := rest - {p};
      assert state.Keys - rest == done + {p};
    }
    assert state.Keys - rest == state.Keys;
    r := Ok(out);
  }

  /** The edits determine the tree. */
  lemma EditedIsUnique(tree: Tree, state: ProbeState, a: Tree, b: Tree)
    requires Edited(tree, state, state.Keys, a) && Edited(tree, state, state.Keys, b)
    ensures a == b
  {
    forall at ensures (at in a <==> at in b) && (at in a ==> a[at] == b[at]) {
      if p :| p in state && NamesFile(p) && PlaceOf(p) == at {
        GreatestExists(state.Keys, p);
        var g :| Greatest(state.Keys, g) && PlaceOf(g) == at;
        assert Done(state[g], a, at) && Done(state[g], b, at);
      } else {
        assert Unreached(state.Keys, at);
        assert SameAt(a, tree, at) && SameAt(b, tree, at);
      }
    }
  }
}
