/** The turn engine as the object whose methods update its fields in place. */
module TurnEngine {
  import opened Records
  import opened TurnEngineSpec

  class Recorder {
    var open: Option<OpenTurn>
    var lastChangeAt: Option<nat>
    var gitWindowUntil: nat
    var recentBare: seq<ClosedTurn>
    var lastRichClosedAt: nat
    var pending: seq<ClosedTurn>
    var nextId: TurnId

    ghost function State(): Engine
      reads this
    {
      Engine(open, lastChangeAt, gitWindowUntil, recentBare, lastRichClosedAt, pending, nextId)
    }

    constructor ()
      ensures State() == Engine(None, None, 0, [], 0, [], 0)
    {
      open, lastChangeAt, gitWindowUntil := None, None, 0;
      recentBare, lastRichClosedAt, pending, nextId := [], 0, [], 0;
    }

    method MintId() returns (id: TurnId)
      modifies this`nextId
      ensures id == old(nextId) && nextId == old(nextId) + 1
    {
      id := nextId;
      nextId := nextId + 1;
    }

    method ObserveChanges(now: nat, changes: seq<ChangeObs>)
      modifies this
      ensures State() == TurnEngineSpec.ObserveChanges(old(State()), now, changes)
    {
      if changes == [] {
        return;
      }
      lastChangeAt := Some(now);
      if open.None? {
        var git := gitWindowUntil > 0 && now <= gitWindowUntil;
        var id := MintId();
        open := Some(OpenTurn(if git then Git else Quiet, if git then Some("git") else None, None, None, now, [], id));
      }
      ghost var start := open.value;
      ghost var begun := State();
      for k := 0 to |changes|
        invariant open.Some? && State() == begun.(open := open)
        invariant open.value == start.(files := open.value.files)
        invariant AbsorbAll(start.files, changes) == AbsorbAll(open.value.files, changes[k..])
      {
        assert changes[k..][0] == changes[k] && changes[k..][1..] == changes[k + 1..];
        var change := changes[k];
        var files := open.value.files;
        var i := 0;
        while i < |files| && files[i].path != change.path
          invariant 0 <= i <= |files|
          invariant forall j :: 0 <= j < i ==> files[j].path != change.path
        {
          i := i + 1;
        }
        assert i == FindPath(files, change.path);
        if i == |files| {
          files := files + [change];
        } else {
          files := files[i := files[i].(deleted := change.deleted, snapshotted := change.snapshotted,
                                        withheld := change.withheld)];
        }
        open := Some(open.value.(files := files));
      }
    }

    method FinishTurn(turn: OpenTurn, now: nat, boundary: Boundary, rich: bool, truncated: bool)
      returns (closed: ClosedTurn)
      modifies this`lastChangeAt
      ensures lastChangeAt == None && closed == Finish(turn, now, boundary, rich, truncated)
    {
      lastChangeAt := None;
      closed := Finish(turn, now, boundary, rich, truncated);
    }

    method CloseOpen(turn: OpenTurn, now: nat) returns (closed: ClosedTurn)
      modifies this`lastChangeAt
      ensures lastChangeAt == None && closed == CloseOnItsTerms(turn, now)
    {
      match turn.source
      case Quiet => closed := FinishTurn(turn, now, QuietWindow, false, false);
      case Git => closed := FinishTurn(turn, now, GitSettle, true, false);
      case Bracket => closed := FinishTurn(turn, now, Timeout, true, true);
    }

    method ObserveGitChange(now: nat)
      modifies this
      ensures State() == TurnEngineSpec.ObserveGitChange(old(State()), now)
    {
      gitWindowUntil := now + GIT_SETTLE_MS;
      if open.Some? && open.value.source == Quiet {
        var turn := open.value;
        if SaturatingSub(now, turn.openedAt) <= GIT_SETTLE_MS + QUIET_MS {
          open := Some(turn.(source := Git, tool := Some("git")));
        } else {
          var at := if lastChangeAt.Some? then lastChangeAt.value else turn.openedAt;
          open := None;
          var closed := FinishTurn(turn, at, QuietWindow, false, false);
          recentBare := recentBare + [closed];
          pending := pending + [closed];
        }
      }
    }

    method ObserveStart(now: nat, tool: string, prompt: Option<string>, session: Option<string>)
      returns (closed: seq<ClosedTurn>)
      modifies this
      ensures Step(State(), closed) == TurnEngineSpec.ObserveStart(old(State()), now, tool, prompt, session)
    {
      closed := [];
      if open.Some? {
        var turn := CloseOpen(open.value, now);
        closed := [turn];
      }
      var id := MintId();
      open := Some(OpenTurn(Bracket, Some(tool), prompt, session, now, [], id));
    }

    /** One fragment of a merge: a path that no earlier fragment claimed brings its original along. */
    method FoldFragment(files: seq<ChangeObs>, claimed: set<Path>, bare: ClosedTurn)
      returns (merged: seq<ChangeObs>, claims: set<Path>)
      ensures Merge(merged, claims) == FoldFiles(Merge(files, claimed), bare.files)
    {
      merged, claims := files, claimed;
      for j := 0 to |bare.files|
        invariant FoldFiles(Merge(files, claimed), bare.files) == FoldFiles(Merge(merged, claims), bare.files[j..])
      {
        var file := bare.files[j];
        assert bare.files[j..][0] == file && bare.files[j..][1..] == bare.files[j + 1..];
        if file.path !in claims {
          claims := claims + {file.path};
          var i := FindPath(merged, file.path);
          if i == |merged| {
            merged := merged + [file];
          } else {
            merged := merged[i := merged[i].(beforeHash := file.beforeHash, baselineUnknown := file.baselineUnknown)];
          }
        }
      }
    }

    /** The merge itself, fragment by fragment. */
    method MergeFragments(rich: ClosedTurn, eligible: seq<ClosedTurn>) returns (turn: ClosedTurn)
      ensures turn == MergeInto(rich, eligible)
    {
      var merges, openedAt, files, claimed: set<Path> := rich.merges, rich.openedAt, rich.files, {};
      for k := 0 to |eligible|
        invariant merges == rich.merges + Ids(eligible[..k])
        invariant EarliestOpened(rich.openedAt, eligible) == EarliestOpened(openedAt, eligible[k..])
        invariant FoldFragments(Merge(rich.files, {}), eligible) == FoldFragments(Merge(files, claimed), eligible[k..])
      {
        var bare := eligible[k];
        assert eligible[k..][0] == bare && eligible[k..][1..] == eligible[k + 1..];
        assert Ids(eligible[..k + 1]) == Ids(eligible[..k]) + [bare.id];
        merges := merges + [bare.id];
        if bare.openedAt < openedAt {
          openedAt := bare.openedAt;
        }
        files, claimed := FoldFragment(files, claimed, bare);
      }
      assert eligible[..|eligible|] == eligible && eligible[|eligible|..] == [];
      turn := rich.(merges := merges, openedAt := openedAt, files := files);
    }

    /** `fold_recent_bares`: drains the fragments and merges the eligible ones, oldest first. */
    method FoldRecentBares(rich: ClosedTurn) returns (turn: ClosedTurn)
      modifies this`recentBare
      ensures recentBare == [] && turn == Fold(old(recentBare), rich, lastRichClosedAt)
    {
      var eligible := SortByOpened(Eligible(recentBare, rich, lastRichClosedAt));
      recentBare := [];
      turn := MergeFragments(rich, eligible);
    }

    /** A rich turn is complete: fold, and remember when. */
    method CompleteRich(now: nat, rich: ClosedTurn) returns (turn: ClosedTurn)
      modifies this`recentBare, this`lastRichClosedAt
      ensures State() == old(State()).(recentBare := [], lastRichClosedAt := now)
      ensures turn == Fold(old(recentBare), rich, old(lastRichClosedAt))
    {
      turn := FoldRecentBares(rich);
      lastRichClosedAt := now;
    }

    /** Close the taken open turn as the rich turn a stop makes of it. */
    method CloseStopped(taken: OpenTurn, now: nat, tool: string, prompt: Option<string>, session: Option<string>)
      returns (turn: ClosedTurn)
      requires taken.source != Git
      modifies this`lastChangeAt
      ensures lastChangeAt == None && turn == StoppedTurn(taken, now, tool, prompt, session)
    {
      if taken.source == Bracket {
        turn := FinishTurn(taken, now, BracketStop, true, false);
        if turn.prompt.None? {
          turn := turn.(prompt := prompt);
        }
        if turn.session.None? {
          turn := turn.(session := session);
        }
      } else {
        turn := FinishTurn(taken, now, StopOnly, true, false);
        turn := turn.(tool := Some(tool), prompt := prompt, session := session);
      }
    }

    method ObserveStop(now: nat, tool: string, prompt: Option<string>, session: Option<string>)
      returns (closed: seq<ClosedTurn>)
      modifies this
      ensures Step(State(), closed) == TurnEngineSpec.ObserveStop(old(State()), now, tool, prompt, session)
    {
      closed := [];
      var taken := open;
      open := None;
      assert State() == old(State()).(open := None);
      if StopsBracket(taken, tool) || StopConverts(taken, now) {
        var turn := CloseStopped(taken.value, now, tool, prompt, session);
        turn := CompleteRich(now, turn);
        return closed + [turn];
      }
      closed := StopWithoutWork(taken, now, tool, prompt, session);
    }

    /** A stop with no unattributed open work: close what was open on its own terms, and record a rich turn
        of its own, which may merge recent fragments. */
    method StopWithoutWork(taken: Option<OpenTurn>, now: nat, tool: string, prompt: Option<string>, session: Option<string>)
      returns (closed: seq<ClosedTurn>)
      requires open.None?
      modifies this
      ensures Step(State(), closed)
           == FoldAndReturn(old(State()).(lastChangeAt := if taken.Some? then None else old(lastChangeAt),
                                          nextId := old(nextId) + 1),
                            now, if taken.Some? then [CloseOnItsTerms(taken.value, now)] else [],
                            EmptyRich(old(nextId), now, tool, prompt, session))
    {
      closed := [];
      if taken.Some? {
        var own := CloseOpen(taken.value, now);
        closed := [own];
      }
      var id := MintId();
      ghost var rest := State();
      var turn := CompleteRich(now, EmptyRich(id, now, tool, prompt, session));
      assert Step(State(), closed + [turn]) == FoldAndReturn(rest, now, closed, EmptyRich(id, now, tool, prompt, session));
      closed := closed + [turn];
    }

    method Tick(now: nat) returns (out: seq<ClosedTurn>)
      modifies this
      ensures Step(State(), out) == TurnEngineSpec.Tick(old(State()), now)
    {
      recentBare := Retain(recentBare, now);
      out := pending;
      pending := [];
      if open.None? {
        return;
      }
      var turn := open.value;
      var lastChange := if lastChangeAt.Some? then lastChangeAt.value else turn.openedAt;
      var closes :=
        match turn.source
        case Quiet => SaturatingSub(now, lastChange) > QUIET_MS
        case Git => SaturatingSub(now, lastChange) > GIT_SETTLE_MS
        case Bracket => SaturatingSub(now, turn.openedAt) > MAX_BRACKET_MS;
      if !closes {
        return;
      }
      open := None;
      var closed := CloseOpen(turn, if turn.source == Bracket then lastChange else now);
      if turn.source == Quiet {
        recentBare := recentBare + [closed];
      }
      out := out + [closed];
    }

    method ForceClose(now: nat) returns (out: seq<ClosedTurn>)
      modifies this
      ensures Step(State(), out) == TurnEngineSpec.ForceClose(old(State()), now)
    {
      if open.None? {
        return [];
      }
      var turn := open.value;
      open := None;
      var closed := CloseOpen(turn, now);
      out := [closed];
    }
  }
}
