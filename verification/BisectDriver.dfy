/** The driver of a bisection: it probes, runs the test command, narrows, and records what could not be
    answered. */
module BisectDriver {
  import opened Records
  import opened Bisect
  import opened BisectSearch

  datatype Verdict = FirstBadTurn(id: Id) | AmbiguousSpan(ids: seq<Id>)

  function TurnIds(turns: seq<TurnRecord>): (ids: seq<Id>)
    ensures |ids| == |turns|
    ensures forall i :: 0 <= i < |turns| ==> ids[i] == turns[i].id
  {
    seq(|turns|, i requires 0 <= i < |turns| => turns[i].id)
  }

  /** `true` is exit status 0; `None` is a command that could not be run. */
  type Runs = (int, nat) -> Option<bool>

  /** Every run of the command at one point came to an end. */
  predicate CouldRun(runs: Runs, at: int, count: nat) {
    forall k :: 0 <= k < count ==> runs(at, k).Some?
  }

  /** One failure to run aborts, disagreement is flaky. */
  function Ran(runs: Runs, at: int, retries: nat): Answer {
    if !CouldRun(runs, at, retries + 1) then Failed
    else if exists k :: 0 <= k <= retries && runs(at, k) != runs(at, 0) then Flaky
    else if runs(at, 0) == Some(true) then Good else Bad
  }

  /** All `count` runs at one point ended, and all with this status. */
  predicate AllRuns(runs: Runs, at: int, count: nat, passed: bool) {
    forall k :: 0 <= k < count ==> runs(at, k) == Some(passed)
  }

  /** An answer, over the exit statuses of the `count` runs at one point: good when all passed, bad when all
      failed, failed when one could not run, and flaky when all ended and two of them disagree. */
  ghost predicate AnswersRuns(runs: Runs, at: int, count: nat, answer: Answer) {
    && (answer == Good <==> AllRuns(runs, at, count, true))
    && (answer == Bad <==> AllRuns(runs, at, count, false))
    && (answer == Failed <==> exists k :: 0 <= k < count && runs(at, k).None?)
    && (answer == Flaky <==> (forall k :: 0 <= k < count ==> runs(at, k).Some?)
                             && exists j, k :: 0 <= j < count && 0 <= k < count && runs(at, j) != runs(at, k))
    && answer != Blocked
  }

  lemma RanExactly(runs: Runs, at: int, retries: nat)
    ensures AnswersRuns(runs, at, retries + 1, Ran(runs, at, retries))
  {
    if !CouldRun(runs, at, retries + 1) {
      var k :| 0 <= k < retries + 1 && runs(at, k).None?;
      assert !AllRuns(runs, at, retries + 1, true) && !AllRuns(runs, at, retries + 1, false);
    } else if k :| 0 <= k <= retries && runs(at, k) != runs(at, 0) {
      assert 0 <= 0 < retries + 1 && 0 <= k < retries + 1 && runs(at, k) != runs(at, 0);
      assert !AllRuns(runs, at, retries + 1, true) && !AllRuns(runs, at, retries + 1, false);
    } else {
      var passed := runs(at, 0).value;
      assert AllRuns(runs, at, retries + 1, passed);
      assert runs(at, 0) != Some(!passed) && !AllRuns(runs, at, retries + 1, !passed);
    }
  }

  /** Obstructions already recorded are not repeated. */
  function Recorded(known: seq<Unanswerable>, blocked: seq<Unanswerable>): seq<Unanswerable>
    decreases |blocked|
  {
    if blocked == [] then known
    else Recorded(if blocked[0] in known then known else known + [blocked[0]], blocked[1..])
  }

  lemma {:induction false} RecordedOnce(known: seq<Unanswerable>, blocked: seq<Unanswerable>)
    requires Distinct(known)
    ensures Distinct(Recorded(known, blocked))
    ensures forall u :: u in Recorded(known, blocked) <==> u in known || u in blocked
    decreases |blocked|
  {
    if blocked != [] {
      RecordedOnce(if blocked[0] in known then known else known + [blocked[0]], blocked[1..]);
      assert blocked == [blocked[0]] + blocked[1..];
    }
  }

  class Driver {
    const turns: seq<TurnRecord>
    const objects: Objects
    const retries: nat
    const runs: Runs

    var unanswerable: seq<Unanswerable>
    var probes: nat

    constructor (turns: seq<TurnRecord>, objects: Objects, retries: nat, runs: Runs)
      ensures this.turns == turns && this.objects == objects && this.retries == retries && this.runs == runs
      ensures unanswerable == [] && probes == 0
    {
      this.turns, this.objects, this.retries, this.runs := turns, objects, retries, runs;
      unanswerable, probes := [], 0;
    }

    /** What probing at `at` answers. */
    function Answers(at: int): Answer {
      if at < 0 then Blocked
      else if !Answerable(Subtracted(turns, Some(at)), Actions(objects)) then Blocked
      else Ran(runs, at, retries)
    }

    function FlakyAt(at: int): Unanswerable {
      Unanswerable(if 0 <= at < |turns| then turns[at].id else "", None, FlakyDisagreement)
    }

    /** The obstructions on record after trying these points. */
    function Obstructions(tried: seq<int>): seq<Unanswerable> {
      if tried == [] then []
      else
        var n := |tried| - 1;
        var known := Obstructions(tried[..n]);
        if tried[n] < 0 then known
        else match Answers(tried[n])
          case Blocked => Recorded(known, Bisect.Blocked(Subtracted(turns, Some(tried[n])), Actions(objects)))
          case Flaky => known + [FlakyAt(tried[n])]
          case _ => known
    }

    /** The state at `c` can be computed, and the command passes there at every run before `culprit` and fails
        at every run from it on. */
    ghost predicate Steady(c: nat, culprit: int) {
      Answerable(Subtracted(turns, Some(c)), Actions(objects)) && AllRuns(runs, c, retries + 1, c < culprit)
    }

    ghost predicate BreaksAt(lo: int, hi: int, culprit: int)
      requires -1 <= lo
    {
      forall c :: lo < c < hi ==> Steady(c, culprit)
    }

    lemma BreakIsFound(lo: int, hi: int, culprit: int)
      requires -1 <= lo < culprit <= hi && BreaksAt(lo, hi, culprit)
      ensures Search(Answers, lo, hi, []).found == FirstBad(culprit)
    {
      forall c | lo < c < hi ensures Answers(c) == if c < culprit then Good else Bad {
        assert Steady(c, culprit);
        RanExactly(runs, c, retries);
      }
      CulpritFound(Answers, lo, hi, culprit);
    }

    /** The state at `c` cannot be computed, or the runs of the command there disagree. */
    ghost predicate Hole(c: nat) {
      || !Answerable(Subtracted(turns, Some(c)), Actions(objects))
      || ((forall k :: 0 <= k < retries + 1 ==> runs(c, k).Some?)
          && exists j, k :: 0 <= j < retries + 1 && 0 <= k < retries + 1 && runs(c, j) != runs(c, k))
    }

    /** Each point is a hole, or the command passes there before `culprit` and fails from it on. */
    ghost predicate BreaksBesideHoles(lo: int, hi: int, culprit: int)
      requires -1 <= lo
    {
      forall c :: lo < c < hi ==> Hole(c) || Steady(c, culprit)
    }

    /** The verdict blames turn `id`, alone or among others. */
    predicate Blames(r: Option<Verdict>, id: Id) {
      r.Some? && match r.value
                 case FirstBadTurn(named) => named == id
                 case AmbiguousSpan(named) => id in named
    }

    lemma BreakIsSpanned(lo: int, hi: int, culprit: int)
      requires -1 <= lo < culprit <= hi && BreaksBesideHoles(lo, hi, culprit)
      ensures var found := Search(Answers, lo, hi, []).found;
              found == FirstBad(culprit) || (found.Ambiguous? && found.lo < culprit <= found.hi)
    {
      forall c | lo < c < hi ensures Answers(c) == (if c < culprit then Good else Bad) || Unanswered(Answers(c)) {
        RanExactly(runs, c, retries);
        if !Hole(c) {
          assert Steady(c, culprit);
        }
      }
      CulpritFound(Answers, lo, hi, culprit);
    }

    /** How many of these points had the command run. */
    function CommandRuns(tried: seq<int>): nat {
      if tried == [] then 0
      else CommandRuns(tried[..|tried| - 1]) + if Answers(tried[|tried| - 1]) == Blocked then 0 else 1
    }

    /** `run_probe`: run the command once and then once per retry, stopping at the first that cannot run. */
    method RunProbe(at: nat) returns (answer: Answer)
      modifies `probes
      ensures answer == Ran(runs, at, retries) && probes == old(probes) + 1
      ensures AnswersRuns(runs, at, retries + 1, answer)
    {
      RanExactly(runs, at, retries);
      probes := probes + 1;
      var verdicts: seq<bool> := [];
      for k := 0 to retries + 1
        invariant |verdicts| == k
        invariant forall j :: 0 <= j < k ==> runs(at, j) == Some(verdicts[j])
      {
        var verdict := runs(at, k);
        if verdict.None? {
          return Failed;
        }
        verdicts := verdicts + [verdict.value];
      }
      var first := verdicts[0];
      if exists j :: 0 <= j < |verdicts| && verdicts[j] != first {
        return Flaky;
      }
      answer := if first then Good else Bad;
    }

    method RecordUnanswerable(blocked: seq<Unanswerable>)
      modifies `unanswerable
      ensures unanswerable == Recorded(old(unanswerable), blocked)
    {
      for i := 0 to |blocked|
        invariant Recorded(unanswerable, blocked[i..]) == Recorded(old(unanswerable), blocked)
      {
        assert blocked[i..][1..] == blocked[i + 1..];
        if blocked[i] !in unanswerable {
          unanswerable := unanswerable + [blocked[i]];
        }
      }
    }

    /** Probe one point: record why it cannot be answered, or run the command there. */
    method Ask(at: nat, ghost tried: seq<int>) returns (answer: Answer)
      requires at < |turns| && unanswerable == Obstructions(tried) && probes == CommandRuns(tried)
      modifies this
      ensures answer == Answers(at)
      ensures unanswerable == Obstructions(tried + [at]) && probes == CommandRuns(tried + [at])
    {
      assert (tried + [at])[..|tried|] == tried;
      var state := ComputeProbe(turns, Some(at), objects);
      match state {
        case Err(blocked) =>
          RecordUnanswerable(blocked);
          answer := BisectSearch.Blocked;
        case Ok(_) =>
          answer := RunProbe(at);
          if answer == Flaky {
            unanswerable := unanswerable + [Unanswerable(turns[at].id, None, FlakyDisagreement)];
          }
      }
    }

    /** The loop of `search`: the verdict, the obstructions and the number of probes are those of the search. */
    method Narrow(lo0: int, hi0: nat) returns (r: Option<Verdict>, tried: seq<int>)
      requires -1 <= lo0 < hi0 < |turns| && unanswerable == [] && probes == 0
      modifies this
      ensures var o := Search(Answers, lo0, hi0, []);
              && tried == o.tried && unanswerable == Obstructions(tried) && probes == CommandRuns(tried)
              && match o.found
                 case FirstBad(at) => lo0 < at <= hi0 && r == Some(FirstBadTurn(turns[at].id))
                 case Ambiguous(lo, hi) =>
                   lo0 <= lo < hi <= hi0 && r == Some(AmbiguousSpan(TurnIds(turns[lo + 1..hi + 1])))
                 case Aborted(_) => r == None
    {
      var lo, hi := lo0, hi0;
      tried := [];
      while true
        invariant lo0 <= lo < hi <= hi0
        invariant Search(Answers, lo, hi, tried) == Search(Answers, lo0, hi0, [])
        invariant unanswerable == Obstructions(tried) && probes == CommandRuns(tried)
        decreases Untried(lo, hi, tried)
      {
        if hi - lo <= 1 {
          return Some(FirstBadTurn(turns[hi].id)), tried;
        }
        var candidate := Pick(lo, hi, tried);
        if candidate.None? {
          return Some(AmbiguousSpan(TurnIds(turns[lo + 1..hi + 1]))), tried;
        }
        var mid := candidate.value;
        assert mid in Untried(lo, hi, tried);
        var answer := Ask(mid, tried);
        tried := tried + [mid];
        match answer {
          case Good => lo := mid;
          case Bad => hi := mid;
          case Failed => return None, tried;
          case _ =>
        }
      }
    }

    /** `search`: as the loop finds it; and where the command passes at every point before some turn and fails
        from it on, that turn is named. */
    method Run(lo0: int, hi0: nat) returns (r: Option<Verdict>, tried: seq<int>)
      requires -1 <= lo0 < hi0 < |turns| && unanswerable == [] && probes == 0
      modifies this
      ensures var o := Search(Answers, lo0, hi0, []);
              && tried == o.tried && unanswerable == Obstructions(tried) && probes == CommandRuns(tried)
              && match o.found
                 case FirstBad(at) => lo0 < at <= hi0 && r == Some(FirstBadTurn(turns[at].id))
                 case Ambiguous(lo, hi) =>
                   lo0 <= lo < hi <= hi0 && r == Some(AmbiguousSpan(TurnIds(turns[lo + 1..hi + 1])))
                 case Aborted(_) => r == None
      ensures forall culprit :: lo0 < culprit <= hi0 && BreaksAt(lo0, hi0, culprit) ==>
                r == Some(FirstBadTurn(turns[culprit].id))
      ensures forall culprit :: lo0 < culprit <= hi0 && BreaksBesideHoles(lo0, hi0, culprit) ==>
                Blames(r, turns[culprit].id)
    {
      r, tried := Narrow(lo0, hi0);
      forall culprit | lo0 < culprit <= hi0 && BreaksBesideHoles(lo0, hi0, culprit)
        ensures Blames(r, turns[culprit].id)
      {
        BreakIsSpanned(lo0, hi0, culprit);
        match Search(Answers, lo0, hi0, []).found
        case Ambiguous(lo, hi) => assert TurnIds(turns[lo + 1..hi + 1])[culprit - (lo + 1)] == turns[culprit].id;
        case _ =>
      }
      forall culprit | lo0 < culprit <= hi0 && BreaksAt(lo0, hi0, culprit)
        ensures r == Some(FirstBadTurn(turns[culprit].id))
      {
        BreakIsFound(lo0, hi0, culprit);
      }
    }
  }

  // ---- what is on record -----------------------------------------------------------------

  lemma {:induction false} BlockedNamesPaths(turns: seq<TurnRecord>, objects: Objects)
    ensures forall u :: u in Bisect.Blocked(turns, Actions(objects)) ==> u.path.Some?
  {
    if turns != [] {
      BlockedNamesPaths(turns[1..], objects);
      BlockedInNamesPaths(turns[0], turns[0].files, objects);
    }
  }

  lemma {:induction false} BlockedInNamesPaths(t: TurnRecord, files: seq<FileEntry>, objects: Objects)
    ensures forall u :: u in BlockedIn(t, files, Actions(objects)) ==> u.path.Some?
  {
    if files != [] {
      BlockedInNamesPaths(t, files[1..], objects);
    }
  }

  /** Why `u` is on record: it blocks a point that was tried, or the command disagreed with itself there. */
  predicate Explained(d: Driver, tried: seq<int>, u: Unanswerable) {
    exists c :: c in tried && 0 <= c < |d.turns|
      && ((d.Answers(c) == BisectSearch.Blocked && u in Bisect.Blocked(Subtracted(d.turns, Some(c)), Actions(d.objects)))
          || (d.Answers(c) == Flaky && u == d.FlakyAt(c)))
  }

  /** Every obstruction of every tried point is on record, exactly once, and nothing else is. */
  lemma {:induction false} ObstructionsExactlyOnce(d: Driver, tried: seq<int>)
    requires Distinct(TurnIds(d.turns)) && Distinct(tried)
    requires forall c :: c in tried ==> 0 <= c < |d.turns|
    ensures Distinct(d.Obstructions(tried))
    ensures forall u :: u in d.Obstructions(tried) <==> Explained(d, tried, u)
  {
    if tried != [] {
      var n := |tried| - 1;
      var front, c := tried[..n], tried[n];
      assert tried == front + [c];
      assert c in tried && forall x :: x in front ==> x in tried;
      ObstructionsExactlyOnce(d, front);
      var blocked := Bisect.Blocked(Subtracted(d.turns, Some(c)), Actions(d.objects));
      RecordedOnce(d.Obstructions(front), blocked);
      assert d.FlakyAt(c) !in d.Obstructions(front) by {
        FlakyIsNew(d, front, c);
      }
      forall u ensures u in d.Obstructions(tried) <==> Explained(d, tried, u) {
        ExplainedByLast(d, front, c, u);
      }
    }
  }

  lemma ExplainedByLast(d: Driver, front: seq<int>, c: int, u: Unanswerable)
    requires 0 <= c < |d.turns|
    ensures Explained(d, front + [c], u) <==>
              Explained(d, front, u)
              || (d.Answers(c) == BisectSearch.Blocked && u in Bisect.Blocked(Subtracted(d.turns, Some(c)), Actions(d.objects)))
              || (d.Answers(c) == Flaky && u == d.FlakyAt(c))
  {
    assert forall x :: x in front + [c] <==> x in front || x == c;
  }

  lemma FlakyIsNew(d: Driver, front: seq<int>, c: int)
    requires Distinct(TurnIds(d.turns)) && 0 <= c < |d.turns| && c !in front
    ensures !Explained(d, front, d.FlakyAt(c))
  {
    forall x | x in front && 0 <= x < |d.turns| ensures d.FlakyAt(x) != d.FlakyAt(c) {
      assert TurnIds(d.turns)[x] != TurnIds(d.turns)[c];
    }
    forall x | x in front && 0 <= x < |d.turns|
      ensures d.FlakyAt(c) !in Bisect.Blocked(Subtracted(d.turns, Some(x)), Actions(d.objects))
    {
      BlockedNamesPaths(Subtracted(d.turns, Some(x)), d.objects);
    }
  }

  /** The command runs at most once per point, and never where the state could not be computed. */
  lemma {:induction false} RunsAreBounded(d: Driver, tried: seq<int>)
    ensures d.CommandRuns(tried) <= |tried|
    ensures (forall c :: c in tried ==> d.Answers(c) == BisectSearch.Blocked) <==> d.CommandRuns(tried) == 0
  {
    if tried != [] {
      var n := |tried| - 1;
      RunsAreBounded(d, tried[..n]);
      assert tried == tried[..n] + [tried[n]];
    }
  }
}
