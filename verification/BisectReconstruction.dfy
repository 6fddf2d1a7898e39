/** What a probe reconstructs: the exact past, wherever the record of it is faithful. */
module BisectReconstruction {
  import opened Records
  import opened Orders
  import opened RelativePaths
  import opened Bisect

  predicate TouchesPlace(t: TurnRecord, at: Place) {
    exists e :: e in t.files && PlaceOf(e.path) == at
  }

  /** The entry tells the truth about the tree before its turn: its path reaches a regular file, a created
      file was absent, and recorded `before` bytes were there. */
  predicate TrueBefore(e: FileEntry, pre: Tree) {
    && NamesFile(e.path)
    && (e.op == Create ==> PlaceOf(e.path) !in pre)
    && (e.op != Create && e.before.Some? ==>
          PlaceOf(e.path) in pre && Sha256(pre[PlaceOf(e.path)]) == e.before.value)
  }

  ghost predicate FaithfulBefore(t: TurnRecord, pre: Tree) {
    forall e :: e in t.files ==> TrueBefore(e, pre)
  }

  /** A faithful record of one turn: the truth about what was there before, and no change left out. */
  ghost predicate Faithful(t: TurnRecord, pre: Tree, post: Tree) {
    && FaithfulBefore(t, pre)
    && forall at :: !TouchesPlace(t, at) ==> SameAt(post, pre, at)
  }

  /** The trees around consecutive turns. */
  ghost predicate FaithfulRun(turns: seq<TurnRecord>, trees: seq<Tree>) {
    && |trees| == |turns| + 1
    && forall k :: 0 <= k < |turns| ==> Faithful(turns[k], trees[k], trees[k + 1])
  }

  /** `k` is the first turn to touch `path`. */
  predicate FirstTouch(turns: seq<TurnRecord>, k: int, path: Path) {
    && 0 <= k < |turns| && Touches(turns[k], path)
    && forall j :: 0 <= j < k ==> !Touches(turns[j], path)
  }

  lemma FirstTouchIsUnique(turns: seq<TurnRecord>, j: nat, k: nat, path: Path)
    requires FirstTouch(turns, j, path) && FirstTouch(turns, k, path)
    ensures j == k
  {}

  lemma {:induction false} EarliestTurn(turns: seq<TurnRecord>, path: Path, objects: Objects)
    requires EarliestAction(turns, path, Actions(objects)).Some?
    ensures exists k :: FirstTouch(turns, k, path)
              && EarliestAction(turns, path, Actions(objects)) == TurnAction(turns[k].files, path, Actions(objects))
  {
    TurnActionSome(turns[0].files, path, Actions(objects));
    if TurnAction(turns[0].files, path, Actions(objects)).Some? {
      assert FirstTouch(turns, 0, path);
    } else {
      EarliestTurn(turns[1..], path, objects);
      var k :| FirstTouch(turns[1..], k, path)
        && EarliestAction(turns[1..], path, Actions(objects)) == TurnAction(turns[1..][k].files, path, Actions(objects));
      assert turns[k + 1] == turns[1..][k];
      forall j | 0 <= j < k + 1 ensures !Touches(turns[j], path) {
        assert j > 0 ==> turns[j] == turns[1..][j - 1];
      }
      assert FirstTouch(turns, k + 1, path);
    }
  }

  /** What an answered entry does to a place is what its turn found there. */
  lemma ActionRestoresBefore(t: TurnRecord, path: Path, objects: Objects, pre: Tree, out: Tree)
    requires FaithfulBefore(t, pre)
    requires TurnAction(t.files, path, Actions(objects)).Some? && TurnAction(t.files, path, Actions(objects)).value.Ok?
    requires Done(TurnAction(t.files, path, Actions(objects)).value.value, out, PlaceOf(path))
    ensures SameAt(out, pre, PlaceOf(path))
  {
    TurnActionSome(t.files, path, Actions(objects));
    var e :| e in t.files && e.path == path && TurnAction(t.files, path, Actions(objects)) == Some(ActionFor(e, objects));
    assert TrueBefore(e, pre);
  }

  function TouchedPaths(turns: seq<TurnRecord>): (r: set<Path>)
    ensures forall p :: p in r <==> exists t :: t in turns && Touches(t, p)
  {
    set t, e | t in turns && e in t.files :: e.path
  }

  lemma ProbedPaths(turns: seq<TurnRecord>, objects: Objects, state: ProbeState)
    requires IsProbe(turns, Actions(objects), state)
    ensures state.Keys == TouchedPaths(turns)
  {
    forall p ensures p in state <==> p in TouchedPaths(turns) {
      EarliestIsTouching(turns, p, Actions(objects));
    }
  }

  /** With any unrecorded edits between the turns: each touched place gets back what the earliest subtracted
      turn that touches its greatest spelling found there... */
  lemma ProbeRestoresEachPath(turns: seq<TurnRecord>, pre: seq<Tree>, objects: Objects, state: ProbeState,
                              current: Tree, out: Tree, k: nat, p: Path)
    requires |pre| >= |turns| && forall i :: 0 <= i < |turns| ==> FaithfulBefore(turns[i], pre[i])
    requires IsProbe(turns, Actions(objects), state) && Edited(current, state, state.Keys, out)
    requires FirstTouch(turns, k, p) && Greatest(TouchedPaths(turns), p)
    ensures SameAt(out, pre[k], PlaceOf(p))
  {
    assert turns[k] in turns;
    ProbedPaths(turns, objects, state);
    EarliestTurn(turns, p, objects);
    var first :| FirstTouch(turns, first, p)
      && EarliestAction(turns, p, Actions(objects)) == TurnAction(turns[first].files, p, Actions(objects));
    FirstTouchIsUnique(turns, first, k, p);
    assert Done(state[p], out, PlaceOf(p));
    ActionRestoresBefore(turns[k], p, objects, pre[k], out);
  }

  /** ...and every place no subtracted turn touches keeps its current bytes. */
  lemma ProbeKeepsUntouched(turns: seq<TurnRecord>, objects: Objects, state: ProbeState, current: Tree, out: Tree, at: Place)
    requires IsProbe(turns, Actions(objects), state) && Edited(current, state, state.Keys, out)
    requires forall t :: t in turns ==> !TouchesPlace(t, at)
    ensures SameAt(out, current, at)
  {
    ProbedPaths(turns, objects, state);
    forall p | p in state ensures PlaceOf(p) != at {
      var t :| t in turns && Touches(t, p);
      assert !TouchesPlace(t, at);
    }
    assert Unreached(state.Keys, at);
  }

  lemma {:induction false} UntouchedStays(turns: seq<TurnRecord>, trees: seq<Tree>, n: nat, at: Place)
    requires FaithfulRun(turns, trees) && n <= |turns|
    requires forall k :: 0 <= k < n ==> !TouchesPlace(turns[k], at)
    ensures SameAt(trees[n], trees[0], at)
  {
    if n > 0 {
      UntouchedStays(turns, trees, n - 1, at);
      assert SameAt(trees[n], trees[n - 1], at);
    }
  }

  /** No two paths that these turns touch spell the same place. */
  ghost predicate SpelledOnce(turns: seq<TurnRecord>) {
    OneSpelling(TouchedPaths(turns))
  }

  /** A turn that does not touch a path does not touch its place under another spelling. */
  lemma OtherSpellingsAbsent(turns: seq<TurnRecord>, j: nat, k: nat, p: Path)
    requires SpelledOnce(turns) && j < |turns| && k < |turns| && Touches(turns[k], p) && !Touches(turns[j], p)
    ensures !TouchesPlace(turns[j], PlaceOf(p))
  {
    var all := TouchedPaths(turns);
    assert turns[k] in turns && p in all;
    forall e | e in turns[j].files ensures PlaceOf(e.path) != PlaceOf(p) {
      assert turns[j] in turns && Touches(turns[j], e.path);
      assert e.path in all;
    }
  }

  /** Up to the first turn that touches a path, its place is as it was at the start. */
  lemma UntouchedBefore(turns: seq<TurnRecord>, trees: seq<Tree>, k: nat, p: Path)
    requires FaithfulRun(turns, trees) && SpelledOnce(turns) && FirstTouch(turns, k, p)
    ensures SameAt(trees[k], trees[0], PlaceOf(p))
  {
    forall j | 0 <= j < k ensures !TouchesPlace(turns[j], PlaceOf(p)) {
      OtherSpellingsAbsent(turns, j, k, p);
    }
    UntouchedStays(turns, trees, k, PlaceOf(p));
  }

  /** The condition of an exact reconstruction: of all the spellings of a place, the greatest one's first
      turn found there what was there before all the turns. */
  ghost predicate GreatestSpellingsFirst(turns: seq<TurnRecord>, trees: seq<Tree>)
    requires |trees| == |turns| + 1
  {
    forall p, k :: Greatest(TouchedPaths(turns), p) && FirstTouch(turns, k, p) ==> SameAt(trees[k], trees[0], PlaceOf(p))
  }

  /** One spelling per place is enough... */
  lemma SpelledOnceSuffices(turns: seq<TurnRecord>, trees: seq<Tree>)
    requires FaithfulRun(turns, trees) && SpelledOnce(turns)
    ensures GreatestSpellingsFirst(turns, trees)
  {
    forall p, k | Greatest(TouchedPaths(turns), p) && FirstTouch(turns, k, p)
      ensures SameAt(trees[k], trees[0], PlaceOf(p))
    {
      UntouchedBefore(turns, trees, k, p);
    }
  }

  /** A touched place has a greatest spelling, and some turn is the first to touch that. */
  lemma GreatestTouch(turns: seq<TurnRecord>, objects: Objects, state: ProbeState, t: TurnRecord, e: FileEntry)
    requires IsProbe(turns, Actions(objects), state) && t in turns && e in t.files && NamesFile(e.path)
    ensures exists p, k :: Greatest(TouchedPaths(turns), p) && FirstTouch(turns, k, p) && PlaceOf(p) == PlaceOf(e.path)
  {
    assert Touches(t, e.path);
    GreatestExists(TouchedPaths(turns), e.path);
    var p :| Greatest(TouchedPaths(turns), p) && PlaceOf(p) == PlaceOf(e.path);
    EarliestIsTouching(turns, p, Actions(objects));
    EarliestTurn(turns, p, objects);
    var k :| FirstTouch(turns, k, p);
  }

  lemma FaithfulThroughout(turns: seq<TurnRecord>, trees: seq<Tree>)
    requires FaithfulRun(turns, trees)
    ensures forall i :: 0 <= i < |turns| ==> FaithfulBefore(turns[i], trees[i])
    ensures forall p :: p in TouchedPaths(turns) ==> NamesFile(p)
  {
    forall i | 0 <= i < |turns| ensures FaithfulBefore(turns[i], trees[i]) {
      assert Faithful(turns[i], trees[i], trees[i + 1]);
    }
    forall p | p in TouchedPaths(turns) ensures NamesFile(p) {
      var t :| t in turns && Touches(t, p);
      var i :| 0 <= i < |turns| && turns[i] == t;
      var e :| e in t.files && e.path == p;
      assert TrueBefore(e, trees[i]);
    }
  }

  /** In a faithful run that meets the condition, each place of the probe is as it was at the start. */
  lemma PlaceReconstructed(turns: seq<TurnRecord>, trees: seq<Tree>, objects: Objects, state: ProbeState, out: Tree, at: Place)
    requires FaithfulRun(turns, trees) && IsProbe(turns, Actions(objects), state) && GreatestSpellingsFirst(turns, trees)
    requires Edited(trees[|turns|], state, state.Keys, out)
    ensures SameAt(out, trees[0], at)
  {
    FaithfulThroughout(turns, trees);
    if t, e :| t in turns && e in t.files && PlaceOf(e.path) == at {
      assert Touches(t, e.path);
      GreatestTouch(turns, objects, state, t, e);
      var p, k :| Greatest(TouchedPaths(turns), p) && FirstTouch(turns, k, p) && PlaceOf(p) == at;
      ProbeRestoresEachPath(turns, trees, objects, state, trees[|turns|], out, k, p);
    } else {
      UntouchedStays(turns, trees, |turns|, at);
      ProbeKeepsUntouched(turns, objects, state, trees[|turns|], out, at);
    }
  }

  lemma SameAtAll(a: Tree, b: Tree)
    requires forall at :: SameAt(a, b, at)
    ensures a == b
  {
    forall at ensures at in a <==> at in b {
      assert SameAt(a, b, at);
    }
    forall at | at in a ensures a[at] == b[at] {
      assert SameAt(a, b, at);
    }
  }

  /** Over the subtracted turns alone. */
  lemma SpanReconstructed(turns: seq<TurnRecord>, trees: seq<Tree>, objects: Objects, state: ProbeState, out: Tree)
    requires FaithfulRun(turns, trees) && IsProbe(turns, Actions(objects), state)
    requires Edited(trees[|turns|], state, state.Keys, out)
    ensures out == trees[0] <==> GreatestSpellingsFirst(turns, trees)
  {
    FaithfulThroughout(turns, trees);
    if GreatestSpellingsFirst(turns, trees) {
      forall at ensures SameAt(out, trees[0], at) {
        PlaceReconstructed(turns, trees, objects, state, out, at);
      }
      SameAtAll(out, trees[0]);
    }
    if out == trees[0] {
      forall p, k | Greatest(TouchedPaths(turns), p) && FirstTouch(turns, k, p)
        ensures SameAt(trees[k], trees[0], PlaceOf(p))
      {
        ProbeRestoresEachPath(turns, trees, objects, state, trees[|turns|], out, k, p);
      }
    }
  }

  lemma FaithfulSpan(turns: seq<TurnRecord>, trees: seq<Tree>, start: nat)
    requires FaithfulRun(turns, trees) && start <= |turns|
    ensures FaithfulRun(turns[start..], trees[start..])
  {
    var span, later := turns[start..], trees[start..];
    forall k | 0 <= k < |span| ensures Faithful(span[k], later[k], later[k + 1]) {
      assert Faithful(turns[start + k], trees[start + k], trees[start + k + 1]);
    }
  }

  /** If the current tree is the outcome of faithfully recorded turns, applying an answerable probe gives
      the tree as it was after the probe point if and only if, wherever several spellings reach one place,
      the first turn of the greatest spelling found what was there after the probe point. */
  lemma ProbeReconstructsExactly(turns: seq<TurnRecord>, trees: seq<Tree>, after: Option<nat>, objects: Objects,
                                 state: ProbeState, out: Tree)
    requires FaithfulRun(turns, trees)
    requires IsProbe(Subtracted(turns, after), Actions(objects), state)
    requires Edited(trees[|turns|], state, state.Keys, out)
    ensures out == trees[Start(turns, after)] <==>
              GreatestSpellingsFirst(Subtracted(turns, after), trees[Start(turns, after)..])
  {
    var start := Start(turns, after);
    FaithfulSpan(turns, trees, start);
    SpanReconstructed(turns[start..], trees[start..], objects, state, out);
  }

  /** In particular it does when each touched file has one spelling. */
  lemma ProbeReconstructsThePast(turns: seq<TurnRecord>, trees: seq<Tree>, after: Option<nat>, objects: Objects,
                                 state: ProbeState, out: Tree)
    requires FaithfulRun(turns, trees) && SpelledOnce(Subtracted(turns, after))
    requires IsProbe(Subtracted(turns, after), Actions(objects), state)
    requires Edited(trees[|turns|], state, state.Keys, out)
    ensures out == trees[Start(turns, after)]
  {
    var start := Start(turns, after);
    FaithfulSpan(turns, trees, start);
    SpelledOnceSuffices(turns[start..], trees[start..]);
    ProbeReconstructsExactly(turns, trees, after, objects, state, out);
  }

  datatype ProbeError = Obstructed(reasons: seq<Unanswerable>) | WriteFailed(path: Path)

  /** The whole pipeline: compute the probe, materialize it on a copy of the tree. */
  method Probe(turns: seq<TurnRecord>, after: Option<nat>, objects: Objects, current: Tree, ghost trees: seq<Tree>)
    returns (r: Result<Tree, ProbeError>)
    ensures !Answerable(Subtracted(turns, after), Actions(objects)) <==>
              r == Err(Obstructed(Blocked(Subtracted(turns, after), Actions(objects))))
    ensures r.Err? && r.error.WriteFailed? ==>
              r.error.path in TouchedPaths(Subtracted(turns, after)) && !NamesFile(r.error.path)
    ensures FaithfulRun(turns, trees) && current == trees[|turns|] && Answerable(Subtracted(turns, after), Actions(objects)) ==>
              r.Ok? && (r.value == trees[Start(turns, after)] <==>
                        GreatestSpellingsFirst(Subtracted(turns, after), trees[Start(turns, after)..]))
  {
    var state := ComputeProbe(turns, after, objects);
    match state {
      case Err(blocked) =>
        return Err(Obstructed(blocked));
      case Ok(files) =>
        ProbedPaths(Subtracted(turns, after), objects, files);
        var out := Materialize(current, files);
        if FaithfulRun(turns, trees) && current == trees[|turns|] {
          FaithfulSpan(turns, trees, Start(turns, after));
          FaithfulThroughout(Subtracted(turns, after), trees[Start(turns, after)..]);
          ProbeReconstructsExactly(turns, trees, after, objects, files, out.value);
        }
        if out.Err? {
          return Err(WriteFailed(out.error));
        }
        return Ok(out.value);
    }
  }

  // ---- two spellings ------------------------------------------------------------------------

  lemma Cut(piece: char, rest: string)
    requires piece != '/'
    ensures Segments([piece] + rest) == [[piece] + Segments(rest)[0]] + Segments(rest)[1..]
    ensures Segments("/" + rest) == [""] + Segments(rest)
  {
    assert ([piece] + rest)[1..] == rest && ("/" + rest)[1..] == rest;
  }

  lemma TwoSpellingsCut()
    ensures Segments("d/f") == ["d", "f"] && Segments("d//f") == ["d", "", "f"]
  {
    assert Segments("") == [""];
    Cut('f', "");
    assert ['f'] + "" == "f" && ['f'] == "f";
    assert Segments("f") == ["f"];
    Cut('d', "f");
    assert "/" + "f" == "/f" && Segments("/f") == ["", "f"];
    Cut('d', "/f");
    assert "/" + "/f" == "//f" && Segments("//f") == ["", "", "f"];
    assert ['d'] + "/f" == "d/f" && ['d'] + "" == "d";
    Cut('d', "//f");
    assert ['d'] + "//f" == "d//f";
  }

  lemma TwoSpellingsPlaced()
    ensures Components("d/f") == [Normal("d"), Normal("f")] && Components("d//f") == [Normal("d"), Normal("f")]
  {
    TwoSpellingsCut();
    assert ["d", "f"][1..] == ["f"] && ["d", "", "f"][1..] == ["", "f"] && ["", "f"][1..] == ["f"] && ["f"][1..] == [];
    assert Tail(["f"]) == [Normal("f")] && Tail(["", "f"]) == [Normal("f")];
  }

  lemma TwoSpellingsOrdered()
    ensures StringLe("d//f", "d/f")
  {
    assert "d//f"[1..] == "//f" && "d/f"[1..] == "/f" && "//f"[1..] == "/f" && "/f"[1..] == "f";
    assert LexLe(CharLe, "/f", "f");
    assert LexLe(CharLe, "//f", "/f");
  }

  lemma TwoSpellings()
    ensures PlaceOf("d/f") == ["d", "f"] && PlaceOf("d//f") == ["d", "f"]
    ensures SafeRelative("d/f") && SafeRelative("d//f") && NamesFile("d/f") && NamesFile("d//f")
    ensures StringLe("d//f", "d/f")
  {
    TwoSpellingsCut();
    TwoSpellingsPlaced();
    TwoSpellingsOrdered();
    assert [Normal("d"), Normal("f")][1..] == [Normal("f")] && [Normal("f")][1..] == [];
    assert Names([Normal("f")]) == ["f"];
  }

  function Change(id: Id, path: Path, before: Bytes, after: Bytes): TurnRecord {
    TurnRecord(id, Rich, false, None, None, None, [], None,
               [FileEntry(path, Some(Sha256(before)), Some(Sha256(after)), Modify, false, false, None, None)])
  }

  /** Two turns record changes of one file from `a` to `b` to `c`, the first as `d//f`, the second as `d/f`. */
  function Respelled(a: Bytes, b: Bytes, c: Bytes): seq<TurnRecord> {
    [Change("1", "d//f", a, b), Change("2", "d/f", b, c)]
  }

  function RespelledTrees(a: Bytes, b: Bytes, c: Bytes): seq<Tree> {
    [map[["d", "f"] := a], map[["d", "f"] := b], map[["d", "f"] := c]]
  }

  lemma ChangeIsFaithful(id: Id, path: Path, before: Bytes, after: Bytes)
    requires PlaceOf(path) == ["d", "f"] && NamesFile(path)
    ensures Faithful(Change(id, path, before, after), map[["d", "f"] := before], map[["d", "f"] := after])
  {
    var t := Change(id, path, before, after);
    assert t.files[0] in t.files;
    assert TouchesPlace(t, ["d", "f"]);
  }

  lemma ChangeTouches(id: Id, path: Path, before: Bytes, after: Bytes, p: Path, objects: Objects)
    requires SafeRelative(path) && Get(objects, Sha256(before)) == Blob(before)
    ensures var t := Change(id, path, before, after);
            && (Touches(t, p) <==> p == path)
            && TurnAction(t.files, p, Actions(objects)) == if p == path then Some(Ok(Write(before))) else None
  {
    var t := Change(id, path, before, after);
    assert t.files[0] in t.files;
    assert t.files[..0] == [];
  }

  lemma RespelledTouches(a: Bytes, b: Bytes, c: Bytes, p: Path)
    ensures p in TouchedPaths(Respelled(a, b, c)) <==> p == "d/f" || p == "d//f"
    ensures FirstTouch(Respelled(a, b, c), 1, "d/f")
    ensures var objects := map[Sha256(a) := a, Sha256(b) := b];
            EarliestAction(Respelled(a, b, c), p, Actions(objects))
            == if p == "d//f" then Some(Ok(Write(a))) else if p == "d/f" then Some(Ok(Write(b))) else None
  {
    TwoSpellings();
    var objects := map[Sha256(a) := a, Sha256(b) := b];
    var turns := Respelled(a, b, c);
    ChangeTouches("1", "d//f", a, b, p, objects);
    ChangeTouches("2", "d/f", b, c, p, objects);
    ChangeTouches("1", "d//f", a, b, "d/f", objects);
    ChangeTouches("2", "d/f", b, c, "d/f", objects);
    assert turns[1..] == [turns[1]] && [turns[1]][1..] == [];
    assert turns[0] in turns && turns[1] in turns;
    assert EarliestAction([turns[1]], p, Actions(objects)) == TurnAction(turns[1].files, p, Actions(objects));
  }

  lemma RespelledFaithful(a: Bytes, b: Bytes, c: Bytes)
    ensures FaithfulRun(Respelled(a, b, c), RespelledTrees(a, b, c))
  {
    TwoSpellings();
    ChangeIsFaithful("1", "d//f", a, b);
    ChangeIsFaithful("2", "d/f", b, c);
  }

  lemma RespelledProbe(a: Bytes, b: Bytes, c: Bytes)
    ensures IsProbe(Subtracted(Respelled(a, b, c), None), Actions(map[Sha256(a) := a, Sha256(b) := b]),
                    map["d//f" := Write(a), "d/f" := Write(b)])
  {
    assert Subtracted(Respelled(a, b, c), None) == Respelled(a, b, c);
    var state: ProbeState := map["d//f" := Write(a), "d/f" := Write(b)];
    var act := Actions(map[Sha256(a) := a, Sha256(b) := b]);
    forall p
      ensures p in state <==> EarliestAction(Respelled(a, b, c), p, act).Some?
      ensures p in state ==> EarliestAction(Respelled(a, b, c), p, act) == Some(Ok(state[p]))
    {
      RespelledTouches(a, b, c, p);
    }
  }

  lemma GreaterOfTwo(p: Path, q: Path)
    requires NamesFile(q) && StringLe(p, q)
    ensures Greatest({p, q}, q)
  {
    StringLaws(q, q, q);
  }

  lemma ElsewhereUnreached(p: Path, q: Path, at: Place)
    requires PlaceOf(p) != at && PlaceOf(q) != at
    ensures Unreached({p, q}, at)
  {}

  /** Of two spellings of one place, the edit of the greater one remains. */
  lemma GreaterEditRemains(p: Path, q: Path, state: ProbeState, at: Place, tree: Tree, out: Tree)
    requires PlaceOf(p) == at && PlaceOf(q) == at && NamesFile(q) && StringLe(p, q)
    requires state.Keys == {p, q} && Edited(tree, state, {p, q}, out)
    ensures Done(state[q], out, at)
    ensures forall other :: other != at ==> SameAt(out, tree, other)
  {
    GreaterOfTwo(p, q);
    forall other | other != at ensures SameAt(out, tree, other) {
      ElsewhereUnreached(p, q, other);
    }
  }

  lemma OnlyPlace(out: Tree, at: Place, b: Bytes, c: Bytes)
    requires Done(Write(b), out, at) && forall other :: other != at ==> SameAt(out, map[at := c], other)
    ensures out == map[at := b]
  {
    forall other ensures SameAt(out, map[at := b], other) {
      if other != at {
        assert SameAt(out, map[at := c], other);
      }
    }
    SameAtAll(out, map[at := b]);
  }

  /** Both turns are recorded faithfully and the baseline probe holds both edits.  The greater spelling is
      applied last, so the probe shows what the second turn found, not what was there at the start. */
  lemma TwoSpellingsConflict(a: Bytes, b: Bytes, c: Bytes, out: Tree)
    requires Edited(map[["d", "f"] := c], map["d//f" := Write(a), "d/f" := Write(b)], {"d//f", "d/f"}, out)
    ensures FaithfulRun(Respelled(a, b, c), RespelledTrees(a, b, c))
    ensures IsProbe(Subtracted(Respelled(a, b, c), None), Actions(map[Sha256(a) := a, Sha256(b) := b]),
                    map["d//f" := Write(a), "d/f" := Write(b)])
    ensures out == RespelledTrees(a, b, c)[1]
    ensures out == RespelledTrees(a, b, c)[0] <==> a == b
  {
    RespelledFaithful(a, b, c);
    RespelledProbe(a, b, c);
    TwoSpellings();
    var state: ProbeState := map["d//f" := Write(a), "d/f" := Write(b)];
    GreaterEditRemains("d//f", "d/f", state, ["d", "f"], map[["d", "f"] := c], out);
    OnlyPlace(out, ["d", "f"], b, c);
    assert (map[["d", "f"] := a])[["d", "f"]] == a;
  }
}
