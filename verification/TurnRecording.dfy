/** From what the recorder saw to the record of a closed turn, and which recorded turns an undo can be
    undone of. */
module TurnRecording {
  import opened Records
  import opened TurnEngineSpec
  import opened TurnObservations
  import opened TurnHistory
  import opened TurnTheorems
  import opened TurnChronology
  import Undo = UndoPlan

  // ---- what the recorder saw ------------------------------------------------------------------

  const UNREADABLE := "unreadable"

  /** What staging one path finds: no file, a link (with the address of its target text, if that could be
      read and stored), a file whose bytes were read (stored, or not stored for some cause), or one that
      could not be read. */
  datatype Sight =
    | Gone
    | Link(target: Option<Hash>)
    | UnreadableLink
    | Stored(content: Hash)
    | NotStored(content: Hash, overCap: bool)
    | UnreadableFile

  /** The content that staging keeps for the path.  A secret is never read. */
  function Captured(secret: bool, sight: Sight): Option<Hash> {
    if secret then None
    else match sight
      case Link(target) => target
      case Stored(content) => Some(content)
      case NotStored(content, _) => Some(content)
      case _ => None
  }

  /** The observation that staging hands to the engine. */
  function Observe(path: Path, secret: bool, sight: Sight, before: Option<Hash>, baselineUnknown: bool): ChangeObs {
    var snapshotted := !secret && (sight.Gone? || sight.Link? || sight.Stored?);
    var skipReason :=
      if secret then None
      else if sight.UnreadableLink? || sight.UnreadableFile? then Some(UNREADABLE)
      else if sight.NotStored? then Some(if sight.overCap then "over_cap" else "io_failed")
      else None;
    ChangeObs(path, before, snapshotted, secret, baselineUnknown, sight.Gone?, skipReason)
  }

  /** The sights behind a history, one per observation. */
  ghost predicate Staged(hist: seq<Seen>, sights: seq<Sight>, secrets: set<Path>) {
    && |sights| == |hist|
    && forall i :: 0 <= i < |hist| ==>
         var c := hist[i].change;
         c == Observe(c.path, c.path in secrets, sights[i], c.beforeHash, c.baselineUnknown)
  }

  /** The position of the last observation of `path`, in whatever turn; before the first if there is none. */
  function LastLook(hist: seq<Seen>, path: Path): (i: int)
    ensures -1 <= i < |hist|
    ensures i >= 0 ==> hist[i].change.path == path
    ensures forall j :: i < j < |hist| ==> hist[j].change.path != path
  {
    if hist == [] then -1
    else
      var n := |hist| - 1;
      if hist[n].change.path == path then n else LastLook(hist[..n], path)
  }

  /** The staged content of a path: that of its last observation in any turn of the run. */
  function StagedContent(hist: seq<Seen>, sights: seq<Sight>, secrets: set<Path>, path: Path): Option<Hash>
    requires |sights| == |hist|
  {
    var i := LastLook(hist, path);
    if i >= 0 then Captured(path in secrets, sights[i]) else None
  }

  /** A path is marked as a link by the last observation that saw a file there, if it saw a link. */
  function MarkedLink(hist: seq<Seen>, sights: seq<Sight>, path: Path): bool
    requires |sights| == |hist|
  {
    if hist == [] then false
    else
      var n := |hist| - 1;
      if hist[n].change.path != path || sights[n].Gone? then MarkedLink(hist[..n], sights[..n], path)
      else sights[n].Link? || sights[n].UnreadableLink?
  }

  // ---- the record ------------------------------------------------------------------------------

  /** The entry of one path of a closed turn. */
  function Resolve(obs: ChangeObs, after: Option<Hash>, link: bool): FileEntry {
    FileEntry(
      obs.path,
      obs.beforeHash,
      after,
      if obs.deleted then Delete
      else if obs.beforeHash.None? && !obs.baselineUnknown then Create
      else Modify,
      !obs.snapshotted && !obs.withheld,
      obs.withheld,
      None,
      if link then Some("symlink") else None)
  }

  /** The entries of a turn that is recorded after `hist`. */
  function ResolveAll(hist: seq<Seen>, sights: seq<Sight>, secrets: set<Path>, files: seq<ChangeObs>): (r: seq<FileEntry>)
    requires |sights| == |hist|
    ensures |r| == |files|
    ensures forall i :: 0 <= i < |files| ==>
              r[i] == Resolve(files[i], StagedContent(hist, sights, secrets, files[i].path),
                              MarkedLink(hist, sights, files[i].path))
  {
    seq(|files|, i requires 0 <= i < |files| =>
      Resolve(files[i], StagedContent(hist, sights, secrets, files[i].path), MarkedLink(hist, sights, files[i].path)))
  }

  /** The observation captured no content: the file was gone, is a secret, or could not be read. */
  predicate Uncaptured(obs: ChangeObs) {
    obs.deleted || obs.withheld || obs.skipReason == Some(UNREADABLE)
  }

  /** The turn whose flags the record kept for `p` saw the file gone exactly when the last observation of
      `p`, in any turn at all, captured nothing. */
  predicate DeletionIsCurrent(hist: seq<Seen>, c: ClosedTurn, p: Path) {
    var kept := Latest(hist, {Holder(hist, c.id, c.merges, p)}, p);
    var last := LastLook(hist, p);
    kept.Some? && last >= 0 && (kept.value.deleted <==> Uncaptured(hist[last].change))
  }

  /** A path whose last look was a link is marked. */
  lemma {:induction false} LinkIsMarked(hist: seq<Seen>, sights: seq<Sight>, path: Path)
    requires |sights| == |hist|
    requires var i := LastLook(hist, path); i >= 0 && (sights[i].Link? || sights[i].UnreadableLink?)
    ensures MarkedLink(hist, sights, path)
  {
    var n := |hist| - 1;
    if hist[n].change.path != path {
      LinkIsMarked(hist[..n], sights[..n], path);
    }
  }

  /** For a path that is not marked as a link, staging kept no content exactly when its last observation
      captured none. */
  lemma StagedIsLast(hist: seq<Seen>, sights: seq<Sight>, secrets: set<Path>, path: Path)
    requires Staged(hist, sights, secrets) && LastLook(hist, path) >= 0 && !MarkedLink(hist, sights, path)
    ensures StagedContent(hist, sights, secrets, path).None? <==> Uncaptured(hist[LastLook(hist, path)].change)
  {
    var i := LastLook(hist, path);
    var c := hist[i].change;
    assert c == Observe(c.path, c.path in secrets, sights[i], c.beforeHash, c.baselineUnknown);
    if sights[i].Link? || sights[i].UnreadableLink? {
      LinkIsMarked(hist, sights, path);
    }
  }

  /** A path that a turn names was observed, and its flags are those of its holder's last look. */
  lemma NamedWasSeen(hist: seq<Seen>, c: ClosedTurn, i: nat)
    requires ClosedOk(hist, c) && i < |c.files|
    ensures var p := c.files[i].path;
            var kept := Latest(hist, {Holder(hist, c.id, c.merges, p)}, p);
            LastLook(hist, p) >= 0 && kept.Some? && kept.value.deleted == c.files[i].deleted
  {
    var p := c.files[i].path;
    assert MergedPath(hist, c.id, c.merges, c.files, p);
    assert FindPath(c.files, p) == i;
    OriginAndLatest(hist, Covered(c.id, c.merges), p);
    var h :| h in hist && Concerns(h, Covered(c.id, c.merges), p);
  }

  lemma ResolvedReversible(hist: seq<Seen>, sights: seq<Sight>, secrets: set<Path>, c: ClosedTurn, i: nat)
    requires Staged(hist, sights, secrets) && ClosedOk(hist, c) && i < |c.files|
    requires ResolveAll(hist, sights, secrets, c.files)[i].linkKind.None?
    ensures var e := ResolveAll(hist, sights, secrets, c.files)[i];
            Undo.Reversible(e) <==> DeletionIsCurrent(hist, c, e.path) && Undo.TargetFits(e)
  {
    NamedWasSeen(hist, c, i);
    StagedIsLast(hist, sights, secrets, c.files[i].path);
  }

  lemma ResolvedDistinct(hist: seq<Seen>, sights: seq<Sight>, secrets: set<Path>, c: ClosedTurn)
    requires |sights| == |hist| && ClosedOk(hist, c)
    ensures Undo.DistinctPaths(ResolveAll(hist, sights, secrets, c.files))
  {}

  /** Over every run, for every turn that is recorded after it and on any disk: when an undo of the recorded
      turn succeeds, undoing it gives the tree back if and only if, for each path it wrote, the deletion
      flag the record kept is current and what was put back fits the store. */
  lemma RecordedTurnInverts(events: seq<Event>, c: ClosedTurn, sights: seq<Sight>, secrets: set<Path>,
                            disk: Undo.Disk, filter: seq<Path>)
    requires c in Closed(Run(events)) && Staged(Run(events).hist, sights, secrets)
    ensures var hist := Run(events).hist;
            var entries := Undo.Executable(Undo.PlanOf(disk, ResolveAll(hist, sights, secrets, c.files), filter, false));
            Undo.ExecuteAll(disk, entries).failure.None? ==>
              (Undo.Inverts(disk, entries) <==>
               forall e :: e in entries ==> DeletionIsCurrent(hist, c, e.path) && Undo.TargetFits(e))
  {
    var hist := Run(events).hist;
    var files := ResolveAll(hist, sights, secrets, c.files);
    var entries := Undo.Executable(Undo.PlanOf(disk, files, filter, false));
    RunInv(events);
    assert ClosedOk(hist, c);
    ResolvedDistinct(hist, sights, secrets, c);
    Undo.UndoInvertsUndo(disk, files, filter);
    Undo.ExecutableMembers(disk, files, filter, false);
    forall e | e in entries
      ensures Undo.Reversible(e) <==> DeletionIsCurrent(hist, c, e.path) && Undo.TargetFits(e)
    {
      var i :| 0 <= i < |files| && files[i] == e;
      ResolvedReversible(hist, sights, secrets, c, i);
    }
  }

  // ---- the entry, field by field ----------------------------------------------------------------------

  /** `k` is the last observation of `p` that turn `holder` made. */
  predicate LastOf(hist: seq<Seen>, holder: TurnId, p: Path, k: nat) {
    && k < |hist| && hist[k].turn == holder && hist[k].change.path == p
    && forall j :: k < j < |hist| && hist[j].turn == holder ==> hist[j].change.path != p
  }

  lemma {:induction false} LatestIsLast(hist: seq<Seen>, holder: TurnId, p: Path, k: nat)
    requires LastOf(hist, holder, p, k)
    ensures Latest(hist, {holder}, p) == Some(hist[k].change)
  {
    var n := |hist| - 1;
    if k < n {
      assert !Concerns(hist[n], {holder}, p);
      LatestIsLast(hist[..n], holder, p, k);
    }
  }

  lemma {:induction false} LastExists(hist: seq<Seen>, holder: TurnId, p: Path) returns (k: nat)
    requires Latest(hist, {holder}, p).Some?
    ensures LastOf(hist, holder, p, k)
  {
    var n := |hist| - 1;
    if Concerns(hist[n], {holder}, p) {
      k := n;
    } else {
      k := LastExists(hist[..n], holder, p);
      assert forall j :: k < j < n ==> hist[..n][j] == hist[j];
    }
  }

  /** What a look at the file told about it; of a secret it told only whether it was there. */
  predicate FlagsSay(sight: Sight, secret: bool, e: FileEntry) {
    && (e.op == Delete <==> sight.Gone?)
    && (e.withheld <==> secret)
    && (e.skipped <==> !secret && (sight.NotStored? || sight.UnreadableLink? || sight.UnreadableFile?))
  }

  /** The content a look found, of anything but a secret: also that of a file too large to store. */
  predicate ContentSays(sight: Sight, secret: bool, after: Option<Hash>) {
    if secret then after.None?
    else match sight
      case Gone => after.None?
      case Link(target) => after == target
      case UnreadableLink => after.None?
      case Stored(content) => after == Some(content)
      case NotStored(content, _) => after == Some(content)
      case UnreadableFile => after.None?
  }

  predicate SawLink(sight: Sight) {
    sight.Link? || sight.UnreadableLink?
  }

  /** Observation `k` is the last one that saw anything at `p`. */
  predicate LastThere(hist: seq<Seen>, sights: seq<Sight>, p: Path, k: nat)
    requires |sights| == |hist|
  {
    && k < |hist| && hist[k].change.path == p && !sights[k].Gone?
    && forall j :: k < j < |hist| && hist[j].change.path == p ==> sights[j].Gone?
  }

  ghost predicate WasLink(hist: seq<Seen>, sights: seq<Sight>, p: Path)
    requires |sights| == |hist|
  {
    exists k: nat :: LastThere(hist, sights, p, k) && SawLink(sights[k])
  }

  /** A path is marked exactly when the last thing seen there was a link, whether or not it is there still. */
  lemma {:induction false} MarkedExactly(hist: seq<Seen>, sights: seq<Sight>, p: Path)
    requires |sights| == |hist|
    ensures MarkedLink(hist, sights, p) <==> WasLink(hist, sights, p)
  {
    if hist != [] {
      var n := |hist| - 1;
      if hist[n].change.path != p || sights[n].Gone? {
        MarkedExactly(hist[..n], sights[..n], p);
        forall k: nat ensures LastThere(hist, sights, p, k) <==> LastThere(hist[..n], sights[..n], p, k) {
          LastThereBefore(hist, sights, p, k);
        }
        if WasLink(hist, sights, p) {
          var k: nat :| LastThere(hist, sights, p, k) && SawLink(sights[k]);
          assert LastThere(hist[..n], sights[..n], p, k) && sights[..n][k] == sights[k];
        }
        if WasLink(hist[..n], sights[..n], p) {
          var k: nat :| LastThere(hist[..n], sights[..n], p, k) && SawLink(sights[..n][k]);
          assert LastThere(hist, sights, p, k);
        }
      } else {
        assert LastThere(hist, sights, p, n);
        forall k: nat | LastThere(hist, sights, p, k) ensures k == n {}
      }
    }
  }

  lemma LastThereBefore(hist: seq<Seen>, sights: seq<Sight>, p: Path, k: nat)
    requires |sights| == |hist| && hist != []
    requires var n := |hist| - 1; hist[n].change.path != p || sights[n].Gone?
    ensures var n := |hist| - 1; LastThere(hist, sights, p, k) <==> LastThere(hist[..n], sights[..n], p, k)
  {
    var n := |hist| - 1;
    if k < n {
      assert forall j :: k <= j < n ==> hist[..n][j] == hist[j] && sights[..n][j] == sights[j];
    }
  }

  /** An entry of a recorded turn, from what was seen and without the recorder's functions: its operation, and
      whether it is withheld or skipped, come from the last look of the turn that holds the path; its content
      from the last look of any turn; its link mark from the last look that saw anything; and a file is a
      creation when it was not gone, and nothing was known to have been there before. */
  ghost predicate EntrySays(hist: seq<Seen>, sights: seq<Sight>, secrets: set<Path>, obs: ChangeObs, held: nat, e: FileEntry)
    requires |sights| == |hist| && held < |hist|
  {
    && e.path == obs.path && e.before == obs.beforeHash && e.afterSynthesized.None?
    && FlagsSay(sights[held], e.path in secrets, e)
    && (e.op == Create <==> !sights[held].Gone? && obs.beforeHash.None? && !obs.baselineUnknown)
    && e.op in {Create, Modify, Delete}
    && e.linkKind == (if WasLink(hist, sights, e.path) then Some("symlink") else None)
    && forall j :: 0 <= j < |hist| && hist[j].change.path == e.path
         && (forall i :: j < i < |hist| ==> hist[i].change.path != e.path)
         ==> ContentSays(sights[j], e.path in secrets, e.after)
  }

  lemma EntryOf(hist: seq<Seen>, sights: seq<Sight>, secrets: set<Path>, obs: ChangeObs, held: nat)
    requires Staged(hist, sights, secrets) && held < |hist| && hist[held].change.path == obs.path
    requires var c := hist[held].change;
             obs.deleted == c.deleted && obs.withheld == c.withheld && obs.snapshotted == c.snapshotted
    ensures EntrySays(hist, sights, secrets, obs, held,
                      Resolve(obs, StagedContent(hist, sights, secrets, obs.path), MarkedLink(hist, sights, obs.path)))
  {
    var c := hist[held].change;
    assert c == Observe(c.path, c.path in secrets, sights[held], c.beforeHash, c.baselineUnknown);
    MarkedExactly(hist, sights, obs.path);
    forall j | 0 <= j < |hist| && hist[j].change.path == obs.path
               && (forall i :: j < i < |hist| ==> hist[i].change.path != obs.path)
      ensures ContentSays(sights[j], obs.path in secrets, StagedContent(hist, sights, secrets, obs.path))
    {
      assert LastLook(hist, obs.path) == j;
    }
  }

  /** Over every run, for every turn that is recorded after it and each path it names. */
  lemma EntryExactly(events: seq<Event>, c: ClosedTurn, sights: seq<Sight>, secrets: set<Path>, i: nat)
    returns (held: nat)
    requires c in Closed(Run(events)) && Staged(Run(events).hist, sights, secrets) && i < |c.files|
    ensures var hist, p := Run(events).hist, c.files[i].path;
            && LastOf(hist, Holder(hist, c.id, c.merges, p), p, held)
            && EntrySays(hist, sights, secrets, c.files[i], held, ResolveAll(hist, sights, secrets, c.files)[i])
  {
    var hist, p := Run(events).hist, c.files[i].path;
    RunInv(events);
    assert ClosedOk(hist, c);
    HeldFlags(hist, c, i);
    held := LastExists(hist, Holder(hist, c.id, c.merges, p), p);
    LatestIsLast(hist, Holder(hist, c.id, c.merges, p), p, held);
    EntryOf(hist, sights, secrets, c.files[i], held);
  }

  lemma HeldFlags(hist: seq<Seen>, c: ClosedTurn, i: nat)
    requires ClosedOk(hist, c) && i < |c.files|
    ensures var p := c.files[i].path;
            var kept := Latest(hist, {Holder(hist, c.id, c.merges, p)}, p);
            && kept.Some? && c.files[i].deleted == kept.value.deleted
            && c.files[i].withheld == kept.value.withheld && c.files[i].snapshotted == kept.value.snapshotted
  {
    var p := c.files[i].path;
    assert MergedPath(hist, c.id, c.merges, c.files, p);
    assert FindPath(c.files, p) == i;
  }

  /** The cause of a skip is told apart, and only a file that was read or could not be read has one. */
  lemma SkipReasonSays(path: Path, secret: bool, sight: Sight, before: Option<Hash>, baselineUnknown: bool)
    ensures var reason := Observe(path, secret, sight, before, baselineUnknown).skipReason;
            && (reason == Some("over_cap") <==> !secret && sight.NotStored? && sight.overCap)
            && (reason == Some("io_failed") <==> !secret && sight.NotStored? && !sight.overCap)
            && (reason == Some("unreadable") <==> !secret && (sight.UnreadableFile? || sight.UnreadableLink?))
            && (reason.None? <==> secret || sight.Gone? || sight.Link? || sight.Stored?)
  {
    assert "over_cap"[0] == 'o' && "io_failed"[0] == 'i' && "unreadable"[0] == 'u';
  }

  // ---- secrets --------------------------------------------------------------------------------------

  /** A named path is withheld exactly when it is a secret, and its entry says what its holder's last look
      captured. */
  lemma NamedFlags(hist: seq<Seen>, sights: seq<Sight>, secrets: set<Path>, c: ClosedTurn, i: nat)
    requires Staged(hist, sights, secrets) && ClosedOk(hist, c) && i < |c.files|
    ensures var p := c.files[i].path;
            var kept := Latest(hist, {Holder(hist, c.id, c.merges, p)}, p);
            && (c.files[i].withheld <==> p in secrets)
            && kept.Some? && c.files[i].snapshotted == kept.value.snapshotted
  {
    var p := c.files[i].path;
    var holder := {Holder(hist, c.id, c.merges, p)};
    assert MergedPath(hist, c.id, c.merges, c.files, p);
    assert FindPath(c.files, p) == i;
    LatestIsSeen(hist, holder, p);
  }

  lemma {:induction false} LatestIsSeen(hist: seq<Seen>, turns: set<TurnId>, p: Path)
    requires Latest(hist, turns, p).Some?
    ensures exists i :: 0 <= i < |hist| && hist[i].change == Latest(hist, turns, p).value && hist[i].change.path == p
  {
    var n := |hist| - 1;
    if Concerns(hist[n], turns, p) {
      assert hist[n].change == Latest(hist, turns, p).value;
    } else {
      LatestIsSeen(hist[..n], turns, p);
      var i :| 0 <= i < n && hist[..n][i].change == Latest(hist[..n], turns, p).value && hist[..n][i].change.path == p;
      assert hist[i].change == Latest(hist, turns, p).value;
    }
  }

  /** Over every run, for every recorded turn, on any disk and even with modified files admitted: no secret, no
      link and no file whose content was not captured is ever planned for writing; and executing the plan
      leaves every secret alone and stores nothing but what files that are no secrets had on disk. */
  lemma SecretsAreNeverTouched(events: seq<Event>, c: ClosedTurn, sights: seq<Sight>, secrets: set<Path>,
                               disk: Undo.Disk, filter: seq<Path>, allowModified: bool)
    requires c in Closed(Run(events)) && Staged(Run(events).hist, sights, secrets)
    ensures var hist := Run(events).hist;
            var entries := Undo.Executable(Undo.PlanOf(disk, ResolveAll(hist, sights, secrets, c.files), filter, allowModified));
            var r := Undo.ExecuteAll(disk, entries);
            && (forall e :: e in entries ==>
                  && e.path !in secrets && !MarkedLink(hist, sights, e.path)
                  && var kept := Latest(hist, {Holder(hist, c.id, c.merges, e.path)}, e.path);
                     kept.Some? && kept.value.snapshotted)
            && (forall p :: p in secrets ==> Undo.ContentAt(r.disk, p) == Undo.ContentAt(disk, p))
            && (forall h :: h in r.disk.objects && (h !in disk.objects || r.disk.objects[h] != disk.objects[h]) ==>
                  r.disk.objects[h] == h.content
                  && exists p :: p !in secrets && Undo.ContentAt(disk, p) == Some(h.content))
  {
    var hist := Run(events).hist;
    var files := ResolveAll(hist, sights, secrets, c.files);
    var entries := Undo.Executable(Undo.PlanOf(disk, files, filter, allowModified));
    RunInv(events);
    assert ClosedOk(hist, c);
    ResolvedDistinct(hist, sights, secrets, c);
    Undo.ExecutableExactly(disk, files, filter, allowModified);
    Undo.ExecutableDistinct(disk, files, filter, allowModified);
    forall e | e in entries
      ensures e.path !in secrets && !MarkedLink(hist, sights, e.path)
      ensures var kept := Latest(hist, {Holder(hist, c.id, c.merges, e.path)}, e.path); kept.Some? && kept.value.snapshotted
    {
      var i :| 0 <= i < |files| && files[i] == e;
      NamedFlags(hist, sights, secrets, c, i);
    }
    NoSecretIsStored(disk, entries, secrets);
  }

  lemma NoSecretIsStored(disk: Undo.Disk, entries: seq<FileEntry>, secrets: set<Path>)
    requires Undo.DistinctPaths(entries) && forall e :: e in entries ==> e.path !in secrets
    ensures var r := Undo.ExecuteAll(disk, entries);
            && (forall p :: p in secrets ==> Undo.ContentAt(r.disk, p) == Undo.ContentAt(disk, p))
            && (forall h :: h in r.disk.objects && (h !in disk.objects || r.disk.objects[h] != disk.objects[h]) ==>
                  r.disk.objects[h] == h.content
                  && exists p :: p !in secrets && Undo.ContentAt(disk, p) == Some(h.content))
  {
    Undo.OnlyReplacedContentIsStored(disk, entries);
    var r := Undo.ExecuteAll(disk, entries);
    forall p | p in EntryPaths(entries) ensures p !in secrets {
      var i :| 0 <= i < |entries| && EntryPaths(entries)[i] == p;
      assert entries[i] in entries;
    }
    forall h | h in r.disk.objects && (h !in disk.objects || r.disk.objects[h] != disk.objects[h])
      ensures r.disk.objects[h] == h.content
      ensures exists p :: p !in secrets && Undo.ContentAt(disk, p) == Some(h.content)
    {
      Undo.StoredAt(disk, entries, h);
      var e :| e in entries && Undo.ContentAt(disk, e.path) == Some(h.content);
      assert e.path !in secrets;
    }
  }

  // ---- a restored file that is recorded as deleted ------------------------------------------------

  const WAS: Bytes := [0]
  const BACK: Bytes := [1]

  /** The disk after the file was deleted and written again. */
  function RestoredDisk(path: Path): Undo.Disk {
    Undo.Disk(map[path := BACK], {}, map[Sha256(WAS) := WAS, Sha256(BACK) := BACK])
  }

  /** Undoing the record of a deletion whose staged content is that of the restored file, and undoing that. */
  predicate LosesTheFile(path: Path, files: seq<FileEntry>) {
    var disk := RestoredDisk(path);
    var undo := Undo.ExecuteAll(disk, files);
    var redo := Undo.ExecuteAll(undo.disk, undo.inverse);
    && Undo.Executable(Undo.PlanOf(disk, files, [], false)) == files
    && undo.failure.None? && undo.disk.tree == map[path := WAS]
    && redo.failure.None? && redo.disk.tree == map[]
  }

  lemma StaleRecordLosesTheFile(path: Path)
    ensures LosesTheFile(path, [FileEntry(path, Some(Sha256(WAS)), Some(Sha256(BACK)), Delete, false, false, None, None)])
  {
    var disk := RestoredDisk(path);
    var entry := FileEntry(path, Some(Sha256(WAS)), Some(Sha256(BACK)), Delete, false, false, None, None);
    Undo.AllExecutable(disk, [entry]);
    OneByOne(disk, entry);
    var first := Undo.ExecuteRevert(disk, entry);
    assert first.outcome.value == FileEntry(path, Some(Sha256(BACK)), Some(Sha256(WAS)), Create, false, false, None, None);
    OneByOne(first.disk, first.outcome.value);
  }

  lemma OneByOne(disk: Undo.Disk, entry: FileEntry)
    requires Undo.ExecuteRevert(disk, entry).outcome.Ok?
    ensures var r := Undo.ExecuteRevert(disk, entry);
            Undo.ExecuteAll(disk, [entry]) == Undo.RevertedAll(r.disk, [r.outcome.value], None)
  {
    assert [entry][1..] == [];
  }

  /** The history of a file that one turn deletes and the next one restores, and what staging saw. */
  function GoneAndBack(path: Path): seq<Seen> {
    [Seen(0, Deleted(path, Sha256(WAS))), Seen(1, Restored(path))]
  }

  const GONE_AND_BACK: seq<Sight> := [Gone, Stored(Sha256(BACK))]

  lemma GoneAndBackResolves(path: Path)
    ensures Staged(GoneAndBack(path), GONE_AND_BACK, {})
    ensures ResolveAll(GoneAndBack(path), GONE_AND_BACK, {}, [Deleted(path, Sha256(WAS))])
         == [FileEntry(path, Some(Sha256(WAS)), Some(Sha256(BACK)), Delete, false, false, None, None)]
  {
    assert LastLook(GoneAndBack(path), path) == 1;
  }

  /** A file deleted in one fragment and written again in the next is recorded as deleted, with the new
      content.  Its undo is planned and succeeds, and so does the undo of that undo, but the tree is not
      what it was: the file is gone. */
  lemma RestoredFileIsNotInverted(path: Path)
    ensures var t := Run(DeletedAndRestored(path, Sha256(WAS)));
            var c := StaleTurn(path, Sha256(WAS));
            && c in t.returned && Staged(t.hist, GONE_AND_BACK, {})
            && LosesTheFile(path, ResolveAll(t.hist, GONE_AND_BACK, {}, c.files))
  {
    StaleRun(path, Sha256(WAS));
    GoneAndBackResolves(path);
    StaleRecordLosesTheFile(path);
  }

  // ---- the same, across a turn that is not merged ----------------------------------------------------

  const GIT_AT: nat := QUIET_MS + 2
  const GIT_CLOSED: nat := GIT_AT + 1 + GIT_SETTLE_MS + 1

  /** A file is deleted and a quiet window passes; a git turn writes it again; and a stop without a start
      then claims the deletion, but not the git turn. */
  function RestoredByGit(path: Path, was: Hash): seq<Event> {
    [Changes(0, [Deleted(path, was)]), Ticked(QUIET_MS + 1),
     GitChange(GIT_AT), Changes(GIT_AT + 1, [Restored(path)]), Ticked(GIT_CLOSED),
     Stop(GIT_CLOSED + 1, "agent", None, None)]
  }

  function GitTurn(path: Path): ClosedTurn {
    ClosedTurn(1, true, GitSettle, false, Some("git"), None, None, GIT_AT + 1, GIT_CLOSED, [Restored(path)], [])
  }

  function UncoveredTurn(path: Path, was: Hash): ClosedTurn {
    ClosedTurn(2, true, StopOnly, false, Some("agent"), None, None, 0, GIT_CLOSED + 1, [Deleted(path, was)], [0])
  }

  /** One git turn, from the git change to its settling, while `b` waits to be merged. */
  lemma OneGitTurn(t: Trace, path: Path, b: ClosedTurn)
    requires t.engine == Engine(None, None, 0, [b], 0, [], 1) && b.closedAt == QUIET_MS + 1
    ensures var u := After(After(After(t, GitChange(GIT_AT)), Changes(GIT_AT + 1, [Restored(path)])), Ticked(GIT_CLOSED));
            && u.engine == Engine(None, None, GIT_AT + GIT_SETTLE_MS, [b], 0, [], 2)
            && u.returned == t.returned + [GitTurn(path)] && u.hist == t.hist + [Seen(1, Restored(path))]
  {
    var change := Restored(path);
    var g := After(t, GitChange(GIT_AT));
    assert Absorb([], change) == [change];
    assert AbsorbAll([], [change]) == [change];
    assert Tagged(1, [change]) == [Seen(1, change)];
    var o := After(g, Changes(GIT_AT + 1, [change]));
    assert o.engine.open == Some(OpenTurn(Git, Some("git"), None, None, GIT_AT + 1, [change], 1));
    assert Retain([b], GIT_CLOSED) == [b];
    assert [] + [GitTurn(path)] == [GitTurn(path)];
  }

  lemma UncoveredFold(path: Path, was: Hash)
    ensures Fold([FirstFragment(path, was)], EmptyRich(2, GIT_CLOSED + 1, "agent", None, None), 0) == UncoveredTurn(path, was)
  {
    var b, turn := FirstFragment(path, was), EmptyRich(2, GIT_CLOSED + 1, "agent", None, None);
    assert [b][1..] == [];
    assert Eligible([b], turn, 0) == [b];
    SortedAlready([b]);
    assert FoldFiles(Merge([], {}), b.files) == Merge([Deleted(path, was)], {path});
    assert FoldFragments(Merge([], {}), [b]) == FoldFragments(Merge([Deleted(path, was)], {path}), []);
    assert EarliestOpened(turn.openedAt, [b]) == 0;
    assert [] + Ids([b]) == [0];
  }

  lemma UncoveredStop(t: Trace, path: Path, was: Hash)
    requires t.engine == Engine(None, None, GIT_AT + GIT_SETTLE_MS, [FirstFragment(path, was)], 0, [], 2)
    ensures var u := After(t, Stop(GIT_CLOSED + 1, "agent", None, None));
            UncoveredTurn(path, was) in u.returned && u.hist == t.hist
  {
    UncoveredFold(path, was);
  }

  lemma PlaySix(t: Trace, a: Event, b: Event, c: Event, d: Event, e: Event, f: Event)
    ensures Play(t, [a, b, c, d, e, f]) == After(After(After(After(After(After(t, a), b), c), d), e), f)
  {
    PlayOne(t, a, [b, c, d, e, f]);
    assert [a] + [b, c, d, e, f] == [a, b, c, d, e, f];
    PlayFive(After(t, a), b, c, d, e, f);
  }

  lemma UncoveredRun(path: Path, was: Hash)
    ensures var t := Run(RestoredByGit(path, was));
            UncoveredTurn(path, was) in t.returned && t.hist == [Seen(0, Deleted(path, was)), Seen(1, Restored(path))]
  {
    var events := RestoredByGit(path, was);
    var a, b, c, d, e, f := events[0], events[1], events[2], events[3], events[4], events[5];
    OneFragment(Beginning, Deleted(path, was), 0, FirstFragment(path, was));
    var t := After(After(Beginning, a), b);
    OneGitTurn(t, path, FirstFragment(path, was));
    UncoveredStop(After(After(After(t, c), d), e), path, was);
    PlaySix(Beginning, a, b, c, d, e, f);
    assert events == [a, b, c, d, e, f];
  }

  /** The record of a stop whose merge passed over a git turn that restored the file: among the turns the
      record covers its deletion flag is the latest, and still the undo of its undo loses the file. */
  lemma RestoredByGitIsNotInverted(path: Path)
    ensures var t := Run(RestoredByGit(path, Sha256(WAS)));
            var c := UncoveredTurn(path, Sha256(WAS));
            && c in t.returned && Staged(t.hist, GONE_AND_BACK, {})
            && LatestWins(t.hist, c.id, c.merges, path)
            && LosesTheFile(path, ResolveAll(t.hist, GONE_AND_BACK, {}, c.files))
  {
    UncoveredRun(path, Sha256(WAS));
    GoneAndBackResolves(path);
    StaleRecordLosesTheFile(path);
    OneFragmentWins(GoneAndBack(path), 2, 0, path);
  }

  lemma OneFragmentWins(hist: seq<Seen>, id: TurnId, m: TurnId, path: Path)
    ensures LatestWins(hist, id, [m], path)
  {
    assert [m][..0] == [];
    assert FirstHolding(hist, [], path).None? && LastHolding(hist, [], path).None?;
  }
}
