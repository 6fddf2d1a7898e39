/** The undo planner and the revert primitive: which entries of a turn may be reverted, and what
    reverting them does to the working tree and the content store. */
module UndoPlan {
  import opened Records

  /** The part of the disk an undo reads and writes.  `barred` holds the paths that the
      containment gates (escape, inode and on-disk link) refuse at this moment. */
  datatype Disk = Disk(tree: map<Path, Bytes>, barred: set<Path>, objects: Objects)

  datatype RefusalReason =
    | Contained | RecordedLink | SecretFile | NotSnapshotted | NoPriorSnapshot
    | SnapshotUnavailable | SnapshotCorrupt

  datatype PlanKind = Revert(modifiedSince: bool) | Excluded | Refused(reason: RefusalReason)

  datatype Plan = Plan(entry: FileEntry, kind: PlanKind)

  datatype RevertError = SnapshotFailed | RestoreRefused | NothingToRestore | ObjectUnreadable

  /** The content hash `path` has on disk, `None` when it is absent. */
  function CurrentHash(disk: Disk, path: Path): Option<Hash> {
    if path in disk.tree then Some(Sha256(disk.tree[path])) else None
  }

  predicate Intact(objects: Objects, hash: Hash) {
    Get(objects, hash).Blob?
  }

  /** The gates of the planner, in their order. */
  function Classify(disk: Disk, entry: FileEntry, allowModified: bool): PlanKind {
    if entry.path in disk.barred then Refused(Contained)
    else if entry.linkKind.Some? then Refused(RecordedLink)
    else if entry.withheld then Refused(SecretFile)
    else if entry.skipped then Refused(NotSnapshotted)
    else if entry.op in {Modify, Delete} && entry.before.None? then Refused(NoPriorSnapshot)
    else if entry.op in {Modify, Delete} && Get(disk.objects, entry.before.value).Missing? then
      Refused(SnapshotUnavailable)
    else if entry.op in {Modify, Delete} && Get(disk.objects, entry.before.value).Corrupt? then
      Refused(SnapshotCorrupt)
    else
      var modified := CurrentHash(disk, entry.path) != entry.after;
      if modified && !allowModified then Excluded else Revert(modified)
  }

  predicate Selected(filter: seq<Path>, path: Path) {
    filter == [] || path in filter
  }

  /** An empty filter selects the whole turn. */
  function PlanOf(disk: Disk, files: seq<FileEntry>, filter: seq<Path>, allowModified: bool): seq<Plan> {
    if files == [] then []
    else
      var rest := PlanOf(disk, files[1..], filter, allowModified);
      if Selected(filter, files[0].path)
      then [Plan(files[0], Classify(disk, files[0], allowModified))] + rest
      else rest
  }

  /** The entries a plan would write, in plan order. */
  function Executable(plans: seq<Plan>): (entries: seq<FileEntry>) {
    if plans == [] then []
    else (if plans[0].kind.Revert? then [plans[0].entry] else []) + Executable(plans[1..])
  }

  lemma PlanOfAppend(disk: Disk, a: seq<FileEntry>, b: seq<FileEntry>, filter: seq<Path>, allowModified: bool)
    ensures PlanOf(disk, a + b, filter, allowModified)
         == PlanOf(disk, a, filter, allowModified) + PlanOf(disk, b, filter, allowModified)
  {
    if a == [] {
      assert a + b == b;
    } else {
      assert (a + b)[1..] == a[1..] + b;
      PlanOfAppend(disk, a[1..], b, filter, allowModified);
    }
  }

  lemma PlanOfOne(disk: Disk, file: FileEntry, filter: seq<Path>, allowModified: bool)
    ensures PlanOf(disk, [file], filter, allowModified)
         == if Selected(filter, file.path) then [Plan(file, Classify(disk, file, allowModified))] else []
  {
    assert [file][1..] == [];
  }

  /** `build_plan`: one row per selected file, in file order. */
  method BuildPlan(disk: Disk, files: seq<FileEntry>, filter: seq<Path>, allowModified: bool)
    returns (plans: seq<Plan>)
    ensures plans == PlanOf(disk, files, filter, allowModified)
    ensures forall e :: e in Executable(plans) <==>
              e in files && (filter == [] || e.path in filter) && Fit(disk, e, allowModified)
  {
    plans := [];
    for i := 0 to |files|
      invariant plans == PlanOf(disk, files[..i], filter, allowModified)
    {
      assert files[..i + 1] == files[..i] + [files[i]];
      PlanOfAppend(disk, files[..i], [files[i]], filter, allowModified);
      PlanOfOne(disk, files[i], filter, allowModified);
      if Selected(filter, files[i].path) {
        plans := plans + [Plan(files[i], Classify(disk, files[i], allowModified))];
      }
    }
    assert files[..|files|] == files;
    ExecutableExactly(disk, files, filter, allowModified);
  }

  /** What a plan may write: exactly the selected entries whose classification is `Revert`. */
  lemma {:induction false} ExecutableMembers(
    disk: Disk, files: seq<FileEntry>, filter: seq<Path>, allowModified: bool)
    ensures forall e :: e in Executable(PlanOf(disk, files, filter, allowModified)) <==>
              e in files && Selected(filter, e.path) && Classify(disk, e, allowModified).Revert?
  {
    if files != [] {
      ExecutableMembers(disk, files[1..], filter, allowModified);
      assert files == [files[0]] + files[1..];
    }
  }

  /** What a selected entry must meet to be written, said without the gates: its path is contained and no
      link, its content was captured, what it puts back can be read, and its file is as the turn left it
      unless modified files are admitted. */
  predicate Fit(disk: Disk, e: FileEntry, allowModified: bool) {
    && e.path !in disk.barred && e.linkKind.None? && !e.withheld && !e.skipped
    && (e.op == Modify || e.op == Delete ==>
          e.before.Some? && e.before.value in disk.objects && disk.objects[e.before.value] == e.before.value.content)
    && (allowModified || e.after == if e.path in disk.tree then Some(Sha256(disk.tree[e.path])) else None)
  }

  /** What a refusal says is so. */
  predicate RefusalHolds(disk: Disk, e: FileEntry, reason: RefusalReason) {
    match reason
    case Contained => e.path in disk.barred
    case RecordedLink => e.linkKind.Some?
    case SecretFile => e.withheld
    case NotSnapshotted => e.skipped
    case NoPriorSnapshot => NeedsSnapshot(e) && e.before.None?
    case SnapshotUnavailable => NeedsSnapshot(e) && e.before.Some? && e.before.value !in disk.objects
    case SnapshotCorrupt =>
      && NeedsSnapshot(e) && e.before.Some? && e.before.value in disk.objects
      && disk.objects[e.before.value] != e.before.value.content
  }

  predicate NeedsSnapshot(e: FileEntry) {
    e.op == Modify || e.op == Delete
  }

  /** The refusals by precedence. */
  function RefusalRank(reason: RefusalReason): nat {
    match reason
    case Contained => 0
    case RecordedLink => 1
    case SecretFile => 2
    case NotSnapshotted => 3
    case NoPriorSnapshot => 4
    case SnapshotUnavailable => 5
    case SnapshotCorrupt => 6
  }

  ghost predicate FirstRefusal(disk: Disk, e: FileEntry, reason: RefusalReason) {
    && RefusalHolds(disk, e, reason)
    && forall other :: RefusalHolds(disk, e, other) ==> RefusalRank(reason) <= RefusalRank(other)
  }

  /** A plan row says the truth: a revert is fit, an exclusion is for nothing but a modification, and a refusal
      names, of what holds whether or not modified files are admitted, that which goes first. */
  lemma ClassifiedExactly(disk: Disk, e: FileEntry, allowModified: bool)
    ensures var kind := Classify(disk, e, allowModified);
            && (kind.Revert? <==> Fit(disk, e, allowModified))
            && (kind.Revert? ==> (kind.modifiedSince <==> !Fit(disk, e, false)))
            && (kind.Excluded? <==> !allowModified && Fit(disk, e, true) && !Fit(disk, e, false))
            && (kind.Refused? <==> !Fit(disk, e, true))
            && (kind.Refused? ==> FirstRefusal(disk, e, kind.reason))
  {}

  /** The entries a plan may write are exactly the selected fit ones: in particular none that is withheld,
      was not captured, or is a link. */
  lemma ExecutableExactly(disk: Disk, files: seq<FileEntry>, filter: seq<Path>, allowModified: bool)
    ensures forall e :: e in Executable(PlanOf(disk, files, filter, allowModified)) <==>
              e in files && (filter == [] || e.path in filter) && Fit(disk, e, allowModified)
  {
    ExecutableMembers(disk, files, filter, allowModified);
    forall e ensures Classify(disk, e, allowModified).Revert? <==> Fit(disk, e, allowModified) {
      ClassifiedExactly(disk, e, allowModified);
    }
  }

  // ---- the revert primitive ----------------------------------------------

  function InverseEntry(path: Path, before: Option<Hash>, after: Option<Hash>, op: Op): FileEntry {
    FileEntry(path, before, after, op, false, false, None, None)
  }

  /** `restore_from_before`, on a disk whose pre-revert bytes are already snapshotted. */
  function Restore(disk: Disk, entry: FileEntry): Result<Disk, RevertError> {
    if entry.linkKind.Some? || entry.path in disk.barred then Err(RestoreRefused)
    else if entry.before.None? then Err(NothingToRestore)
    else match Get(disk.objects, entry.before.value)
      case Blob(bytes) => Ok(disk.(tree := disk.tree[entry.path := bytes]))
      case _ => Err(ObjectUnreadable)
  }

  datatype Reverted = Reverted(disk: Disk, outcome: Result<FileEntry, RevertError>)

  /** `execute_revert`: snapshot what is there, put back what was there, and return the inverse
      entry.  A failure keeps the snapshot it took and leaves the tree alone. */
  function ExecuteRevert(disk: Disk, entry: FileEntry): Reverted {
    var current := CurrentHash(disk, entry.path);
    var stored := if entry.path in disk.tree then Put(disk.objects, disk.tree[entry.path])
                  else Some(disk.objects);
    if stored.None? then Reverted(disk, Err(SnapshotFailed))
    else
      var snapped := disk.(objects := stored.value);
      if entry.op == Create then
        Reverted(snapped.(tree := snapped.tree - {entry.path}),
                 Ok(InverseEntry(entry.path, current, None, Delete)))
      else match Restore(snapped, entry)
        case Ok(restored) =>
          Reverted(restored, Ok(InverseEntry(entry.path, current, entry.before,
                                             if entry.op == Delete then Create else Modify)))
        case Err(error) => Reverted(snapped, Err(error))
  }

  lemma RevertTouchesOnePath(disk: Disk, entry: FileEntry, path: Path)
    ensures path != entry.path ==> ContentAt(ExecuteRevert(disk, entry).disk, path) == ContentAt(disk, path)
    ensures ExecuteRevert(disk, entry).outcome.Ok? ==> ExecuteRevert(disk, entry).outcome.value.path == entry.path
  {}

  datatype RevertedAll = RevertedAll(disk: Disk, inverse: seq<FileEntry>, failure: Option<RevertError>)

  /** The revert loop of an execution: entry by entry, stopping at the first failure. */
  function ExecuteAll(disk: Disk, entries: seq<FileEntry>): (r: RevertedAll)
    ensures |r.inverse| <= |entries|
    ensures EntryPaths(r.inverse) == EntryPaths(entries[..|r.inverse|])
    ensures r.failure.None? <==> |r.inverse| == |entries|
    decreases |entries|
  {
    if entries == [] then RevertedAll(disk, [], None)
    else
      var first := ExecuteRevert(disk, entries[0]);
      if first.outcome.Err? then RevertedAll(first.disk, [], Some(first.outcome.error))
      else
        var rest := ExecuteAll(first.disk, entries[1..]);
        RevertedAll(rest.disk, [first.outcome.value] + rest.inverse, rest.failure)
  }

  // ---- what an execution does ---------------------------------------------

  /** What a path holds, as the content a revert would compare and snapshot. */
  function ContentAt(disk: Disk, path: Path): Option<Bytes> {
    if path in disk.tree then Some(disk.tree[path]) else None
  }

  /** The content a revert of `entry` leaves at its path. */
  function Target(entry: FileEntry): Option<Bytes>
    requires entry.op != Create ==> entry.before.Some?
  {
    if entry.op == Create then None else Some(entry.before.value.content)
  }

  ghost predicate DistinctPaths(entries: seq<FileEntry>) {
    forall i, j :: 0 <= i < j < |entries| ==> entries[i].path != entries[j].path
  }

  /** No object that could be read before becomes unreadable. */
  ghost predicate KeepsObjects(before: Objects, after: Objects) {
    forall h :: Intact(before, h) ==> Intact(after, h)
  }

  function HashOf(content: Option<Bytes>): Option<Hash> {
    match content case None => None case Some(b) => Some(Sha256(b))
  }

  /** The current content fits the store, so it can be snapshotted before it is replaced. */
  predicate Snapshottable(disk: Disk, path: Path) {
    path in disk.tree ==> |disk.tree[path]| <= MAX_SNAPSHOT_BYTES
  }

  /** The write primitive lets `entry` through. */
  predicate Writable(disk: Disk, entry: FileEntry) {
    entry.op == Create || (entry.path !in disk.barred && entry.linkKind.None?)
  }

  /** The content `entries[i]` puts back can be read when its turn comes: the store has it, or it is what
      an entry up to this one had on disk, which the execution itself stores. */
  ghost predicate Obtainable(disk: Disk, entries: seq<FileEntry>, i: nat)
    requires i < |entries|
  {
    var e := entries[i];
    e.op == Create ||
    (e.before.Some? &&
     (Intact(disk.objects, e.before.value) ||
      exists j :: 0 <= j <= i && ContentAt(disk, entries[j].path) == Some(e.before.value.content)))
  }

  ghost predicate Revertible(disk: Disk, entries: seq<FileEntry>, i: nat)
    requires i < |entries|
  {
    Snapshottable(disk, entries[i].path) && Writable(disk, entries[i]) && Obtainable(disk, entries, i)
  }

  /** The inverse entry of a revert: what the path held, and what it holds now. */
  function Inverse(disk: Disk, entry: FileEntry): FileEntry {
    InverseEntry(entry.path, CurrentHash(disk, entry.path), if entry.op == Create then None else entry.before,
                 if entry.op == Create then Delete else if entry.op == Delete then Create else Modify)
  }

  /** `after` is `disk` with `entry` reverted, as far as `entry` is concerned. */
  predicate Done(disk: Disk, after: Disk, entry: FileEntry) {
    && (entry.op != Create ==> entry.before.Some?)
    && ContentAt(after, entry.path) == Target(entry)
    && (entry.path in disk.tree ==> Intact(after.objects, Sha256(disk.tree[entry.path])))
  }

  /** One revert: exactly when it succeeds, and that it does what its entry says and nothing else. */
  lemma OneRevert(disk: Disk, entry: FileEntry)
    ensures var r := ExecuteRevert(disk, entry);
            && (r.outcome.Ok? <==> Revertible(disk, [entry], 0))
            && (r.outcome.Ok? ==> Done(disk, r.disk, entry) && r.outcome.value == Inverse(disk, entry))
            && r.disk.barred == disk.barred
            && (forall p :: p != entry.path ==> ContentAt(r.disk, p) == ContentAt(disk, p))
            && (r.outcome.Ok? ==> forall h :: Intact(r.disk.objects, h) <==>
                  Intact(disk.objects, h) || ContentAt(disk, entry.path) == Some(h.content))
  {
    assert [entry][0] == entry;
    if Obtainable(disk, [entry], 0) && entry.op != Create && !Intact(disk.objects, entry.before.value) {
      var j :| 0 <= j <= 0 && ContentAt(disk, [entry][j].path) == Some(entry.before.value.content);
      assert ContentAt(disk, entry.path) == Some(entry.before.value.content);
    }
  }

  /** The bytes of `hash` are at hand once the current content of `path` has been stored. */
  predicate AtHand(disk: Disk, path: Path, hash: Hash) {
    || ContentAt(disk, path) == Some(hash.content)
    || (hash in disk.objects && disk.objects[hash] == hash.content)
  }

  /** Why a revert fails: the current file is too large to keep; or, for anything but a creation, the write is
      not allowed there, there is no snapshot to put back, or it cannot be read; in this order. */
  lemma FailsExactly(disk: Disk, entry: FileEntry)
    ensures var outcome := ExecuteRevert(disk, entry).outcome;
            var tooLarge := entry.path in disk.tree && |disk.tree[entry.path]| > 10_485_760;
            && (outcome == Err(SnapshotFailed) <==> tooLarge)
            && (outcome == Err(RestoreRefused) <==> !tooLarge && !Writable(disk, entry))
            && (outcome == Err(NothingToRestore) <==>
                  !tooLarge && Writable(disk, entry) && entry.op != Create && entry.before.None?)
            && (outcome == Err(ObjectUnreadable) <==>
                  !tooLarge && Writable(disk, entry) && entry.op != Create && entry.before.Some?
                  && !AtHand(disk, entry.path, entry.before.value))
  {}

  lemma PathsOfTail(entries: seq<FileEntry>, p: Path)
    requires entries != []
    ensures p in EntryPaths(entries) <==> p == entries[0].path || p in EntryPaths(entries[1..])
  {
    assert EntryPaths(entries) == [entries[0].path] + EntryPaths(entries[1..]);
  }

  /** After the first revert, what the remaining entries need is what they needed before it. */
  lemma NeedsOfTail(disk: Disk, entries: seq<FileEntry>, i: nat)
    requires DistinctPaths(entries) && 0 < i < |entries| && ExecuteRevert(disk, entries[0]).outcome.Ok?
    ensures Revertible(ExecuteRevert(disk, entries[0]).disk, entries[1..], i - 1) <==> Revertible(disk, entries, i)
  {
    var next, rest := ExecuteRevert(disk, entries[0]).disk, entries[1..];
    OneRevert(disk, entries[0]);
    assert rest[i - 1] == entries[i];
    forall j | 0 <= j < |rest| ensures ContentAt(next, rest[j].path) == ContentAt(disk, entries[j + 1].path) {
      assert rest[j] == entries[j + 1];
    }
    if Obtainable(disk, entries, i) && entries[i].op != Create && !Intact(next.objects, entries[i].before.value) {
      var j :| 0 <= j <= i && ContentAt(disk, entries[j].path) == Some(entries[i].before.value.content);
      assert ContentAt(next, rest[j - 1].path) == Some(entries[i].before.value.content);
    }
  }

  /** An execution succeeds exactly when every file it replaces fits the store, every entry passes the
      write gates, and every content it puts back can be read when its turn comes. */
  lemma {:induction false} SucceedsExactly(disk: Disk, entries: seq<FileEntry>)
    requires DistinctPaths(entries)
    ensures ExecuteAll(disk, entries).failure.None? <==> forall i :: 0 <= i < |entries| ==> Revertible(disk, entries, i)
    decreases |entries|
  {
    if entries != [] {
      OneRevert(disk, entries[0]);
      FirstAlone(disk, entries);
      var first, rest := ExecuteRevert(disk, entries[0]), entries[1..];
      if first.outcome.Ok? {
        SucceedsExactly(first.disk, rest);
        forall i | 0 < i < |entries|
          ensures Revertible(first.disk, rest, i - 1) <==> Revertible(disk, entries, i)
        {
          NeedsOfTail(disk, entries, i);
        }
        if forall i :: 0 <= i < |entries| ==> Revertible(disk, entries, i) {
          forall i | 0 <= i < |rest| ensures Revertible(first.disk, rest, i) {
            assert Revertible(disk, entries, i + 1);
          }
        }
      } else {
        assert !Revertible(disk, entries, 0);
      }
    }
  }

  lemma FirstAlone(disk: Disk, entries: seq<FileEntry>)
    requires entries != []
    ensures Revertible(disk, entries, 0) <==> Revertible(disk, [entries[0]], 0)
  {
    assert [entries[0]][0] == entries[0];
    assert Obtainable(disk, entries, 0) <==> Obtainable(disk, [entries[0]], 0);
  }

  /** An execution that succeeds: every path gets its target, nothing else changes, what was there can
      still be read, and the inverse entries describe it. */
  lemma {:induction false} RevertsEverything(disk: Disk, entries: seq<FileEntry>)
    requires DistinctPaths(entries) && ExecuteAll(disk, entries).failure.None?
    ensures var r := ExecuteAll(disk, entries);
            && r.disk.barred == disk.barred
            && KeepsObjects(disk.objects, r.disk.objects)
            && (forall i :: 0 <= i < |entries| ==>
                  Done(disk, r.disk, entries[i]) && r.inverse[i] == Inverse(disk, entries[i]))
            && (forall p :: p !in EntryPaths(entries) ==> ContentAt(r.disk, p) == ContentAt(disk, p))
    decreases |entries|
  {
    if entries != [] {
      OneRevert(disk, entries[0]);
      var first, rest := ExecuteRevert(disk, entries[0]), entries[1..];
      RevertsEverything(first.disk, rest);
      var r := ExecuteAll(disk, entries);
      forall p | p !in EntryPaths(entries)
        ensures ContentAt(r.disk, p) == ContentAt(disk, p)
      {
        PathsOfTail(entries, p);
      }
      forall i | 0 <= i < |entries|
        ensures Done(disk, r.disk, entries[i]) && r.inverse[i] == Inverse(disk, entries[i])
      {
        if i == 0 {
          assert entries[0].path !in EntryPaths(rest);
        } else {
          assert entries[i] == rest[i - 1] && r.inverse[i] == ExecuteAll(first.disk, rest).inverse[i - 1];
          assert ContentAt(first.disk, rest[i - 1].path) == ContentAt(disk, entries[i].path);
        }
      }
    }
  }

  /** The object at `h` is as it was, or holds what one of these entries had on disk. */
  ghost predicate StoredFrom(disk: Disk, entries: seq<FileEntry>, after: Objects, h: Hash)
    requires h in after
  {
    || (h in disk.objects && after[h] == disk.objects[h])
    || (after[h] == h.content && exists e :: e in entries && ContentAt(disk, e.path) == Some(h.content))
  }

  /** An execution, complete or not, stores nothing but what the paths it was asked to revert had on disk,
      and touches no other path. */
  lemma {:induction false} OnlyReplacedContentIsStored(disk: Disk, entries: seq<FileEntry>)
    requires DistinctPaths(entries)
    ensures var r := ExecuteAll(disk, entries);
            && (forall h :: h in r.disk.objects ==> StoredFrom(disk, entries, r.disk.objects, h))
            && (forall p :: p !in EntryPaths(entries) ==> ContentAt(r.disk, p) == ContentAt(disk, p))
    decreases |entries|
  {
    if entries != [] {
      var first, rest := ExecuteRevert(disk, entries[0]), entries[1..];
      OneStored(disk, entries[0]);
      assert entries[0] in entries && forall e :: e in rest ==> e in entries;
      if first.outcome.Ok? {
        OnlyReplacedContentIsStored(first.disk, rest);
        RestStored(disk, entries);
      }
      forall p | p !in EntryPaths(entries) ensures ContentAt(ExecuteAll(disk, entries).disk, p) == ContentAt(disk, p) {
        PathsOfTail(entries, p);
      }
    }
  }

  lemma StoredAt(disk: Disk, entries: seq<FileEntry>, h: Hash)
    requires DistinctPaths(entries) && h in ExecuteAll(disk, entries).disk.objects
    ensures StoredFrom(disk, entries, ExecuteAll(disk, entries).disk.objects, h)
  {
    OnlyReplacedContentIsStored(disk, entries);
  }

  lemma OneStored(disk: Disk, entry: FileEntry)
    ensures var r := ExecuteRevert(disk, entry);
            && (forall h :: h in r.disk.objects ==> StoredFrom(disk, [entry], r.disk.objects, h))
            && (forall p :: p != entry.path ==> ContentAt(r.disk, p) == ContentAt(disk, p))
  {
    assert entry in [entry];
  }

  lemma RestStored(disk: Disk, entries: seq<FileEntry>)
    requires DistinctPaths(entries) && entries != [] && ExecuteRevert(disk, entries[0]).outcome.Ok?
    requires var first := ExecuteRevert(disk, entries[0]);
             forall h :: h in ExecuteAll(first.disk, entries[1..]).disk.objects ==>
               StoredFrom(first.disk, entries[1..], ExecuteAll(first.disk, entries[1..]).disk.objects, h)
    ensures var r := ExecuteAll(disk, entries);
            forall h :: h in r.disk.objects ==> StoredFrom(disk, entries, r.disk.objects, h)
  {
    var first, rest := ExecuteRevert(disk, entries[0]), entries[1..];
    OneStored(disk, entries[0]);
    var after := ExecuteAll(first.disk, rest).disk.objects;
    forall h | h in after ensures StoredFrom(disk, entries, after, h) {
      if e :| e in rest && ContentAt(first.disk, e.path) == Some(h.content) && after[h] == h.content {
        var i :| 0 <= i < |rest| && rest[i] == e;
        assert entries[i + 1] == e;
      } else {
        assert h in first.disk.objects && after[h] == first.disk.objects[h];
        assert StoredFrom(disk, [entries[0]], first.disk.objects, h);
      }
    }
  }

  // ---- undo inverts undo --------------------------------------------------

  /** The entry says what is on disk: a deleting entry has no file, every other entry has one. */
  predicate PresenceMatches(disk: Disk, entry: FileEntry) {
    entry.op == Delete <==> entry.path !in disk.tree
  }

  /** The content `entry` puts back can itself be snapshotted. */
  predicate TargetFits(entry: FileEntry) {
    entry.op != Create && entry.before.Some? ==> |entry.before.value.content| <= MAX_SNAPSHOT_BYTES
  }

  /** Undoing the undo of `entries` succeeds and gives the tree back. */
  predicate Inverts(disk: Disk, entries: seq<FileEntry>) {
    var undo := ExecuteAll(disk, entries);
    var redo := ExecuteAll(undo.disk, undo.inverse);
    redo.failure.None? && redo.disk.tree == disk.tree
  }

  /** The inverse of an entry that says what was on disk, on any disk with the entry reverted: it can be
      reverted, is unmodified since, and puts back what was there. */
  lemma InverseIsReady(disk: Disk, after: Disk, entry: FileEntry)
    requires entry.path !in disk.barred && PresenceMatches(disk, entry) && TargetFits(entry)
    requires Done(disk, after, entry) && after.barred == disk.barred
    ensures var inverse := Inverse(disk, entry);
            && Snapshottable(after, inverse.path) && Writable(after, inverse)
            && (inverse.op != Create ==> inverse.before.Some? && Intact(after.objects, inverse.before.value))
            && Classify(after, inverse, false) == Revert(false)
            && Target(inverse) == ContentAt(disk, entry.path)
  {}

  /** The inverse entries of an undo whose entries say what was on disk. */
  lemma UndoIsReady(disk: Disk, entries: seq<FileEntry>)
    requires DistinctPaths(entries) && ExecuteAll(disk, entries).failure.None?
    requires forall e :: e in entries ==> e.path !in disk.barred && PresenceMatches(disk, e) && TargetFits(e)
    ensures var undo := ExecuteAll(disk, entries);
            forall i :: 0 <= i < |entries| ==>
              && Revertible(undo.disk, undo.inverse, i)
              && Classify(undo.disk, undo.inverse[i], false) == Revert(false)
              && undo.inverse[i].path == entries[i].path
              && (undo.inverse[i].op != Create ==> undo.inverse[i].before.Some?)
              && Target(undo.inverse[i]) == ContentAt(disk, entries[i].path)
  {
    RevertsEverything(disk, entries);
    var undo := ExecuteAll(disk, entries);
    forall i | 0 <= i < |entries|
      ensures Revertible(undo.disk, undo.inverse, i)
      ensures Classify(undo.disk, undo.inverse[i], false) == Revert(false)
      ensures undo.inverse[i].path == entries[i].path
      ensures undo.inverse[i].op != Create ==> undo.inverse[i].before.Some?
      ensures Target(undo.inverse[i]) == ContentAt(disk, entries[i].path)
    {
      assert entries[i] in entries;
      InverseIsReady(disk, undo.disk, entries[i]);
      assert undo.inverse[i] == Inverse(disk, entries[i]);
    }
  }

  lemma InverseDistinct(disk: Disk, entries: seq<FileEntry>)
    requires DistinctPaths(entries) && ExecuteAll(disk, entries).failure.None?
    ensures DistinctPaths(ExecuteAll(disk, entries).inverse)
    ensures EntryPaths(ExecuteAll(disk, entries).inverse) == EntryPaths(entries)
  {
    var inverse := ExecuteAll(disk, entries).inverse;
    assert EntryPaths(inverse) == EntryPaths(entries) by { assert entries[..|inverse|] == entries; }
    forall i, j | 0 <= i < j < |inverse| ensures inverse[i].path != inverse[j].path {
      assert EntryPaths(inverse)[i] == entries[i].path && EntryPaths(inverse)[j] == entries[j].path;
    }
  }

  lemma SameContentSameTree(a: Disk, b: Disk)
    requires forall p :: ContentAt(a, p) == ContentAt(b, p)
    ensures a.tree == b.tree
  {
    forall p ensures p in a.tree <==> p in b.tree { assert ContentAt(a, p) == ContentAt(b, p); }
    forall p | p in a.tree ensures a.tree[p] == b.tree[p] { assert ContentAt(a, p) == ContentAt(b, p); }
  }

  lemma RedoSucceeds(disk: Disk, entries: seq<FileEntry>)
    requires DistinctPaths(entries) && ExecuteAll(disk, entries).failure.None?
    requires forall e :: e in entries ==> e.path !in disk.barred && PresenceMatches(disk, e) && TargetFits(e)
    ensures var undo := ExecuteAll(disk, entries);
            && DistinctPaths(undo.inverse) && EntryPaths(undo.inverse) == EntryPaths(entries)
            && ExecuteAll(undo.disk, undo.inverse).failure.None?
            && Executable(PlanOf(undo.disk, undo.inverse, [], false)) == undo.inverse
  {
    var undo := ExecuteAll(disk, entries);
    InverseDistinct(disk, entries);
    UndoIsReady(disk, entries);
    SucceedsExactly(undo.disk, undo.inverse);
    AllExecutable(undo.disk, undo.inverse);
  }

  lemma RedoRestores(disk: Disk, entries: seq<FileEntry>, p: Path)
    requires DistinctPaths(entries) && ExecuteAll(disk, entries).failure.None?
    requires forall e :: e in entries ==> e.path !in disk.barred && PresenceMatches(disk, e) && TargetFits(e)
    ensures var undo := ExecuteAll(disk, entries);
            ContentAt(ExecuteAll(undo.disk, undo.inverse).disk, p) == ContentAt(disk, p)
  {
    var undo := ExecuteAll(disk, entries);
    RedoSucceeds(disk, entries);
    RevertsEverything(undo.disk, undo.inverse);
    if p in EntryPaths(entries) {
      var i :| 0 <= i < |entries| && EntryPaths(entries)[i] == p;
      UndoIsReady(disk, entries);
      assert Done(undo.disk, ExecuteAll(undo.disk, undo.inverse).disk, undo.inverse[i]);
    } else {
      RevertsEverything(disk, entries);
    }
  }

  /** Neither an undo nor its undo loses anything. */
  lemma RedoKeepsEverything(disk: Disk, entries: seq<FileEntry>)
    requires DistinctPaths(entries) && ExecuteAll(disk, entries).failure.None?
    requires var undo := ExecuteAll(disk, entries);
             DistinctPaths(undo.inverse) && ExecuteAll(undo.disk, undo.inverse).failure.None?
    ensures var undo := ExecuteAll(disk, entries);
            var redo := ExecuteAll(undo.disk, undo.inverse);
            && KeepsObjects(disk.objects, redo.disk.objects)
            && (forall e :: e in entries && e.path in disk.tree ==>
                  Intact(redo.disk.objects, Sha256(disk.tree[e.path])))
  {
    var undo := ExecuteAll(disk, entries);
    RevertsEverything(disk, entries);
    RevertsEverything(undo.disk, undo.inverse);
    var redo := ExecuteAll(undo.disk, undo.inverse);
    forall e | e in entries && e.path in disk.tree ensures Intact(redo.disk.objects, Sha256(disk.tree[e.path])) {
      var i :| 0 <= i < |entries| && entries[i] == e;
      assert Done(disk, undo.disk, entries[i]);
    }
  }

  /** Undoing an undo: the undo succeeded and each of its entries says what was on disk.  Then the undo
      turn's own plan is fully executable, executing it succeeds, the tree is what it was before the
      first undo, and everything that was retrievable, or on disk at a reverted path, is retrievable. */
  lemma UndoOfUndo(disk: Disk, entries: seq<FileEntry>)
    requires DistinctPaths(entries) && ExecuteAll(disk, entries).failure.None?
    requires forall e :: e in entries ==> e.path !in disk.barred && PresenceMatches(disk, e) && TargetFits(e)
    ensures Inverts(disk, entries)
    ensures var undo := ExecuteAll(disk, entries);
            var redo := ExecuteAll(undo.disk, undo.inverse);
            && KeepsObjects(disk.objects, redo.disk.objects)
            && (forall e :: e in entries && e.path in disk.tree ==>
                  Intact(redo.disk.objects, Sha256(disk.tree[e.path])))
            && Executable(PlanOf(undo.disk, undo.inverse, [], false)) == undo.inverse
  {
    var undo := ExecuteAll(disk, entries);
    RedoSucceeds(disk, entries);
    RedoKeepsEverything(disk, entries);
    var redo := ExecuteAll(undo.disk, undo.inverse);
    forall p ensures ContentAt(redo.disk, p) == ContentAt(disk, p) {
      RedoRestores(disk, entries, p);
    }
    SameContentSameTree(redo.disk, disk);
  }

  /** An undo that was undone had entries that say what was on disk, and content that fits the store. */
  lemma InvertedMatches(disk: Disk, entries: seq<FileEntry>, e: FileEntry)
    requires DistinctPaths(entries) && ExecuteAll(disk, entries).failure.None?
    requires Inverts(disk, entries) && e in entries
    ensures PresenceMatches(disk, e) && TargetFits(e)
  {
    var undo := ExecuteAll(disk, entries);
    var redo := ExecuteAll(undo.disk, undo.inverse);
    var i :| 0 <= i < |entries| && entries[i] == e;
    InverseDistinct(disk, entries);
    RevertsEverything(disk, entries);
    SucceedsExactly(undo.disk, undo.inverse);
    RevertsEverything(undo.disk, undo.inverse);
    assert Done(disk, undo.disk, e) && undo.inverse[i] == Inverse(disk, e);
    assert Revertible(undo.disk, undo.inverse, i) && Done(undo.disk, redo.disk, undo.inverse[i]);
    assert ContentAt(redo.disk, e.path) == ContentAt(disk, e.path);
  }

  /** Undoing an undo that succeeded restores the tree exactly when every entry says what was on disk, and
      what it put back fits the store: a delete entry whose file is present, or any other entry whose file
      is absent, does not invert. */
  lemma UndoOfUndoExactly(disk: Disk, entries: seq<FileEntry>)
    requires DistinctPaths(entries) && forall e :: e in entries ==> e.path !in disk.barred
    ensures ExecuteAll(disk, entries).failure.None? ==>
              (Inverts(disk, entries) <==> forall e :: e in entries ==> PresenceMatches(disk, e) && TargetFits(e))
  {
    if ExecuteAll(disk, entries).failure.None? {
      if forall e :: e in entries ==> PresenceMatches(disk, e) && TargetFits(e) {
        UndoOfUndo(disk, entries);
      }
      if Inverts(disk, entries) {
        forall e | e in entries ensures PresenceMatches(disk, e) && TargetFits(e) {
          InvertedMatches(disk, entries, e);
        }
      }
    }
  }

  // ---- the planner's side of it -------------------------------------------

  lemma {:induction false} ExecutableDistinct(
    disk: Disk, files: seq<FileEntry>, filter: seq<Path>, allowModified: bool)
    requires DistinctPaths(files)
    ensures DistinctPaths(Executable(PlanOf(disk, files, filter, allowModified)))
  {
    if files != [] {
      var rest := Executable(PlanOf(disk, files[1..], filter, allowModified));
      ExecutableDistinct(disk, files[1..], filter, allowModified);
      ExecutableMembers(disk, files[1..], filter, allowModified);
      forall j | 0 <= j < |rest| ensures rest[j].path != files[0].path {
        assert rest[j] in files[1..];
      }
    }
  }

  lemma {:induction false} AllExecutable(disk: Disk, files: seq<FileEntry>)
    requires forall i :: 0 <= i < |files| ==> Classify(disk, files[i], false) == Revert(false)
    ensures Executable(PlanOf(disk, files, [], false)) == files
  {
    if files != [] {
      AllExecutable(disk, files[1..]);
    }
  }

  /** The record says of itself that undoing it can be undone: it is a delete exactly when it records no
      content afterwards, and what it puts back fits the store. */
  predicate Reversible(entry: FileEntry) {
    (entry.op == Delete <==> entry.after.None?) && TargetFits(entry)
  }

  /** The promise of the undo, for any part of any turn on any disk: when the undo without
      `allow_modified` succeeds, undoing it succeeds and gives the tree back if and only if each entry it
      wrote is reversible, as its record says; and then nothing is lost and the undo turn's own plan is
      fully executable. */
  lemma UndoInvertsUndo(disk: Disk, files: seq<FileEntry>, filter: seq<Path>)
    requires DistinctPaths(files)
    ensures var entries := Executable(PlanOf(disk, files, filter, false));
            var undo := ExecuteAll(disk, entries);
            var redo := ExecuteAll(undo.disk, undo.inverse);
            undo.failure.None? ==>
              && (Inverts(disk, entries) <==> forall e :: e in entries ==> Reversible(e))
              && (Inverts(disk, entries) ==>
                    && KeepsObjects(disk.objects, redo.disk.objects)
                    && (forall e :: e in entries && e.path in disk.tree ==>
                          Intact(redo.disk.objects, Sha256(disk.tree[e.path])))
                    && Executable(PlanOf(undo.disk, undo.inverse, [], false)) == undo.inverse)
  {
    var entries := Executable(PlanOf(disk, files, filter, false));
    ExecutableMembers(disk, files, filter, false);
    ExecutableDistinct(disk, files, filter, false);
    UndoOfUndoExactly(disk, entries);
    forall e | e in entries ensures Reversible(e) <==> PresenceMatches(disk, e) && TargetFits(e) {
      assert CurrentHash(disk, e.path) == e.after;
    }
    if ExecuteAll(disk, entries).failure.None? && Inverts(disk, entries) {
      UndoOfUndo(disk, entries);
    }
  }

  /** What remains to go wrong for an entry that the planner lets through: its file is too large to be
      snapshotted, or it is of an operation the planner does not know and has nothing to put back. */
  ghost predicate PlannedRevertible(disk: Disk, entries: seq<FileEntry>, i: nat)
    requires i < |entries|
  {
    && Snapshottable(disk, entries[i].path)
    && (entries[i].op.OtherOp? ==> Obtainable(disk, entries, i))
  }

  lemma PlannedEntry(disk: Disk, entries: seq<FileEntry>, i: nat, allowModified: bool)
    requires i < |entries| && Classify(disk, entries[i], allowModified).Revert?
    ensures Revertible(disk, entries, i) <==> PlannedRevertible(disk, entries, i)
  {}

  /** Executing what a plan calls executable succeeds exactly when every file it would replace is small
      enough to be snapshotted first, and every entry of an unknown operation, whose snapshot the planner
      did not check, has one that can be read when its turn comes. */
  lemma PlannedUndoSucceedsExactly(disk: Disk, files: seq<FileEntry>, filter: seq<Path>, allowModified: bool)
    requires DistinctPaths(files)
    ensures var entries := Executable(PlanOf(disk, files, filter, allowModified));
            ExecuteAll(disk, entries).failure.None? <==>
              forall i :: 0 <= i < |entries| ==> PlannedRevertible(disk, entries, i)
  {
    var entries := Executable(PlanOf(disk, files, filter, allowModified));
    ExecutableMembers(disk, files, filter, allowModified);
    ExecutableDistinct(disk, files, filter, allowModified);
    SucceedsExactly(disk, entries);
    forall i | 0 <= i < |entries| ensures Revertible(disk, entries, i) <==> PlannedRevertible(disk, entries, i) {
      assert entries[i] in entries;
      PlannedEntry(disk, entries, i, allowModified);
    }
  }

  /** An entry that is planned and then fails: its operation is unknown, and its prior snapshot is gone.
      As a modify it would have been refused. */
  lemma UnknownOperation(path: Path, op: string, gone: Hash)
    ensures var disk := Disk(map[], {}, map[]);
            var entry := FileEntry(path, Some(gone), None, OtherOp(op), false, false, None, None);
            && Executable(PlanOf(disk, [entry], [], false)) == [entry]
            && ExecuteAll(disk, [entry]).failure == Some(ObjectUnreadable)
            && Classify(disk, entry.(op := Modify), false) == Refused(SnapshotUnavailable)
  {
    var disk := Disk(map[], {}, map[]);
    var entry := FileEntry(path, Some(gone), None, OtherOp(op), false, false, None, None);
    AllExecutable(disk, [entry]);
  }
}
