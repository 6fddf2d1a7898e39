/** The append-only undo ledger: its rows, and the two independent readers of it (liveness of a
    reservation, state of a request). */
module UndoLedger {
  import opened Records

  const TOKEN_TTL_MS: nat := 60_000
  const REQUEST_TTL_MS: nat := 600_000

  datatype EventKind = Reserve | Request | Approve | Consume | Deny | Expire | Execute | Fail

  datatype LedgerEvent = LedgerEvent(
    event: EventKind,
    id: Id,
    turn: Id,
    paths: seq<Path>,
    token: Option<Hash>,
    expires: nat,
    at: nat,
    hashes: seq<Option<Hash>>,
    allowModified: bool,
    undoTurn: Option<Id>,
    reason: Option<string>)

  predicate Reserving(event: EventKind) {
    event in {Reserve, Request}
  }

  predicate Terminal(event: EventKind) {
    event in {Deny, Expire, Execute, Fail}
  }

  /** The row that resolves (or annotates) `grant`, sharing its id, turn, paths and expiry. */
  function RowFor(event: EventKind, grant: LedgerEvent, now: nat,
                  undoTurn: Option<Id>, reason: Option<string>): LedgerEvent {
    LedgerEvent(event, grant.id, grant.turn, grant.paths, None, grant.expires, now, [], false, undoTurn, reason)
  }

  // ---- reader one: liveness ----------------------------------------------

  function ReleasedIds(events: seq<LedgerEvent>): set<Id> {
    set e | e in events && Terminal(e.event) :: e.id
  }

  predicate IsLive(events: seq<LedgerEvent>, e: LedgerEvent, now: nat) {
    Reserving(e.event) && e.id !in ReleasedIds(events) && e.expires > now
  }

  function LiveAmong(rows: seq<LedgerEvent>, events: seq<LedgerEvent>, now: nat): seq<LedgerEvent> {
    if rows == [] then []
    else (if IsLive(events, rows[0], now) then [rows[0]] else []) + LiveAmong(rows[1..], events, now)
  }

  /** `live_from_ledger`: the unreleased, unexpired reservations, oldest first. */
  function LiveReservations(events: seq<LedgerEvent>, now: nat): seq<LedgerEvent> {
    LiveAmong(events, events, now)
  }

  lemma {:induction false} LiveAmongMembers(rows: seq<LedgerEvent>, events: seq<LedgerEvent>, now: nat)
    ensures forall e :: e in LiveAmong(rows, events, now) <==> e in rows && IsLive(events, e, now)
  {
    if rows != [] {
      LiveAmongMembers(rows[1..], events, now);
      assert rows == [rows[0]] + rows[1..];
    }
  }

  // ---- reader two: the state of a request ---------------------------------

  datatype RequestState = Pending | Approved | Denied | Expired | Executed | Failed

  predicate HasRow(events: seq<LedgerEvent>, id: Id, event: EventKind) {
    exists e :: e in events && e.id == id && e.event == event
  }

  /** `state_from_events`: precedence by finality, and the clock only when nothing is recorded. */
  function StateFrom(request: LedgerEvent, events: seq<LedgerEvent>, now: nat): RequestState {
    if HasRow(events, request.id, Execute) then Executed
    else if HasRow(events, request.id, Deny) then Denied
    else if HasRow(events, request.id, Fail) then Failed
    else if HasRow(events, request.id, Expire) then Expired
    else if HasRow(events, request.id, Approve) then Approved
    else if request.expires <= now then Expired
    else Pending
  }

  /** The row a status report takes its undo turn and its reason from: the last terminal one. */
  function Resolution(events: seq<LedgerEvent>, id: Id): Option<LedgerEvent> {
    if events == [] then None
    else
      var last := events[|events| - 1];
      if last.id == id && Terminal(last.event) then Some(last)
      else Resolution(events[..|events| - 1], id)
  }

  function StateOfRow(event: EventKind): RequestState
    requires Terminal(event)
  {
    match event
    case Execute => Executed
    case Deny => Denied
    case Fail => Failed
    case Expire => Expired
  }

  datatype Status = Status(request: Id, state: RequestState, turn: Id, paths: seq<Path>,
                           undoTurn: Option<Id>, reason: Option<string>)

  function StatusOf(request: LedgerEvent, events: seq<LedgerEvent>, now: nat): Status {
    var row := Resolution(events, request.id);
    Status(request.id, StateFrom(request, events, now), request.turn, request.paths,
           if row.Some? then row.value.undoTurn else None,
           if row.Some? then row.value.reason else None)
  }

  lemma {:induction false} ResolutionIsTerminal(events: seq<LedgerEvent>, id: Id)
    ensures Resolution(events, id).Some? ==>
              var row := Resolution(events, id).value;
              row in events && row.id == id && Terminal(row.event)
    ensures Resolution(events, id).None? <==> id !in ReleasedIds(events)
  {
    if events != [] {
      var front := events[..|events| - 1];
      ResolutionIsTerminal(front, id);
      assert events == front + [events[|events| - 1]];
    }
  }

  // ---- resolving a request reference --------------------------------------

  datatype RefError = UnknownRequest | AmbiguousRequest(matched: nat)

  function RequestsMatching(events: seq<LedgerEvent>, reference: Id): seq<LedgerEvent> {
    if events == [] then []
    else (if events[0].event == Request && reference <= events[0].id then [events[0]] else [])
         + RequestsMatching(events[1..], reference)
  }

  /** `resolve_request`: a full id, or a prefix only one request carries. */
  function ResolveRequest(events: seq<LedgerEvent>, reference: Id): (r: Result<LedgerEvent, RefError>) {
    var matches := RequestsMatching(events, reference);
    if |matches| == 0 then Err(UnknownRequest)
    else if |matches| == 1 then Ok(matches[0])
    else Err(AmbiguousRequest(|matches|))
  }

  lemma {:induction false} RequestsMatchingMembers(events: seq<LedgerEvent>, reference: Id)
    ensures forall e :: e in RequestsMatching(events, reference) <==>
              e in events && e.event == Request && reference <= e.id
  {
    if events != [] {
      RequestsMatchingMembers(events[1..], reference);
      assert events == [events[0]] + events[1..];
    }
  }

  /** The positions of the request rows whose id `reference` is a prefix of. */
  function Named(events: seq<LedgerEvent>, reference: Id): set<nat> {
    set i: nat | i < |events| && events[i].event == Request && reference <= events[i].id
  }

  lemma NamedNext(events: seq<LedgerEvent>, reference: Id)
    requires events != []
    ensures var n := |events| - 1;
            var one := if events[n].event == Request && reference <= events[n].id then {n} else {};
            Named(events, reference) == Named(events[..n], reference) + one && n !in Named(events[..n], reference)
  {}

  lemma {:induction false} MatchingAppend(a: seq<LedgerEvent>, b: seq<LedgerEvent>, reference: Id)
    ensures RequestsMatching(a + b, reference) == RequestsMatching(a, reference) + RequestsMatching(b, reference)
  {
    if a == [] {
      assert a + b == b;
    } else {
      assert (a + b)[1..] == a[1..] + b;
      MatchingAppend(a[1..], b, reference);
    }
  }

  lemma {:induction false} MatchingCounts(events: seq<LedgerEvent>, reference: Id)
    ensures |RequestsMatching(events, reference)| == |Named(events, reference)|
  {
    if events != [] {
      var n := |events| - 1;
      assert events == events[..n] + [events[n]];
      MatchingCounts(events[..n], reference);
      MatchingAppend(events[..n], [events[n]], reference);
      NamedNext(events, reference);
      assert [events[n]][1..] == [] && RequestsMatching([], reference) == [];
    }
  }

  /** A reference names a request exactly when one position of the ledger, and no other, holds a request row
      whose id begins with it; with none it is unknown, and with several it is refused, with their number. */
  lemma ResolvedExactly(events: seq<LedgerEvent>, reference: Id)
    ensures var r := ResolveRequest(events, reference);
            && (r.Ok? <==> |Named(events, reference)| == 1)
            && (r.Ok? ==> forall i :: i in Named(events, reference) ==> events[i] == r.value)
            && (r == Err(UnknownRequest) <==> Named(events, reference) == {})
            && (forall n :: r == Err(AmbiguousRequest(n)) <==> n >= 2 && |Named(events, reference)| == n)
  {
    MatchingCounts(events, reference);
    RequestsMatchingMembers(events, reference);
    var matches := RequestsMatching(events, reference);
    if |matches| == 1 {
      forall i | i in Named(events, reference) ensures events[i] == matches[0] {
        assert events[i] in matches;
      }
    }
  }

  lemma ResolvedRequestMatches(events: seq<LedgerEvent>, reference: Id)
    ensures var r := ResolveRequest(events, reference);
            r.Ok? ==> r.value in events && r.value.event == Request && reference <= r.value.id
  {
    RequestsMatchingMembers(events, reference);
  }

  // ---- the invariant every reachable ledger keeps --------------------------

  function UsedIds(events: seq<LedgerEvent>): set<Id> {
    set e | e in events :: e.id
  }

  function GrantIds(events: seq<LedgerEvent>): set<Id> {
    set e | e in events && Reserving(e.event) :: e.id
  }

  ghost predicate UniqueGrants(l: seq<LedgerEvent>) {
    && (forall i, j :: 0 <= i < j < |l| && Reserving(l[i].event) && Reserving(l[j].event) ==> l[i].id != l[j].id)
    && (forall i, j :: 0 <= i < j < |l| && l[i].event == Reserve && l[j].event == Reserve ==> l[i].token != l[j].token)
  }

  ghost predicate WellFormedRows(l: seq<LedgerEvent>) {
    && (forall e :: e in l ==> e.id in GrantIds(l))
    && (forall e :: e in l ==> e.event != Approve)
    && (forall e :: e in l && Reserving(e.event) ==> e.paths != [] && |e.hashes| == |e.paths|)
    && (forall e :: e in l ==> (e.event == Reserve <==> e.token.Some?))
    && (forall e, g :: e in l && e.event == Consume && g in l && g.id == e.id ==> g.event != Request)
    && (forall e, g :: e in l && e.event in {Deny, Expire} && g in l && g.id == e.id ==> g.event != Reserve)
  }

  /** A grant is resolved once: two terminal rows of one id are both lapses. */
  ghost predicate ResolvedOnce(l: seq<LedgerEvent>) {
    forall i, j :: 0 <= i < j < |l| && l[i].id == l[j].id && Terminal(l[i].event) && Terminal(l[j].event) ==>
      l[i].event == Expire && l[j].event == Expire
  }

  /** A token is spent at most once. */
  ghost predicate SpentOnce(l: seq<LedgerEvent>) {
    forall i, j :: 0 <= i < j < |l| && l[i].event == Consume && l[j].event == Consume ==> l[i].id != l[j].id
  }

  predicate Overlap(a: seq<Path>, b: seq<Path>) {
    exists p :: p in a && p in b
  }

  /** No path is held by two live reservations. */
  ghost predicate LiveDisjoint(l: seq<LedgerEvent>, now: nat) {
    forall i, j :: 0 <= i < j < |l| && IsLive(l, l[i], now) && IsLive(l, l[j], now) ==>
      !Overlap(l[i].paths, l[j].paths)
  }

  ghost predicate LedgerOk(l: seq<LedgerEvent>, now: nat) {
    && UniqueGrants(l)
    && WellFormedRows(l)
    && ResolvedOnce(l)
    && SpentOnce(l)
    && LiveDisjoint(l, now)
  }

  lemma ReleasedGrows(l: seq<LedgerEvent>, more: seq<LedgerEvent>)
    ensures ReleasedIds(l) <= ReleasedIds(l + more)
  {
    forall id | id in ReleasedIds(l) ensures id in ReleasedIds(l + more) {
      var t :| t in l && Terminal(t.event) && t.id == id;
      assert t in l + more;
    }
  }

  /** Liveness only ends: later, and with more rows, nothing becomes live again. */
  lemma LivenessShrinks(l: seq<LedgerEvent>, more: seq<LedgerEvent>, e: LedgerEvent, now: nat, later: nat)
    requires now <= later && IsLive(l + more, e, later)
    ensures IsLive(l, e, now)
  {
    ReleasedGrows(l, more);
  }

  lemma LaterStillOk(l: seq<LedgerEvent>, now: nat, later: nat)
    requires LedgerOk(l, now) && now <= later
    ensures LedgerOk(l, later)
  {
    forall i, j | 0 <= i < j < |l| && IsLive(l, l[i], later) && IsLive(l, l[j], later)
      ensures !Overlap(l[i].paths, l[j].paths)
    {
      assert IsLive(l, l[i], now) && IsLive(l, l[j], now);
    }
  }

  /** The check every grant passes under the lock. */
  predicate Conflicts(l: seq<LedgerEvent>, paths: seq<Path>, now: nat) {
    exists e :: e in l && IsLive(l, e, now) && Overlap(e.paths, paths)
  }

  lemma AppendKeepsDisjoint(l: seq<LedgerEvent>, row: LedgerEvent, checked: nat, now: nat)
    requires LiveDisjoint(l, checked) && checked <= now
    requires Reserving(row.event) ==> !Conflicts(l, row.paths, checked)
    ensures LiveDisjoint(l + [row], now)
  {
    var m := l + [row];
    forall i, j | 0 <= i < j < |m| && IsLive(m, m[i], now) && IsLive(m, m[j], now)
      ensures !Overlap(m[i].paths, m[j].paths)
    {
      LivenessShrinks(l, [row], m[i], checked, now);
      LivenessShrinks(l, [row], m[j], checked, now);
      assert m[i] in l;
    }
  }

  lemma AppendKeepsResolvedOnce(l: seq<LedgerEvent>, row: LedgerEvent)
    requires ResolvedOnce(l)
    requires Terminal(row.event) && row.event != Expire ==> row.id !in ReleasedIds(l)
    requires row.event == Expire ==> forall e :: e in l && e.id == row.id && Terminal(e.event) ==> e.event == Expire
    ensures ResolvedOnce(l + [row])
  {
    var m := l + [row];
    forall i, j | 0 <= i < j < |m| && m[i].id == m[j].id && Terminal(m[i].event) && Terminal(m[j].event)
      ensures m[i].event == Expire && m[j].event == Expire
    {
      if j == |l| {
        assert m[i] in l;
      }
    }
  }

  lemma AppendKeepsSpentOnce(l: seq<LedgerEvent>, row: LedgerEvent)
    requires SpentOnce(l)
    requires row.event == Consume ==> !HasRow(l, row.id, Consume)
    ensures SpentOnce(l + [row])
  {
    var m := l + [row];
    forall i, j | 0 <= i < j < |m| && m[i].event == Consume && m[j].event == Consume
      ensures m[i].id != m[j].id
    {
      assert m[i] in l;
    }
  }

  lemma GrantIdsAppend(l: seq<LedgerEvent>, row: LedgerEvent)
    ensures GrantIds(l + [row]) == GrantIds(l) + (if Reserving(row.event) then {row.id} else {})
  {
    var m := l + [row];
    forall id | id in GrantIds(l) ensures id in GrantIds(m) {
      var g :| g in l && Reserving(g.event) && g.id == id;
      assert g in m;
    }
    if Reserving(row.event) {
      assert row in m;
    }
  }

  /** A new grant brings a fresh id and (if it has one) a fresh token. */
  ghost predicate FreshGrant(l: seq<LedgerEvent>, g: LedgerEvent) {
    && Reserving(g.event) && g.id !in UsedIds(l)
    && g.paths != [] && |g.hashes| == |g.paths|
    && (g.event == Reserve <==> g.token.Some?)
    && (g.event == Reserve ==> forall e :: e in l && e.event == Reserve ==> e.token != g.token)
  }

  lemma AppendGrantUnique(l: seq<LedgerEvent>, g: LedgerEvent)
    requires UniqueGrants(l) && FreshGrant(l, g)
    ensures UniqueGrants(l + [g])
  {
    var m := l + [g];
    assert forall e :: e in l ==> e.id in UsedIds(l);
    forall i, j | 0 <= i < j < |m| && Reserving(m[i].event) && Reserving(m[j].event)
      ensures m[i].id != m[j].id
      ensures m[i].event == Reserve && m[j].event == Reserve ==> m[i].token != m[j].token
    {
      assert m[i] in l;
    }
  }

  lemma AppendGrantWellFormed(l: seq<LedgerEvent>, g: LedgerEvent)
    requires WellFormedRows(l) && FreshGrant(l, g)
    ensures WellFormedRows(l + [g])
  {
    GrantIdsAppend(l, g);
    assert forall e :: e in l ==> e.id in UsedIds(l);
    assert forall e :: e in l + [g] <==> e in l || e == g;
  }

  lemma AppendGrantOk(l: seq<LedgerEvent>, g: LedgerEvent, checked: nat, now: nat)
    requires LedgerOk(l, checked) && checked <= now
    requires FreshGrant(l, g) && !Conflicts(l, g.paths, checked)
    ensures LedgerOk(l + [g], now)
  {
    AppendGrantUnique(l, g);
    AppendGrantWellFormed(l, g);
    AppendKeepsResolvedOnce(l, g);
    AppendKeepsSpentOnce(l, g);
    AppendKeepsDisjoint(l, g, checked, now);
  }

  /** May `row` be appended to annotate or resolve its grant? */
  ghost predicate RowFits(l: seq<LedgerEvent>, row: LedgerEvent) {
    && !Reserving(row.event) && row.event != Approve && row.token.None?
    && row.id in GrantIds(l)
    && (Terminal(row.event) && row.event != Expire ==> row.id !in ReleasedIds(l))
    && (row.event == Expire ==> forall e :: e in l && e.id == row.id && Terminal(e.event) ==> e.event == Expire)
    && (row.event == Consume ==> !HasRow(l, row.id, Consume))
    && (row.event == Consume ==> forall g :: g in l && g.id == row.id ==> g.event != Request)
    && (row.event in {Deny, Expire} ==> forall g :: g in l && g.id == row.id ==> g.event != Reserve)
  }

  lemma AppendRowUnique(l: seq<LedgerEvent>, row: LedgerEvent)
    requires UniqueGrants(l) && !Reserving(row.event)
    ensures UniqueGrants(l + [row])
  {
    var m := l + [row];
    assert forall i :: 0 <= i < |m| && Reserving(m[i].event) ==> i < |l|;
  }

  lemma AppendRowWellFormed(l: seq<LedgerEvent>, row: LedgerEvent)
    requires WellFormedRows(l) && RowFits(l, row)
    ensures WellFormedRows(l + [row])
  {
    GrantIdsAppend(l, row);
    assert forall e :: e in l + [row] <==> e in l || e == row;
  }

  lemma AppendRowOk(l: seq<LedgerEvent>, row: LedgerEvent, now: nat)
    requires LedgerOk(l, now) && RowFits(l, row)
    ensures LedgerOk(l + [row], now)
  {
    AppendRowUnique(l, row);
    AppendRowWellFormed(l, row);
    AppendKeepsResolvedOnce(l, row);
    AppendKeepsSpentOnce(l, row);
    AppendKeepsDisjoint(l, row, now, now);
  }

  // ---- what a state means -----------------------------------------------------

  predicate Shows(l: seq<LedgerEvent>, id: Id, kinds: set<EventKind>) {
    exists e :: e in l && e.id == id && e.event in kinds
  }

  /** A state by the rows it rests on: an execution goes before a denial, that before a failure, that before a
      recorded expiry, and that before an approval; only a request without any of them lapses by the clock. */
  lemma StateExactly(l: seq<LedgerEvent>, request: LedgerEvent, now: nat)
    ensures var state, id := StateFrom(request, l, now), request.id;
            && (state == Executed <==> Shows(l, id, {Execute}))
            && (state == Denied <==> Shows(l, id, {Deny}) && !Shows(l, id, {Execute}))
            && (state == Failed <==> Shows(l, id, {Fail}) && !Shows(l, id, {Execute, Deny}))
            && (state == Expired <==>
                  && !Shows(l, id, {Execute, Deny, Fail})
                  && (Shows(l, id, {Expire}) || (request.expires <= now && !Shows(l, id, {Approve}))))
            && (state == Approved <==> Shows(l, id, {Approve}) && !Shows(l, id, {Execute, Deny, Fail, Expire}))
            && (state == Pending <==> request.expires > now && !Shows(l, id, {Execute, Deny, Fail, Expire, Approve}))
  {
    forall kind ensures HasRow(l, request.id, kind) <==> Shows(l, request.id, {kind}) {}
  }

  // ---- the two readers agree ------------------------------------------------

  /** On every reachable ledger the two readers answer alike about every request: it is live exactly
      when its state is pending, and the row picked by position says the state picked by precedence. */
  lemma ReadersAgree(l: seq<LedgerEvent>, request: LedgerEvent, now: nat)
    requires LedgerOk(l, now) && request in l && request.event == Request
    ensures request in LiveReservations(l, now) <==> StatusOf(request, l, now).state == Pending
    ensures Resolution(l, request.id).Some? ==>
              var row := Resolution(l, request.id).value;
              && Terminal(row.event)
              && StatusOf(request, l, now) ==
                 Status(request.id, StateOfRow(row.event), request.turn, request.paths, row.undoTurn, row.reason)
    ensures Resolution(l, request.id).None? ==>
              StatusOf(request, l, now).state == if request.expires <= now then Expired else Pending
  {
    LiveAmongMembers(l, l, now);
    ResolutionIsTerminal(l, request.id);
    if Resolution(l, request.id).Some? {
      var row := Resolution(l, request.id).value;
      OneKind(l, row, now);
    } else {
      NoRowWithoutRelease(l, request.id);
    }
    assert !HasRow(l, request.id, Approve);
  }

  lemma NoRowWithoutRelease(l: seq<LedgerEvent>, id: Id)
    requires id !in ReleasedIds(l)
    ensures forall kind :: Terminal(kind) ==> !HasRow(l, id, kind)
  {
    assert forall e :: e in l && Terminal(e.event) ==> e.id in ReleasedIds(l);
  }

  /** All terminal rows of one grant are of one kind. */
  lemma OneKind(l: seq<LedgerEvent>, row: LedgerEvent, now: nat)
    requires LedgerOk(l, now) && row in l && Terminal(row.event)
    ensures forall kind :: Terminal(kind) ==> (HasRow(l, row.id, kind) <==> kind == row.event)
  {
    var i :| 0 <= i < |l| && l[i] == row;
    forall kind | Terminal(kind) && HasRow(l, row.id, kind) ensures kind == row.event {
      var e :| e in l && e.id == row.id && e.event == kind;
      var j :| 0 <= j < |l| && l[j] == e;
      assert i < j ==> l[i].event == Expire && l[j].event == Expire;
      assert j < i ==> l[j].event == Expire && l[i].event == Expire;
    }
  }

  function CountRows(l: seq<LedgerEvent>, id: Id, event: EventKind): nat {
    if l == [] then 0
    else (if l[0].id == id && l[0].event == event then 1 else 0) + CountRows(l[1..], id, event)
  }

  lemma {:induction false} NoRowsCountZero(l: seq<LedgerEvent>, id: Id, event: EventKind)
    requires !HasRow(l, id, event)
    ensures CountRows(l, id, event) == 0
  {
    if l != [] {
      assert l[0] in l;
      assert forall e :: e in l[1..] ==> e in l;
      NoRowsCountZero(l[1..], id, event);
    }
  }

  /** Execution, denial and failure are each recorded at most once per grant, and a token is spent
      at most once; only a lapse can be recorded again. */
  lemma {:induction false} RecordedAtMostOnce(l: seq<LedgerEvent>, id: Id, event: EventKind)
    requires ResolvedOnce(l) && SpentOnce(l)
    requires event in {Execute, Deny, Fail, Consume}
    ensures CountRows(l, id, event) <= 1
  {
    if l != [] {
      assert forall k :: 0 <= k < |l[1..]| ==> l[1..][k] == l[k + 1];
      RecordedAtMostOnce(l[1..], id, event);
      if l[0].id == id && l[0].event == event {
        forall j | 0 <= j < |l[1..]| ensures !(l[1..][j].id == id && l[1..][j].event == event) {
          assert l[1..][j] == l[j + 1];
        }
        NoRowsCountZero(l[1..], id, event);
      }
    }
  }

  /** A resolution that the ledger records is final: whatever is appended later (keeping the
      ledger's invariant), at whatever later time, the state stays. */
  lemma ResolutionIsFinal(l: seq<LedgerEvent>, longer: seq<LedgerEvent>, request: LedgerEvent, now: nat, later: nat)
    requires LedgerOk(l, now) && LedgerOk(longer, later) && l <= longer
    requires request.id in ReleasedIds(l)
    ensures StateFrom(request, longer, later) == StateFrom(request, l, now)
  {
    var row :| row in l && Terminal(row.event) && row.id == request.id;
    assert row in longer;
    ResolvedState(l, request, row, now);
    ResolvedState(longer, request, row, later);
  }

  /** A terminal row says the state. */
  lemma ResolvedState(l: seq<LedgerEvent>, request: LedgerEvent, row: LedgerEvent, now: nat)
    requires LedgerOk(l, now) && row in l && Terminal(row.event) && row.id == request.id
    ensures StateFrom(request, l, now) == StateOfRow(row.event)
  {
    OneKind(l, row, now);
  }
}
