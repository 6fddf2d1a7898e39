/** Searching the ledger and paging through the hits with cursors that name a turn and an occurrence. */
module Pagination {
  import opened Records
  import opened Orders

  datatype Field = Prompt | Tool | Model | FilePath

  /** A hit keeps the matched text and span; the excerpt shown is a function of these. */
  datatype Hit = Hit(turnId: Id, field: Field, text: string, span: (nat, nat))

  datatype Cursor = Cursor(afterId: Id, afterOccurrence: nat, query: string)

  datatype CursorError = ZeroLimit | QueryMismatch | Stale

  datatype Page = Page(items: seq<Hit>, next: Option<Cursor>)

  /** A compiled pattern, substring or regular expression: the span of the first match. */
  type Matcher = string -> Option<(nat, nat)>

  /** Text of a prompt blob, if it is text at all. */
  type Decoder = Bytes -> Option<string>

  // ---- hits -----------------------------------------------------------------------------------

  function HitIn(find: Matcher, id: Id, field: Field, text: string): seq<Hit> {
    var span := find(text);
    if span.None? then [] else [Hit(id, field, text, span.value)]
  }

  function PromptHits(find: Matcher, decode: Decoder, objects: Objects, t: TurnRecord): seq<Hit> {
    if t.promptRef.None? then []
    else match Get(objects, t.promptRef.value)
      case Blob(bytes) => if decode(bytes).None? then [] else HitIn(find, t.id, Prompt, decode(bytes).value)
      case _ => []
  }

  function PathHits(find: Matcher, id: Id, files: seq<FileEntry>): seq<Hit> {
    if files == [] then []
    else
      var n := |files| - 1;
      PathHits(find, id, files[..n]) + HitIn(find, id, FilePath, files[n].path)
  }

  function TurnHits(find: Matcher, decode: Decoder, objects: Objects, t: TurnRecord): seq<Hit> {
    PromptHits(find, decode, objects, t)
      + (if t.tool.None? then [] else HitIn(find, t.id, Tool, t.tool.value))
      + (if t.model.None? then [] else HitIn(find, t.id, Model, t.model.value))
      + PathHits(find, t.id, t.files)
  }

  /** The lists of all elements, one after the other. */
  function Flatten(lists: seq<seq<Hit>>): seq<Hit> {
    if lists == [] then [] else Flatten(lists[..|lists| - 1]) + lists[|lists| - 1]
  }

  function HitsOfTurn(find: Matcher, decode: Decoder, objects: Objects): TurnRecord -> seq<Hit> {
    t => TurnHits(find, decode, objects, t)
  }

  /** All hits, in ledger order. */
  function Hits(find: Matcher, decode: Decoder, objects: Objects, turns: seq<TurnRecord>): seq<Hit> {
    Flatten(Mapped(HitsOfTurn(find, decode, objects), turns))
  }

  predicate Dangling(objects: Objects, t: TurnRecord) {
    t.promptRef.Some? && !Get(objects, t.promptRef.value).Blob?
  }

  function DanglingCount(objects: Objects, turns: seq<TurnRecord>): nat {
    if turns == [] then 0
    else
      var n := |turns| - 1;
      DanglingCount(objects, turns[..n]) + if Dangling(objects, turns[n]) then 1 else 0
  }

  // ---- cursors -----------------------------------------------------------------------------------

  /** How many of these hits are of turn `id`. */
  function Count(hits: seq<Hit>, id: Id): nat {
    if hits == [] then 0
    else Count(hits[..|hits| - 1], id) + if hits[|hits| - 1].turnId == id then 1 else 0
  }

  /** The position of the `nth` hit of turn `id`, counting from 0. */
  function Nth(hits: seq<Hit>, id: Id, nth: nat): (r: Option<nat>)
    ensures r.Some? ==> r.value < |hits|
  {
    if hits == [] then None
    else if hits[0].turnId == id && nth == 0 then Some(0)
    else
      var rest := Nth(hits[1..], id, if hits[0].turnId == id then nth - 1 else nth);
      if rest.None? then None else Some(rest.value + 1)
  }

  /** Where a page begins. */
  function StartOf(hits: seq<Hit>, query: string, cursor: Option<Cursor>): Result<nat, CursorError> {
    if cursor.None? then Ok(0)
    else if cursor.value.query != query then Err(QueryMismatch)
    else
      var at := Nth(hits, cursor.value.afterId, cursor.value.afterOccurrence);
      if at.None? then Err(Stale) else Ok(at.value + 1)
  }

  function Min(a: nat, b: nat): nat {
    if a < b then a else b
  }

  /** The cursor after the first `end` hits. */
  function CursorAfter(hits: seq<Hit>, query: string, end: nat): Option<Cursor>
    requires end <= |hits|
  {
    if end == |hits| then None
    else
      var last := if end == 0 then 0 else end - 1;
      Some(Cursor(hits[last].turnId, Count(hits[..last], hits[last].turnId), query))
  }

  /** The page walk over a hit list: the size is refused before the cursor is looked at. */
  function PageOf(hits: seq<Hit>, query: string, cursor: Option<Cursor>, size: nat): Result<Page, CursorError> {
    if size == 0 then Err(ZeroLimit)
    else match StartOf(hits, query, cursor)
      case Err(e) => Err(e)
      case Ok(at) =>
        var start := Min(at, |hits|);
        var end := Min(start + size, |hits|);
        Ok(Page(hits[start..end], CursorAfter(hits, query, end)))
  }

  /** The paths of one turn, in file order. */
  method SearchPaths(t: TurnRecord, find: Matcher) returns (hits: seq<Hit>)
    ensures hits == PathHits(find, t.id, t.files)
  {
    hits := [];
    for j := 0 to |t.files|
      invariant hits == PathHits(find, t.id, t.files[..j])
    {
      assert t.files[..j + 1][..j] == t.files[..j];
      hits := hits + HitIn(find, t.id, FilePath, t.files[j].path);
    }
    assert t.files[..|t.files|] == t.files;
  }

  /** One turn: its prompt blob, then tool, model and paths.  An unreadable prompt is counted and does not
      keep the other fields from matching. */
  method SearchTurn(t: TurnRecord, objects: Objects, find: Matcher, decode: Decoder)
    returns (hits: seq<Hit>, dangling: bool)
    ensures hits == TurnHits(find, decode, objects, t) && dangling == Dangling(objects, t)
  {
    hits, dangling := [], false;
    if t.promptRef.Some? {
      match Get(objects, t.promptRef.value) {
        case Blob(bytes) =>
          var text := decode(bytes);
          if text.Some? {
            hits := hits + HitIn(find, t.id, Prompt, text.value);
          }
        case _ => dangling := true;
      }
    }
    assert hits == PromptHits(find, decode, objects, t);
    if t.tool.Some? {
      hits := hits + HitIn(find, t.id, Tool, t.tool.value);
    }
    if t.model.Some? {
      hits := hits + HitIn(find, t.id, Model, t.model.value);
    }
    var paths := SearchPaths(t, find);
    hits := hits + paths;
  }

  method CollectHits(turns: seq<TurnRecord>, objects: Objects, find: Matcher, decode: Decoder)
    returns (hits: seq<Hit>, count: nat)
    ensures hits == Hits(find, decode, objects, turns) && count == DanglingCount(objects, turns)
  {
    hits, count := [], 0;
    ghost var lists := Mapped(HitsOfTurn(find, decode, objects), turns);
    for i := 0 to |turns|
      invariant hits == Flatten(lists[..i]) && count == DanglingCount(objects, turns[..i])
    {
      assert turns[..i + 1][..i] == turns[..i] && lists[..i + 1][..i] == lists[..i];
      var more, dangling := SearchTurn(turns[i], objects, find, decode);
      hits, count := hits + more, count + if dangling then 1 else 0;
    }
    assert turns[..|turns|] == turns && lists[..|turns|] == lists;
  }

  datatype SearchPage = SearchPage(page: Page, danglingPromptRefs: nat)

  /** `compute_search`: collect the hits turn by turn, then cut the page; unreadable prompts are counted over
      the whole ledger. */
  method Search(turns: seq<TurnRecord>, objects: Objects, find: Matcher, decode: Decoder, query: string,
                cursor: Option<Cursor>, size: nat)
    returns (r: Result<SearchPage, CursorError>)
    ensures var page := PageOf(Hits(find, decode, objects, turns), query, cursor, size);
            && (page.Err? ==> r == Err(page.error))
            && (page.Ok? ==> r.Ok? && r.value.page == page.value && r.value.danglingPromptRefs == DanglingCount(objects, turns))
  {
    var hits, count := CollectHits(turns, objects, find, decode);
    var page := PageOf(hits, query, cursor, size);
    match page
    case Err(e) => r := Err(e);
    case Ok(items) => r := Ok(SearchPage(items, count));
  }

  // ---- what a hit is, field by field -----------------------------------------------------------------

  /** `text` is the prompt of `t`: its object is there, is intact, and is text. */
  predicate PromptReads(decode: Decoder, objects: Objects, t: TurnRecord, text: string) {
    && t.promptRef.Some? && t.promptRef.value in objects
    && objects[t.promptRef.value] == t.promptRef.value.content
    && decode(objects[t.promptRef.value]) == Some(text)
  }

  /** `text` stands in this field of `t`. */
  predicate HoldsText(decode: Decoder, objects: Objects, t: TurnRecord, field: Field, text: string) {
    match field
    case Prompt => PromptReads(decode, objects, t, text)
    case Tool => t.tool == Some(text)
    case Model => t.model == Some(text)
    case FilePath => exists e :: e in t.files && e.path == text
  }

  /** The pattern is found in a field of `t`, and `h` says which one and where. */
  predicate Reports(find: Matcher, decode: Decoder, objects: Objects, t: TurnRecord, h: Hit) {
    h.turnId == t.id && find(h.text) == Some(h.span) && HoldsText(decode, objects, t, h.field, h.text)
  }

  lemma {:induction false} PathHitsExactly(find: Matcher, id: Id, files: seq<FileEntry>, h: Hit)
    ensures h in PathHits(find, id, files) <==>
              h.turnId == id && h.field == FilePath && find(h.text) == Some(h.span) && exists e :: e in files && e.path == h.text
    decreases |files|
  {
    if files != [] {
      var n := |files| - 1;
      PathHitsExactly(find, id, files[..n], h);
      assert files == files[..n] + [files[n]];
    }
  }

  /** The hits of a turn are exactly the matches in its prompt, tool, model and paths: each field is searched,
      and a prompt that cannot be read hides none of the others. */
  lemma TurnHitsExactly(find: Matcher, decode: Decoder, objects: Objects, t: TurnRecord, h: Hit)
    ensures h in TurnHits(find, decode, objects, t) <==> Reports(find, decode, objects, t, h)
  {
    PathHitsExactly(find, t.id, t.files, h);
  }

  /** The order in which the fields of a turn are searched. */
  predicate SearchedBefore(a: Field, b: Field) {
    match a
    case Prompt => b != Prompt
    case Tool => b == Model || b == FilePath
    case Model => b == FilePath
    case FilePath => false
  }

  /** `hits` are the matching paths of `files`, at the increasing positions `at`. */
  ghost predicate PathsInOrder(find: Matcher, files: seq<FileEntry>, at: seq<nat>, hits: seq<Hit>) {
    && |at| == |hits|
    && (forall x :: 0 <= x < |at| ==> at[x] < |files| && hits[x].field == FilePath && hits[x].text == files[at[x]].path)
    && (forall x, y :: 0 <= x < y < |at| ==> at[x] < at[y])
    && (forall i :: 0 <= i < |files| && find(files[i].path).Some? ==> i in at)
  }

  lemma {:induction false} PathHitsInOrder(find: Matcher, id: Id, files: seq<FileEntry>) returns (at: seq<nat>)
    ensures PathsInOrder(find, files, at, PathHits(find, id, files))
    decreases |files|
  {
    if files == [] {
      at := [];
    } else {
      var n := |files| - 1;
      at := PathHitsInOrder(find, id, files[..n]);
      assert files == files[..n] + [files[n]];
      NextPathInOrder(find, id, files[..n], files[n], at, PathHits(find, id, files[..n]));
      if find(files[n].path).Some? {
        at := at + [n];
      }
    }
  }

  lemma NextPathInOrder(find: Matcher, id: Id, files: seq<FileEntry>, e: FileEntry, at: seq<nat>, hits: seq<Hit>)
    requires PathsInOrder(find, files, at, hits)
    ensures find(e.path).Some? ==> PathsInOrder(find, files + [e], at + [|files|], hits + HitIn(find, id, FilePath, e.path))
    ensures find(e.path).None? ==> PathsInOrder(find, files + [e], at, hits + HitIn(find, id, FilePath, e.path))
  {
    var all := files + [e];
    var more := if find(e.path).Some? then at + [|files|] else at;
    forall i | 0 <= i < |all| && find(all[i].path).Some? ensures i in more {
      if i < |files| {
        assert all[i] == files[i] && i in at;
      } else {
        assert more[|at|] == i;
      }
    }
  }

  /** Prompt, tool and model give at most one hit each and come in this order; then the paths, one hit for
      each matching file, in file order. */
  lemma TurnHitsInOrder(find: Matcher, decode: Decoder, objects: Objects, t: TurnRecord) returns (n: nat, at: seq<nat>)
    ensures var hits := TurnHits(find, decode, objects, t);
            && n <= |hits| && PathsInOrder(find, t.files, at, hits[n..])
            && (forall i :: 0 <= i < n ==> hits[i].field != FilePath)
            && (forall i, j :: 0 <= i < j < n ==> SearchedBefore(hits[i].field, hits[j].field))
  {
    var hits, paths := TurnHits(find, decode, objects, t), PathHits(find, t.id, t.files);
    n := |hits| - |paths|;
    at := PathHitsInOrder(find, t.id, t.files);
    assert hits[n..] == paths;
  }

  /** A prompt counts as dangling exactly when its object is gone or does not hold what its address says. */
  lemma DanglingExactly(objects: Objects, t: TurnRecord)
    ensures Dangling(objects, t) <==>
              t.promptRef.Some?
              && (t.promptRef.value in objects ==> objects[t.promptRef.value] != t.promptRef.value.content)
  {}

  /** The count is the number of turns whose prompt dangles. */
  lemma {:induction false} DanglingCountExactly(objects: Objects, turns: seq<TurnRecord>)
    ensures DanglingCount(objects, turns) == |set i | 0 <= i < |turns| && Dangling(objects, turns[i])|
    decreases |turns|
  {
    if turns != [] {
      var n := |turns| - 1;
      DanglingCountExactly(objects, turns[..n]);
      var before := set i | 0 <= i < n && Dangling(objects, turns[..n][i]);
      var all := set i | 0 <= i < |turns| && Dangling(objects, turns[i]);
      assert all == if Dangling(objects, turns[n]) then before + {n} else before;
    }
  }

  lemma {:induction false} FlattenMembers(lists: seq<seq<Hit>>, h: Hit)
    ensures h in Flatten(lists) <==> exists i :: 0 <= i < |lists| && h in lists[i]
    decreases |lists|
  {
    if lists != [] {
      var n := |lists| - 1;
      FlattenMembers(lists[..n], h);
      if i :| 0 <= i < |lists| && h in lists[i] {
        if i < n {
          assert h in lists[..n][i];
        }
      }
    }
  }

  /** Over the whole ledger a hit exists exactly for a match in some field of some turn. */
  lemma HitsExactly(find: Matcher, decode: Decoder, objects: Objects, turns: seq<TurnRecord>, h: Hit)
    ensures h in Hits(find, decode, objects, turns) <==> exists t :: t in turns && Reports(find, decode, objects, t, h)
  {
    var lists := Mapped(HitsOfTurn(find, decode, objects), turns);
    FlattenMembers(lists, h);
    forall i | 0 <= i < |turns| ensures h in lists[i] <==> Reports(find, decode, objects, turns[i], h) {
      TurnHitsExactly(find, decode, objects, turns[i], h);
    }
    if t :| t in turns && Reports(find, decode, objects, t, h) {
      var i :| 0 <= i < |turns| && turns[i] == t;
      assert h in lists[i];
    }
  }

  lemma {:induction false} FlattenAppend(a: seq<seq<Hit>>, b: seq<seq<Hit>>)
    ensures Flatten(a + b) == Flatten(a) + Flatten(b)
    decreases |b|
  {
    if b == [] {
      assert a + b == a;
    } else {
      var n := |b| - 1;
      FlattenAppend(a, b[..n]);
      assert (a + b)[..|a| + n] == a + b[..n];
    }
  }

  // ---- a minted cursor resolves to where it was minted ----------------------------------------------

  lemma CountStep(hits: seq<Hit>, id: Id, i: nat)
    requires 0 < i <= |hits|
    ensures Count(hits[..i], id) == (if hits[0].turnId == id then 1 else 0) + Count(hits[1..][..i - 1], id)
  {
    if i == 1 {
      assert hits[..1][..0] == [] && hits[1..][..0] == [];
    } else {
      CountStep(hits, id, i - 1);
      assert hits[..i][..i - 1] == hits[..i - 1];
      assert hits[1..][..i - 1][..i - 2] == hits[1..][..i - 2];
    }
  }

  /** The occurrence that a position is names that position, however often the turn is repeated. */
  lemma {:induction false} NthOfCount(hits: seq<Hit>, i: nat)
    requires i < |hits|
    ensures Nth(hits, hits[i].turnId, Count(hits[..i], hits[i].turnId)) == Some(i)
  {
    if i > 0 {
      NthOfCount(hits[1..], i - 1);
      CountStep(hits, hits[i].turnId, i);
      assert hits[1..][i - 1] == hits[i];
    }
  }

  /** Later hits do not move an earlier occurrence. */
  lemma {:induction false} NthSurvivesAppend(hits: seq<Hit>, more: seq<Hit>, id: Id, nth: nat)
    requires Nth(hits, id, nth).Some?
    ensures Nth(hits + more, id, nth) == Nth(hits, id, nth)
  {
    if !(hits[0].turnId == id && nth == 0) {
      NthSurvivesAppend(hits[1..], more, id, if hits[0].turnId == id then nth - 1 else nth);
      assert (hits + more)[1..] == hits[1..] + more;
    }
  }

  /** A cursor minted after `end` hits leads back to `end`, in this list and in any longer one. */
  lemma CursorResolves(hits: seq<Hit>, more: seq<Hit>, query: string, end: nat)
    requires 0 < end < |hits|
    ensures StartOf(hits + more, query, CursorAfter(hits, query, end)) == Ok(end)
  {
    NthOfCount(hits, end - 1);
    NthSurvivesAppend(hits, more, hits[end - 1].turnId, Count(hits[..end - 1], hits[end - 1].turnId));
  }

  // ---- the errors ------------------------------------------------------------------------------------

  /** The errors, exactly: a zero size before anything else, then a cursor of another query, then one whose
      occurrence does not exist. */
  lemma PageErrors(hits: seq<Hit>, query: string, cursor: Option<Cursor>, size: nat)
    ensures PageOf(hits, query, cursor, size) == Err(ZeroLimit) <==> size == 0
    ensures PageOf(hits, query, cursor, size) == Err(QueryMismatch) <==>
              size > 0 && cursor.Some? && cursor.value.query != query
    ensures PageOf(hits, query, cursor, size) == Err(Stale) <==>
              size > 0 && cursor.Some? && cursor.value.query == query
              && Count(hits, cursor.value.afterId) <= cursor.value.afterOccurrence
  {
    if cursor.Some? {
      NthExists(hits, cursor.value.afterId, cursor.value.afterOccurrence);
    }
  }

  lemma {:induction false} NthExists(hits: seq<Hit>, id: Id, nth: nat)
    ensures Nth(hits, id, nth).None? <==> Count(hits, id) <= nth
  {
    if hits != [] {
      CountStep(hits, id, |hits|);
      assert hits[..|hits|] == hits && hits[1..][..|hits| - 1] == hits[1..];
      if !(hits[0].turnId == id && nth == 0) {
        NthExists(hits[1..], id, if hits[0].turnId == id then nth - 1 else nth);
      }
    }
  }

  // ---- following the cursors ---------------------------------------------------------------------------

  /** What a reader has after asking for one page per view of the hit list: the items so far, the cursor for
      the next page, and whether the last page said there is none. */
  datatype Progress = Progress(got: seq<Hit>, next: Option<Cursor>, done: bool) | Refused(error: CursorError)

  function Follow(views: seq<seq<Hit>>, query: string, size: nat): Progress {
    if views == [] then Progress([], None, false)
    else
      var before := Follow(views[..|views| - 1], query, size);
      if before.Refused? || before.done then before
      else match PageOf(views[|views| - 1], query, before.next, size)
        case Err(e) => Refused(e)
        case Ok(page) => Progress(before.got + page.items, page.next, page.next.None?)
  }

  /** Each view extends the one before: between two pages the ledger only grew. */
  ghost predicate Growing(views: seq<seq<Hit>>) {
    forall i, j :: 0 <= i <= j < |views| ==> views[i] <= views[j]
  }

  /** The items so far are a prefix of the current list, page after page full; and the walk is done as soon
      as the pages have caught up with the list. */
  ghost predicate Exact(views: seq<seq<Hit>>, query: string, size: nat, p: Progress) {
    && p.Progress?
    && (p.done ==> exists k :: 0 <= k < |views| && p.got == views[k] && |views[k]| <= (k + 1) * size)
    && (!p.done && views != [] ==>
          var last := views[|views| - 1];
          && |views| * size < |last| && p.got == last[..|views| * size]
          && p.next == CursorAfter(last, query, |views| * size))
    && (views == [] ==> p == Progress([], None, false))
  }

  lemma FirstPage(last: seq<Hit>, query: string, size: nat)
    requires size > 0
    ensures PageOf(last, query, None, size)
         == Ok(Page(last[..Min(size, |last|)], CursorAfter(last, query, Min(size, |last|))))
  {}

  lemma NextPage(before: seq<Hit>, last: seq<Hit>, query: string, size: nat, end: nat)
    requires size > 0 && before <= last && 0 < end < |before|
    ensures PageOf(last, query, CursorAfter(before, query, end), size)
         == Ok(Page(last[end..Min(end + size, |last|)], CursorAfter(last, query, Min(end + size, |last|))))
  {
    assert last == before + last[|before|..];
    CursorResolves(before, last[|before|..], query, end);
  }

  /** Once done, always done. */
  lemma StaysDone(views: seq<seq<Hit>>, query: string, size: nat, p: Progress)
    requires views != [] && Exact(views[..|views| - 1], query, size, p) && p.done
    ensures Exact(views, query, size, p)
  {
    var earlier := views[..|views| - 1];
    var k :| 0 <= k < |earlier| && p.got == earlier[k] && |earlier[k]| <= (k + 1) * size;
    assert views[k] == earlier[k];
  }

  /** Where an exact walk that is not done stands after `n` pages. */
  lemma WhereItStands(views: seq<seq<Hit>>, query: string, size: nat, p: Progress, n: nat)
    requires 0 < n <= |views| && Exact(views[..n], query, size, p) && !p.done
    ensures var was := views[n - 1];
            n * size < |was| && p.got == was[..n * size] && p.next == CursorAfter(was, query, n * size)
  {
    assert |views[..n]| == n && views[..n][n - 1] == views[n - 1];
  }

  /** A later page, asked for with the cursor of an exact walk so far. */
  lemma OnePageLater(views: seq<seq<Hit>>, query: string, size: nat, p: Progress)
    requires size > 0 && Growing(views) && |views| > 1
    requires Exact(views[..|views| - 1], query, size, p) && !p.done
    ensures var page := PageOf(views[|views| - 1], query, p.next, size);
            page.Ok? && Exact(views, query, size, Progress(p.got + page.value.items, page.value.next, page.value.next.None?))
  {
    var n := |views| - 1;
    var was := views[n - 1];
    assert was <= views[n];
    WhereItStands(views, query, size, p, n);
    Positive(n, size);
    NextPage(was, views[n], query, size, n * size);
    OnePageMore(views, query, size, p.got, n * size);
  }

  /** Following cursors from the start over a growing ledger never fails, never repeats and never skips. */
  lemma {:induction false} FollowingIsExact(views: seq<seq<Hit>>, query: string, size: nat)
    requires size > 0 && Growing(views)
    ensures Exact(views, query, size, Follow(views, query, size))
    decreases |views|
  {
    if views != [] {
      var before := Follow(views[..|views| - 1], query, size);
      FollowingIsExact(views[..|views| - 1], query, size);
      if before.done {
        StaysDone(views, query, size, before);
      } else if |views| == 1 {
        FirstPage(views[0], query, size);
        OnePageMore(views, query, size, [], 0);
      } else {
        OnePageLater(views, query, size, before);
      }
    }
  }

  lemma Positive(n: nat, size: nat)
    requires n > 0 && size > 0
    ensures n * size > 0
  {}

  /** Reading from `end` to the end of the next page. */
  lemma OnePageMore(views: seq<seq<Hit>>, query: string, size: nat, got: seq<Hit>, end: nat)
    requires size > 0 && views != [] && end == (|views| - 1) * size
    requires var last := views[|views| - 1]; end <= |last| && got == last[..end]
    ensures var last := views[|views| - 1];
            var stop := Min(end + size, |last|);
            var next := CursorAfter(last, query, stop);
            Exact(views, query, size, Progress(got + last[end..stop], next, next.None?))
  {
    var last := views[|views| - 1];
    var stop := Min(end + size, |last|);
    assert end + size == |views| * size by {
      assert end + size == (|views| - 1) * size + size;
    }
    assert got + last[end..stop] == last[..stop];
    if stop == |last| {
      assert last[..stop] == views[|views| - 1];
    }
  }

  /** Over an unchanging list, any positive page size ends and the pages concatenate to exactly the list. */
  lemma PagesConcatenateToAllHits(hits: seq<Hit>, query: string, size: nat, pages: nat)
    requires size > 0 && pages > 0 && pages * size >= |hits|
    ensures Follow(seq(pages, _ => hits), query, size) == Progress(hits, None, true)
  {
    var views := seq(pages, _ => hits);
    FollowingIsExact(views, query, size);
    var p := Follow(views, query, size);
    DoneHasNoCursor(views, query, size);
    assert p.done;
  }

  lemma {:induction false} DoneHasNoCursor(views: seq<seq<Hit>>, query: string, size: nat)
    ensures var p := Follow(views, query, size); p.Progress? && p.done ==> p.next.None?
    decreases |views|
  {
    if views != [] {
      DoneHasNoCursor(views[..|views| - 1], query, size);
    }
  }

  // ---- appends to the ledger ---------------------------------------------------------------------------

  /** The blob reads of these turns' prompts are the same in both stores. */
  ghost predicate SameReads(a: Objects, b: Objects, turns: seq<TurnRecord>) {
    forall t :: t in turns && t.promptRef.Some? ==> Get(a, t.promptRef.value) == Get(b, t.promptRef.value)
  }

  lemma HitsDependOnReads(find: Matcher, decode: Decoder, a: Objects, b: Objects, turns: seq<TurnRecord>)
    requires SameReads(a, b, turns)
    ensures Hits(find, decode, a, turns) == Hits(find, decode, b, turns)
  {
    forall i | 0 <= i < |turns| ensures HitsOfTurn(find, decode, a)(turns[i]) == HitsOfTurn(find, decode, b)(turns[i]) {
      assert turns[i] in turns;
    }
    assert Mapped(HitsOfTurn(find, decode, a), turns) == Mapped(HitsOfTurn(find, decode, b), turns);
  }

  lemma MappedAppend(f: TurnRecord -> seq<Hit>, a: seq<TurnRecord>, b: seq<TurnRecord>)
    ensures Mapped(f, a + b) == Mapped(f, a) + Mapped(f, b)
  {}

  lemma HitsAppend(find: Matcher, decode: Decoder, objects: Objects, a: seq<TurnRecord>, b: seq<TurnRecord>)
    ensures Hits(find, decode, objects, a + b) == Hits(find, decode, objects, a) + Hits(find, decode, objects, b)
  {
    var f := HitsOfTurn(find, decode, objects);
    MappedAppend(f, a, b);
    FlattenAppend(Mapped(f, a), Mapped(f, b));
  }

  /** Appending turns to the ledger, with the earlier prompts reading as before, extends the hit list. */
  lemma AppendsExtendHits(find: Matcher, decode: Decoder, a: Objects, b: Objects, turns: seq<TurnRecord>, more: seq<TurnRecord>)
    requires SameReads(a, b, turns)
    ensures Hits(find, decode, a, turns) <= Hits(find, decode, b, turns + more)
  {
    HitsDependOnReads(find, decode, a, b, turns);
    HitsAppend(find, decode, b, turns, more);
  }
}
