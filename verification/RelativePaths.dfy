/** The lexical gate on recorded paths: which strings provably name a place inside the root. */
module RelativePaths {

  datatype Component = RootDir | CurDir | ParentDir | Normal(name: string)

  /** A place below the root, as the names that lead to it. */
  type Place = seq<string>

  /** The pieces between slashes; there is always at least one. */
  function Segments(path: string): (r: seq<string>)
    ensures |r| >= 1
    ensures forall s :: s in r ==> '/' !in s
  {
    if path == "" then [""]
    else
      var rest := Segments(path[1..]);
      if path[0] == '/' then [""] + rest else [[path[0]] + rest[0]] + rest[1..]
  }

  /** Empty pieces and inner dots vanish. */
  function Tail(segments: seq<string>): seq<Component> {
    if segments == [] then []
    else
      (if segments[0] == "" || segments[0] == "." then []
       else if segments[0] == ".." then [ParentDir] else [Normal(segments[0])]) + Tail(segments[1..])
  }

  /** The components of a Unix path: a leading slash is the root, a leading dot is kept. */
  function Components(path: string): seq<Component> {
    if path == "" then []
    else
      var s := Segments(path);
      (if path[0] == '/' then [RootDir] else if s[0] == "." then [CurDir] else []) + Tail(s)
  }

  predicate SafeRelative(path: string) {
    path != "" && forall c :: c in Components(path) ==> c.Normal?
  }

  /** Where following `cs` from `at` leads; the root directory discards where one was. */
  function Walk(at: Place, cs: seq<Component>): Place
    decreases |cs|
  {
    if cs == [] then at
    else
      var next :=
        match cs[0]
        case RootDir => []
        case CurDir => at
        case ParentDir => if at == [] then [] else at[..|at| - 1]
        case Normal(name) => at + [name];
      Walk(next, cs[1..])
  }

  /** The names of a path's ordinary components. */
  function Names(cs: seq<Component>): Place {
    if cs == [] then []
    else (if cs[0].Normal? then [cs[0].name] else []) + Names(cs[1..])
  }

  function PlaceOf(path: string): Place {
    Names(Components(path))
  }

  lemma {:induction false} TailKinds(segments: seq<string>)
    ensures (forall c :: c in Tail(segments) ==> c.Normal?) <==> ".." !in segments
    ensures forall c :: c in Tail(segments) ==> c.Normal? || c == ParentDir
    ensures forall c :: c in Tail(segments) && c.Normal? ==>
              c.name in segments && c.name != "" && c.name != "." && c.name != ".."
  {
    if segments != [] {
      TailKinds(segments[1..]);
      var first := segments[0];
      var head := if first == "" || first == "." then [] else if first == ".." then [ParentDir] else [Normal(first)];
      assert segments == [first] + segments[1..];
      assert Tail(segments) == head + Tail(segments[1..]);
      assert forall c :: c in Tail(segments) <==> c in head || c in Tail(segments[1..]);
      assert first == ".." ==> ParentDir in head;
    }
  }

  /** The gate, said in terms of the string: not empty, not absolute, no leading dot, and no piece that
      walks up. */
  lemma SafeRelativeExactly(path: string)
    ensures SafeRelative(path) <==>
              path != "" && path[0] != '/' && Segments(path)[0] != "." && ".." !in Segments(path)
  {
    if path != "" {
      var s := Segments(path);
      TailKinds(s);
      var head := if path[0] == '/' then [RootDir] else if s[0] == "." then [CurDir] else [];
      assert Components(path) == head + Tail(s);
      assert forall c :: c in Components(path) <==> c in head || c in Tail(s);
      if path[0] == '/' || s[0] == "." {
        assert !head[0].Normal? && head[0] in Components(path);
      }
    }
  }

  lemma {:induction false} NormalWalk(at: Place, cs: seq<Component>)
    requires forall c :: c in cs ==> c.Normal?
    ensures Walk(at, cs) == at + Names(cs) && |Names(cs)| == |cs|
    ensures forall n :: n in Names(cs) ==> Normal(n) in cs
    decreases |cs|
  {
    if cs == [] {
      assert at + [] == at;
    } else {
      NormalWalk(at + [cs[0].name], cs[1..]);
      assert at + Names(cs) == at + [cs[0].name] + Names(cs[1..]);
    }
  }

  /** A safe path, at every step of following it from any root, stays strictly inside that root. */
  lemma SafeStaysInside(root: Place, path: string, k: nat)
    requires SafeRelative(path) && k <= |Components(path)|
    ensures |PlaceOf(path)| == |Components(path)|
    ensures Walk(root, Components(path)[..k]) == root + PlaceOf(path)[..k]
    ensures forall n :: n in PlaceOf(path) ==> n != "" && n != "." && n != ".." && '/' !in n
  {
    var cs := Components(path);
    NormalWalk(root, cs[..k]);
    NormalWalk(root, cs);
    NamesPrefix(cs, k);
    TailKinds(Segments(path));
    forall n | n in PlaceOf(path) ensures n != "" && n != "." && n != ".." && '/' !in n {
      assert Normal(n) in cs;
      assert Normal(n) in Tail(Segments(path));
    }
  }

  lemma {:induction false} NamesPrefix(cs: seq<Component>, k: nat)
    requires k <= |cs| && forall c :: c in cs ==> c.Normal?
    ensures |Names(cs)| == |cs| && Names(cs[..k]) == Names(cs)[..k]
  {
    NormalWalk([], cs);
    if k > 0 {
      NamesPrefix(cs[1..], k - 1);
      assert cs[..k][1..] == cs[1..][..k - 1];
    }
  }

  /** Why the gate matters: joining an absolute path ignores the root it is joined to. */
  lemma AbsoluteIgnoresTheRoot(root: Place, other: Place, path: string)
    requires path != "" && path[0] == '/'
    ensures !SafeRelative(path) && Walk(root, Components(path)) == Walk(other, Components(path))
  {
    assert Components(path)[0] == RootDir;
    assert RootDir in Components(path);
  }
}
