/**
 The branch-and-bound search of the router (`matcherState` in internal/router/router.go).

 `Tracks` says what the search knows after having dealt with a set of candidates.
 Every early exit of the search is justified by it.
 */
module RouteMatcher {
  import opened Wrappers
  import opened RoutePattern
  import opened RoutePredicate
  import opened RouteTree

  function PathOf(r: Request): string {
    if r.path == "" then "/" else r.path
  }

  predicate PathMatches(c: Candidate, r: Request) {
    MatchPath(Segs(c), PathOf(r)).Some?
  }

  /** Path and predicates match. */
  predicate Passes(c: Candidate, r: Request) {
    PathMatches(c, r) && Evaluated(c.predicates, 0, r) == Ok(true)
  }

  /** Path, predicates and method match. */
  predicate Serves(c: Candidate, r: Request) {
    Passes(c, r) && Contains(c.methods, r.method_)
  }

  predicate Fails(c: Candidate, r: Request) {
    PathMatches(c, r) && Evaluated(c.predicates, 0, r).Err?
  }

  datatype Progress = Progress(
    found: bool, best: Key, routeIndex: int, params: seq<ParamSpan>, allow: set<string>)

  ghost predicate IsBest(p: Progress, r: Request, c: Candidate) {
    && Serves(c, r) && p.best == KeyOf(c) && p.routeIndex == c.routeIndex
    && Some(p.params) == MatchPath(Segs(c), PathOf(r))
  }

  ghost predicate Allowed(s: set<Candidate>, r: Request, m: string) {
    exists c :: c in s && Passes(c, r) && m in MethodsOf(c.methods)
  }

  /** The search has found the best of `s`, or knows the methods `s` would allow. */
  ghost predicate Tracks(p: Progress, r: Request, s: set<Candidate>) {
    && (p.found ==> exists c :: c in s && IsBest(p, r, c))
    && (forall c | c in s && Serves(c, r) :: p.found && Compare(KeyOf(c), p.best) <= 0)
    && (!p.found ==> forall m :: m in p.allow <==> Allowed(s, r, m))
  }

  /** Candidates that cannot match, or cannot win, need not be looked at. */
  lemma TracksMore(p: Progress, r: Request, s: set<Candidate>, all: set<Candidate>)
    requires Tracks(p, r, s)
    requires forall c | c in all :: c in s || !Passes(c, r) || (p.found && Compare(KeyOf(c), p.best) <= 0)
    ensures Tracks(p, r, s + all)
  {
    var more := s + all;
    if p.found {
      var c :| c in s && IsBest(p, r, c);
      assert c in more;
    } else {
      forall m ensures m in p.allow <==> Allowed(more, r, m) {
        if Allowed(s, r, m) {
          var c :| c in s && Passes(c, r) && m in MethodsOf(c.methods);
          assert c in more;
        }
      }
    }
  }

  /** What the search knows after the candidate `c`. */
  function Step(p: Progress, r: Request, c: Candidate): Progress {
    if !Passes(c, r) then p
    else if Contains(c.methods, r.method_) then
      Progress(true, KeyOf(c), c.routeIndex, MatchPath(Segs(c), PathOf(r)).value, p.allow)
    else p.(allow := p.allow + MethodsOf(c.methods))
  }

  lemma TracksServing(p: Progress, r: Request, s: set<Candidate>, c: Candidate)
    requires Tracks(p, r, s) && Serves(c, r) && !(p.found && Compare(KeyOf(c), p.best) <= 0)
    ensures Tracks(Step(p, r, c), r, s + {c})
  {
    var q, more := Step(p, r, c), s + {c};
    assert c in more && IsBest(q, r, c);
    forall x | x in more && Serves(x, r) ensures Compare(KeyOf(x), q.best) <= 0 {
      CompareTotal(KeyOf(x), KeyOf(x));
      if x != c {
        CompareTotal(KeyOf(c), p.best);
        CompareTransitive(KeyOf(x), p.best, KeyOf(c));
      }
    }
  }

  lemma TracksAllowing(p: Progress, r: Request, s: set<Candidate>, c: Candidate)
    requires Tracks(p, r, s) && Passes(c, r) && !Contains(c.methods, r.method_)
    ensures Tracks(Step(p, r, c), r, s + {c})
  {
    var q, more := Step(p, r, c), s + {c};
    if p.found {
      var w :| w in s && IsBest(p, r, w);
      assert w in more && IsBest(q, r, w);
    }
    forall m ensures Allowed(more, r, m) <==> Allowed(s, r, m) || m in MethodsOf(c.methods) {
      if m in MethodsOf(c.methods) { assert c in more; }
      if Allowed(s, r, m) {
        var w :| w in s && Passes(w, r) && m in MethodsOf(w.methods);
        assert w in more;
      }
    }
  }

  lemma TracksStep(p: Progress, r: Request, s: set<Candidate>, c: Candidate)
    requires Tracks(p, r, s) && !(p.found && Compare(KeyOf(c), p.best) <= 0)
    ensures Tracks(Step(p, r, c), r, s + {c})
  {
    if !Passes(c, r) { TracksMore(p, r, s, {c}); }
    else if Contains(c.methods, r.method_) { TracksServing(p, r, s, c); }
    else { TracksAllowing(p, r, s, c); }
  }

  // ----- the segment walk

  /** A candidate below depth `d` that matches the path still matches from `position` on. */
  predicate OnCourse(c: Candidate, r: Request, d: nat, position: nat) {
    PathMatches(c, r) && d < |Segs(c)| ==> MatchAt(Segs(c), d, PathOf(r), position).Some?
  }

  ghost predicate AllOnCourse(all: set<Candidate>, r: Request, d: nat, position: nat) {
    forall c | c in all :: OnCourse(c, r, d, position)
  }

  function NextPosition(path: string, position: nat): nat
    requires position <= |path|
  {
    if SegmentEnd(path, position) < |path| then SegmentEnd(path, position) + 1 else |path| + 1
  }

  /** One edge further down, a matching candidate is on course for the next position. */
  lemma CourseContinues(c: Candidate, r: Request, d: nat, position: nat)
    requires OnCourse(c, r, d, position) && d < |Segs(c)| && !Open(Segs(c)[d]) && position <= |PathOf(r)|
    ensures OnCourse(c, r, d + 1, NextPosition(PathOf(r), position))
  {
  }

  /** A candidate behind an edge that does not fit the path cannot match. */
  lemma {:induction false} WrongEdge(c: Candidate, r: Request, d: nat, position: nat)
    requires OnCourse(c, r, d, position) && d < |Segs(c)| && !Open(Segs(c)[d])
    requires position > |PathOf(r)| ||
             !Fits(Segs(c)[d], PathOf(r)[position..SegmentEnd(PathOf(r), position)])
    ensures !PathMatches(c, r)
  {
  }

  class MatcherState {
    const request: Request
    const path: string
    var found: bool
    var best: Key
    var routeIndex: int
    var params: seq<ParamSpan>
    var allow: set<string>

    ghost function Now(): Progress
      reads this
    {
      Progress(found, best, routeIndex, params, allow)
    }

    constructor (request: Request)
      ensures this.request == request && Tracks(Now(), request, {})
      ensures path == PathOf(request) && !found && allow == {}
    {
      this.request := request;
      path := PathOf(request);
      found, best, routeIndex, params, allow := false, Key(0, 0, 0, 0, 0, 0, ""), 0, [], {};
    }

    method AddAllow(methods: MethodSet)
      modifies this`allow
      ensures allow == old(allow) + MethodsOf(methods)
    {
      ghost var before := allow;
      for i := 0 to |STANDARD_METHODS|
        invariant allow == before + set m | m in STANDARD_METHODS[..i] && Contains(methods, m)
      {
        var m := STANDARD_METHODS[i];
        assert STANDARD_METHODS[..i + 1] == STANDARD_METHODS[..i] + [m];
        if Contains(methods, m) { allow := allow + {m}; }
      }
      assert STANDARD_METHODS[..|STANDARD_METHODS|] == STANDARD_METHODS;
      allow := allow + methods.custom;
    }

    /** Looks at one candidate. */
    method ConsiderOne(value: Candidate) returns (err: Option<MatchError>)
      requires path == PathOf(request)
      modifies this
      ensures err.None? ==> Now() == Step(old(Now()), request, value)
      ensures err.Some? <==> Fails(value, request)
      ensures err.Some? ==> err.value == InvalidQuery
    {
      EvaluationErrors(value.predicates, 0, request);
      var spans := Match(value.path, path);
      if spans.None? { return None; }
      if value.predicates != [] {
        var matched := Evaluate(value.predicates, request);
        if matched.Err? { return Some(matched.error); }
        if !matched.value { return None; }
      }
      if Contains(value.methods, request.method_) {
        found, best, routeIndex, params := true, KeyOf(value), value.routeIndex, spans.value;
        return None;
      }
      AddAllow(value.methods);
      err := None;
    }

    /** Looks at one list, highest precedence first, and stops when nothing better can follow. */
    method Consider(values: seq<Candidate>, ghost s: set<Candidate>) returns (err: Option<MatchError>)
      requires path == PathOf(request) && Falling(values) && Tracks(Now(), request, s)
      modifies this
      ensures err.None? ==> Tracks(Now(), request, s + Elements(values))
      ensures err.Some? ==> err.value == InvalidQuery && exists c :: c in values && Fails(c, request)
      ensures (forall c | c in values :: !Fails(c, request)) ==> err.None?
    {
      assert s + Elements(values[..0]) == s;
      for i := 0 to |values|
        invariant Tracks(Now(), request, s + Elements(values[..i]))
      {
        ghost var done := s + Elements(values[..i]);
        if found && Compare(KeyOf(values[i]), best) <= 0 {
          RestIsLower(values, i, best);
          TracksMore(Now(), request, done, Elements(values));
          assert done + Elements(values) == s + Elements(values);
          return None;
        }
        TracksStep(Now(), request, done, values[i]);
        err := ConsiderOne(values[i]);
        if err.Some? { return; }
        ElementsSnoc(values, i);
        assert done + {values[i]} == s + Elements(values[..i + 1]);
      }
      assert values[..|values|] == values;
      err := None;
    }

    /** Visits a node at depth `d`; on success everything below it has been dealt with. */
    method Visit(node: Node, position: nat, ghost d: nat, ghost s: set<Candidate>) returns (err: Option<MatchError>)
      requires path == PathOf(request) && Finalized(node) && Placed(node, d) && Tracks(Now(), request, s)
      requires AllOnCourse(Contents(node), request, d, position)
      modifies this
      ensures err.None? ==> Tracks(Now(), request, s + Contents(node))
      ensures err.Some? ==> err.value == InvalidQuery && exists c :: c in Contents(node) && Fails(c, request)
      decreases node
    {
      hide Contents, Tracks, Falling, AllTake, OnCourse;
      if node.upper.None? || (found && Compare(node.upper.value, best) <= 0) {
        BelowUpper(node, Now());
        TracksMore(Now(), request, s, Contents(node));
        return None;
      }
      ContentsParts(node);
      err := Consider(node.terminal, s);
      if err.Some? { return; }
      ghost var done := s + Elements(node.terminal);
      err := Consider(node.prefix, done);
      if err.Some? { return; }
      done := done + Elements(node.prefix);
      err := Consider(node.catchAll, done);
      if err.Some? { return; }
      done := done + Elements(node.catchAll);
      assert done == s + Listed(node);
      err := VisitChildren(node, position, d, done);
      if err.None? {
        assert done + Contents(node) == s + Contents(node);
      }
    }

    /** The two edges that fit the next path segment, the more promising one first. */
    method VisitChildren(node: Node, position: nat, ghost d: nat, ghost s: set<Candidate>)
      returns (err: Option<MatchError>)
      requires path == PathOf(request) && Finalized(node) && Placed(node, d) && Tracks(Now(), request, s)
      requires AllOnCourse(Contents(node), request, d, position) && Listed(node) <= s
      modifies this
      ensures err.None? ==> Tracks(Now(), request, s + Contents(node))
      ensures err.Some? ==> err.value == InvalidQuery && exists c :: c in Contents(node) && Fails(c, request)
      decreases node, 0
    {
      hide Contents, Tracks, Falling, AllTake, OnCourse;
      if position > |path| {
        OthersCannotMatch(node, request, d, position, None, None);
        TracksMore(Now(), request, s, Contents(node));
        return None;
      }
      var end := SegmentEnd(path, position);
      var next, text := NextPosition(path, position), path[position..end];
      var staticChild := if text in node.statics then Some(node.statics[text]) else None;
      var parameterChild := if end > position then node.parameter else None;
      ChildrenOnCourse(node, request, d, position);
      ghost var done := s + OptContents(staticChild) + OptContents(parameterChild);
      if staticChild.Some? && parameterChild.Some? && CompareNodeUpper(parameterChild.value, staticChild.value) > 0 {
        err := VisitChild(node, parameterChild, next, d, s);
        if err.Some? { return; }
        err := VisitChild(node, staticChild, next, d, s + OptContents(parameterChild));
        assert s + OptContents(parameterChild) + OptContents(staticChild) == done;
      } else {
        err := VisitChild(node, staticChild, next, d, s);
        if err.Some? { return; }
        err := VisitChild(node, parameterChild, next, d, s + OptContents(staticChild));
      }
      if err.Some? { return; }
      OthersCannotMatch(node, request, d, position, staticChild, parameterChild);
      TracksMore(Now(), request, done, Contents(node));
      assert OptContents(staticChild) <= Contents(node) && OptContents(parameterChild) <= Contents(node);
      assert done + Contents(node) == s + Contents(node);
    }

    /** Visits a child, which may be absent. */
    method VisitChild(ghost node: Node, child: Option<Node>, position: nat, ghost d: nat, ghost s: set<Candidate>)
      returns (err: Option<MatchError>)
      requires path == PathOf(request) && Tracks(Now(), request, s)
      requires child.Some? ==> Finalized(child.value) && Placed(child.value, d + 1) && child.value < node
      requires OptContents(child) <= Contents(node) && AllOnCourse(OptContents(child), request, d + 1, position)
      modifies this
      ensures err.None? ==> Tracks(Now(), request, s + OptContents(child))
      ensures err.Some? ==> err.value == InvalidQuery && exists c :: c in Contents(node) && Fails(c, request)
      decreases node, 0, 0
    {
      hide Contents, Tracks, Placed, Finalized, OnCourse;
      if child.None? {
        assert s + OptContents(child) == s;
        return None;
      }
      err := Visit(child.value, position, d + 1, s);
    }
  }

  function CompareNodeUpper(left: Node, right: Node): int {
    if left.upper.None? then -1
    else if right.upper.None? then 1
    else Compare(left.upper.value, right.upper.value)
  }

  lemma ElementsSnoc(values: seq<Candidate>, i: nat)
    requires i < |values|
    ensures Elements(values[..i + 1]) == Elements(values[..i]) + {values[i]}
  {
    assert values[..i + 1] == values[..i] + [values[i]];
  }

  lemma RestIsLower(values: seq<Candidate>, i: nat, best: Key)
    requires Falling(values) && i < |values| && Compare(KeyOf(values[i]), best) <= 0
    ensures forall c | c in values :: c in values[..i] || Compare(KeyOf(c), best) <= 0
  {
    forall c | c in values ensures c in values[..i] || Compare(KeyOf(c), best) <= 0 {
      var j :| 0 <= j < |values| && values[j] == c;
      if j < i { assert values[..i][j] == c; }
      else if i < j { CompareTransitive(KeyOf(c), KeyOf(values[i]), best); }
    }
  }

  /** Nothing below a node beats its bound. */
  lemma {:induction false} BelowUpper(node: Node, p: Progress)
    requires Finalized(node) && (node.upper.None? || (p.found && Compare(node.upper.value, p.best) <= 0))
    ensures forall c | c in Contents(node) :: p.found && Compare(KeyOf(c), p.best) <= 0
  {
    hide Contents;
    forall c | c in Contents(node) ensures p.found && Compare(KeyOf(c), p.best) <= 0 {
      CompareTransitive(KeyOf(c), node.upper.value, p.best);
    }
  }

  lemma {:induction false} EvaluationErrors(ps: seq<Predicate>, i: nat, r: Request)
    requires i <= |ps|
    ensures Evaluated(ps, i, r).Err? ==> Evaluated(ps, i, r) == Err(InvalidQuery) && r.query.None?
    decreases |ps| - i
  {
    if i < |ps| { EvaluationErrors(ps, i + 1, r); }
  }

  /** Below either fitting edge, candidates stay on course. */
  lemma {:induction false} ChildrenOnCourse(node: Node, r: Request, d: nat, position: nat)
    requires Placed(node, d) && AllOnCourse(Contents(node), r, d, position) && position <= |PathOf(r)|
    ensures forall k | k in node.statics ::
              && Contents(node.statics[k]) <= Contents(node)
              && AllOnCourse(Contents(node.statics[k]), r, d + 1, NextPosition(PathOf(r), position))
    ensures OptContents(node.parameter) <= Contents(node)
    ensures AllOnCourse(OptContents(node.parameter), r, d + 1, NextPosition(PathOf(r), position))
  {
    hide Contents, OnCourse;
    ContentsParts(node);
    forall k | k in node.statics
      ensures Contents(node.statics[k]) <= Contents(node)
      ensures AllOnCourse(Contents(node.statics[k]), r, d + 1, NextPosition(PathOf(r), position))
    {
      forall c | c in Contents(node.statics[k])
        ensures c in Contents(node) && OnCourse(c, r, d + 1, NextPosition(PathOf(r), position))
      {
        assert c in MapContents(node.statics);
        CourseContinues(c, r, d, position);
      }
    }
    forall c | c in OptContents(node.parameter)
      ensures OnCourse(c, r, d + 1, NextPosition(PathOf(r), position))
    {
      CourseContinues(c, r, d, position);
    }
  }

  /** Whatever sits below the edges not taken cannot match the path. */
  lemma {:induction false} OthersCannotMatch(
    node: Node, r: Request, d: nat, position: nat, staticChild: Option<Node>, parameterChild: Option<Node>)
    requires Placed(node, d) && AllOnCourse(Contents(node), r, d, position)
    requires position <= |PathOf(r)| ==>
               var text := PathOf(r)[position..SegmentEnd(PathOf(r), position)];
               && staticChild == (if text in node.statics then Some(node.statics[text]) else None)
               && parameterChild == (if text != "" then node.parameter else None)
    ensures forall c | c in Contents(node) ::
              c in Listed(node) || c in OptContents(staticChild) || c in OptContents(parameterChild) || !Passes(c, r)
  {
    hide Contents, OnCourse;
    ContentsParts(node);
    forall c | c in Contents(node)
      ensures c in Listed(node) || c in OptContents(staticChild) || c in OptContents(parameterChild) || !Passes(c, r)
    {
      if c in MapContents(node.statics) && c !in OptContents(staticChild) {
        var k :| k in node.statics && c in Contents(node.statics[k]);
        WrongEdge(c, r, d, position);
      } else if c in OptContents(node.parameter) && c !in OptContents(parameterChild) {
        WrongEdge(c, r, d, position);
      }
    }
  }
}
