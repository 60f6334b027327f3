/**
 The compiled router (`Compile` and `Match` in internal/router/router.go).

 `Table` is the plain router: every pair of a route and one of its hosts.
 `IsAnswer` is a plain scan over the pairs that match the host.  `Compile` builds
 an index of the table and `Match` answers from the index; the answer is the scan's
 answer, and it is the only one.
 */
module Router {
  import opened Wrappers
  import opened RoutePattern
  import opened RoutePredicate
  import opened RouteTree
  import opened RouteMatcher

  datatype RouteSpec = RouteSpec(
    index: int, id: string, priority: int, path: string, hosts: seq<HostPattern>,
    methods: seq<string>, predicates: seq<Predicate>)

  datatype CompileError =
    | NoRoutes | BlankID | DuplicateID | BadPath | BadMethods | DuplicateHost | DuplicateExpression

  datatype Index = Index(exactHosts: map<string, Node>, wildcardHosts: map<string, Node>, hostless: Node)

  datatype Answer =
    | Found(routeIndex: int, params: seq<ParamSpan>)
    | MethodNotAllowed(allow: seq<string>)
    | NotFound

  // ----- the plain router

  /** One route at one of its hosts; a route without hosts has one entry without a host. */
  datatype Hosted = Hosted(host: Option<HostPattern>, candidate: Candidate)

  function HostRank(host: Option<HostPattern>): int {
    match host
    case None => 0
    case Some(Wildcard(_)) => 1
    case Some(Exact(_)) => 2
  }

  function HostsOf(route: RouteSpec): set<Option<HostPattern>> {
    if route.hosts == [] then {None} else set h | h in route.hosts :: Some(h)
  }

  predicate Compilable(route: RouteSpec) {
    Compiled(route.path).Ok? && AcceptableMethods(route.methods)
  }

  function CandidateFor(route: RouteSpec, host: Option<HostPattern>): Candidate
    requires Compilable(route)
  {
    Candidate(route.index, route.id, route.priority, HostRank(host), Compiled(route.path).value,
              MethodSetOf(route.methods), route.predicates)
  }

  ghost function Entries(route: RouteSpec): set<Hosted>
    requires Compilable(route)
  {
    set h | h in HostsOf(route) :: Hosted(h, CandidateFor(route, h))
  }

  /** All route and host pairs. */
  ghost function Table(routes: seq<RouteSpec>): set<Hosted> {
    set r, x | r in routes && Compilable(r) && x in Entries(r) :: x
  }

  predicate InScope(h: Hosted, r: Request) {
    h.host.None? || (r.host.Some? && HostMatches(h.host.value, r.host.value))
  }

  ghost function Scope(table: set<Hosted>, r: Request): set<Candidate> {
    set h | h in table && InScope(h, r) :: h.candidate
  }

  /** The greatest serving candidate; failing that, the methods the passing candidates serve. */
  ghost predicate IsAnswer(scope: set<Candidate>, r: Request, a: Answer) {
    match a
    case Found(routeIndex, params) =>
      exists c :: && c in scope && Serves(c, r) && routeIndex == c.routeIndex
                  && Some(params) == MatchPath(Segs(c), PathOf(r))
                  && forall o | o in scope && Serves(o, r) :: Compare(KeyOf(o), KeyOf(c)) <= 0
    case MethodNotAllowed(allow) =>
      && (forall c | c in scope :: !Serves(c, r))
      && (exists c :: c in scope && Passes(c, r))
      && Ascending(allow) && (forall m :: m in allow <==> Allowed(scope, r, m))
    case NotFound =>
      forall c | c in scope :: !Passes(c, r)
  }

  // ----- the index

  ghost function At(m: map<string, Node>, key: string): set<Candidate> {
    if key in m then Contents(m[key]) else {}
  }

  ghost predicate Indexes(x: Index, table: set<Hosted>) {
    && (forall v, c :: c in At(x.exactHosts, v) <==> Hosted(Some(Exact(v)), c) in table)
    && (forall v, c :: c in At(x.wildcardHosts, v) <==> Hosted(Some(Wildcard(v)), c) in table)
    && (forall c :: c in Contents(x.hostless) <==> Hosted(None, c) in table)
  }

  ghost predicate AllPlaced(x: Index) {
    && (forall v | v in x.exactHosts :: Placed(x.exactHosts[v], 0))
    && (forall v | v in x.wildcardHosts :: Placed(x.wildcardHosts[v], 0))
    && Placed(x.hostless, 0)
  }

  ghost predicate AllFinalized(x: Index) {
    && (forall v | v in x.exactHosts :: Finalized(x.exactHosts[v]))
    && (forall v | v in x.wildcardHosts :: Finalized(x.wildcardHosts[v]))
    && Finalized(x.hostless)
  }

  ghost predicate HasMethods(table: set<Hosted>) {
    forall h | h in table :: ValidMethodSet(h.candidate.methods) && MethodsOf(h.candidate.methods) != {}
  }

  /** What a compiled router is: a finalized index of the table. */
  ghost predicate RouterFor(x: Index, table: set<Hosted>) {
    Indexes(x, table) && AllPlaced(x) && AllFinalized(x) && HasMethods(table)
  }

  function TreeAt(m: map<string, Node>, key: string): Node {
    if key in m then m[key] else EMPTY_NODE
  }

  function InsertAt(m: map<string, Node>, key: string, c: Candidate): map<string, Node> {
    m[key := InsertCandidate(TreeAt(m, key), c, 0)]
  }

  function InsertHosted(x: Index, h: Hosted): Index {
    match h.host
    case None => x.(hostless := InsertCandidate(x.hostless, h.candidate, 0))
    case Some(Exact(v)) => x.(exactHosts := InsertAt(x.exactHosts, v, h.candidate))
    case Some(Wildcard(v)) => x.(wildcardHosts := InsertAt(x.wildcardHosts, v, h.candidate))
  }

  lemma InsertAtAdds(m: map<string, Node>, key: string, c: Candidate)
    requires forall v | v in m :: Placed(m[v], 0)
    ensures var u := InsertAt(m, key, c);
            && (forall v | v in u :: Placed(u[v], 0))
            && (forall v, o :: o in At(u, v) <==> o in At(m, v) || (v == key && o == c))
  {
    hide Contents, Placed;
    EmptyNodeFacts(0);
    InsertAdds(TreeAt(m, key), c, 0);
  }

  lemma InsertHostedAdds(x: Index, table: set<Hosted>, h: Hosted)
    requires Indexes(x, table) && AllPlaced(x)
    ensures Indexes(InsertHosted(x, h), table + {h}) && AllPlaced(InsertHosted(x, h))
  {
    hide Contents, Placed, InsertAt;
    match h.host {
      case None => InsertAdds(x.hostless, h.candidate, 0);
      case Some(Exact(v)) => InsertAtAdds(x.exactHosts, v, h.candidate);
      case Some(Wildcard(v)) => InsertAtAdds(x.wildcardHosts, v, h.candidate);
    }
  }

  // ----- compiling

  predicate IsSpace(c: char) {
    c in "\t\n\U{b}\U{c}\r \U{85}\U{a0}\U{1680}\U{2028}\U{2029}\U{202f}\U{205f}\U{3000}"
        || '\U{2000}' <= c <= '\U{200a}'
  }

  predicate Blank(id: string) {
    forall i | 0 <= i < |id| :: IsSpace(id[i])
  }

  /** The canonical priority-plus-match expression of a route: order inside the lists does not matter. */
  datatype Signature = Signature(
    priority: int, path: string, hosts: set<HostPattern>, methods: set<string>, predicates: multiset<Predicate>)

  function SignatureOf(route: RouteSpec): Signature {
    Signature(route.priority, route.path, set h | h in route.hosts, set m | m in route.methods :: Upper(m),
              multiset(route.predicates))
  }

  predicate DistinctHosts(route: RouteSpec) {
    forall i, j | 0 <= i < j < |route.hosts| :: route.hosts[i] != route.hosts[j]
  }

  predicate RouteOk(route: RouteSpec) {
    !Blank(route.id) && Compilable(route) && DistinctHosts(route)
  }

  /** The route sets that compile. */
  predicate Acceptable(routes: seq<RouteSpec>) {
    && routes != []
    && (forall i | 0 <= i < |routes| :: RouteOk(routes[i]))
    && (forall i, j | 0 <= i < j < |routes| :: routes[i].id != routes[j].id)
    && (forall i, j | 0 <= i < j < |routes| :: SignatureOf(routes[i]) != SignatureOf(routes[j]))
  }

  lemma EntriesHaveMethods(route: RouteSpec)
    requires Compilable(route)
    ensures HasMethods(Entries(route))
  {
    MethodSetOfElements(route.methods);
    assert Upper(route.methods[0]) in MethodsOf(MethodSetOf(route.methods));
  }

  /** Files one route under each of its hosts. */
  method AddRoute(x: Index, route: RouteSpec, ghost table: set<Hosted>) returns (y: Index)
    requires Compilable(route) && Indexes(x, table) && AllPlaced(x)
    ensures Indexes(y, table + Entries(route)) && AllPlaced(y)
  {
    hide Indexes, AllPlaced, CandidateFor, InsertHosted, EntriesUpTo;
    y := x;
    if route.hosts == [] {
      var h := Hosted(None, CandidateFor(route, None));
      InsertHostedAdds(y, table, h);
      y := InsertHosted(y, h);
      assert Entries(route) == {h};
      return;
    }
    NoEntriesYet(route);
    assert table + {} == table;
    for j := 0 to |route.hosts|
      invariant Indexes(y, table + EntriesUpTo(route, j)) && AllPlaced(y)
    {
      var host := Some(route.hosts[j]);
      var h := Hosted(host, CandidateFor(route, host));
      InsertHostedAdds(y, table + EntriesUpTo(route, j), h);
      y := InsertHosted(y, h);
      EntriesStep(route, j);
      assert table + EntriesUpTo(route, j + 1) == table + EntriesUpTo(route, j) + {h};
    }
    EntriesDone(route);
  }

  /** The entries of the first `n` hosts of a route. */
  ghost function EntriesUpTo(route: RouteSpec, n: nat): set<Hosted>
    requires Compilable(route) && n <= |route.hosts|
  {
    if n == 0 then {}
    else
      var host := Some(route.hosts[n - 1]);
      EntriesUpTo(route, n - 1) + {Hosted(host, CandidateFor(route, host))}
  }

  lemma {:induction false} NoEntriesYet(route: RouteSpec)
    requires Compilable(route)
    ensures EntriesUpTo(route, 0) == {}
  {
  }

  lemma {:induction false} EntriesStep(route: RouteSpec, n: nat)
    requires Compilable(route) && n < |route.hosts|
    ensures var host := Some(route.hosts[n]);
            EntriesUpTo(route, n + 1) == EntriesUpTo(route, n) + {Hosted(host, CandidateFor(route, host))}
  {
  }

  lemma {:induction false} EntriesAre(route: RouteSpec, n: nat, x: Hosted)
    requires Compilable(route) && n <= |route.hosts|
    ensures x in EntriesUpTo(route, n) <==>
            x.host.Some? && x.host.value in route.hosts[..n] && x.candidate == CandidateFor(route, x.host)
  {
    hide CandidateFor, Compilable;
    if n > 0 {
      EntriesAre(route, n - 1, x);
      assert route.hosts[..n] == route.hosts[..n - 1] + [route.hosts[n - 1]];
    }
  }

  lemma {:induction false} EntriesDone(route: RouteSpec)
    requires Compilable(route) && route.hosts != []
    ensures EntriesUpTo(route, |route.hosts|) == Entries(route)
  {
    hide CandidateFor, Compilable, EntriesUpTo;
    assert route.hosts[..|route.hosts|] == route.hosts;
    forall x ensures x in EntriesUpTo(route, |route.hosts|) <==> x in Entries(route) {
      EntriesAre(route, |route.hosts|, x);
    }
  }

  lemma TableSnoc(routes: seq<RouteSpec>, i: nat)
    requires i < |routes| && Compilable(routes[i])
    ensures Table(routes[..i + 1]) == Table(routes[..i]) + Entries(routes[i])
  {
    assert routes[..i + 1] == routes[..i] + [routes[i]];
    assert routes[i] in routes[..i + 1];
  }

  method Compile(routes: seq<RouteSpec>) returns (r: Result<Index, CompileError>)
    ensures r.Ok? <==> Acceptable(routes)
    ensures r.Ok? ==> RouterFor(r.value, Table(routes))
  {
    hide Indexes, AllPlaced, Entries, Compiled, AcceptableMethods, SignatureOf, Blank;
    if routes == [] { return Err(NoRoutes); }
    var x := Index(map[], map[], EMPTY_NODE);
    EmptyIndex();
    var ids: set<string>, signatures: set<Signature> := {}, {};
    assert routes[..0] == [];
    for i := 0 to |routes|
      invariant forall j | 0 <= j < i :: RouteOk(routes[j])
      invariant forall j, k | 0 <= j < k < i :: routes[j].id != routes[k].id
      invariant forall j, k | 0 <= j < k < i :: SignatureOf(routes[j]) != SignatureOf(routes[k])
      invariant ids == set j | 0 <= j < i :: routes[j].id
      invariant signatures == set j | 0 <= j < i :: SignatureOf(routes[j])
      invariant Indexes(x, Table(routes[..i])) && AllPlaced(x) && HasMethods(Table(routes[..i]))
    {
      var route := routes[i];
      if Blank(route.id) { return Err(BlankID); }
      if route.id in ids { return Err(DuplicateID); }
      var path := CompilePathPattern(route.path);
      if path.Err? { return Err(BadPath); }
      var methods := CompileMethods(route.methods);
      if methods.Err? { return Err(BadMethods); }
      if !DistinctHosts(route) { return Err(DuplicateHost); }
      var signature := SignatureOf(route);
      if signature in signatures { return Err(DuplicateExpression); }
      ids, signatures := ids + {route.id}, signatures + {signature};
      x := AddRoute(x, route, Table(routes[..i]));
      EntriesHaveMethods(route);
      assert routes[..i + 1] == routes[..i] + [route];
      TableSnoc(routes, i);
    }
    assert routes[..|routes|] == routes;
    x := Finalize(x, Table(routes));
    r := Ok(x);
  }

  lemma EmptyIndex()
    ensures var x := Index(map[], map[], EMPTY_NODE); Indexes(x, {}) && AllPlaced(x)
    ensures Table([]) == {}
  {
    EmptyNodeFacts(0);
  }

  method FinalizeMap(m: map<string, Node>) returns (r: map<string, Node>)
    ensures r.Keys == m.Keys && forall k | k in m :: FinalizedFrom(m[k], r[k])
  {
    var rest := m.Keys;
    r := map[];
    while rest != {}
      invariant rest <= m.Keys && r.Keys == m.Keys - rest
      invariant forall k | k in r :: FinalizedFrom(m[k], r[k])
    {
      hide FinalizedFrom;
      var k :| k in rest;
      rest := rest - {k};
      var child := FinalizeNode(m[k]);
      r := r[k := child];
    }
  }

  method Finalize(x: Index, ghost table: set<Hosted>) returns (y: Index)
    requires Indexes(x, table) && AllPlaced(x)
    ensures Indexes(y, table) && AllPlaced(y) && AllFinalized(y)
  {
    hide Contents, Placed, Finalized;
    var hostless := FinalizeNode(x.hostless);
    var exactHosts := FinalizeMap(x.exactHosts);
    var wildcardHosts := FinalizeMap(x.wildcardHosts);
    y := Index(exactHosts, wildcardHosts, hostless);
    assert forall v :: At(y.exactHosts, v) == At(x.exactHosts, v);
    assert forall v :: At(y.wildcardHosts, v) == At(x.wildcardHosts, v);
  }

  // ----- matching

  /** The candidates the three lookups of `Match` lead to. */
  ghost function Looked(x: Index, r: Request): set<Candidate> {
    (if r.host.Some? then At(x.exactHosts, r.host.value) else {})
    + (if r.host.Some? && WildcardKey(r.host.value).Some?
       then At(x.wildcardHosts, WildcardKey(r.host.value).value) else {})
    + Contents(x.hostless)
  }

  /** The lookups reach exactly the table entries whose host matches. */
  lemma LookupsCoverScope(x: Index, table: set<Hosted>, r: Request)
    requires Indexes(x, table)
    requires r.host.Some? || (x.exactHosts == map[] && x.wildcardHosts == map[])
    ensures Looked(x, r) == Scope(table, r)
  {
    hide Contents, WildcardKey, IndexOf;
    forall c ensures c in Looked(x, r) <==> c in Scope(table, r) {
      if c in Looked(x, r) {
        if c in Contents(x.hostless) {
          assert InScope(Hosted(None, c), r);
        } else if c in At(x.exactHosts, r.host.value) {
          assert InScope(Hosted(Some(Exact(r.host.value)), c), r);
        } else {
          var v := WildcardKey(r.host.value).value;
          WildcardLookup(v, r.host.value);
          assert InScope(Hosted(Some(Wildcard(v)), c), r);
        }
      }
      if c in Scope(table, r) {
        var h :| h in table && InScope(h, r) && h.candidate == c;
        if h.host.Some? {
          if h.host.value.Exact? {
            assert c in At(x.exactHosts, h.host.value.value);
          } else {
            assert c in At(x.wildcardHosts, h.host.value.value);
            WildcardLookup(h.host.value.value, r.host.value);
          }
        }
      }
    }
  }

  lemma RootOnCourse(all: set<Candidate>, r: Request)
    ensures AllOnCourse(all, r, 0, 1)
  {
  }

  method VisitTree(state: MatcherState, m: map<string, Node>, key: Option<string>, ghost s: set<Candidate>)
    returns (err: Option<MatchError>)
    requires forall v | v in m :: Placed(m[v], 0) && Finalized(m[v])
    requires state.path == PathOf(state.request) && Tracks(state.Now(), state.request, s)
    modifies state
    ensures var all := if key.Some? then At(m, key.value) else {};
            && (err.None? ==> Tracks(state.Now(), state.request, s + all))
            && (err.Some? ==> err.value == InvalidQuery && exists c :: c in all && Fails(c, state.request))
  {
    hide Contents, Placed, Finalized, Tracks;
    err := None;
    if key.Some? && key.value in m {
      RootOnCourse(Contents(m[key.value]), state.request);
      err := state.Visit(m[key.value], 1, 0, s);
    } else {
      assert s + (if key.Some? then At(m, key.value) else {}) == s;
    }
  }

  /** Visits the trees of the matching hosts, then the hostless tree. */
  method Search(x: Index, state: MatcherState) returns (err: Option<MatchError>)
    requires AllPlaced(x) && AllFinalized(x)
    requires state.path == PathOf(state.request) && Tracks(state.Now(), state.request, {})
    requires state.request.host.Some? || (x.exactHosts == map[] && x.wildcardHosts == map[])
    modifies state
    ensures err.None? ==> Tracks(state.Now(), state.request, Looked(x, state.request))
    ensures err.Some? ==> err.value == InvalidQuery && exists c ::
                c in Looked(x, state.request) && Fails(c, state.request)
  {
    hide Contents, Placed, Finalized, Tracks, WildcardKey;
    ghost var s: set<Candidate> := {};
    if |x.exactHosts| > 0 || |x.wildcardHosts| > 0 {
      var host := state.request.host.value;
      err := VisitTree(state, x.exactHosts, Some(host), s);
      if err.Some? { return; }
      s := s + At(x.exactHosts, host);
      var key := WildcardKey(host);
      err := VisitTree(state, x.wildcardHosts, key, s);
      if err.Some? { return; }
      s := s + if key.Some? then At(x.wildcardHosts, key.value) else {};
    } else {
      assert x.exactHosts == map[] && x.wildcardHosts == map[];
    }
    RootOnCourse(Contents(x.hostless), state.request);
    err := state.Visit(x.hostless, 1, 0, s);
    assert s + Contents(x.hostless) == Looked(x, state.request);
  }

  method MatchRequest(x: Index, r: Request, ghost table: set<Hosted>) returns (result: Result<Answer, MatchError>)
    requires RouterFor(x, table)
    ensures result == Err(InvalidHost) <==> r.host.None? && (x.exactHosts != map[] || x.wildcardHosts != map[])
    ensures result == Err(InvalidQuery) ==> r.query.None? && exists c :: c in Scope(table, r) && Fails(c, r)
    ensures result.Ok? ==> IsAnswer(Scope(table, r), r, result.value)
  {
    hide Contents, Placed, Finalized, Tracks, Indexes, AllPlaced, AllFinalized, Scope, IsAnswer, Fails;
    if (x.exactHosts != map[] || x.wildcardHosts != map[]) && r.host.None? { return Err(InvalidHost); }
    var state := new MatcherState(r);
    LookupsCoverScope(x, table, r);
    var err := Search(x, state);
    if err.Some? {
      ghost var c :| c in Scope(table, r) && Fails(c, r);
      FailsMeansBadQuery(c, r);
      return Err(err.value);
    }
    ScopeHasMethods(table, r);
    if state.found {
      FoundIsAnswer(state.Now(), r, Scope(table, r));
      return Ok(Found(state.routeIndex, state.params));
    }
    if state.allow != {} {
      var allow := SortedValues(state.allow);
      AllowIsAnswer(state.Now(), r, Scope(table, r), allow);
      return Ok(MethodNotAllowed(allow));
    }
    NothingIsAnswer(state.Now(), r, Scope(table, r));
    result := Ok(NotFound);
  }

  lemma FailsMeansBadQuery(c: Candidate, r: Request)
    requires Fails(c, r)
    ensures r.query.None?
  {
    EvaluationErrors(c.predicates, 0, r);
  }

  ghost predicate ServeSome(scope: set<Candidate>) {
    forall c | c in scope :: ValidMethodSet(c.methods) && MethodsOf(c.methods) != {}
  }

  lemma ScopeHasMethods(table: set<Hosted>, r: Request)
    requires HasMethods(table)
    ensures ServeSome(Scope(table, r))
  {
  }

  lemma FoundIsAnswer(p: Progress, r: Request, scope: set<Candidate>)
    requires Tracks(p, r, scope) && p.found
    ensures IsAnswer(scope, r, Found(p.routeIndex, p.params))
  {
    var c :| c in scope && IsBest(p, r, c);
  }

  lemma AllowIsAnswer(p: Progress, r: Request, scope: set<Candidate>, allow: seq<string>)
    requires Tracks(p, r, scope) && !p.found && p.allow != {}
    requires Ascending(allow) && forall m :: m in allow <==> m in p.allow
    ensures IsAnswer(scope, r, MethodNotAllowed(allow))
  {
    var m :| m in p.allow;
    assert Allowed(scope, r, m);
  }

  lemma NothingIsAnswer(p: Progress, r: Request, scope: set<Candidate>)
    requires Tracks(p, r, scope) && !p.found && p.allow == {} && ServeSome(scope)
    ensures IsAnswer(scope, r, NotFound)
  {
    forall c | c in scope ensures !Passes(c, r) {
      var m :| m in MethodsOf(c.methods);
      assert !Allowed(scope, r, m);
    }
  }

  // ----- the answer is unique and does not depend on the order of the routes

  /** Candidates of equal precedence come from one route. */
  lemma EqualKeysEqualRoute(routes: seq<RouteSpec>, a: Hosted, b: Hosted)
    requires Acceptable(routes)
    requires a in Table(routes) && b in Table(routes) && KeyOf(a.candidate) == KeyOf(b.candidate)
    ensures a.candidate == b.candidate
  {
    var q, x :| q in routes && x in Entries(q) && x == a;
    var p, y :| p in routes && y in Entries(p) && y == b;
    assert q.id == p.id;
    assert q == p;
  }

  /** There is only one answer. */
  lemma AnswerUnique(routes: seq<RouteSpec>, r: Request, a: Answer, b: Answer)
    requires Acceptable(routes)
    requires IsAnswer(Scope(Table(routes), r), r, a) && IsAnswer(Scope(Table(routes), r), r, b)
    ensures a == b
  {
    hide Table, Compilable, Acceptable, MatchPath, Evaluated;
    var scope := Scope(Table(routes), r);
    if a.Found? && b.Found? {
      BestUnique(routes, r, a, b);
    } else if a.MethodNotAllowed? && b.MethodNotAllowed? {
      AscendingUnique(a.allow, b.allow);
    }
  }

  lemma BestUnique(routes: seq<RouteSpec>, r: Request, a: Answer, b: Answer)
    requires Acceptable(routes) && a.Found? && b.Found?
    requires IsAnswer(Scope(Table(routes), r), r, a) && IsAnswer(Scope(Table(routes), r), r, b)
    ensures a == b
  {
    hide Table, Compilable, Acceptable, MatchPath, Evaluated, InScope, Compare, KeyOf;
    var scope := Scope(Table(routes), r);
    var c :| && c in scope && Serves(c, r) && a.routeIndex == c.routeIndex
             && Some(a.params) == MatchPath(Segs(c), PathOf(r))
             && forall o | o in scope && Serves(o, r) :: Compare(KeyOf(o), KeyOf(c)) <= 0;
    var d :| && d in scope && Serves(d, r) && b.routeIndex == d.routeIndex
             && Some(b.params) == MatchPath(Segs(d), PathOf(r))
             && forall o | o in scope && Serves(o, r) :: Compare(KeyOf(o), KeyOf(d)) <= 0;
    CompareTotal(KeyOf(c), KeyOf(d));
    CompareTotal(KeyOf(d), KeyOf(c));
    var hc :| hc in Table(routes) && InScope(hc, r) && hc.candidate == c;
    var hd :| hd in Table(routes) && InScope(hd, r) && hd.candidate == d;
    EqualKeysEqualRoute(routes, hc, hd);
  }

  lemma PermutedTable(routes: seq<RouteSpec>, permuted: seq<RouteSpec>)
    requires multiset(routes) == multiset(permuted)
    ensures Table(routes) == Table(permuted)
  {
    hide Compilable, Entries;
    forall q ensures q in routes <==> q in permuted {
      assert q in routes <==> q in multiset(routes);
      assert q in permuted <==> q in multiset(permuted);
    }
  }

  /** A pairwise condition on distinct positions does not depend on the order. */
  ghost predicate Pairwise(routes: seq<RouteSpec>, differ: (RouteSpec, RouteSpec) -> bool) {
    forall i, j | 0 <= i < j < |routes| :: differ(routes[i], routes[j])
  }

  lemma RepeatsCount(routes: seq<RouteSpec>, i: nat, j: nat)
    requires i < j < |routes| && routes[i] == routes[j]
    ensures multiset(routes)[routes[i]] >= 2
  {
    var a, b := routes[..j], routes[j..];
    assert routes == a + b;
    assert a[i] in multiset(a) && b[0] in multiset(b);
  }

  lemma {:induction false} CountedRepeats(routes: seq<RouteSpec>, x: RouteSpec) returns (i: nat, j: nat)
    requires multiset(routes)[x] >= 2
    ensures i < j < |routes| && routes[i] == x && routes[j] == x
  {
    var init, last := routes[..|routes| - 1], routes[|routes| - 1];
    assert routes == init + [last];
    if multiset(init)[x] >= 2 {
      i, j := CountedRepeats(init, x);
    } else {
      assert x in multiset(init) && last == x;
      var k: nat :| k < |init| && init[k] == x;
      i, j := k, |routes| - 1;
    }
  }

  lemma PairwisePermuted(routes: seq<RouteSpec>, permuted: seq<RouteSpec>, differ: (RouteSpec, RouteSpec) -> bool)
    requires multiset(routes) == multiset(permuted) && Pairwise(routes, differ)
    requires forall x, y :: differ(x, y) == differ(y, x)
    ensures Pairwise(permuted, differ)
  {
    forall i: nat, j: nat | i < j < |permuted| ensures differ(permuted[i], permuted[j]) {
      var x, y := permuted[i], permuted[j];
      if x == y {
        RepeatsCount(permuted, i, j);
        var k, l := CountedRepeats(routes, x);
      } else {
        assert x in multiset(permuted) && y in multiset(permuted);
        assert x in multiset(routes) && y in multiset(routes);
        var k: nat :| k < |routes| && routes[k] == x;
        var l: nat :| l < |routes| && routes[l] == y;
        assert differ(routes[if k < l then k else l], routes[if k < l then l else k]);
      }
    }
  }

  /** Whether a route set is accepted does not depend on the order of the routes. */
  lemma AcceptableAnyOrder(routes: seq<RouteSpec>, permuted: seq<RouteSpec>)
    requires Acceptable(routes) && multiset(routes) == multiset(permuted)
    ensures Acceptable(permuted)
  {
    hide RouteOk, SignatureOf;
    assert routes[0] in multiset(permuted);
    forall i | 0 <= i < |permuted| ensures RouteOk(permuted[i]) {
      assert permuted[i] in multiset(routes);
      var k :| 0 <= k < |routes| && routes[k] == permuted[i];
    }
    var ids := (x: RouteSpec, y: RouteSpec) => x.id != y.id;
    var signatures := (x: RouteSpec, y: RouteSpec) => SignatureOf(x) != SignatureOf(y);
    PairwisePermuted(routes, permuted, ids);
    PairwisePermuted(routes, permuted, signatures);
    assert forall i, j | 0 <= i < j < |permuted| :: ids(permuted[i], permuted[j]);
    assert forall i, j | 0 <= i < j < |permuted| :: signatures(permuted[i], permuted[j]);
  }

  /** Declaration order does not matter: permuted routes are accepted too, and give the same answers. */
  lemma OrderIrrelevant(routes: seq<RouteSpec>, permuted: seq<RouteSpec>, r: Request, a: Answer, b: Answer)
    requires Acceptable(routes) && multiset(routes) == multiset(permuted)
    requires IsAnswer(Scope(Table(routes), r), r, a) && IsAnswer(Scope(Table(permuted), r), r, b)
    ensures Acceptable(permuted) && a == b
  {
    hide Table, Compilable, Acceptable, IsAnswer, Scope;
    AcceptableAnyOrder(routes, permuted);
    PermutedTable(routes, permuted);
    AnswerUnique(routes, r, a, b);
  }
}
