/**
 Route precedence and the path trees (internal/router/router.go).

 A tree stores candidates under their path segments.  Finalizing sorts every
 candidate list by falling precedence and bounds each node from above.
 */
module RouteTree {
  import opened Wrappers
  import opened Ordering
  import opened RoutePattern
  import opened RoutePredicate

  datatype Key = Key(
    priority: int, hostRank: int, pathKind: int, staticSegments: int, patternBytes: int, predicateCount: int,
    routeID: string)

  datatype Candidate = Candidate(
    routeIndex: int, routeID: string, priority: int, hostRank: int,
    path: PathPattern, methods: MethodSet, predicates: seq<Predicate>)

  function KeyOf(c: Candidate): Key {
    Key(c.priority, c.hostRank, c.path.specificity.kindRank, c.path.specificity.staticSegments, |c.path.raw|,
        |c.predicates|, c.routeID)
  }

  // ----- precedence

  function Sign(l: int, r: int): int {
    if l > r then 1 else if l < r then -1 else 0
  }

  /** `comparePrecedence`: six numbers, then the smaller route ID wins. */
  function Compare(l: Key, r: Key): int {
    if l.priority != r.priority then Sign(l.priority, r.priority)
    else if l.hostRank != r.hostRank then Sign(l.hostRank, r.hostRank)
    else if l.pathKind != r.pathKind then Sign(l.pathKind, r.pathKind)
    else if l.staticSegments != r.staticSegments then Sign(l.staticSegments, r.staticSegments)
    else if l.patternBytes != r.patternBytes then Sign(l.patternBytes, r.patternBytes)
    else if l.predicateCount != r.predicateCount then Sign(l.predicateCount, r.predicateCount)
    else if LexLess(l.routeID, r.routeID) then 1
    else if LexLess(r.routeID, l.routeID) then -1
    else 0
  }

  function Levels(k: Key): seq<int> {
    [k.priority, k.hostRank, k.pathKind, k.staticSegments, k.patternBytes, k.predicateCount]
  }

  function FirstDifference(l: Key, r: Key): (i: nat)
    requires Levels(l) != Levels(r)
    ensures i < 6 && Levels(l)[i] != Levels(r)[i] && forall j | 0 <= j < i :: Levels(l)[j] == Levels(r)[j]
  {
    if l.priority != r.priority then 0
    else if l.hostRank != r.hostRank then 1
    else if l.pathKind != r.pathKind then 2
    else if l.staticSegments != r.staticSegments then 3
    else if l.patternBytes != r.patternBytes then 4
    else 5
  }

  /** The keys agree before level `i`, where `l` is above `r`. */
  predicate FirstAbove(l: Key, r: Key, i: nat) {
    i < 6 && Levels(l)[i] > Levels(r)[i] && forall j | 0 <= j < i :: Levels(l)[j] == Levels(r)[j]
  }

  /** The first level on which two keys differ decides; the route ID decides only when no level does. */
  lemma CompareByFirstDifference(l: Key, r: Key)
    ensures Compare(l, r) > 0 <==>
            || (exists i :: FirstAbove(l, r, i))
            || (Levels(l) == Levels(r) && LexLess(l.routeID, r.routeID))
  {
    if Levels(l) != Levels(r) {
      var i := FirstDifference(l, r);
      assert Compare(l, r) == Sign(Levels(l)[i], Levels(r)[i]);
      assert Compare(l, r) > 0 ==> FirstAbove(l, r, i);
      if k: nat :| FirstAbove(l, r, k) {
        assert Levels(l)[k] != Levels(r)[k];
        assert k == i;
      }
    } else {
      assert forall i | 0 <= i < 6 :: Levels(l)[i] == Levels(r)[i];
    }
  }

  /** Precedence is a total order: comparing equal means being equal. */
  lemma CompareTotal(l: Key, r: Key)
    ensures Compare(l, r) == 0 <==> l == r
    ensures Compare(l, r) > 0 <==> Compare(r, l) < 0
  {
    LexTrichotomy(l.routeID, r.routeID);
    LexTrichotomy(r.routeID, l.routeID);
  }

  lemma CompareTransitive(a: Key, b: Key, c: Key)
    requires Compare(a, b) <= 0 && Compare(b, c) <= 0
    ensures Compare(a, c) <= 0
  {
    LexTrichotomy(a.routeID, b.routeID);
    LexTrichotomy(b.routeID, c.routeID);
    LexTrichotomy(a.routeID, c.routeID);
    if LexLess(c.routeID, b.routeID) && LexLess(b.routeID, a.routeID) {
      LexTransitive(c.routeID, b.routeID, a.routeID);
    }
  }

  predicate Before(a: Candidate, b: Candidate) {
    Compare(KeyOf(a), KeyOf(b)) > 0
  }

  lemma BeforeIsStrictWeak()
    ensures StrictWeak(Before)
  {
    forall x, y | Before(x, y) ensures !Before(y, x) { CompareTotal(KeyOf(x), KeyOf(y)); }
    forall x, y, z | !Before(y, x) && !Before(z, y) ensures !Before(z, x) {
      CompareTransitive(KeyOf(z), KeyOf(y), KeyOf(x));
    }
  }

  /** Candidates from the highest precedence down. */
  ghost predicate Falling(s: seq<Candidate>) {
    forall i, j | 0 <= i < j < |s| :: Compare(KeyOf(s[j]), KeyOf(s[i])) <= 0
  }

  // ----- trees

  datatype Node = Node(
    statics: map<string, Node>, parameter: Option<Node>,
    terminal: seq<Candidate>, prefix: seq<Candidate>, catchAll: seq<Candidate>, upper: Option<Key>)

  const EMPTY_NODE := Node(map[], None, [], [], [], None)

  ghost function Elements<T>(s: seq<T>): set<T> {
    set x | x in s
  }

  ghost function Listed(n: Node): set<Candidate> {
    Elements(n.terminal) + Elements(n.prefix) + Elements(n.catchAll)
  }

  /** All candidates stored in a tree. */
  ghost function Contents(n: Node): set<Candidate> {
    Listed(n)
    + (if n.parameter.Some? then Contents(n.parameter.value) else {})
    + (set k, c | k in n.statics && c in Contents(n.statics[k]) :: c)
  }

  ghost function OptContents(o: Option<Node>): set<Candidate> {
    if o.Some? then Contents(o.value) else {}
  }

  ghost function MapContents(m: map<string, Node>): set<Candidate> {
    set k, c | k in m && c in Contents(m[k]) :: c
  }

  lemma {:induction false} ContentsParts(n: Node)
    ensures Contents(n) == Listed(n) + OptContents(n.parameter) + MapContents(n.statics)
  {
  }

  function Segs(c: Candidate): seq<Segment> {
    c.path.segments
  }

  ghost predicate ListsPlaced(n: Node, d: nat) {
    && (forall c | c in n.terminal :: |Segs(c)| == d)
    && (forall c | c in n.prefix :: |Segs(c)| > d && Segs(c)[d].Prefix?)
    && (forall c | c in n.catchAll :: |Segs(c)| > d && Segs(c)[d].CatchAll?)
  }

  ghost predicate AllTake(all: set<Candidate>, d: nat, s: Segment) {
    forall c | c in all :: |Segs(c)| > d && SameEdge(Segs(c)[d], s)
  }

  /** The edge a segment follows does not depend on the parameter's name. */
  predicate SameEdge(a: Segment, b: Segment) {
    if a.Parameter? then b.Parameter? else a == b
  }

  const ANY_PARAMETER := Parameter("")

  /** Every candidate below a node at depth `d` sits where its segments lead. */
  ghost predicate Placed(n: Node, d: nat) {
    && ListsPlaced(n, d)
    && (n.parameter.Some? ==>
          && AllTake(Contents(n.parameter.value), d, ANY_PARAMETER)
          && Placed(n.parameter.value, d + 1))
    && (forall k | k in n.statics ::
          && AllTake(Contents(n.statics[k]), d, Static(k))
          && Placed(n.statics[k], d + 1))
  }

  /** `insertCandidate` below a node at depth `d`. */
  function InsertCandidate(n: Node, c: Candidate, d: nat): Node
    requires d <= |Segs(c)|
    decreases |Segs(c)| - d
  {
    if d == |Segs(c)| then n.(terminal := n.terminal + [c])
    else match Segs(c)[d]
      case Prefix => n.(prefix := n.prefix + [c])
      case CatchAll(_) => n.(catchAll := n.catchAll + [c])
      case Parameter(_) =>
        var child := if n.parameter.Some? then n.parameter.value else EMPTY_NODE;
        n.(parameter := Some(InsertCandidate(child, c, d + 1)))
      case Static(text) =>
        var child := if text in n.statics then n.statics[text] else EMPTY_NODE;
        n.(statics := n.statics[text := InsertCandidate(child, c, d + 1)])
  }

  lemma {:induction false} EmptyNodeFacts(d: nat)
    ensures Contents(EMPTY_NODE) == {} && Placed(EMPTY_NODE, d)
  {
  }

  lemma {:induction false} MapUpdateContents(m: map<string, Node>, k: string, v: Node)
    ensures forall c :: c in MapContents(m[k := v]) <==>
                        c in Contents(v) || exists j :: j in m && j != k && c in Contents(m[j])
  {
    var u := m[k := v];
    forall c ensures c in MapContents(u) <==> c in Contents(v) || exists j :: j in m && j != k && c in Contents(m[j]) {
      if c in Contents(v) { assert k in u && c in Contents(u[k]); }
      if j :| j in m && j != k && c in Contents(m[j]) { assert j in u && c in Contents(u[j]); }
      if c in MapContents(u) {
        var j :| j in u && c in Contents(u[j]);
        assert j != k ==> j in m && u[j] == m[j];
      }
    }
  }

  lemma ReplaceParameter(n: Node, child: Node, c: Candidate, d: nat)
    requires Placed(n, d) && Placed(child, d + 1)
    requires Contents(child) == OptContents(n.parameter) + {c} && AllTake({c}, d, ANY_PARAMETER)
    ensures Contents(n.(parameter := Some(child))) == Contents(n) + {c}
    ensures Placed(n.(parameter := Some(child)), d)
  {
    hide Contents;
    var r := n.(parameter := Some(child));
    assert Placed(r, d);
    ContentsParts(n);
    ContentsParts(r);
    assert Listed(r) == Listed(n);
    hide Placed, AllTake, MapContents, Listed;
  }

  lemma {:induction false} MapGrowsByOne(m: map<string, Node>, text: string, child: Node, c: Candidate)
    requires Contents(child) == (if text in m then Contents(m[text]) else {}) + {c}
    ensures MapContents(m[text := child]) == MapContents(m) + {c}
  {
    hide Contents;
    MapUpdateContents(m, text, child);
    forall x ensures x in MapContents(m[text := child]) <==> x in MapContents(m) + {c} {
      if x in MapContents(m) {
        var j :| j in m && x in Contents(m[j]);
        assert j in m[text := child] && x in Contents(m[text := child][j]);
      }
      if x == c { assert text in m[text := child] && x in Contents(m[text := child][text]); }
    }
  }

  lemma ReplaceStatic(n: Node, text: string, child: Node, c: Candidate, d: nat)
    requires Placed(n, d) && Placed(child, d + 1)
    requires Contents(child) == (if text in n.statics then Contents(n.statics[text]) else {}) + {c}
    requires AllTake({c}, d, Static(text))
    ensures Contents(n.(statics := n.statics[text := child])) == Contents(n) + {c}
    ensures Placed(n.(statics := n.statics[text := child]), d)
  {
    hide Contents;
    var r := n.(statics := n.statics[text := child]);
    assert AllTake(Contents(child), d, Static(text));
    assert Placed(r, d);
    MapGrowsByOne(n.statics, text, child, c);
    ContentsParts(n);
    ContentsParts(r);
    assert Listed(r) == Listed(n);
    hide Placed, AllTake, MapContents, Listed, OptContents;
  }

  lemma {:induction false} AppendList(n: Node, r: Node, c: Candidate, d: nat)
    requires Placed(n, d) && ListsPlaced(r, d)
    requires r.statics == n.statics && r.parameter == n.parameter && Listed(r) == Listed(n) + {c}
    ensures Contents(r) == Contents(n) + {c} && Placed(r, d)
  {
    ContentsParts(n);
    ContentsParts(r);
  }

  lemma {:induction false} InsertHere(n: Node, c: Candidate, d: nat)
    requires d <= |Segs(c)| && Placed(n, d) && (d == |Segs(c)| || Open(Segs(c)[d]))
    ensures Contents(InsertCandidate(n, c, d)) == Contents(n) + {c}
    ensures Placed(InsertCandidate(n, c, d), d)
  {
    hide Contents;
    var r := InsertCandidate(n, c, d);
    assert Listed(r) == Listed(n) + {c};
    AppendList(n, r, c, d);
  }

  /** Inserting adds exactly the candidate, in its place. */
  lemma {:induction false} InsertAdds(n: Node, c: Candidate, d: nat)
    requires d <= |Segs(c)| && Placed(n, d)
    ensures Contents(InsertCandidate(n, c, d)) == Contents(n) + {c}
    ensures Placed(InsertCandidate(n, c, d), d)
    decreases |Segs(c)| - d
  {
    hide Contents;
    EmptyNodeFacts(d + 1);
    if d == |Segs(c)| || Open(Segs(c)[d]) {
      InsertHere(n, c, d);
    } else if Segs(c)[d].Parameter? {
      var child := if n.parameter.Some? then n.parameter.value else EMPTY_NODE;
      InsertAdds(child, c, d + 1);
      ReplaceParameter(n, InsertCandidate(child, c, d + 1), c, d);
    } else {
      var text := Segs(c)[d].text;
      var child := if text in n.statics then n.statics[text] else EMPTY_NODE;
      InsertAdds(child, c, d + 1);
      ReplaceStatic(n, text, InsertCandidate(child, c, d + 1), c, d);
    }
  }

  // ----- finalizing

  /** `upper` is the highest precedence among the candidates, if there are any. */
  ghost predicate IsUpper(upper: Option<Key>, all: set<Candidate>) {
    && (upper.None? <==> all == {})
    && (upper.Some? ==>
          && (exists c :: c in all && KeyOf(c) == upper.value)
          && (forall c | c in all :: Compare(KeyOf(c), upper.value) <= 0))
  }

  ghost predicate Finalized(n: Node) {
    && Falling(n.terminal) && Falling(n.prefix) && Falling(n.catchAll)
    && (n.parameter.Some? ==> Finalized(n.parameter.value))
    && (forall k | k in n.statics :: Finalized(n.statics[k]))
    && IsUpper(n.upper, Contents(n))
  }

  function IncludeUpper(upper: Option<Key>, key: Key): Option<Key> {
    if upper.None? || Compare(key, upper.value) > 0 then Some(key) else upper
  }

  lemma IncludeUpperOne(upper: Option<Key>, all: set<Candidate>, c: Candidate)
    requires IsUpper(upper, all)
    ensures IsUpper(IncludeUpper(upper, KeyOf(c)), all + {c})
  {
    var more := all + {c};
    assert c in more;
    CompareTotal(KeyOf(c), KeyOf(c));
    if upper.Some? {
      var w :| w in all && KeyOf(w) == upper.value;
      assert w in more;
      CompareTotal(KeyOf(c), upper.value);
      forall x | x in all ensures Compare(KeyOf(c), upper.value) > 0 ==> Compare(KeyOf(x), KeyOf(c)) <= 0 {
        if Compare(KeyOf(c), upper.value) > 0 { CompareTransitive(KeyOf(x), upper.value, KeyOf(c)); }
      }
    }
  }

  lemma IncludeUpperAll(upper: Option<Key>, all: set<Candidate>, key: Key, below: set<Candidate>)
    requires IsUpper(upper, all) && IsUpper(Some(key), below)
    ensures IsUpper(IncludeUpper(upper, key), all + below)
  {
    var top :| top in below && KeyOf(top) == key;
    IncludeUpperOne(upper, all, top);
    var u := IncludeUpper(upper, key).value;
    forall x | x in below ensures Compare(KeyOf(x), u) <= 0 {
      assert top in all + {top};
      CompareTransitive(KeyOf(x), key, u);
    }
    var w :| w in all + {top} && KeyOf(w) == u;
    assert w in all + below;
  }

  /** `sortCandidates` followed by the `includeUpper` loop over one list. */
  method FinalizeList(list: seq<Candidate>, upper: Option<Key>, ghost all: set<Candidate>)
    returns (sorted: seq<Candidate>, top: Option<Key>)
    requires IsUpper(upper, all)
    ensures multiset(sorted) == multiset(list) && Falling(sorted)
    ensures IsUpper(top, all + Elements(list))
  {
    hide IsUpper, IncludeUpper, Sort, Compare, KeyOf;
    BeforeIsStrictWeak();
    SortIsSorted(list, Before);
    sorted, top := Sort(list, Before), upper;
    assert all + Elements(sorted[..0]) == all;
    for i := 0 to |sorted|
      invariant IsUpper(top, all + Elements(sorted[..i]))
    {
      IncludeUpperOne(top, all + Elements(sorted[..i]), sorted[i]);
      top := IncludeUpper(top, KeyOf(sorted[i]));
      assert sorted[..i + 1] == sorted[..i] + [sorted[i]];
      assert all + Elements(sorted[..i + 1]) == (all + Elements(sorted[..i])) + {sorted[i]};
    }
    assert sorted[..|sorted|] == sorted;
    ElementsOfPermutation(sorted, list);
  }

  lemma ElementsOfPermutation<T>(a: seq<T>, b: seq<T>)
    requires multiset(a) == multiset(b)
    ensures Elements(a) == Elements(b)
  {
    forall x ensures x in a <==> x in b { SameElements(a, b, x); }
  }

  /** Extends a bound by a finalized child's bound. */
  function IncludeChild(upper: Option<Key>, child: Node): Option<Key> {
    if child.upper.Some? then IncludeUpper(upper, child.upper.value) else upper
  }

  lemma {:induction false} IncludeChildBound(upper: Option<Key>, all: set<Candidate>, child: Node)
    requires IsUpper(upper, all) && Finalized(child)
    ensures IsUpper(IncludeChild(upper, child), all + Contents(child))
  {
    if child.upper.Some? {
      IncludeUpperAll(upper, all, child.upper.value, Contents(child));
    } else {
      assert all + Contents(child) == all;
    }
  }

  /** Same candidates, same places, sorted and bounded. */
  ghost predicate FinalizedFrom(n: Node, r: Node) {
    && Finalized(r)
    && Contents(r) == Contents(n)
    && (forall d: nat :: Placed(n, d) ==> Placed(r, d))
  }

  ghost predicate ListsFinalized(n: Node, r: Node) {
    && multiset(r.terminal) == multiset(n.terminal) && Falling(r.terminal)
    && multiset(r.prefix) == multiset(n.prefix) && Falling(r.prefix)
    && multiset(r.catchAll) == multiset(n.catchAll) && Falling(r.catchAll)
  }

  ghost predicate ChildrenFinalized(n: Node, r: Node) {
    && (n.parameter.Some? <==> r.parameter.Some?)
    && (n.parameter.Some? ==> FinalizedFrom(n.parameter.value, r.parameter.value))
    && r.statics.Keys == n.statics.Keys
    && (forall k | k in n.statics :: FinalizedFrom(n.statics[k], r.statics[k]))
  }

  method FinalizeLists(n: Node) returns (r: Node)
    ensures ListsFinalized(n, r) && r.statics == map[] && r.parameter.None? && IsUpper(r.upper, Listed(n))
  {
    var terminal, prefix, catchAll, upper;
    ghost var none: set<Candidate> := {};
    terminal, upper := FinalizeList(n.terminal, None, none);
    prefix, upper := FinalizeList(n.prefix, upper, none + Elements(n.terminal));
    catchAll, upper := FinalizeList(n.catchAll, upper, none + Elements(n.terminal) + Elements(n.prefix));
    assert none + Elements(n.terminal) + Elements(n.prefix) + Elements(n.catchAll) == Listed(n);
    r := Node(map[], None, terminal, prefix, catchAll, upper);
  }

  method FinalizeNode(n: Node) returns (r: Node)
    ensures FinalizedFrom(n, r)
    decreases n
  {
    hide Contents, Placed, IsUpper;
    r := FinalizeLists(n);
    var upper := r.upper;
    ghost var all := Listed(n);
    var parameter: Option<Node> := None;
    if n.parameter.Some? {
      var child := FinalizeNode(n.parameter.value);
      parameter := Some(child);
      IncludeChildBound(upper, all, child);
      upper := IncludeChild(upper, child);
      all := all + Contents(child);
    }
    assert all == Listed(n) + OptContents(n.parameter);
    var statics: map<string, Node>, rest := map[], n.statics.Keys;
    assert all + MapContents(statics) == all;
    while rest != {}
      invariant rest <= n.statics.Keys && statics.Keys == n.statics.Keys - rest
      invariant forall k | k in statics :: FinalizedFrom(n.statics[k], statics[k])
      invariant IsUpper(upper, all + MapContents(statics))
    {
      var k :| k in rest;
      rest := rest - {k};
      var child := FinalizeNode(n.statics[k]);
      IncludeChildBound(upper, all + MapContents(statics), child);
      upper := IncludeChild(upper, child);
      AddStaticContents(statics, k, child, all);
      statics := statics[k := child];
    }
    r := r.(statics := statics, parameter := parameter, upper := upper);
    FinalizedParts(n, r);
  }

  lemma {:induction false} AddStaticContents(m: map<string, Node>, k: string, child: Node, all: set<Candidate>)
    requires k !in m
    ensures all + MapContents(m[k := child]) == (all + MapContents(m)) + Contents(child)
  {
    hide Contents;
    MapUpdateContents(m, k, child);
    forall c ensures c in MapContents(m[k := child]) <==> c in MapContents(m) || c in Contents(child) {
      if c in MapContents(m) {
        var j :| j in m && c in Contents(m[j]);
        assert j in m[k := child] && c in Contents(m[k := child][j]);
      }
      if c in Contents(child) { assert k in m[k := child] && c in Contents(m[k := child][k]); }
    }
  }

  lemma InMapContents(m: map<string, Node>, c: Candidate)
    ensures c in MapContents(m) <==> exists j :: j in m && c in Contents(m[j])
  {
    hide Contents;
  }

  lemma FinalizedParts(n: Node, r: Node)
    requires ListsFinalized(n, r) && ChildrenFinalized(n, r)
    requires IsUpper(r.upper, Listed(n) + OptContents(n.parameter) + MapContents(r.statics))
    ensures FinalizedFrom(n, r)
  {
    hide IsUpper, Falling, Compare, KeyOf, Listed;
    ListsKeepElements(n, r);
    StaticsKeepContents(n, r);
    ContentsParts(n);
    ContentsParts(r);
    forall d: nat | Placed(n, d) ensures Placed(r, d) { PlacedParts(n, r, d); }
  }

  lemma StaticsKeepContents(n: Node, r: Node)
    requires ChildrenFinalized(n, r)
    ensures MapContents(r.statics) == MapContents(n.statics)
  {
    hide Contents, Finalized, Placed;
  }

  lemma ListsKeepElements(n: Node, r: Node)
    requires ListsFinalized(n, r)
    ensures Listed(r) == Listed(n)
    ensures forall d: nat :: ListsPlaced(n, d) ==> ListsPlaced(r, d)
  {
    ElementsOfPermutation(r.terminal, n.terminal);
    ElementsOfPermutation(r.prefix, n.prefix);
    ElementsOfPermutation(r.catchAll, n.catchAll);
    forall c ensures (c in r.terminal <==> c in n.terminal) && (c in r.prefix <==> c in n.prefix)
                  && (c in r.catchAll <==> c in n.catchAll) {
      SameElements(r.terminal, n.terminal, c);
      SameElements(r.prefix, n.prefix, c);
      SameElements(r.catchAll, n.catchAll, c);
    }
  }

  lemma {:induction false} PlacedParts(n: Node, r: Node, d: nat)
    requires ListsFinalized(n, r) && ChildrenFinalized(n, r) && Placed(n, d)
    ensures Placed(r, d)
  {
    ListsKeepElements(n, r);
    forall k | k in r.statics ensures AllTake(Contents(r.statics[k]), d, Static(k)) && Placed(r.statics[k], d + 1) {
      assert FinalizedFrom(n.statics[k], r.statics[k]);
    }
  }
}
