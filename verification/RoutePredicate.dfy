/**
 Request predicates and method sets of the router (internal/router/predicate.go).

 A method set keeps the nine standard methods in a bit mask and all others in a
 map.  `MethodsOf` is the plain set it stands for.
 */
module RoutePredicate {
  import opened Wrappers
  import opened Ordering

  /**
   A request as the matcher sees it.  `host` is the outcome of normalizing the
   authority and `query` the outcome of decoding the raw query; None is the error.
   */
  datatype Request = Request(
    method_: string, path: string, host: Option<string>,
    headers: map<string, seq<string>>, query: Option<map<string, seq<string>>>)

  datatype FieldKind = Header | Query

  datatype Operator = Exists | NotExists | Equals | NotEquals | OneOf

  datatype Predicate = Predicate(kind: FieldKind, name: string, operator: Operator, values: set<string>)

  datatype MatchError = InvalidHost | InvalidQuery

  // ----- header and query predicates

  /** ASCII case, and the two other characters that fold to an ASCII letter: the long s and the Kelvin sign. */
  function Lower(c: char): char {
    if 'A' <= c <= 'Z' then c - 'A' + 'a' else if c == '\U{17F}' then 's' else if c == '\U{212A}' then 'k' else c
  }

  predicate EqualFold(a: string, b: string) {
    |a| == |b| && forall i | 0 <= i < |a| :: Lower(a[i]) == Lower(b[i])
  }

  /** Some header line whose name is `name` up to case holds a value for which `v` is given. */
  predicate HeaderHas(headers: map<string, seq<string>>, name: string, v: string) {
    exists k | k in headers :: EqualFold(k, name) && v in headers[k]
  }

  predicate HeaderPresent(headers: map<string, seq<string>>, name: string) {
    exists k | k in headers :: EqualFold(k, name)
  }

  predicate AnyIn(values: seq<string>, expected: set<string>) {
    exists v | v in values :: v in expected
  }

  /** Whether one predicate holds of a request whose query decodes. */
  predicate Holds(p: Predicate, r: Request)
    requires p.kind.Query? ==> r.query.Some?
  {
    var present := if p.kind.Header? then HeaderPresent(r.headers, p.name) else p.name in r.query.value;
    var hit := exists v | v in p.values ::
      if p.kind.Header? then HeaderHas(r.headers, p.name, v) else present && v in r.query.value[p.name];
    match p.operator
    case Exists => present
    case NotExists => !present
    case Equals => present && hit
    case OneOf => present && hit
    case NotEquals => present && !hit
  }

  /** All predicates from `i` on, in order; a query predicate on an undecodable query is an error. */
  function Evaluated(ps: seq<Predicate>, i: nat, r: Request): Result<bool, MatchError>
    requires i <= |ps|
    decreases |ps| - i
  {
    if i == |ps| then Ok(true)
    else if ps[i].kind.Query? && r.query.None? then Err(InvalidQuery)
    else if !Holds(ps[i], r) then Ok(false)
    else Evaluated(ps, i + 1, r)
  }

  /** On a decodable query the evaluation is the plain conjunction. */
  lemma {:induction false} EvaluatedIsConjunction(ps: seq<Predicate>, i: nat, r: Request)
    requires i <= |ps| && r.query.Some?
    ensures Evaluated(ps, i, r) == Ok(forall j | i <= j < |ps| :: Holds(ps[j], r))
    decreases |ps| - i
  {
    if i < |ps| {
      EvaluatedIsConjunction(ps, i + 1, r);
      assert (forall j | i <= j < |ps| :: Holds(ps[j], r)) <==>
             Holds(ps[i], r) && (forall j | i + 1 <= j < |ps| :: Holds(ps[j], r));
    }
  }

  /** Collects the values of every spelling of a header name, in whatever order the map yields them. */
  method HeaderValues(headers: map<string, seq<string>>, name: string) returns (values: seq<string>, present: bool)
    ensures present == HeaderPresent(headers, name)
    ensures forall v :: v in values <==> HeaderHas(headers, name, v)
  {
    present := name in headers;
    values := if present then headers[name] else [];
    var rest := headers.Keys - {name};
    ghost var visited := headers.Keys - rest;
    assert EqualFold(name, name) && visited == headers.Keys * {name};
    assert present ==> name in visited;
    while rest != {}
      invariant rest <= headers.Keys && visited == headers.Keys - rest
      invariant present <==> exists k :: k in visited && EqualFold(k, name)
      invariant forall v :: v in values <==> exists k :: k in visited && EqualFold(k, name) && v in headers[k]
    {
      var key :| key in rest;
      rest := rest - {key};
      ghost var before, had := visited, values;
      visited := visited + {key};
      if EqualFold(key, name) {
        values := if present then values + headers[key] else headers[key];
        present := true;
      }
      assert forall k :: k in visited <==> k in before || k == key;
      assert EqualFold(key, name) ==> forall v :: v in values <==> v in had || v in headers[key];
    }
  }

  method Evaluate(ps: seq<Predicate>, r: Request) returns (result: Result<bool, MatchError>)
    ensures result == Evaluated(ps, 0, r)
  {
    for i := 0 to |ps|
      invariant Evaluated(ps, 0, r) == Evaluated(ps, i, r)
    {
      var p := ps[i];
      var values: seq<string>, present: bool := [], false;
      if p.kind.Header? {
        values, present := HeaderValues(r.headers, p.name);
      } else {
        if r.query.None? { return Err(InvalidQuery); }
        present := p.name in r.query.value;
        values := if present then r.query.value[p.name] else [];
      }
      var hit := AnyIn(values, p.values);
      assert hit <==> exists v | v in p.values :: v in values;
      var matched := match p.operator
        case Exists => present
        case NotExists => !present
        case Equals => present && hit
        case OneOf => present && hit
        case NotEquals => present && !hit;
      assert matched == Holds(p, r);
      if !matched { return Ok(false); }
    }
    result := Ok(true);
  }

  // ----- method sets

  datatype MethodSet = MethodSet(standard: bv16, custom: set<string>)

  const STANDARD_METHODS: seq<string> :=
    ["CONNECT", "DELETE", "GET", "HEAD", "OPTIONS", "PATCH", "POST", "PUT", "TRACE"]

  function MethodBit(m: string): Option<bv16> {
    match m
    case "CONNECT" => Some(1)
    case "DELETE" => Some(2)
    case "GET" => Some(4)
    case "HEAD" => Some(8)
    case "OPTIONS" => Some(16)
    case "PATCH" => Some(32)
    case "POST" => Some(64)
    case "PUT" => Some(128)
    case "TRACE" => Some(256)
    case _ => None
  }

  predicate Hit(mask: bv16, bit: bv16) {
    mask & bit != 0
  }

  predicate Has(ms: MethodSet, bit: Option<bv16>, m: string) {
    if bit.Some? then Hit(ms.standard, bit.value) else m in ms.custom
  }

  predicate Contains(ms: MethodSet, m: string) {
    Has(ms, MethodBit(m), m)
  }

  /** Standard methods are never kept in the map. */
  predicate ValidMethodSet(ms: MethodSet) {
    forall m | m in ms.custom :: MethodBit(m).None?
  }

  function MethodsOf(ms: MethodSet): set<string> {
    (set m | m in STANDARD_METHODS && Contains(ms, m)) + ms.custom
  }

  lemma StandardHaveBits(m: string)
    ensures m in STANDARD_METHODS <==> MethodBit(m).Some?
  {
  }

  /** The mask and the map together answer like the plain set. */
  lemma ContainsIsMembership(ms: MethodSet, m: string)
    requires ValidMethodSet(ms)
    ensures Contains(ms, m) <==> m in MethodsOf(ms)
  {
    StandardHaveBits(m);
  }

  lemma BitsAreDistinct(m: string, n: string)
    requires MethodBit(m).Some? && MethodBit(n).Some?
    ensures Hit(MethodBit(m).value, MethodBit(n).value) <==> m == n
  {
  }

  function WithBit(mask: bv16, bit: bv16): bv16 {
    mask | bit
  }

  function AddWithBit(ms: MethodSet, bit: Option<bv16>, m: string): MethodSet {
    if bit.Some? then MethodSet(WithBit(ms.standard, bit.value), ms.custom) else MethodSet(ms.standard, ms.custom + {m})
  }

  function AddMethod(ms: MethodSet, m: string): MethodSet {
    AddWithBit(ms, MethodBit(m), m)
  }

  lemma OrHits(x: bv16, b: bv16, c: bv16)
    ensures Hit(WithBit(x, b), c) <==> Hit(x, c) || Hit(b, c)
  {
    assert (x | b) & c == (x & c) | (b & c);
  }

  lemma AddBitHasBit(ms: MethodSet, a: bv16, m: string, b: bv16, n: string)
    requires Hit(a, b) <==> m == n
    ensures Has(AddWithBit(ms, Some(a), m), Some(b), n) <==> Has(ms, Some(b), n) || n == m
  {
    hide Hit, WithBit;
    OrHits(ms.standard, a, b);
  }

  lemma AddBitHasName(ms: MethodSet, a: bv16, m: string, n: string)
    requires m != n
    ensures Has(AddWithBit(ms, Some(a), m), None, n) <==> Has(ms, None, n)
  {
    hide Hit, WithBit;
  }

  lemma AddNameHasBit(ms: MethodSet, m: string, b: bv16, n: string)
    ensures Has(AddWithBit(ms, None, m), Some(b), n) <==> Has(ms, Some(b), n)
  {
    hide Hit;
  }

  lemma AddNameHasName(ms: MethodSet, m: string, n: string)
    ensures Has(AddWithBit(ms, None, m), None, n) <==> Has(ms, None, n) || n == m
  {
    hide Hit;
  }

  lemma AddHas(ms: MethodSet, a: Option<bv16>, m: string, b: Option<bv16>, n: string)
    requires m == n ==> a == b
    requires a.Some? && b.Some? ==> (Hit(a.value, b.value) <==> m == n)
    ensures Has(AddWithBit(ms, a, m), b, n) <==> Has(ms, b, n) || n == m
  {
    hide Hit, Has, AddWithBit;
    match (a, b) {
      case (Some(x), Some(y)) => AddBitHasBit(ms, x, m, y, n);
      case (Some(x), None) => AddBitHasName(ms, x, m, n);
      case (None, Some(y)) => AddNameHasBit(ms, m, y, n);
      case (None, None) => AddNameHasName(ms, m, n);
    }
  }

  lemma AddContains(ms: MethodSet, m: string, n: string)
    ensures Contains(AddMethod(ms, m), n) <==> Contains(ms, n) || n == m
  {
    if MethodBit(m).Some? && MethodBit(n).Some? { BitsAreDistinct(m, n); }
    AddHas(ms, MethodBit(m), m, MethodBit(n), n);
  }

  lemma AddMethodAdds(ms: MethodSet, m: string)
    requires ValidMethodSet(ms)
    ensures ValidMethodSet(AddMethod(ms, m))
    ensures MethodsOf(AddMethod(ms, m)) == MethodsOf(ms) + {m}
  {
    forall n ensures n in MethodsOf(AddMethod(ms, m)) <==> n in MethodsOf(ms) + {m} {
      AddContains(ms, m, n);
      ContainsIsMembership(ms, n);
      ContainsIsMembership(AddMethod(ms, m), n);
    }
  }

  predicate ValidToken(s: string) {
    s != "" && forall i | 0 <= i < |s| :: ' ' < s[i] < '\U{7f}' && s[i] !in "()<>@,;:\\\"/[]?={}"
  }

  function Upper(s: string): (r: string)
    ensures |r| == |s|
  {
    seq(|s|, i requires 0 <= i < |s| => if 'a' <= s[i] <= 'z' then s[i] - 'a' + 'A' else s[i])
  }

  /** The method set of an acceptable list; its elements are the upper-cased names (`MethodSetOfElements`). */
  function MethodSetOf(methods: seq<string>): MethodSet {
    if methods == [] then MethodSet(0, {})
    else AddMethod(MethodSetOf(methods[..|methods| - 1]), Upper(methods[|methods| - 1]))
  }

  lemma {:induction false} MethodSetOfElements(methods: seq<string>)
    ensures ValidMethodSet(MethodSetOf(methods))
    ensures MethodsOf(MethodSetOf(methods)) == set m | m in methods :: Upper(m)
  {
    if methods != [] {
      var before, last := methods[..|methods| - 1], methods[|methods| - 1];
      MethodSetOfElements(before);
      AddMethodAdds(MethodSetOf(before), Upper(last));
      assert methods == before + [last];
    }
  }

  datatype MethodError = NoMethods | BadToken | DuplicateMethod

  /** Which lists of configured methods are accepted. */
  predicate AcceptableMethods(methods: seq<string>) {
    && methods != []
    && (forall i | 0 <= i < |methods| :: ValidToken(methods[i]))
    && (forall i, j | 0 <= i < j < |methods| :: Upper(methods[i]) != Upper(methods[j]))
  }

  method CompileMethods(methods: seq<string>) returns (r: Result<MethodSet, MethodError>)
    ensures r.Ok? <==> AcceptableMethods(methods)
    ensures r.Ok? ==> r.value == MethodSetOf(methods)
    ensures r == Err(NoMethods) <==> methods == []
  {
    if methods == [] { return Err(NoMethods); }
    var compiled, seen: set<string> := MethodSet(0, {}), {};
    for i := 0 to |methods|
      invariant forall j | 0 <= j < i :: ValidToken(methods[j])
      invariant forall j, k | 0 <= j < k < i :: Upper(methods[j]) != Upper(methods[k])
      invariant seen == set j | 0 <= j < i :: Upper(methods[j])
      invariant compiled == MethodSetOf(methods[..i])
    {
      if !ValidToken(methods[i]) { return Err(BadToken); }
      var m := Upper(methods[i]);
      if m in seen { return Err(DuplicateMethod); }
      seen := seen + {m};
      assert methods[..i + 1][..i] == methods[..i];
      compiled := AddMethod(compiled, m);
    }
    assert methods[..|methods|] == methods;
    r := Ok(compiled);
  }

  // ----- sorted method lists

  predicate Ascending(s: seq<string>) {
    forall i, j | 0 <= i < j < |s| :: LexLess(s[i], s[j])
  }

  lemma LexIsStrictWeak()
    ensures StrictWeak(LexLess)
  {
    forall x, y | LexLess(x, y) ensures !LexLess(y, x) { LexTrichotomy(x, y); }
    forall x, y, z | !LexLess(y, x) && !LexLess(z, y) ensures !LexLess(z, x) {
      LexTrichotomy(x, y);
      LexTrichotomy(y, z);
      LexTrichotomy(x, z);
      if LexLess(x, y) && LexLess(y, z) { LexTransitive(x, y, z); }
    }
  }

  /** Collects a set in whatever order the map yields it, then sorts. */
  method SortedValues(values: set<string>) returns (sorted: seq<string>)
    ensures Ascending(sorted)
    ensures forall v :: v in sorted <==> v in values
  {
    var list: seq<string>, rest := [], values;
    while rest != {}
      invariant rest <= values
      invariant forall v :: v in list <==> v in values && v !in rest
      invariant forall i, j | 0 <= i < j < |list| :: list[i] != list[j]
    {
      var v :| v in rest;
      list, rest := list + [v], rest - {v};
    }
    sorted := Sort(list, LexLess);
    LexIsStrictWeak();
    SortIsSorted(list, LexLess);
    SortedAscends(list, sorted);
    forall v ensures v in sorted <==> v in values { SameElements(sorted, list, v); }
  }

  lemma {:induction false} DistinctCounts(s: seq<string>, v: string)
    requires forall i, j | 0 <= i < j < |s| :: s[i] != s[j]
    ensures multiset(s)[v] <= 1
  {
    if s != [] {
      assert s == [s[0]] + s[1..];
      DistinctCounts(s[1..], v);
      if v == s[0] { assert v !in s[1..]; assert multiset(s[1..])[v] == 0; }
    }
  }

  lemma RepeatedCounts(s: seq<string>, i: nat, j: nat)
    requires i < j < |s| && s[i] == s[j]
    ensures multiset(s)[s[i]] >= 2
  {
    var a, b := s[..j], s[j..];
    assert s == a + b;
    assert a[i] in multiset(a) && b[0] in multiset(b);
  }

  lemma SortedAscends(list: seq<string>, sorted: seq<string>)
    requires forall i, j | 0 <= i < j < |list| :: list[i] != list[j]
    requires multiset(sorted) == multiset(list) && Sorted(sorted, LexLess)
    ensures Ascending(sorted)
  {
    hide LexLess;
    forall i, j | 0 <= i < j < |sorted| ensures LexLess(sorted[i], sorted[j]) {
      if sorted[i] == sorted[j] {
        RepeatedCounts(sorted, i, j);
        DistinctCounts(list, sorted[i]);
      }
      LexTrichotomy(sorted[i], sorted[j]);
    }
  }

  /** An ascending list is determined by its elements, so `Allow` has one possible value. */
  lemma {:induction false} AscendingUnique(a: seq<string>, b: seq<string>)
    requires Ascending(a) && Ascending(b) && forall v :: v in a <==> v in b
    ensures a == b
  {
    assert a != [] ==> a[0] in a;
    assert b != [] ==> b[0] in b;
    if a != [] && b != [] {
      assert a[0] in b && b[0] in a;
      LexTrichotomy(a[0], b[0]);
      assert a[0] == b[0];
      assert a == [a[0]] + a[1..] && b == [b[0]] + b[1..];
      forall v ensures v in a[1..] <==> v in b[1..] {
        LexTrichotomy(a[0], a[0]);
        assert v in a <==> v == a[0] || v in a[1..];
        assert v in b <==> v == b[0] || v in b[1..];
      }
      AscendingUnique(a[1..], b[1..]);
    }
  }
}
