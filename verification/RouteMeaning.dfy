/**
 What the router's answer means for the routes as they are configured
 (internal/router/pattern.go, predicate.go and router.go).

 Nothing compiled appears in these definitions: a pattern is its text, a method its
 name, a host its pattern.  The theorems say that the compiled candidates accept what
 the texts accept and that precedence is the documented order of the texts, so that the
 answer of `Match` can be read off the configuration.
 */
module RouteMeaning {
  import opened Wrappers
  import opened Ordering
  import opened Counting
  import opened RoutePattern
  import opened RoutePredicate
  import opened RouteTree
  import opened RouteMatcher
  import opened Router

  // ----- paths

  /** Only an open end has an asterisk, and only a named segment has a brace. */
  predicate Reads(s: Segment, raw: string) {
    && (Open(s) <==> '*' in raw)
    && (Captures(s) <==> '{' in raw)
    && (s.Static? ==> s.text == raw)
    && (s.Parameter? ==> |raw| >= 2 && s.name == raw[1..|raw| - 1])
    && (s.CatchAll? ==> |raw| >= 3 && s.name == raw[2..|raw| - 1])
  }

  lemma SegmentReads(raw: string, final: bool)
    requires CompileSegment(raw, final).Ok?
    ensures Reads(CompileSegment(raw, final).value, raw)
  {
    var s := CompileSegment(raw, final).value;
    if s.Parameter? {
      assert raw[0] == '{';
      assert forall i | 0 < i < |raw| - 1 :: raw[i] == s.name[i - 1];
      assert '*' !in raw;
    } else if s.CatchAll? {
      assert raw[0] == '{' && raw[1] == '*';
    }
  }

  lemma {:induction false} SegmentsRead(raws: seq<string>, k: nat)
    requires k <= |raws| && CompileSegments(raws, k).Ok?
    ensures forall i | 0 <= i < k :: Reads(CompileSegments(raws, k).value[i], raws[i])
  {
    if k > 0 {
      SegmentsRead(raws, k - 1);
      SegmentReads(raws[k - 1], k == |raws|);
    }
  }

  /** The text between slashes: a piece with an asterisk takes all that is left, one with a brace any non-empty part. */
  predicate TextAccepts(pieces: seq<string>, parts: seq<string>) {
    if pieces == [] then parts == []
    else
      && parts != []
      && ('*' !in pieces[0] ==>
            && (if '{' in pieces[0] then parts[0] != "" else parts[0] == pieces[0])
            && TextAccepts(pieces[1..], parts[1..]))
  }

  predicate PathAccepts(pattern: string, path: string) {
    && "/" <= pattern && "/" <= path
    && if pattern == "/" then path == "/" else TextAccepts(SplitFrom(pattern, 1), SplitFrom(path, 1))
  }

  /** The named parts of an accepted path: one part for `{name}`, all that is left for `{*name}`. */
  function TextCaptures(pieces: seq<string>, parts: seq<string>): seq<(string, string)> {
    if pieces == [] || parts == [] then []
    else
      var piece := pieces[0];
      if |piece| < 2 || '{' !in piece then TextCaptures(pieces[1..], parts[1..])
      else if '*' in piece then (if |piece| < 3 then [] else [(piece[2..|piece| - 1], Join(parts))])
      else [(piece[1..|piece| - 1], parts[0])] + TextCaptures(pieces[1..], parts[1..])
  }

  lemma {:induction false} LastText(s: Segment, pieces: seq<string>, parts: seq<string>)
    requires |pieces| == 1 && Reads(s, pieces[0]) && parts != []
    ensures TextAccepts(pieces, parts) <==> Open(s) || (|parts| == 1 && Fits(s, parts[0]))
  {
    assert pieces[1..] == [];
    assert TextAccepts(pieces[1..], parts[1..]) <==> parts[1..] == [];
  }

  lemma {:induction false} StepText(s: Segment, pieces: seq<string>, parts: seq<string>)
    requires |pieces| > 1 && Reads(s, pieces[0]) && !Open(s) && parts != []
    ensures TextAccepts(pieces, parts) <==> Fits(s, parts[0]) && TextAccepts(pieces[1..], parts[1..])
  {
  }

  lemma {:induction false} TextNeedsPart(pieces: seq<string>, parts: seq<string>)
    requires pieces != [] && TextAccepts(pieces, parts)
    ensures parts != []
  {
  }

  lemma {:induction false} AcceptsIsText(segs: seq<Segment>, raws: seq<string>, i: nat, parts: seq<string>)
    requires |segs| == |raws| && i < |segs| && WellFormed(segs)
    requires forall j | 0 <= j < |segs| :: Reads(segs[j], raws[j])
    ensures AcceptsParts(segs, i, parts) <==> TextAccepts(raws[i..], parts)
    decreases |segs| - i
  {
    hide TextAccepts, Reads;
    var pieces := raws[i..];
    assert pieces[1..] == raws[i + 1..] && pieces[0] == raws[i];
    if parts == [] {
      if TextAccepts(pieces, parts) { TextNeedsPart(pieces, parts); }
    } else if i == |segs| - 1 {
      LastText(segs[i], pieces, parts);
    } else {
      StepText(segs[i], pieces, parts);
      AcceptsIsText(segs, raws, i + 1, parts[1..]);
      if |parts| > 1 {
        AcceptsTail(segs, i, parts);
      } else if TextAccepts(pieces[1..], parts[1..]) {
        TextNeedsPart(pieces[1..], parts[1..]);
      }
    }
  }

  lemma {:induction false} CapturesAreText(segs: seq<Segment>, raws: seq<string>, i: nat, parts: seq<string>)
    requires |segs| == |raws| && i <= |segs| && |segs| - i <= |parts| && WellFormed(segs)
    requires forall j | 0 <= j < |segs| :: Reads(segs[j], raws[j])
    ensures CapturedTexts(segs, i, parts) == TextCaptures(raws[i..], parts)
    decreases |segs| - i
  {
    if i < |segs| {
      var pieces := raws[i..];
      assert pieces[1..] == raws[i + 1..] && pieces[0] == raws[i] && Reads(segs[i], raws[i]);
      CapturesAreText(segs, raws, i + 1, parts[1..]);
      if Open(segs[i]) {
        assert raws[i + 1..] == [];
        assert CapturedTexts(segs, i + 1, parts[1..]) == [];
      }
      if segs[i].Parameter? { assert |raws[i]| >= 2; }
    }
  }

  /** A compiled pattern matches the paths its text accepts, and captures the named parts. */
  lemma {:induction false} PathMeaning(pattern: string, path: string)
    requires Compiled(pattern).Ok?
    ensures var found := MatchPath(Compiled(pattern).value.segments, path);
            && (found.Some? <==> PathAccepts(pattern, path))
            && (found.Some? && pattern != "/" ==>
                  && SpansInside(found.value, path)
                  && SpanTexts(found.value, path) == TextCaptures(SplitFrom(pattern, 1), SplitFrom(path, 1)))
            && (found.Some? && pattern == "/" ==> found.value == [])
  {
    hide TextAccepts, TextCaptures, Reads, AcceptsParts, SplitFrom, MatchAt;
    var raws, segs := RawSegments(pattern), Compiled(pattern).value.segments;
    SegmentsRead(raws, |raws|);
    CompiledWellFormed(pattern);
    if "/" <= path && pattern != "/" {
      assert raws[0..] == raws;
      MatchMeansParts(segs, path);
      AcceptsIsText(segs, raws, 0, SplitFrom(path, 1));
      if MatchPath(segs, path).Some? {
        WalkCaptures(segs, 0, path, 1);
        CapturesAreText(segs, raws, 0, SplitFrom(path, 1));
      }
    }
  }

  // ----- which patterns are accepted

  /** The codes of the letters and the underscore, and of the digits. */
  predicate LetterCode(c: int) { 65 <= c <= 90 || 97 <= c <= 122 || c == 95 }

  predicate DigitCode(c: int) { 48 <= c <= 57 }

  /** A letter or an underscore, then letters, digits and underscores. */
  lemma NameMeaning(name: string)
    ensures ValidParameterName(name) <==>
            && name != "" && LetterCode(name[0] as int)
            && forall i | 0 < i < |name| :: LetterCode(name[i] as int) || DigitCode(name[i] as int)
  {
  }

  ghost predicate NamedPiece(piece: string, open: string) {
    exists name :: ValidParameterName(name) && piece == open + name + "}"
  }

  /** Literal text without asterisk or brace, `{name}`, or at the end `*` or `{*name}`. */
  ghost predicate PieceOk(piece: string, last: bool) {
    || ('*' !in piece && '{' !in piece && '}' !in piece)
    || NamedPiece(piece, "{")
    || (last && (piece == "*" || NamedPiece(piece, "{*")))
  }

  lemma {:induction false} CountNone(s: string, c: char)
    requires c !in s
    ensures CountOf(s, c) == 0
  {
    if s != "" { CountNone(s[1..], c); }
  }

  lemma {:induction false} CountConcat(a: string, b: string, c: char)
    ensures CountOf(a + b, c) == CountOf(a, c) + CountOf(b, c)
  {
    if a == "" {
      assert a + b == b;
    } else {
      assert (a + b)[1..] == a[1..] + b;
      CountConcat(a[1..], b, c);
    }
  }

  lemma {:induction false} CountEnds(open: string, name: string, c: char)
    requires c !in name
    ensures CountOf(open + name + "}", c) == CountOf(open, c) + CountOf("}", c)
  {
    CountConcat(open + name, "}", c);
    CountConcat(open, name, c);
    CountNone(name, c);
  }

  lemma {:induction false} NamedIsBraced(open: string, name: string)
    requires (open == "{" || open == "{*") && ValidParameterName(name)
    ensures var raw := open + name + "}"; Braced(raw, open) && raw[|open|..|raw| - 1] == name && '}' in raw
    ensures !Braced("{" + name + "}", "{*")
  {
    var raw := open + name + "}";
    CountEnds(open, name, '{');
    CountEnds(open, name, '}');
    assert CountOf("{", '{') == 1 && CountOf("}", '}') == 1 && CountOf("{*", '{') == 1 by { BracketCounts(); }
    assert CountOf("{", '}') == 0 && CountOf("{*", '}') == 0 && CountOf("}", '{') == 0 by { BracketCounts(); }
    assert raw[|raw| - 1] == '}';
    assert ("{" + name + "}")[1] == name[0];
  }

  lemma {:induction false} BracketCounts()
    ensures CountOf("{", '{') == 1 && CountOf("}", '}') == 1 && CountOf("{*", '{') == 1
    ensures CountOf("{", '}') == 0 && CountOf("{*", '}') == 0 && CountOf("}", '{') == 0
  {
    CountConcat("{", "*", '{');
    CountConcat("{", "*", '}');
    assert "{" + "*" == "{*";
  }

  lemma BracedIsNamed(raw: string, open: string)
    requires (open == "{" || open == "{*") && Braced(raw, open) && ValidParameterName(raw[|open|..|raw| - 1])
    ensures NamedPiece(raw, open)
  {
    var name := raw[|open|..|raw| - 1];
    assert raw == raw[..|open|] + name + raw[|raw| - 1..];
    assert raw == open + name + "}";
  }

  lemma PieceMeaning(raw: string, final: bool)
    ensures CompileSegment(raw, final).Ok? <==> PieceOk(raw, final)
  {
    hide CountOf;
    var s := CompileSegment(raw, final);
    if s.Ok? && raw != "*" {
      hide ValidParameterName;
      if s.value.CatchAll? { BracedIsNamed(raw, "{*"); }
      if s.value.Parameter? { BracedIsNamed(raw, "{"); }
    }
    if NamedPiece(raw, "{") {
      var name :| ValidParameterName(name) && raw == "{" + name + "}";
      NamedIsBraced("{", name);
    } else if final && NamedPiece(raw, "{*") {
      var name :| ValidParameterName(name) && raw == "{*" + name + "}";
      NamedIsBraced("{*", name);
    }
  }

  /** The name a piece with a brace gives. */
  function NameIn(piece: string): string {
    if |piece| < 3 then "" else piece[if '*' in piece then 2 else 1..|piece| - 1]
  }

  ghost predicate DistinctPieces(pieces: seq<string>, k: nat)
    requires k <= |pieces|
  {
    forall i, j | 0 <= i < j < k && '{' in pieces[i] && '{' in pieces[j] :: NameIn(pieces[i]) != NameIn(pieces[j])
  }

  lemma NameRead(s: Segment, raw: string)
    requires Reads(s, raw) && Captures(s) && s.name != ""
    ensures NameIn(raw) == s.name
  {
  }

  lemma NamesAreNonEmpty(raw: string, final: bool)
    requires CompileSegment(raw, final).Ok? && Captures(CompileSegment(raw, final).value)
    ensures CompileSegment(raw, final).value.name != ""
  {
  }

  ghost predicate AllOk(pieces: seq<string>, k: nat)
    requires k <= |pieces|
  {
    forall i | 0 <= i < k :: PieceOk(pieces[i], i == |pieces| - 1)
  }

  /** The names the first `k` pieces give. */
  function NamesIn(pieces: seq<string>, k: nat): set<string>
    requires k <= |pieces|
  {
    set i | 0 <= i < k && '{' in pieces[i] :: NameIn(pieces[i])
  }

  lemma {:induction false} PiecesMeaning(raws: seq<string>, k: nat)
    requires k <= |raws|
    ensures CompileSegments(raws, k).Ok? <==> AllOk(raws, k) && DistinctPieces(raws, k)
    ensures CompileSegments(raws, k).Ok? ==> Names(CompileSegments(raws, k).value) == NamesIn(raws, k)
  {
    hide CompileSegment, PieceOk, NameIn, Names, DistinctPieces, AllOk, NamesIn, Captures, CompileSegments;
    if k == 0 {
      NoPieces(raws);
    } else {
      PiecesMeaning(raws, k - 1);
      PiecesStep(raws, k);
      PieceMeaning(raws[k - 1], k == |raws|);
      var before := CompileSegments(raws, k - 1);
      if before.Err? {
        ErrorPropagates(raws, k - 1, k);
      } else {
        CompileStep(raws, k - 1, before.value);
        var s := CompileSegment(raws[k - 1], k == |raws|);
        if s.Ok? {
          PieceName(raws[k - 1], k == |raws|);
          NamesStep(before.value, s.value);
        }
      }
    }
  }

  lemma {:induction false} NoPieces(raws: seq<string>)
    ensures DistinctPieces(raws, 0) && AllOk(raws, 0) && NamesIn(raws, 0) == {}
    ensures CompileSegments(raws, 0) == Ok([]) && Names([]) == {}
  {
  }

  lemma PieceName(raw: string, final: bool)
    requires CompileSegment(raw, final).Ok?
    ensures var s := CompileSegment(raw, final).value;
            (Captures(s) <==> '{' in raw) && (Captures(s) ==> s.name == NameIn(raw))
  {
    SegmentReads(raw, final);
    var s := CompileSegment(raw, final).value;
    if Captures(s) {
      NamesAreNonEmpty(raw, final);
      hide CompileSegment;
      NameRead(s, raw);
    }
  }

  lemma PiecesStep(raws: seq<string>, k: nat)
    requires 0 < k <= |raws|
    ensures var named, name := '{' in raws[k - 1], NameIn(raws[k - 1]);
            && (AllOk(raws, k) <==> AllOk(raws, k - 1) && PieceOk(raws[k - 1], k == |raws|))
            && (DistinctPieces(raws, k) <==> DistinctPieces(raws, k - 1) && !(named && name in NamesIn(raws, k - 1)))
            && NamesIn(raws, k) == NamesIn(raws, k - 1) + if named then {name} else {}
  {
    hide NameIn, PieceOk;
    if DistinctPieces(raws, k - 1) && '{' in raws[k - 1] && NameIn(raws[k - 1]) !in NamesIn(raws, k - 1) {
      forall i, j | 0 <= i < j < k && '{' in raws[i] && '{' in raws[j] ensures NameIn(raws[i]) != NameIn(raws[j]) {
        if j == k - 1 { assert NameIn(raws[i]) in NamesIn(raws, k - 1); }
      }
    }
  }

  /** The pattern texts that compile: absolute, no query or fragment, good pieces, no name twice. */
  lemma {:induction false} PatternAccepted(pattern: string)
    ensures Compiled(pattern).Ok? <==>
            && "/" <= pattern && '?' !in pattern && '#' !in pattern
            && (pattern != "/" ==>
                  var pieces := SplitFrom(pattern, 1);
                  AllOk(pieces, |pieces|) && DistinctPieces(pieces, |pieces|))
  {
    hide CompileSegment, PieceOk, NameIn, Names, SplitFrom, CompileSegments;
    if "/" <= pattern { PiecesMeaning(RawSegments(pattern), |RawSegments(pattern)|); }
  }

  predicate AnyHas(pieces: seq<string>, c: char) {
    exists i :: 0 <= i < |pieces| && c in pieces[i]
  }

  lemma AnyHasStep(pieces: seq<string>, c: char)
    requires pieces != []
    ensures AnyHas(pieces, c) <==> c in pieces[0] || AnyHas(pieces[1..], c)
  {
    if AnyHas(pieces[1..], c) {
      var i :| 0 <= i < |pieces[1..]| && c in pieces[1..][i];
      assert c in pieces[i + 1];
    }
    if i :| 0 < i < |pieces| && c in pieces[i] { assert c in pieces[1..][i - 1]; }
  }

  lemma NothingHas(c: char)
    ensures !AnyHas([], c)
  {
  }

  /** Cutting at slashes is what it says: no part has a slash, and joining the parts gives the text back. */
  lemma {:induction false} PartsHaveNoSlash(path: string, position: nat)
    requires position <= |path|
    ensures !AnyHas(SplitFrom(path, position), '/')
    ensures Join(SplitFrom(path, position)) == path[position..]
    decreases |path| - position
  {
    JoinSplit(path, position);
    hide SplitFrom, Join, AnyHas;
    SplitStep(path, position);
    AnyHasStep(SplitFrom(path, position), '/');
    NothingHas('/');
    if SegmentEnd(path, position) < |path| { PartsHaveNoSlash(path, SegmentEnd(path, position) + 1); }
  }

  // ----- hosts

  ghost predicate HostAccepts(pattern: Option<HostPattern>, host: Option<string>) {
    match pattern
    case None => true
    case Some(Exact(value)) => host == Some(value)
    case Some(Wildcard(value)) => host.Some? && exists first :: OneLabel(first) && host.value == first + "." + value
  }

  /** One label, not empty. */
  predicate OneLabel(first: string) { first != "" && '.' !in first }

  lemma HostMeaning(h: Hosted, r: Request)
    ensures InScope(h, r) <==> HostAccepts(h.host, r.host)
  {
    if h.host.Some? && h.host.value.Wildcard? && r.host.Some? {
      var value, host := h.host.value.value, r.host.value;
      if InScope(h, r) {
        var first := host[..|host| - |value| - 1];
        assert OneLabel(first) && host == first + "." + value;
      }
      if first :| OneLabel(first) && host == first + "." + value {
        assert host[|first| + 1..] == value && host[..|first|] == first;
      }
    }
  }

  // ----- predicates and methods

  /** `v` is one of the values the request has for the field a predicate names. */
  ghost predicate FieldValue(p: Predicate, r: Request, v: string) {
    match p.kind
    case Header => exists k :: k in r.headers && EqualFold(k, p.name) && v in r.headers[k]
    case Query => r.query.Some? && p.name in r.query.value && v in r.query.value[p.name]
  }

  ghost predicate FieldPresent(p: Predicate, r: Request) {
    match p.kind
    case Header => exists k :: k in r.headers && EqualFold(k, p.name)
    case Query => r.query.Some? && p.name in r.query.value
  }

  /** The five operators; the negative ones never hold by way of an undecodable query. */
  ghost predicate Satisfied(p: Predicate, r: Request) {
    && (p.kind.Query? ==> r.query.Some?)
    && (p.operator == Exists ==> FieldPresent(p, r))
    && (p.operator == NotExists ==> !FieldPresent(p, r))
    && (p.operator == Equals || p.operator == OneOf ==> exists v :: v in p.values && FieldValue(p, r, v))
    && (p.operator == NotEquals ==> FieldPresent(p, r) && !exists v :: v in p.values && FieldValue(p, r, v))
  }

  lemma PredicateMeaning(p: Predicate, r: Request)
    ensures Satisfied(p, r) <==> (p.kind.Query? ==> r.query.Some?) && Holds(p, r)
  {
    if p.kind.Query? ==> r.query.Some? {
      assert p.kind.Header? ==> forall v :: HeaderHas(r.headers, p.name, v) <==> FieldValue(p, r, v);
    }
  }

  lemma {:induction false} PredicatesMeaning(ps: seq<Predicate>, i: nat, r: Request)
    requires i <= |ps|
    ensures Evaluated(ps, i, r) == Ok(true) <==> forall j | i <= j < |ps| :: Satisfied(ps[j], r)
    decreases |ps| - i
  {
    hide Satisfied, Holds;
    if i < |ps| {
      PredicatesMeaning(ps, i + 1, r);
      PredicateMeaning(ps[i], r);
    }
  }

  /** Folding identifies the two cases of an ASCII letter, the long s with s and the Kelvin sign with k. */
  lemma FoldMeaning(a: string, b: string)
    requires |a| == |b| && forall i | 0 <= i < |a| :: a[i] < '\U{80}' && b[i] < '\U{80}'
    ensures EqualFold(a, b) <==> Upper(a) == Upper(b)
  {
    forall i | 0 <= i < |a| ensures Lower(a[i]) == Lower(b[i]) <==> Upper(a)[i] == Upper(b)[i] {
    }
    assert Upper(a) == Upper(b) <==> forall i | 0 <= i < |a| :: Upper(a)[i] == Upper(b)[i];
  }

  lemma FoldsToAscii(c: char)
    requires c >= '\U{80}'
    ensures Lower(c) < '\U{80}' <==> c == '\U{17F}' || c == '\U{212A}'
    ensures Lower('\U{17F}') == Lower('S') == 's' && Lower('\U{212A}') == Lower('K') == 'k'
  {
  }

  /** An upper-cased name has the same characters except that no letter is a small one. */
  lemma UpperMeaning(s: string, i: nat)
    requires i < |s|
    ensures var c := Upper(s)[i];
            && !('a' <= c <= 'z')
            && (c != s[i] ==> 'a' <= s[i] <= 'z' && 'A' <= c <= 'Z' && c as int + 32 == s[i] as int)
  {
  }

  lemma {:induction false} MethodMeaning(methods: seq<string>, m: string)
    ensures Contains(MethodSetOf(methods), m) <==> exists i :: 0 <= i < |methods| && Upper(methods[i]) == m
  {
    MethodSetOfElements(methods);
    ContainsIsMembership(MethodSetOf(methods), m);
    if i :| 0 <= i < |methods| && Upper(methods[i]) == m { assert methods[i] in methods; }
  }

  // ----- routes

  /** The route names the method, in whatever case. */
  predicate Lists(route: RouteSpec, m: string) {
    exists i :: 0 <= i < |route.methods| && Upper(route.methods[i]) == m
  }

  /** A route stands at each of its hosts, and without hosts at none. */
  predicate AtHost(route: RouteSpec, host: Option<HostPattern>) {
    if host.None? then |route.hosts| == 0 else host.value in route.hosts
  }

  /** Everything but the method. */
  ghost predicate Fitting(route: RouteSpec, host: Option<HostPattern>, r: Request) {
    && AtHost(route, host) && HostAccepts(host, r.host)
    && PathAccepts(route.path, if r.path == "" then "/" else r.path)
    && forall j | 0 <= j < |route.predicates| :: Satisfied(route.predicates[j], r)
  }

  ghost predicate Serving(route: RouteSpec, host: Option<HostPattern>, r: Request) {
    Fitting(route, host, r) && Lists(route, r.method_)
  }

  /** A candidate passes or serves exactly the requests its route, as configured, fits or serves. */
  lemma CandidateMeaning(route: RouteSpec, host: Option<HostPattern>, r: Request)
    requires Compilable(route) && AtHost(route, host)
    ensures var c := CandidateFor(route, host);
            && (InScope(Hosted(host, c), r) && Passes(c, r) <==> Fitting(route, host, r))
            && (InScope(Hosted(host, c), r) && Serves(c, r) <==> Serving(route, host, r))
  {
    hide PathAccepts, Compiled, MatchPath, Evaluated, Satisfied, HostAccepts, InScope, Contains, MethodSetOf;
    HostMeaning(Hosted(host, CandidateFor(route, host)), r);
    PathMeaning(route.path, PathOf(r));
    PredicatesMeaning(route.predicates, 0, r);
    MethodMeaning(route.methods, r.method_);
  }

  // ----- precedence

  /** An exact host is above a wildcard host, and both are above no host. */
  predicate HostAbove(g: Option<HostPattern>, h: Option<HostPattern>) {
    g.Some? && (h.None? || (g.value.Exact? && h.value.Wildcard?))
  }

  /** A literal path is above one with parameters, and both are above one with an open end. */
  predicate PathAbove(a: string, b: string) {
    '*' !in a && ('*' in b || ('{' !in a && '{' in b))
  }

  predicate LiteralPiece(piece: string) { piece != "" && '*' !in piece && '{' !in piece }

  /** The places of the non-empty literal pieces. */
  function LiteralPlaces(pieces: seq<string>): set<nat> {
    set i: nat | i < |pieces| && LiteralPiece(pieces[i])
  }

  function LiteralPieces(pattern: string): nat {
    if |pattern| <= 1 then 0 else |LiteralPlaces(SplitFrom(pattern, 1))|
  }

  /**
   The documented precedence: priority, host, kind of path, literal pieces, length of the pattern, number of
   predicates, and last the smaller ID.
   */
  predicate Beats(q: RouteSpec, g: Option<HostPattern>, p: RouteSpec, h: Option<HostPattern>) {
    || q.priority > p.priority
    || (q.priority == p.priority &&
        (|| HostAbove(g, h)
         || (!HostAbove(h, g) &&
             (|| PathAbove(q.path, p.path)
              || (!PathAbove(p.path, q.path) && FinerThan(q, p))))))
  }

  predicate FinerThan(q: RouteSpec, p: RouteSpec) {
    var m, n := LiteralPieces(q.path), LiteralPieces(p.path);
    || m > n
    || (m == n && (|| |q.path| > |p.path|
                   || (|q.path| == |p.path| && (|| |q.predicates| > |p.predicates|
                                                || (|q.predicates| == |p.predicates| && LexLess(q.id, p.id))))))
  }

  lemma LiteralStep(pieces: seq<string>, piece: string)
    ensures |LiteralPlaces(pieces + [piece])| == |LiteralPlaces(pieces)| + if LiteralPiece(piece) then 1 else 0
  {
    var more := pieces + [piece];
    if LiteralPiece(piece) {
      assert LiteralPlaces(more) == LiteralPlaces(pieces) + {|pieces|};
    } else {
      assert LiteralPlaces(more) == LiteralPlaces(pieces);
    }
  }

  lemma {:induction false} TallyIsCard(segs: seq<Segment>, raws: seq<string>)
    requires |segs| == |raws| && forall j | 0 <= j < |segs| :: Reads(segs[j], raws[j])
    ensures Tally(segs, Text) == |LiteralPlaces(raws)|
  {
    hide LiteralPlaces, Tally;
    if segs == [] {
      NothingCounted();
      assert raws == [];
    } else {
      var s, raw := segs[..|segs| - 1], raws[..|raws| - 1];
      TallyIsCard(s, raw);
      assert segs == s + [segs[|segs| - 1]] && raws == raw + [raws[|raws| - 1]];
      TallySnoc(s, segs[|segs| - 1], Text);
      LiteralStep(raw, raws[|raws| - 1]);
      assert Reads(segs[|segs| - 1], raws[|raws| - 1]);
    }
  }

  lemma NothingCounted()
    ensures Tally<Segment>([], Text) == 0 && LiteralPlaces([]) == {}
  {
  }

  lemma SlashOnly(pattern: string)
    requires "/" <= pattern
    ensures pattern == "/" <==> |pattern| == 1
  {
  }

  /** The numbers a pattern is ranked by, read off its text. */
  lemma SpecificityMeaning(pattern: string)
    requires Compiled(pattern).Ok?
    ensures var p := Compiled(pattern).value;
            && p.raw == pattern
            && (p.specificity.kindRank == 1 <==> '*' in pattern)
            && (p.specificity.kindRank == 2 <==> '*' !in pattern && '{' in pattern)
            && (p.specificity.kindRank == 3 <==> '*' !in pattern && '{' !in pattern)
            && p.specificity.staticSegments == LiteralPieces(pattern)
  {
    hide Reads, SplitFrom, CompileSegment, AnyHas, KindRank;
    var raws, segs := RawSegments(pattern), Compiled(pattern).value.segments;
    SegmentsRead(raws, |raws|);
    SlashOnly(pattern);
    TallyIsCard(segs, raws);
    CharInPieces(pattern, '*');
    CharInPieces(pattern, '{');
    KindByTexts(segs, raws);
  }

  lemma KindByTexts(segs: seq<Segment>, raws: seq<string>)
    requires |segs| == |raws| && forall j | 0 <= j < |segs| :: Reads(segs[j], raws[j])
    ensures KindRank(segs) == 1 <==> AnyHas(raws, '*')
    ensures KindRank(segs) == 3 <==> !AnyHas(raws, '*') && !AnyHas(raws, '{')
    ensures 1 <= KindRank(segs) <= 3
  {
    assert forall i | 0 <= i < |segs| :: Open(segs[i]) <==> '*' in raws[i];
    assert forall i | 0 <= i < |segs| :: Captures(segs[i]) <==> '{' in raws[i];
  }

  lemma {:induction false} CharInSplit(text: string, position: nat, c: char)
    requires position <= |text| && c != '/'
    ensures c in text[position..] <==> AnyHas(SplitFrom(text, position), c)
    decreases |text| - position
  {
    hide SplitFrom, AnyHas;
    var end, parts := SegmentEnd(text, position), SplitFrom(text, position);
    SplitStep(text, position);
    AnyHasStep(parts, c);
    if end < |text| {
      CharInSplit(text, end + 1, c);
      CutAtSlash(text, position, end);
    } else {
      assert text[position..end] == text[position..];
      assert !AnyHas([], c) by { NothingHas(c); }
    }
  }

  lemma CharInPieces(pattern: string, c: char)
    requires "/" <= pattern && c != '/'
    ensures c in pattern <==> AnyHas(RawSegments(pattern), c)
  {
    hide AnyHas, SplitFrom;
    assert pattern == "/" + pattern[1..];
    if pattern == "/" { NothingHas(c); } else { CharInSplit(pattern, 1, c); }
  }

  /** One candidate is above another exactly when its route, as configured, beats the other. */
  lemma PrecedenceMeaning(q: RouteSpec, g: Option<HostPattern>, p: RouteSpec, h: Option<HostPattern>)
    requires Compilable(q) && Compilable(p)
    ensures Compare(KeyOf(CandidateFor(q, g)), KeyOf(CandidateFor(p, h))) > 0 <==> Beats(q, g, p, h)
  {
    hide Compiled, LiteralPieces, LexLess, MethodSetOf;
    SpecificityMeaning(q.path);
    SpecificityMeaning(p.path);
    LexTrichotomy(q.id, p.id);
  }

  // ----- which route sets are accepted

  /** The codes of the characters of an HTTP token: letters, digits and !#$%&'*+-.^_`|~. */
  predicate TokenCode(c: int) {
    || 65 <= c <= 90 || 97 <= c <= 122 || 48 <= c <= 57
    || c == 33 || 35 <= c <= 39 || c == 42 || c == 43 || c == 45 || c == 46 || 94 <= c <= 96 || c == 124 || c == 126
  }

  lemma TokenCharacter(c: char)
    ensures ' ' < c < '\U{7f}' && c !in "()<>@,;:\\\"/[]?={}" <==> TokenCode(c as int)
  {
  }

  lemma TokenMeaning(s: string)
    ensures ValidToken(s) <==> s != "" && forall i | 0 <= i < |s| :: TokenCode(s[i] as int)
  {
    hide TokenCode;
    forall i | 0 <= i < |s|
      ensures ' ' < s[i] < '\U{7f}' && s[i] !in "()<>@,;:\\\"/[]?={}" <==> TokenCode(s[i] as int)
    {
      TokenCharacter(s[i]);
    }
  }

  /** The codes of the characters that make an ID blank. */
  lemma SpaceMeaning(c: char)
    ensures IsSpace(c) <==>
            var n := c as int;
            || 9 <= n <= 13 || n == 32 || n == 133 || n == 160 || n == 5760 || 8192 <= n <= 8202
            || n == 8232 || n == 8233 || n == 8239 || n == 8287 || n == 12288
  {
  }

  /** The same priority and match expression, whatever the order inside the lists and the case of the methods. */
  ghost predicate Conflict(p: RouteSpec, q: RouteSpec) {
    && p.priority == q.priority && p.path == q.path
    && (forall h :: h in p.hosts <==> h in q.hosts)
    && (forall m :: Lists(p, m) <==> Lists(q, m))
    && (forall x :: multiset(p.predicates)[x] == multiset(q.predicates)[x])
  }

  lemma ConflictMeaning(p: RouteSpec, q: RouteSpec)
    ensures SignatureOf(p) == SignatureOf(q) <==> Conflict(p, q)
  {
    var s, t := SignatureOf(p), SignatureOf(q);
    assert forall m :: m in s.methods <==> Lists(p, m);
    assert forall m :: m in t.methods <==> Lists(q, m);
    assert forall h :: h in s.hosts <==> h in p.hosts;
    assert forall h :: h in t.hosts <==> h in q.hosts;
    if Conflict(p, q) { assert s.methods == t.methods && s.hosts == t.hosts && s.predicates == t.predicates; }
  }

  /** A route that compiles on its own; `PatternAccepted` says which pattern texts do. */
  predicate Good(route: RouteSpec) {
    && (exists i :: 0 <= i < |route.id| && !IsSpace(route.id[i]))
    && Compiled(route.path).Ok?
    && route.methods != [] && (forall m | m in route.methods :: ValidToken(m))
    && (forall i, j | 0 <= i < j < |route.methods| :: Upper(route.methods[i]) != Upper(route.methods[j]))
    && (forall i, j | 0 <= i < j < |route.hosts| :: route.hosts[i] != route.hosts[j])
  }

  lemma GoodMeaning(route: RouteSpec)
    ensures RouteOk(route) <==> Good(route)
  {
    hide Compiled, ValidToken, IsSpace, Upper;
  }

  /** The accepted route sets: good routes, no ID twice, no expression twice. */
  lemma AcceptedMeaning(routes: seq<RouteSpec>)
    ensures Acceptable(routes) <==>
            && routes != []
            && (forall i | 0 <= i < |routes| :: Good(routes[i]))
            && (forall i, j | 0 <= i < j < |routes| :: routes[i].id != routes[j].id && !Conflict(routes[i], routes[j]))
  {
    hide RouteOk, Good, SignatureOf, Conflict;
    forall i | 0 <= i < |routes| ensures RouteOk(routes[i]) <==> Good(routes[i]) { GoodMeaning(routes[i]); }
    forall i, j | 0 <= i < j < |routes|
      ensures SignatureOf(routes[i]) == SignatureOf(routes[j]) <==> Conflict(routes[i], routes[j])
    {
      ConflictMeaning(routes[i], routes[j]);
    }
  }

  // ----- the answer

  /** The answer a reader of the configuration expects. */
  ghost predicate Expected(routes: seq<RouteSpec>, r: Request, a: Answer) {
    match a
    case Found(index, params) =>
      exists p, h ::
        && p in routes && Serving(p, h, r) && p.index == index
        && CapturesOf(p.path, if r.path == "" then "/" else r.path, params)
        && forall q, g | q in routes && Serving(q, g, r) :: !Beats(q, g, p, h)
    case MethodNotAllowed(allow) =>
      && (forall q, g | q in routes :: !Serving(q, g, r))
      && (exists q, g :: q in routes && Fitting(q, g, r))
      && Ascending(allow)
      && forall m :: m in allow <==> Offered(routes, r, m)
    case NotFound => forall q, g | q in routes :: !Fitting(q, g, r)
  }

  /** Some route that fits serves the method `m`. */
  ghost predicate Offered(routes: seq<RouteSpec>, r: Request, m: string) {
    exists q, g :: q in routes && Fitting(q, g, r) && Lists(q, m)
  }

  ghost predicate CapturesOf(pattern: string, path: string, params: seq<ParamSpan>) {
    && SpansInside(params, path)
    && SpanTexts(params, path) ==
       if |pattern| <= 1 || |path| == 0 then [] else TextCaptures(SplitFrom(pattern, 1), SplitFrom(path, 1))
  }

  lemma InTable(routes: seq<RouteSpec>, route: RouteSpec, host: Option<HostPattern>)
    requires Acceptable(routes) && route in routes && AtHost(route, host)
    ensures Compilable(route) && Hosted(host, CandidateFor(route, host)) in Table(routes)
  {
    hide Compilable, CandidateFor, SignatureOf, Blank;
    var i :| 0 <= i < |routes| && routes[i] == route;
    assert RouteOk(routes[i]);
    assert Hosted(host, CandidateFor(route, host)) in Entries(route);
  }

  lemma FromTable(routes: seq<RouteSpec>, r: Request, c: Candidate)
    returns (route: RouteSpec, host: Option<HostPattern>)
    requires c in Scope(Table(routes), r)
    ensures route in routes && Compilable(route) && AtHost(route, host) && c == CandidateFor(route, host)
    ensures InScope(Hosted(host, c), r)
  {
    hide Compilable, CandidateFor, InScope;
    var h :| h in Table(routes) && InScope(h, r) && h.candidate == c;
    var q, x :| q in routes && Compilable(q) && x in Entries(q) && x == h;
    route, host := q, h.host;
    assert h == Hosted(host, c);
  }

  /** A route that fits has a candidate in scope that passes; it serves if the route does. */
  lemma ToScope(routes: seq<RouteSpec>, r: Request, route: RouteSpec, host: Option<HostPattern>)
    requires Acceptable(routes) && route in routes && Fitting(route, host, r)
    ensures Compilable(route) && CandidateFor(route, host) in Scope(Table(routes), r)
    ensures Passes(CandidateFor(route, host), r)
    ensures Serving(route, host, r) <==> Serves(CandidateFor(route, host), r)
  {
    InTable(routes, route, host);
    hide Table, Acceptable, Compilable, CandidateFor, Passes, Serves, InScope, Serving;
    CandidateMeaning(route, host, r);
    assert Hosted(host, CandidateFor(route, host)) in Table(routes);
  }

  lemma FoundMeaning(routes: seq<RouteSpec>, r: Request, a: Answer)
    requires Acceptable(routes) && a.Found? && IsAnswer(Scope(Table(routes), r), r, a)
    ensures Expected(routes, r, a)
  {
    hide Table, Scope, Acceptable, Compilable, CandidateFor, Passes, Serves, InScope, Serving, Fitting, Compare,
        KeyOf, MatchPath, Beats, CapturesOf;
    var scope := Scope(Table(routes), r);
    var c :| && c in scope && Serves(c, r) && a.routeIndex == c.routeIndex
             && Some(a.params) == MatchPath(Segs(c), PathOf(r))
             && forall o | o in scope && Serves(o, r) :: Compare(KeyOf(o), KeyOf(c)) <= 0;
    var p, h := FromTable(routes, r, c);
    CandidateMeaning(p, h, r);
    ServingFits(p, h, r);
    CandidateCaptures(p, h, r, a.params);
    forall q, g | q in routes && Serving(q, g, r) ensures !Beats(q, g, p, h) {
      ServingFits(q, g, r);
      ToScope(routes, r, q, g);
      PrecedenceMeaning(q, g, p, h);
    }
  }

  lemma ServingFits(route: RouteSpec, host: Option<HostPattern>, r: Request)
    ensures Serving(route, host, r) ==> Fitting(route, host, r)
  {
    hide Fitting;
  }

  lemma CandidateCaptures(route: RouteSpec, host: Option<HostPattern>, r: Request, params: seq<ParamSpan>)
    requires Compilable(route)
    requires Some(params) == MatchPath(Segs(CandidateFor(route, host)), PathOf(r))
    ensures CandidateFor(route, host).routeIndex == route.index
    ensures CapturesOf(route.path, if r.path == "" then "/" else r.path, params)
  {
    hide Compiled, SplitFrom, TextCaptures, TextAccepts, SpanTexts, MethodSetOf, AcceptableMethods;
    PathMeaning(route.path, PathOf(r));
    NoSpans(PathOf(r));
  }

  lemma NoSpans(path: string)
    ensures SpansInside([], path) && SpanTexts([], path) == []
  {
  }

  lemma MissMeaning(routes: seq<RouteSpec>, r: Request, a: Answer)
    requires Acceptable(routes) && !a.Found? && IsAnswer(Scope(Table(routes), r), r, a)
    ensures Expected(routes, r, a)
  {
    hide Table, Scope, Acceptable, Compilable, CandidateFor, Passes, Serves, InScope, Serving, Fitting, Ascending,
        Offered, Allowed;
    var scope := Scope(Table(routes), r);
    forall q, g | q in routes && Serving(q, g, r) ensures a.NotFound? ==> Fitting(q, g, r) { ServingFits(q, g, r); }
    forall q, g | q in routes && Fitting(q, g, r)
      ensures a.MethodNotAllowed? && !Serving(q, g, r)
    {
      ToScope(routes, r, q, g);
    }
    if a.MethodNotAllowed? {
      var c :| c in scope && Passes(c, r);
      var q, g := FromTable(routes, r, c);
      CandidateMeaning(q, g, r);
      forall m ensures Allowed(scope, r, m) <==> Offered(routes, r, m) { AllowedMeaning(routes, r, m); }
      forall q, g | q in routes ensures !Serving(q, g, r) { ServingFits(q, g, r); }
    }
  }

  lemma AllowedMeaning(routes: seq<RouteSpec>, r: Request, m: string)
    requires Acceptable(routes)
    ensures Allowed(Scope(Table(routes), r), r, m) <==> Offered(routes, r, m)
  {
    hide Table, Scope, Acceptable, Compilable, Passes, InScope, Fitting, Serving, Serves, CandidateFor;
    var scope := Scope(Table(routes), r);
    if Allowed(scope, r, m) {
      var c :| c in scope && Passes(c, r) && m in MethodsOf(c.methods);
      var q, g := FromTable(routes, r, c);
      CandidateMeaning(q, g, r);
      CandidateMethods(q, g, m);
    }
    if q, g :| q in routes && Fitting(q, g, r) && Lists(q, m) {
      ToScope(routes, r, q, g);
      CandidateMethods(q, g, m);
    }
  }

  lemma CandidateMethods(route: RouteSpec, host: Option<HostPattern>, m: string)
    requires Compilable(route)
    ensures m in MethodsOf(CandidateFor(route, host).methods) <==> Lists(route, m)
  {
    hide MethodsOf, MethodSetOf, Compiled, AcceptableMethods, Contains, ValidMethodSet;
    MethodMeaning(route.methods, m);
    MethodSetOfElements(route.methods);
    ContainsIsMembership(MethodSetOf(route.methods), m);
  }

  /** The router's answer is the one a reader of the configured routes expects. */
  lemma AnswerMeaning(routes: seq<RouteSpec>, r: Request, a: Answer)
    requires Acceptable(routes) && IsAnswer(Scope(Table(routes), r), r, a)
    ensures Expected(routes, r, a)
  {
    if a.Found? { FoundMeaning(routes, r, a); } else { MissMeaning(routes, r, a); }
  }

  /** At equal priority the answered route is served at the best kind of host among all routes that serve. */
  lemma BestHostWins(routes: seq<RouteSpec>, r: Request, a: Answer, q: RouteSpec, g: Option<HostPattern>)
    requires Acceptable(routes) && IsAnswer(Scope(Table(routes), r), r, a)
    requires q in routes && Serving(q, g, r)
    ensures a.Found?
    ensures exists p, h ::
              && p in routes && Serving(p, h, r) && p.index == a.routeIndex && q.priority <= p.priority
              && (q.priority == p.priority && g.Some? ==> h.Some? && (g.value.Exact? ==> h.value.Exact?))
  {
    hide Table, Scope, Acceptable, IsAnswer, Serving, Fitting, CapturesOf, FinerThan, PathAbove;
    AnswerMeaning(routes, r, a);
    ServingFits(q, g, r);
  }
}
