/**
 Path and host patterns of the router (internal/router/pattern.go).

 A path pattern is compiled to a list of segments and matched by walking
 positions.  `AcceptsParts` is the independent reading of a pattern: compare it,
 segment by segment, with the path cut at every slash.
 */
module RoutePattern {
  import opened Wrappers
  import opened Counting

  datatype Segment = Static(text: string) | Parameter(name: string) | Prefix | CatchAll(name: string)

  datatype ParamSpan = ParamSpan(name: string, start: nat, end: nat)

  datatype PatternError =
    | NotAbsolute | HasQueryOrFragment | PrefixNotFinal | CatchAllNotFinal
    | InvalidName | MixedAsterisk | StrayBrace | DuplicateName

  datatype Specificity = Specificity(kindRank: nat, staticSegments: nat, paramCount: nat)

  datatype PathPattern = PathPattern(raw: string, segments: seq<Segment>, specificity: Specificity)

  // ----- cutting a path at its slashes

  /** Index of the first slash at or after `position`, or the length of `path`. */
  function SegmentEnd(path: string, position: nat): (end: nat)
    requires position <= |path|
    ensures position <= end <= |path|
    ensures end < |path| ==> path[end] == '/'
    ensures forall i | position <= i < end :: path[i] != '/'
    decreases |path| - position
  {
    if position == |path| || path[position] == '/' then position else SegmentEnd(path, position + 1)
  }

  /** `strings.Split(path[position:], "/")`. */
  function SplitFrom(path: string, position: nat): (parts: seq<string>)
    requires position <= |path|
    ensures |parts| > 0
    decreases |path| - position
  {
    var end := SegmentEnd(path, position);
    [path[position..end]] + (if end == |path| then [] else SplitFrom(path, end + 1))
  }

  function Join(parts: seq<string>): string {
    if parts == [] then "" else if |parts| == 1 then parts[0] else parts[0] + "/" + Join(parts[1..])
  }

  lemma SplitStep(path: string, position: nat)
    requires position <= |path|
    ensures var end, parts := SegmentEnd(path, position), SplitFrom(path, position);
            && parts[0] == path[position..end]
            && parts[1..] == (if end == |path| then [] else SplitFrom(path, end + 1))
  {
  }

  lemma {:induction false} JoinStep(parts: seq<string>)
    requires |parts| > 1
    ensures Join(parts) == parts[0] + ("/" + Join(parts[1..]))
  {
    assert (parts[0] + "/") + Join(parts[1..]) == parts[0] + ("/" + Join(parts[1..]));
  }

  lemma {:induction false} JoinOne(parts: seq<string>)
    requires |parts| > 0 && parts[1..] == []
    ensures Join(parts) == parts[0]
  {
  }

  lemma CutAtSlash(path: string, position: nat, end: nat)
    requires position <= end < |path| && path[end] == '/'
    ensures path[position..] == path[position..end] + ("/" + path[end + 1..])
  {
  }

  lemma {:induction false} JoinSplit(path: string, position: nat)
    requires position <= |path|
    ensures Join(SplitFrom(path, position)) == path[position..]
    decreases |path| - position
  {
    hide SplitFrom, Join;
    var end, parts := SegmentEnd(path, position), SplitFrom(path, position);
    SplitStep(path, position);
    if end < |path| {
      JoinSplit(path, end + 1);
      JoinStep(parts);
      CutAtSlash(path, position, end);
    } else {
      assert path[position..end] == path[position..];
      JoinOne(parts);
    }
  }

  // ----- compiling

  function CountOf(s: string, c: char): nat {
    if s == "" then 0 else (if s[0] == c then 1 else 0) + CountOf(s[1..], c)
  }

  predicate ValidParameterName(name: string) {
    name != "" && forall i | 0 <= i < |name| ::
      'a' <= name[i] <= 'z' || 'A' <= name[i] <= 'Z' || name[i] == '_' || (i > 0 && '0' <= name[i] <= '9')
  }

  predicate Braced(raw: string, open: string) {
    open <= raw && |raw| > |open| && raw[|raw| - 1] == '}' && CountOf(raw, '{') == 1 && CountOf(raw, '}') == 1
  }

  function CompileSegment(raw: string, final: bool): Result<Segment, PatternError> {
    if raw == "*" then
      if final then Ok(Prefix) else Err(PrefixNotFinal)
    else if Braced(raw, "{*") then
      if !final then Err(CatchAllNotFinal)
      else if ValidParameterName(raw[2..|raw| - 1]) then Ok(CatchAll(raw[2..|raw| - 1]))
      else Err(InvalidName)
    else if Braced(raw, "{") then
      if ValidParameterName(raw[1..|raw| - 1]) then Ok(Parameter(raw[1..|raw| - 1])) else Err(InvalidName)
    else if '*' in raw then Err(MixedAsterisk)
    else if '{' in raw || '}' in raw then Err(StrayBrace)
    else Ok(Static(raw))
  }

  predicate Captures(s: Segment) { s.Parameter? || s.CatchAll? }

  predicate Open(s: Segment) { s.Prefix? || s.CatchAll? }

  function Names(segs: seq<Segment>): set<string> {
    set s | s in segs && Captures(s) :: s.name
  }

  /** The first `k` raw segments compiled, or the first error among them. */
  function CompileSegments(raws: seq<string>, k: nat): (r: Result<seq<Segment>, PatternError>)
    requires k <= |raws|
    ensures r.Ok? ==> |r.value| == k
  {
    if k == 0 then Ok([])
    else
      var before := CompileSegments(raws, k - 1);
      if before.Err? then before
      else
        var s := CompileSegment(raws[k - 1], k == |raws|);
        if s.Err? then Err(s.error)
        else if Captures(s.value) && s.value.name in Names(before.value) then Err(DuplicateName)
        else Ok(before.value + [s.value])
  }

  /** 1 for an open-ended pattern, 2 for one with parameters, 3 for a literal one. */
  function KindRank(segs: seq<Segment>): nat {
    if exists i | 0 <= i < |segs| :: Open(segs[i]) then 1
    else if exists i | 0 <= i < |segs| :: segs[i].Parameter? then 2
    else 3
  }

  predicate Text(s: Segment) { s.Static? && s.text != "" }

  function SpecificityOf(segs: seq<Segment>): Specificity {
    Specificity(KindRank(segs), Tally(segs, Text), Tally(segs, Captures))
  }

  function RawSegments(pattern: string): seq<string>
    requires "/" <= pattern
  {
    if pattern == "/" then [] else SplitFrom(pattern, 1)
  }

  /** What `compilePathPattern` computes; the loop below is proved against it. */
  function Compiled(pattern: string): Result<PathPattern, PatternError> {
    if !("/" <= pattern) then Err(NotAbsolute)
    else if '?' in pattern || '#' in pattern then Err(HasQueryOrFragment)
    else
      var raws := RawSegments(pattern);
      var segs := CompileSegments(raws, |raws|);
      if segs.Err? then Err(segs.error)
      else Ok(PathPattern(pattern, segs.value, SpecificityOf(segs.value)))
  }

  lemma {:induction false} ErrorPropagates(raws: seq<string>, i: nat, k: nat)
    requires i <= k <= |raws| && CompileSegments(raws, i).Err?
    ensures CompileSegments(raws, k) == CompileSegments(raws, i)
    decreases k
  {
    if i < k { ErrorPropagates(raws, i, k - 1); }
  }

  lemma KindRankStep(segs: seq<Segment>, s: Segment)
    requires forall i | 0 <= i < |segs| :: !Open(segs[i])
    ensures KindRank(segs + [s]) ==
            if Open(s) then 1 else if s.Parameter? && KindRank(segs) > 2 then 2 else KindRank(segs)
  {
    var all := segs + [s];
    assert all[|segs|] == s;
    if exists i | 0 <= i < |segs| :: segs[i].Parameter? {
      var i :| 0 <= i < |segs| && segs[i].Parameter?;
      assert all[i].Parameter?;
    }
  }

  lemma NamesStep(segs: seq<Segment>, s: Segment)
    ensures Names(segs + [s]) == Names(segs) + if Captures(s) then {s.name} else {}
  {
    assert forall t :: t in segs + [s] <==> t in segs || t == s;
    if Captures(s) { assert s in segs + [s]; }
  }

  lemma CompileStep(raws: seq<string>, i: nat, segs: seq<Segment>)
    requires i < |raws| && CompileSegments(raws, i) == Ok(segs)
    ensures var s := CompileSegment(raws[i], i == |raws| - 1);
            CompileSegments(raws, i + 1) ==
              if s.Err? then Err(s.error)
              else if Captures(s.value) && s.value.name in Names(segs) then Err(DuplicateName)
              else Ok(segs + [s.value])
  {
  }

  /** Only the final segment of a compiled pattern is open-ended. */
  lemma {:induction false} OpenOnlyLast(raws: seq<string>, k: nat)
    requires k <= |raws| && CompileSegments(raws, k).Ok?
    ensures forall i | 0 <= i < k :: Open(CompileSegments(raws, k).value[i]) ==> i == |raws| - 1
  {
    if k > 0 { OpenOnlyLast(raws, k - 1); }
  }

  /** The `switch` that counts one more segment. */
  function Include(have: Specificity, s: Segment): Specificity {
    match s
    case Static(text) => if text != "" then have.(staticSegments := have.staticSegments + 1) else have
    case Parameter(_) => have.(paramCount := have.paramCount + 1, kindRank := if have.kindRank > 2 then 2
        else have.kindRank)
    case CatchAll(_) => have.(paramCount := have.paramCount + 1, kindRank := 1)
    case Prefix => have.(kindRank := 1)
  }

  lemma IncludeStep(segs: seq<Segment>, s: Segment)
    requires forall i | 0 <= i < |segs| :: !Open(segs[i])
    ensures Include(SpecificityOf(segs), s) == SpecificityOf(segs + [s])
  {
    KindRankStep(segs, s);
    TallySnoc(segs, s, Text);
    TallySnoc(segs, s, Captures);
  }

  method CompilePathPattern(pattern: string) returns (r: Result<PathPattern, PatternError>)
    ensures r == Compiled(pattern)
  {
    if !("/" <= pattern) { return Err(NotAbsolute); }
    if '?' in pattern || '#' in pattern { return Err(HasQueryOrFragment); }
    var raws := RawSegments(pattern);
    var segments: seq<Segment>, names: set<string> := [], {};
    var specificity := Specificity(3, 0, 0);
    for i := 0 to |raws|
      invariant CompileSegments(raws, i) == Ok(segments)
      invariant names == Names(segments)
      invariant specificity == SpecificityOf(segments)
    {
      CompileStep(raws, i, segments);
      var segment := CompileSegment(raws[i], i == |raws| - 1);
      if segment.Err? || (Captures(segment.value) && segment.value.name in names) {
        ErrorPropagates(raws, i + 1, |raws|);
        return Err(if segment.Err? then segment.error else DuplicateName);
      }
      OpenOnlyLast(raws, i);
      IncludeStep(segments, segment.value);
      NamesStep(segments, segment.value);
      if Captures(segment.value) { names := names + {segment.value.name}; }
      specificity := Include(specificity, segment.value);
      segments := segments + [segment.value];
    }
    r := Ok(PathPattern(pattern, segments, specificity));
  }

  // ----- compiling loses nothing

  function RenderSegment(s: Segment): string {
    match s
    case Static(text) => text
    case Parameter(name) => "{" + name + "}"
    case Prefix => "*"
    case CatchAll(name) => "{*" + name + "}"
  }

  function RenderSegments(segs: seq<Segment>): seq<string> {
    seq(|segs|, i requires 0 <= i < |segs| => RenderSegment(segs[i]))
  }

  lemma RenderCompiledSegment(raw: string, final: bool)
    requires CompileSegment(raw, final).Ok?
    ensures RenderSegment(CompileSegment(raw, final).value) == raw
  {
    if raw != "*" {
      if Braced(raw, "{*") {
        assert raw == raw[..2] + raw[2..|raw| - 1] + raw[|raw| - 1..];
        assert raw[|raw| - 1..] == "}" && raw[..2] == "{*";
      } else if Braced(raw, "{") {
        assert raw == raw[..1] + raw[1..|raw| - 1] + raw[|raw| - 1..];
        assert raw[|raw| - 1..] == "}" && raw[..1] == "{";
      }
    }
  }

  lemma {:induction false} RenderCompiledSegments(raws: seq<string>, k: nat)
    requires k <= |raws| && CompileSegments(raws, k).Ok?
    ensures forall i | 0 <= i < k :: RenderSegment(CompileSegments(raws, k).value[i]) == raws[i]
  {
    if k > 0 {
      RenderCompiledSegments(raws, k - 1);
      RenderCompiledSegment(raws[k - 1], k == |raws|);
    }
  }

  /** The segments determine the pattern text they were compiled from. */
  lemma CompileRoundTrip(pattern: string)
    requires Compiled(pattern).Ok?
    ensures pattern == "/" + Join(RenderSegments(Compiled(pattern).value.segments))
  {
    var raws := RawSegments(pattern);
    RenderCompiledSegments(raws, |raws|);
    assert RenderSegments(Compiled(pattern).value.segments) == raws;
    assert pattern[..1] == "/";
    assert pattern == pattern[..1] + pattern[1..];
    if pattern != "/" { JoinSplit(pattern, 1); }
  }

  /** What the matcher needs of a segment list: open-ended segments come last. */
  predicate WellFormed(segs: seq<Segment>) {
    forall i | 0 <= i < |segs| - 1 :: !Open(segs[i])
  }

  /** No two capturing segments have the same name. */
  predicate DistinctNames(segs: seq<Segment>) {
    forall i, j | 0 <= i < j < |segs| && Captures(segs[i]) && Captures(segs[j]) :: segs[i].name != segs[j].name
  }

  lemma {:induction false} NamesDiffer(raws: seq<string>, k: nat)
    requires k <= |raws| && CompileSegments(raws, k).Ok?
    ensures DistinctNames(CompileSegments(raws, k).value)
  {
    if k > 0 {
      NamesDiffer(raws, k - 1);
      var before, after := CompileSegments(raws, k - 1).value, CompileSegments(raws, k).value;
      forall i | 0 <= i < k - 1 && Captures(after[i]) ensures after[i].name in Names(before) {
        assert after[i] == before[i] && before[i] in before;
      }
    }
  }

  lemma CompiledWellFormed(pattern: string)
    requires Compiled(pattern).Ok?
    ensures WellFormed(Compiled(pattern).value.segments)
    ensures DistinctNames(Compiled(pattern).value.segments)
  {
    var raws := RawSegments(pattern);
    OpenOnlyLast(raws, |raws|);
    NamesDiffer(raws, |raws|);
  }

  // ----- matching

  /** One closed segment against the text `path[position..end]`. */
  predicate Fits(s: Segment, text: string) {
    match s
    case Static(want) => text == want
    case Parameter(_) => text != ""
    case _ => true
  }

  function SpanOf(s: Segment, start: nat, end: nat): seq<ParamSpan> {
    if Captures(s) then [ParamSpan(s.name, start, end)] else []
  }

  /** The position walk of `compiledPathPattern.match` from segment `i` on. */
  function MatchAt(segs: seq<Segment>, i: nat, path: string, position: nat): Option<seq<ParamSpan>>
    requires i < |segs|
    decreases |segs| - i
  {
    if position > |path| then None
    else if Open(segs[i]) then Some(SpanOf(segs[i], position, |path|))
    else
      var end := SegmentEnd(path, position);
      var here := SpanOf(segs[i], position, end);
      if !Fits(segs[i], path[position..end]) then None
      else if i == |segs| - 1 then (if end == |path| then Some(here) else None)
      else if end == |path| then None
      else Prepend(here, MatchAt(segs, i + 1, path, end + 1))
  }

  function Prepend(spans: seq<ParamSpan>, rest: Option<seq<ParamSpan>>): Option<seq<ParamSpan>> {
    if rest.None? then None else Some(spans + rest.value)
  }

  lemma PrependNothing(rest: Option<seq<ParamSpan>>)
    ensures Prepend([], rest) == rest
  {
    if rest.Some? { assert [] + rest.value == rest.value; }
  }

  lemma PrependTwice(a: seq<ParamSpan>, b: seq<ParamSpan>, rest: Option<seq<ParamSpan>>)
    ensures Prepend(a, Prepend(b, rest)) == Prepend(a + b, rest)
  {
    if rest.Some? { assert a + (b + rest.value) == (a + b) + rest.value; }
  }

  function MatchPath(segs: seq<Segment>, path: string): Option<seq<ParamSpan>> {
    if !("/" <= path) then None
    else if segs == [] then (if path == "/" then Some([]) else None)
    else MatchAt(segs, 0, path, 1)
  }

  method Match(p: PathPattern, path: string) returns (r: Option<seq<ParamSpan>>)
    ensures r == MatchPath(p.segments, path)
  {
    var segs := p.segments;
    if !("/" <= path) { return None; }
    if segs == [] { return if path == "/" then Some([]) else None; }
    var params: seq<ParamSpan>, position := [], 1;
    PrependNothing(MatchAt(segs, 0, path, 1));
    for i := 0 to |segs|
      invariant i < |segs|
      invariant MatchPath(segs, path) == Prepend(params, MatchAt(segs, i, path, position))
    {
      if position > |path| { return None; }
      if segs[i].Prefix? {
        assert params + [] == params;
        return Some(params);
      }
      if segs[i].CatchAll? {
        return Some(params + [ParamSpan(segs[i].name, position, |path|)]);
      }
      var end := SegmentEnd(path, position);
      if !Fits(segs[i], path[position..end]) { return None; }
      ghost var before := params;
      if segs[i].Parameter? { params := params + [ParamSpan(segs[i].name, position, end)]; }
      assert params == before + SpanOf(segs[i], position, end);
      if i == |segs| - 1 { return if end == |path| then Some(params) else None; }
      if end == |path| { return None; }
      PrependTwice(before, SpanOf(segs[i], position, end), MatchAt(segs, i + 1, path, end + 1));
      position := end + 1;
    }
    r := None;
  }

  // ----- the declarative reading of a pattern

  /** The pattern from segment `i` on accepts a cut path part by part; an open end takes all remaining parts. */
  predicate AcceptsParts(segs: seq<Segment>, i: nat, parts: seq<string>) {
    && i < |segs|
    && (if Open(segs[|segs| - 1]) then |segs| - i <= |parts| else |segs| - i == |parts|)
    && forall j | i <= j < |segs| && !Open(segs[j]) :: Fits(segs[j], parts[j - i])
  }

  /** The parameter names and texts that the pattern captures from segment `i` on. */
  function CapturedTexts(segs: seq<Segment>, i: nat, parts: seq<string>): seq<(string, string)>
    requires i <= |segs| && |segs| - i <= |parts|
    decreases |segs| - i
  {
    if i == |segs| then [] else CapturedText(segs[i], parts) + CapturedTexts(segs, i + 1, parts[1..])
  }

  function CapturedText(s: Segment, parts: seq<string>): seq<(string, string)>
    requires parts != []
  {
    match s
    case Parameter(name) => [(name, parts[0])]
    case CatchAll(name) => [(name, Join(parts))]
    case _ => []
  }

  predicate SpansInside(spans: seq<ParamSpan>, path: string) {
    forall i | 0 <= i < |spans| :: spans[i].start <= spans[i].end <= |path|
  }

  function SpanTexts(spans: seq<ParamSpan>, path: string): seq<(string, string)>
    requires SpansInside(spans, path)
  {
    seq(|spans|, i requires 0 <= i < |spans| => (spans[i].name, path[spans[i].start..spans[i].end]))
  }

  lemma AcceptsTail(segs: seq<Segment>, i: nat, parts: seq<string>)
    requires i < |segs| - 1 && |parts| > 1 && !Open(segs[i])
    ensures AcceptsParts(segs, i, parts) <==> Fits(segs[i], parts[0]) && AcceptsParts(segs, i + 1, parts[1..])
  {
    if AcceptsParts(segs, i, parts) {
      forall j | i + 1 <= j < |segs| && !Open(segs[j]) ensures Fits(segs[j], parts[1..][j - i - 1]) {
        assert parts[1..][j - i - 1] == parts[j - i];
      }
    }
    if Fits(segs[i], parts[0]) && AcceptsParts(segs, i + 1, parts[1..]) {
      forall j | i <= j < |segs| && !Open(segs[j]) ensures Fits(segs[j], parts[j - i]) {
        assert j > i ==> parts[1..][j - i - 1] == parts[j - i];
      }
    }
  }

  /** The walk from `position` accepts exactly what the cut path allows. */
  lemma {:induction false} WalkAgreesWithParts(segs: seq<Segment>, i: nat, path: string, position: nat)
    requires i < |segs| && WellFormed(segs) && position <= |path|
    ensures MatchAt(segs, i, path, position).Some? <==> AcceptsParts(segs, i, SplitFrom(path, position))
    decreases |segs| - i
  {
    var end := SegmentEnd(path, position);
    SplitStep(path, position);
    if Open(segs[i]) {
      assert i == |segs| - 1;
    } else if i < |segs| - 1 && end < |path| {
      WalkAgreesWithParts(segs, i + 1, path, end + 1);
      AcceptsTail(segs, i, SplitFrom(path, position));
    }
  }

  lemma SpanTextsAppend(a: seq<ParamSpan>, b: seq<ParamSpan>, path: string)
    requires SpansInside(a, path) && SpansInside(b, path)
    ensures SpansInside(a + b, path)
    ensures SpanTexts(a + b, path) == SpanTexts(a, path) + SpanTexts(b, path)
  {
  }

  lemma {:induction false} CapturesAtEnd(s: Segment, path: string, position: nat)
    requires position <= |path| && (Open(s) || SegmentEnd(path, position) == |path|)
    ensures SpanTexts(SpanOf(s, position, |path|), path) == CapturedText(s, SplitFrom(path, position))
  {
    SplitStep(path, position);
    JoinSplit(path, position);
    assert path[position..|path|] == path[position..];
  }

  /** One closed, non-final step of the walk, spelled out. */
  lemma WalkStep(segs: seq<Segment>, i: nat, path: string, position: nat)
    requires i < |segs| - 1 && WellFormed(segs) && position <= |path|
    requires MatchAt(segs, i, path, position).Some?
    ensures var end := SegmentEnd(path, position);
            && end < |path|
            && MatchAt(segs, i + 1, path, end + 1).Some?
            && MatchAt(segs, i, path, position).value ==
               SpanOf(segs[i], position, end) + MatchAt(segs, i + 1, path, end + 1).value
            && SpanTexts(SpanOf(segs[i], position, end), path) == CapturedText(segs[i], SplitFrom(path, position))
  {
    SplitStep(path, position);
  }

  /** The spans of the walk carry exactly the captured texts. */
  lemma {:induction false} WalkCaptures(segs: seq<Segment>, i: nat, path: string, position: nat)
    requires i < |segs| && WellFormed(segs) && position <= |path|
    requires MatchAt(segs, i, path, position).Some?
    ensures |segs| - i <= |SplitFrom(path, position)|
    ensures SpansInside(MatchAt(segs, i, path, position).value, path)
    ensures SpanTexts(MatchAt(segs, i, path, position).value, path) ==
            CapturedTexts(segs, i, SplitFrom(path, position))
    decreases |segs| - i
  {
    hide SplitFrom, SpanTexts;
    var parts := SplitFrom(path, position);
    if i == |segs| - 1 {
      CapturesAtEnd(segs[i], path, position);
      assert CapturedTexts(segs, i, parts) == CapturedText(segs[i], parts) + [];
    } else {
      var end := SegmentEnd(path, position);
      WalkStep(segs, i, path, position);
      SplitStep(path, position);
      WalkCaptures(segs, i + 1, path, end + 1);
      SpanTextsAppend(SpanOf(segs[i], position, end), MatchAt(segs, i + 1, path, end + 1).value, path);
    }
  }

  /** A pattern matches an absolute path exactly when it accepts the path's parts, with the same captures. */
  lemma {:induction false} MatchMeansParts(segs: seq<Segment>, path: string)
    requires WellFormed(segs) && "/" <= path
    ensures segs == [] ==> (MatchPath(segs, path).Some? <==> path == "/")
    ensures segs != [] ==> (MatchPath(segs, path).Some? <==> AcceptsParts(segs, 0, SplitFrom(path, 1)))
    ensures segs != [] && MatchPath(segs, path).Some? ==>
              var spans := MatchPath(segs, path).value;
              SpansInside(spans, path) && SpanTexts(spans, path) == CapturedTexts(segs, 0, SplitFrom(path, 1))
  {
    if segs != [] {
      WalkAgreesWithParts(segs, 0, path, 1);
      if MatchPath(segs, path).Some? { WalkCaptures(segs, 0, path, 1); }
    }
  }

  // ----- hosts

  datatype HostPattern = Exact(value: string) | Wildcard(value: string)

  /** `compiledHostPattern.match`. */
  predicate HostMatches(p: HostPattern, host: string) {
    match p
    case Exact(value) => host == value
    case Wildcard(value) =>
      var suffixStart := |host| - |value|;
      && suffixStart > 1
      && host[suffixStart..] == value
      && host[suffixStart - 1] == '.'
      && '.' !in host[..suffixStart - 1]
  }

  function IndexOf(s: string, c: char): (i: nat)
    ensures i <= |s|
    ensures i < |s| ==> s[i] == c
    ensures c !in s[..i]
  {
    if s == "" then 0 else if s[0] == c then 0 else
      assert s[..1 + IndexOf(s[1..], c)] == [s[0]] + s[1..][..IndexOf(s[1..], c)];
      1 + IndexOf(s[1..], c)
  }

  /** The key `Match` looks up among the wildcard hosts: the host without its first label. */
  function WildcardKey(host: string): Option<string> {
    var separator := IndexOf(host, '.');
    if 0 < separator < |host| then Some(host[separator + 1..]) else None
  }

  /** One map lookup finds exactly the wildcard pattern that matches the host. */
  lemma WildcardLookup(value: string, host: string)
    ensures HostMatches(Wildcard(value), host) <==> WildcardKey(host) == Some(value)
  {
    var separator := IndexOf(host, '.');
    if HostMatches(Wildcard(value), host) {
      var dot := |host| - |value| - 1;
      assert host[dot] == '.';
    }
  }

  /** Two different patterns of the same kind never match the same host. */
  lemma HostMatchUnique(p: HostPattern, q: HostPattern, host: string)
    requires HostMatches(p, host) && HostMatches(q, host) && (p.Exact? <==> q.Exact?)
    ensures p == q
  {
    if p.Wildcard? {
      WildcardLookup(p.value, host);
      WildcardLookup(q.value, host);
    }
  }
}
