/** Route templates, layer scopes and the middleware chain. */
module Scopes {
  import opened Wrappers
  import opened Codec
  import opened Path
  import opened Routes
  import opened Trie

  const OPEN: Byte := 123
  const CLOSE: Byte := 125

  datatype ScopeSegment = Literal(text: Bytes) | AnySegment

  datatype Scope = All | Prefix(prefix: seq<ScopeSegment>) | OneRoute(verb: Method, segments: seq<ScopeSegment>)

  predicate IsCapture(value: Bytes) {
    value != [] && value[0] == OPEN && value[|value| - 1] == CLOSE
  }

  /** A segment as it is written in a template. */
  function Written(segment: Segment): Bytes {
    match segment
    case Static(value) => value
    case Capture(name) => [OPEN] + name + [CLOSE]
  }

  /** A literal without braces, or a name in braces. */
  predicate SegmentOk(segment: Segment) {
    match segment
    case Static(value) => OPEN !in value && CLOSE !in value
    case Capture(name) => name != []
  }

  /** One segment of a template; `None` where parsing panics. */
  function ParseSegment(value: Bytes): (segment: Option<Segment>)
    ensures segment.Some? ==> SegmentOk(segment.value) && Written(segment.value) == value
  {
    if IsCapture(value) then
      if |value| > 2 then Some(Capture(value[1..|value| - 1])) else None
    else if OPEN in value || CLOSE in value then None
    else Some(Static(value))
  }

  lemma WrittenParses(segment: Segment)
    requires SegmentOk(segment)
    ensures ParseSegment(Written(segment)) == Some(segment)
  {
    if segment.Capture? {
      var value := Written(segment);
      assert value[1..|value| - 1] == segment.name;
    }
  }

  function ParseSegments(values: seq<Bytes>): (segments: Option<seq<Segment>>)
    ensures segments.Some? ==> |segments.value| == |values|
    ensures segments.Some? ==> forall k :: 0 <= k < |values| ==> ParseSegment(values[k]) == Some(segments.value[k])
    ensures segments.None? ==> exists k :: 0 <= k < |values| && ParseSegment(values[k]).None?
  {
    if values == [] then Some([])
    else
      match (ParseSegment(values[0]), ParseSegments(values[1..]))
      case (Some(first), Some(rest)) => Some([first] + rest)
      case _ => None
  }

  /** `parse_template` */
  function ParseTemplate(path: Bytes): (segments: Option<seq<Segment>>)
    ensures segments.Some? ==> |segments.value| == |Split(path)|
  {
    ParseSegments(Split(path))
  }

  /**
    The segments are those that, written out, give the parts of the path one by
    one; and parsing panics exactly when there is no such list of segments.
   */
  lemma TemplateExactly(path: Bytes, segments: seq<Segment>)
    ensures ParseTemplate(path) == Some(segments) <==>
      && |segments| == |Split(path)|
      && forall k :: 0 <= k < |segments| ==> SegmentOk(segments[k]) && Written(segments[k]) == Split(path)[k]
  {
    var values := Split(path);
    hide Split;
    if ParseTemplate(path) == Some(segments) {
      forall k | 0 <= k < |segments|
        ensures SegmentOk(segments[k]) && Written(segments[k]) == values[k]
      {
        assert ParseSegment(values[k]) == Some(segments[k]);
      }
    }
    if |segments| == |values| {
      if forall k :: 0 <= k < |segments| ==> SegmentOk(segments[k]) && Written(segments[k]) == values[k] {
        WrittenPartsParse(segments, values);
      }
    }
  }

  lemma WrittenPartsParse(segments: seq<Segment>, values: seq<Bytes>)
    requires |segments| == |values|
    requires forall k :: 0 <= k < |segments| ==> SegmentOk(segments[k]) && Written(segments[k]) == values[k]
    ensures ParseSegments(values) == Some(segments)
  {
    forall k | 0 <= k < |values|
      ensures ParseSegment(values[k]) == Some(segments[k])
    {
      WrittenParses(segments[k]);
    }
    assert ParseSegments(values).Some? && ParseSegments(values).value == segments;
  }

  function ParseScopeSegment(value: Bytes): Option<ScopeSegment> {
    if IsCapture(value) then
      if |value| > 2 then Some(AnySegment) else None
    else if OPEN in value || CLOSE in value then None
    else Some(Literal(value))
  }

  function ParseScopeSegments(values: seq<Bytes>): (segments: Option<seq<ScopeSegment>>)
    ensures segments.Some? ==> |segments.value| == |values|
    ensures segments.Some? ==> forall k :: 0 <= k < |values| ==> ParseScopeSegment(values[k]) == Some(segments.value[k])
    ensures segments.None? ==> exists k :: 0 <= k < |values| && ParseScopeSegment(values[k]).None?
  {
    if values == [] then Some([])
    else
      match (ParseScopeSegment(values[0]), ParseScopeSegments(values[1..]))
      case (Some(first), Some(rest)) => Some([first] + rest)
      case _ => None
  }

  /** `Scope::parse` */
  function ParseScope(pattern: Bytes): Option<seq<ScopeSegment>> {
    ParseScopeSegments(Split(pattern))
  }

  /** The scope segment for a template segment. */
  function ScopeOf(segment: Segment): ScopeSegment {
    match segment
    case Static(value) => Literal(value)
    case Capture(_) => AnySegment
  }

  /** A scope pattern is refused exactly when the same route template is. */
  lemma ScopeAndTemplateAgree(pattern: Bytes)
    ensures ParseScope(pattern).Some? <==> ParseTemplate(pattern).Some?
    ensures ParseScope(pattern).Some? ==> |ParseScope(pattern).value| == |ParseTemplate(pattern).value|
    ensures ParseScope(pattern).Some? ==> forall k :: 0 <= k < |ParseScope(pattern).value| ==>
      ParseScope(pattern).value[k] == ScopeOf(ParseTemplate(pattern).value[k])
  {
  }

  /** The segment has a `%` and, decoded, is the literal. */
  predicate DecodedEquals(segment: Bytes, literal: Bytes) {
    PERCENT in segment && Decode(segment) == Success(literal)
  }

  predicate SegmentMatches(segment: ScopeSegment, value: Bytes) {
    match segment
    case AnySegment => true
    case Literal(text) => value == text || DecodedEquals(value, text)
  }

  /** `decoded_equals` */
  method MatchDecoded(segment: Bytes, literal: Bytes) returns (equal: bool)
    ensures equal == DecodedEquals(segment, literal)
  {
    if PERCENT !in segment {
      return false;
    }
    var decoded := PercentDecode(segment);
    return decoded == Success(literal);
  }

  method MatchSegment(segment: ScopeSegment, value: Bytes) returns (matches: bool)
    ensures matches == SegmentMatches(segment, value)
  {
    match segment
    case AnySegment => matches := true;
    case Literal(text) =>
      matches := value == text;
      if !matches {
        matches := MatchDecoded(value, text);
      }
  }

  ghost predicate SegmentsMatch(pattern: seq<ScopeSegment>, values: seq<Bytes>, exact: bool) {
    && |pattern| <= |values|
    && (forall k :: 0 <= k < |pattern| ==> SegmentMatches(pattern[k], values[k]))
    && (exact ==> |pattern| == |values|)
  }

  /** One step of the walk: the next part is the next segment. */
  lemma StepsThroughSegments(path: Bytes, before: nat, after: nat, part: Option<Part>, k: nat)
    requires before <= |path| && after <= |path| && part == NextPart(path, before)
    requires Parts(path, before) == (if part.Some? then [part.value] else []) + Parts(path, after)
    requires k <= |Split(path)| && Values(Parts(path, before)) == Split(path)[k..]
    ensures part.None? <==> k == |Split(path)|
    ensures part.Some? ==>
      && part.value.value == Split(path)[k]
      && Values(Parts(path, after)) == Split(path)[k + 1..]
  {
  }

  /** `segments_match`: walks the path with the router's own splitter. */
  method MatchSegments(pattern: seq<ScopeSegment>, path: Bytes, exact: bool) returns (matches: bool)
    ensures matches == SegmentsMatch(pattern, Split(path), exact)
  {
    ghost var values := Split(path);
    assert values[0..] == values;
    var parts := new PathParts(path);
    hide Parts, Values, Split, SegmentMatches, NextPart;
    for k := 0 to |pattern|
      invariant fresh(parts) && parts.path == path && parts.Valid()
      invariant k <= |values| && Values(Parts(path, parts.next)) == values[k..]
      invariant forall j :: 0 <= j < k ==> SegmentMatches(pattern[j], values[j])
    {
      ghost var before := parts.next;
      var part := parts.Next();
      StepsThroughSegments(path, before, parts.next, part, k);
      if part.None? {
        return false;
      }
      var matched := MatchSegment(pattern[k], part.value.value);
      if !matched {
        return false;
      }
    }
    if exact {
      ghost var before := parts.next;
      var rest := parts.Next();
      StepsThroughSegments(path, before, parts.next, rest, |pattern|);
      return rest.None?;
    }
    return true;
  }

  ghost predicate ScopeMatches(scope: Scope, m: Method, path: Bytes) {
    match scope
    case All => true
    case Prefix(segments) => SegmentsMatch(segments, Split(path), false)
    case OneRoute(verb, segments) =>
      (verb == m || (verb == GET && m == HEAD)) && SegmentsMatch(segments, Split(path), true)
  }

  method MatchScope(scope: Scope, m: Method, path: Bytes) returns (matches: bool)
    ensures matches == ScopeMatches(scope, m, path)
  {
    match scope {
      case All => matches := true;
      case Prefix(segments) => matches := MatchSegments(segments, path, false);
      case OneRoute(verb, segments) =>
        if verb == m || (verb == GET && m == HEAD) {
          matches := MatchSegments(segments, path, true);
        } else {
          matches := false;
        }
    }
  }

  /** A literal is matched by itself and by its percent-encodings only. */
  lemma SegmentMatchesExactly(segment: ScopeSegment, value: Bytes)
    ensures SegmentMatches(segment, value) <==>
      match segment
      case AnySegment => true
      case Literal(text) => value == text || (PERCENT in value && Writes(value, text) && ValidUtf8(text))
  {
    if segment.Literal? {
      DecodingUndoesWriting(value, segment.text);
    }
  }

  /**
    What a scope matches: the segments of its pattern come first in the path, each
    literal as itself or percent-encoded; for a route nothing comes after them and
    the method is its own, or `HEAD` for `GET`.
   */
  lemma ScopeMatchesExactly(scope: Scope, m: Method, path: Bytes)
    ensures
      var values := Split(path);
      var pattern := match scope
        case All => []
        case Prefix(prefix) => prefix
        case OneRoute(_, segments) => segments;
      ScopeMatches(scope, m, path) <==>
        && |pattern| <= |values|
        && (forall k :: 0 <= k < |pattern| && pattern[k].Literal? ==>
              || values[k] == pattern[k].text
              || (PERCENT in values[k] && Writes(values[k], pattern[k].text) && ValidUtf8(pattern[k].text)))
        && (scope.OneRoute? ==> |pattern| == |values| && (m == scope.verb || (m == HEAD && scope.verb == GET)))
  {
    hide Split, Writes, ValidUtf8, SegmentMatches;
    forall segment, value
      ensures SegmentMatches(segment, value) <==>
        match segment
        case AnySegment => true
        case Literal(text) => value == text || (PERCENT in value && Writes(value, text) && ValidUtf8(text))
    {
      SegmentMatchesExactly(segment, value);
    }
  }

  // ---- The chain ----

  datatype Request = Request(verb: Method, path: Bytes)

  /** What a layer does with a request: answer it, or hand it on, perhaps changed. */
  datatype Action = Stop | Pass(request: Request)

  datatype ScopedLayer = ScopedLayer(scope: Scope, layer: Request -> Action)

  /** The layers that ran, in order, and what was dispatched in the end, if anything. */
  datatype Outcome = Outcome(ran: seq<nat>, dispatched: Option<Request>)

  /** What should happen from layer `index` on, one layer at a time. */
  ghost function Chain(layers: seq<ScopedLayer>, index: nat, request: Request): Outcome
    requires index <= |layers|
    decreases |layers| - index
  {
    if index == |layers| then Outcome([], Some(request))
    else if !ScopeMatches(layers[index].scope, request.verb, request.path) then Chain(layers, index + 1, request)
    else
      match layers[index].layer(request)
      case Stop => Outcome([index], None)
      case Pass(passed) =>
        var rest := Chain(layers, index + 1, passed);
        rest.(ran := [index] + rest.ran)
  }

  /** `Next::run`: skips to the next layer whose scope covers the request. */
  method Run(layers: seq<ScopedLayer>, start: nat, request: Request) returns (outcome: Outcome)
    requires start <= |layers|
    ensures outcome == Chain(layers, start, request)
    decreases |layers| - start
  {
    var index := start;
    while index < |layers|
      invariant start <= index <= |layers|
      invariant Chain(layers, start, request) == Chain(layers, index, request)
    {
      var covers := MatchScope(layers[index].scope, request.verb, request.path);
      if covers {
        match layers[index].layer(request) {
          case Stop => return Outcome([index], None);
          case Pass(passed) =>
            var rest := Run(layers, index + 1, passed);
            return rest.(ran := [index] + rest.ran);
        }
      }
      index := index + 1;
    }
    return Outcome([], Some(request));
  }

  /** The layers of `ran` that come before `l`. */
  ghost function Before(ran: seq<nat>, l: nat): seq<nat> {
    if ran == [] || ran[0] >= l then [] else [ran[0]] + Before(ran[1..], l)
  }

  /** What is left of a request after exactly these layers had it, each given what the one before passed on. */
  ghost function After(layers: seq<ScopedLayer>, ran: seq<nat>, request: Request): Option<Request> {
    if ran == [] then Some(request)
    else if ran[0] >= |layers| then None
    else
      match layers[ran[0]].layer(request)
      case Stop => None
      case Pass(passed) => After(layers, ran[1..], passed)
  }

  /**
    A layer runs exactly when those before it that ran passed a request on and its
    scope matches that one; and that request is dispatched which the last passed on.
   */
  lemma {:induction false} ChainExactly(layers: seq<ScopedLayer>, index: nat, request: Request)
    requires index <= |layers|
    ensures var outcome := Chain(layers, index, request);
      && (forall k :: 0 <= k < |outcome.ran| ==> index <= outcome.ran[k] < |layers|)
      && (forall j, k :: 0 <= j < k < |outcome.ran| ==> outcome.ran[j] < outcome.ran[k])
      && outcome.dispatched == After(layers, outcome.ran, request)
      && forall l: nat :: index <= l < |layers| ==> (
             l in outcome.ran <==>
               var given := After(layers, Before(outcome.ran, l), request);
               given.Some? && ScopeMatches(layers[l].scope, given.value.verb, given.value.path))
    decreases |layers| - index
  {
    if index < |layers| {
      var outcome := Chain(layers, index, request);
      if !ScopeMatches(layers[index].scope, request.verb, request.path) {
        ChainExactly(layers, index + 1, request);
        assert Before(outcome.ran, index) == [];
      } else {
        match layers[index].layer(request) {
          case Stop =>
          case Pass(passed) =>
            ChainExactly(layers, index + 1, passed);
            hide After, Before, ScopeMatches;
            FirstRan(layers, index, Chain(layers, index + 1, passed).ran, request);
        }
      }
    }
  }

  lemma FirstRan(layers: seq<ScopedLayer>, index: nat, rest: seq<nat>, request: Request)
    requires index < |layers| && layers[index].layer(request).Pass?
    ensures
      var passed := layers[index].layer(request).request;
      && Before([index] + rest, index) == [] && After(layers, [], request) == Some(request)
      && After(layers, [index] + rest, request) == After(layers, rest, passed)
      && forall l: nat :: index < l ==>
           After(layers, Before([index] + rest, l), request) == After(layers, Before(rest, l), passed)
  {
    var ran := [index] + rest;
    assert ran[1..] == rest;
    forall l: nat | index < l
      ensures After(layers, Before(ran, l), request)
           == After(layers, Before(rest, l), layers[index].layer(request).request)
    {
      assert Before(ran, l)[1..] == Before(rest, l);
    }
  }

  /** A layer with a literal that a segment without `%` differs from does not run for that path. */
  lemma OtherLiteralDoesNotRun(layers: seq<ScopedLayer>, request: Request, l: nat, pattern: seq<ScopeSegment>, k: nat)
    requires l < |layers| && k < |pattern| && pattern[k].Literal?
    requires layers[l].scope == Prefix(pattern) || (layers[l].scope.OneRoute? && layers[l].scope.segments == pattern)
    requires
      var given := After(layers, Before(Chain(layers, 0, request).ran, l), request);
      given.Some? ==>
        var values := Split(given.value.path);
        k >= |values| || (PERCENT !in values[k] && values[k] != pattern[k].text)
    ensures l !in Chain(layers, 0, request).ran
  {
    ChainExactly(layers, 0, request);
    var given := After(layers, Before(Chain(layers, 0, request).ran, l), request);
    hide Chain, After, Before, Split, ScopeMatches;
    if given.Some? {
      ScopeMatchesExactly(layers[l].scope, given.value.verb, given.value.path);
    }
  }

  /** The layers from `index` on that cover the request, in order. */
  ghost function Covering(layers: seq<ScopedLayer>, index: nat, request: Request): seq<nat>
    requires index <= |layers|
    decreases |layers| - index
  {
    if index == |layers| then []
    else
      var first := if ScopeMatches(layers[index].scope, request.verb, request.path) then [index] else [];
      first + Covering(layers, index + 1, request)
  }

  /** From layer `from` on, no layer changes the method or the path of a request it passes on. */
  ghost predicate KeepTarget(layers: seq<ScopedLayer>, from: nat) {
    forall i, r :: from <= i < |layers| ==>
      match layers[i].layer(r)
      case Stop => true
      case Pass(passed) => passed == r
  }

  /** Exactly the layers that cover the request run, in order, up to one that answers. */
  lemma {:induction false} CoveringLayersRun(layers: seq<ScopedLayer>, index: nat, request: Request)
    requires index <= |layers| && KeepTarget(layers, index)
    ensures Chain(layers, index, request).ran <= Covering(layers, index, request)
    ensures Chain(layers, index, request).dispatched.Some? ==>
      && Chain(layers, index, request).ran == Covering(layers, index, request)
      && Chain(layers, index, request).dispatched.value == request
    decreases |layers| - index
  {
    if index < |layers| {
      CoveringLayersRun(layers, index + 1, request);
      var rest := Covering(layers, index + 1, request);
      assert [] + rest == rest;
    }
  }

  /** The request as it is when layer `from` is next: from there on the chain is that of the remaining layers. */
  lemma {:induction false} ChainReaches(layers: seq<ScopedLayer>, start: nat, from: nat, request: Request)
    returns (reached: Request)
    requires start <= from <= |layers| && Chain(layers, start, request).dispatched.Some?
    ensures Chain(layers, from, reached).dispatched == Chain(layers, start, request).dispatched
    ensures forall l :: l in Chain(layers, from, reached).ran ==> l in Chain(layers, start, request).ran
    decreases from - start
  {
    if start == from {
      reached := request;
    } else if !ScopeMatches(layers[start].scope, request.verb, request.path) {
      reached := ChainReaches(layers, start + 1, from, request);
    } else {
      reached := ChainReaches(layers, start + 1, from, layers[start].layer(request).request);
    }
  }

  /** `has_matching_layer` */
  ghost predicate HasMatchingLayer(layers: seq<ScopedLayer>, request: Request) {
    exists i :: 0 <= i < |layers| && ScopeMatches(layers[i].scope, request.verb, request.path)
  }

  /** A request that no layer covers may skip the chain: the outcome is the same, whatever the layers do. */
  lemma {:induction false} SkippingTheChain(layers: seq<ScopedLayer>, index: nat, request: Request)
    requires index <= |layers| && !HasMatchingLayer(layers, request)
    ensures Chain(layers, index, request) == Outcome([], Some(request))
    decreases |layers| - index
  {
    if index < |layers| {
      SkippingTheChain(layers, index + 1, request);
    }
  }

  method AnyLayerMatches(layers: seq<ScopedLayer>, request: Request) returns (any: bool)
    ensures any == HasMatchingLayer(layers, request)
  {
    for k := 0 to |layers|
      invariant forall i :: 0 <= i < k ==> !ScopeMatches(layers[i].scope, request.verb, request.path)
    {
      var covers := MatchScope(layers[k].scope, request.verb, request.path);
      if covers {
        return true;
      }
    }
    return false;
  }

  /** `prepare`: straight to dispatch when no layer covers the request, which changes nothing. */
  method Prepare(layers: seq<ScopedLayer>, request: Request) returns (outcome: Outcome)
    ensures outcome == Chain(layers, 0, request)
  {
    var any := AnyLayerMatches(layers, request);
    if !any {
      SkippingTheChain(layers, 0, request);
      return Outcome([], Some(request));
    }
    outcome := Run(layers, 0, request);
  }
}
