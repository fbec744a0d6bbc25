/** `DynamicRouteTrie`: an index-based trie of path patterns, searched with backtracking. */
module Trie {
  import opened Wrappers
  import opened Codec
  import opened Path
  import opened Routes

  const MAX_CAPTURE_PARAMS: nat := 8
  const U32: nat := 0x1_0000_0000

  datatype Segment = Static(value: Bytes) | Capture(name: Bytes)

  /** A segment of a pattern, without the name of a capture. */
  datatype Shape = Lit(value: Bytes) | Any

  type Pattern = seq<Shape>

  function ShapeOf(s: Segment): Shape {
    match s
    case Static(value) => Lit(value)
    case Capture(_) => Any
  }

  function ShapesOf(segments: seq<Segment>): (p: Pattern)
    ensures |p| == |segments|
    ensures forall i :: 0 <= i < |p| ==> p[i] == ShapeOf(segments[i])
  {
    seq(|segments|, i requires 0 <= i < |segments| => ShapeOf(segments[i]))
  }

  function CountAny(p: Pattern): nat {
    if p == [] then 0 else CountAny(p[..|p| - 1]) + if p[|p| - 1].Any? then 1 else 0
  }

  // ---- Captures ----

  datatype Range = Range(start: nat, end: nat)

  /** Byte ranges packed into 64 bits each, the start in the upper half. */
  datatype CaptureSet = CaptureSet(packed: seq<nat>, count: nat)

  const NO_CAPTURES: CaptureSet := CaptureSet([0, 0, 0, 0, 0, 0, 0, 0], 0)

  function RangeAt(c: CaptureSet, index: nat): Option<Range>
    requires |c.packed| == MAX_CAPTURE_PARAMS && c.count <= MAX_CAPTURE_PARAMS
  {
    if index < c.count then Some(Range(c.packed[index] / U32, c.packed[index] % U32)) else None
  }

  function WithCapture(c: CaptureSet, index: nat, range: Range): CaptureSet
    requires |c.packed| == MAX_CAPTURE_PARAMS && index < MAX_CAPTURE_PARAMS
  {
    CaptureSet(c.packed[index := (range.start % U32) * U32 + range.end % U32], index + 1)
  }

  ghost predicate CapturesOk(c: CaptureSet) {
    |c.packed| == MAX_CAPTURE_PARAMS && c.count <= MAX_CAPTURE_PARAMS
  }

  ghost function Ranges(c: CaptureSet): (ranges: seq<Range>)
    requires CapturesOk(c)
    ensures |ranges| == c.count
  {
    seq(c.count, i requires 0 <= i < c.count => RangeAt(c, i).value)
  }

  /** Packing loses nothing as long as positions fit in 32 bits. */
  lemma CaptureIsAppended(c: CaptureSet, range: Range)
    requires CapturesOk(c) && c.count < MAX_CAPTURE_PARAMS
    requires range.start < U32 && range.end < U32
    ensures CapturesOk(WithCapture(c, c.count, range))
    ensures Ranges(WithCapture(c, c.count, range)) == Ranges(c) + [range]
  {
  }

  // ---- Nodes ----

  datatype Node = Node(statics: map<Bytes, nat>, capture: Option<nat>, routes: RouteSet)

  const NEW_NODE: Node := Node(map[], None, EMPTY)

  function Child(node: Node, s: Shape): Option<nat> {
    match s
    case Lit(value) => if value in node.statics then Some(node.statics[value]) else None
    case Any => node.capture
  }

  /** Node `i` stands for the pattern `paths[i]`, and no two nodes for the same one. */
  ghost predicate TrieOk(nodes: seq<Node>, paths: seq<Pattern>) {
    && |nodes| == |paths| && |nodes| >= 1 && paths[0] == []
    && (forall i :: 0 <= i < |nodes| ==> RouteSetOk(nodes[i].routes))
    && (forall i, s :: 0 <= i < |nodes| && Child(nodes[i], s).Some? ==> ChildOk(nodes, paths, i, s))
    && (forall j :: 0 < j < |nodes| ==> HasParent(nodes, paths, j))
    && (forall i, j :: 0 <= i < j < |paths| ==> paths[i] != paths[j])
  }

  ghost predicate ChildOk(nodes: seq<Node>, paths: seq<Pattern>, i: nat, s: Shape)
    requires |nodes| == |paths| && i < |nodes| && Child(nodes[i], s).Some?
  {
    var j := Child(nodes[i], s).value;
    i < j < |nodes| && paths[j] == paths[i] + [s]
  }

  ghost predicate HasParent(nodes: seq<Node>, paths: seq<Pattern>, j: nat)
    requires |nodes| == |paths| && j < |nodes|
  {
    exists i, s :: 0 <= i < j && Child(nodes[i], s) == Some(j) && paths[j] == paths[i] + [s]
  }

  ghost predicate Registered(nodes: seq<Node>, n: nat) {
    n < |nodes| && !IsEmpty(nodes[n].routes)
  }

  /** Every prefix of a node's pattern has a node too. */
  lemma {:induction false} PrefixHasNode(nodes: seq<Node>, paths: seq<Pattern>, n: nat, k: nat) returns (m: nat)
    requires TrieOk(nodes, paths) && n < |nodes| && k <= |paths[n]|
    ensures m < |nodes| && paths[m] == paths[n][..k]
  {
    if k == |paths[n]| {
      m := n;
    } else {
      assert n != 0;
      assert HasParent(nodes, paths, n);
      var i, s :| 0 <= i < n && Child(nodes[i], s) == Some(n) && paths[n] == paths[i] + [s];
      assert paths[n][..k] == paths[i][..k];
      m := PrefixHasNode(nodes, paths, i, k);
    }
  }

  /** A node below node `i` is below its child for the next shape. */
  lemma ChildExists(nodes: seq<Node>, paths: seq<Pattern>, i: nat, n: nat)
    requires TrieOk(nodes, paths) && i < |nodes| && n < |nodes|
    requires |paths[i]| < |paths[n]| && paths[n][..|paths[i]|] == paths[i]
    ensures var s := paths[n][|paths[i]|];
      Child(nodes[i], s).Some? && ChildOk(nodes, paths, i, s)
  {
    var s := paths[n][|paths[i]|];
    var m := PrefixHasNode(nodes, paths, n, |paths[i]| + 1);
    assert paths[m] == paths[i] + [s];
    assert m != 0;
    assert HasParent(nodes, paths, m);
    var p, t :| 0 <= p < m && Child(nodes[p], t) == Some(m) && paths[m] == paths[p] + [t];
    assert paths[p] == paths[m][..|paths[m]| - 1] == paths[i];
    assert t == paths[m][|paths[m]| - 1] == s;
  }

  // ---- Matching ----

  /** `p` matches the parts: literals are equal, captures are well escaped. */
  ghost predicate Matches(p: Pattern, parts: seq<Part>) {
    && |p| == |parts|
    && forall k :: 0 <= k < |p| ==> MatchesOne(p[k], parts[k])
  }

  predicate MatchesOne(s: Shape, part: Part) {
    match s
    case Lit(value) => value == part.value
    case Any => WellEscaped(part.value)
  }

  /** The ranges of the captured parts, in order. */
  ghost function Captured(p: Pattern, parts: seq<Part>): seq<Range>
    requires |p| == |parts|
  {
    if p == [] then []
    else (if p[0].Any? then [Range(parts[0].start, parts[0].end)] else []) + Captured(p[1..], parts[1..])
  }

  /** At the first difference, `p` has a literal and `q` a capture. */
  ghost predicate StaticFirst(p: Pattern, q: Pattern) {
    exists d :: 0 <= d < |p| && d < |q| && p[..d] == q[..d] && p[d].Lit? && q[d].Any?
  }

  /** What the search below node `i` is for. */
  ghost predicate Candidate(nodes: seq<Node>, paths: seq<Pattern>, i: nat, parts: seq<Part>, n: nat)
    requires |nodes| == |paths| && i < |nodes|
  {
    && Registered(nodes, n)
    && |paths[i]| <= |paths[n]| && paths[n][..|paths[i]|] == paths[i]
    && Matches(paths[n][|paths[i]|..], parts)
  }

  /** `find_node`: static branches first, then the capture branch. */
  function FindNode(nodes: seq<Node>, i: nat, path: Bytes, next: nat, captures: CaptureSet): Option<(nat, CaptureSet)>
    requires forall k, s :: 0 <= k < |nodes| && Child(nodes[k], s).Some? ==> Child(nodes[k], s).value < |nodes|
    requires i < |nodes| && next <= |path| && |captures.packed| == MAX_CAPTURE_PARAMS
    decreases |path| - next
  {
    match NextPart(path, next)
    case None => if !IsEmpty(nodes[i].routes) then Some((i, captures)) else None
    case Some(part) =>
      var child := Child(nodes[i], Lit(part.value));
      var found := if child.Some? then FindNode(nodes, child.value, path, part.end, captures) else None;
      if found.Some? then found
      else if captures.count < MAX_CAPTURE_PARAMS && WellEscaped(part.value) && Child(nodes[i], Any).Some? then
        var captured := WithCapture(captures, captures.count, Range(part.start, part.end));
        FindNode(nodes, Child(nodes[i], Any).value, path, part.end, captured)
      else None
  }

  lemma ChildrenInBounds(nodes: seq<Node>, paths: seq<Pattern>)
    requires TrieOk(nodes, paths)
    ensures forall k, s :: 0 <= k < |nodes| && Child(nodes[k], s).Some? ==> Child(nodes[k], s).value < |nodes|
  {
  }

  /** Registration refuses patterns with more captures than a search can hold. */
  ghost predicate CapturesLimited(nodes: seq<Node>, paths: seq<Pattern>) {
    forall n: nat :: Registered(nodes, n) && n < |paths| ==> CountAny(paths[n]) <= MAX_CAPTURE_PARAMS
  }

  /** What a search may answer. */
  ghost predicate RightAnswer(nodes: seq<Node>, paths: seq<Pattern>, i: nat, parts: seq<Part>, before: seq<Range>,
                              answer: Option<(nat, CaptureSet)>)
    requires |nodes| == |paths| && i < |nodes|
  {
    match answer
    case None => forall n: nat :: !Candidate(nodes, paths, i, parts, n)
    case Some((n, captures)) =>
      && Candidate(nodes, paths, i, parts, n)
      && CapturesOk(captures)
      && Ranges(captures) == before + Captured(paths[n][|paths[i]|..], parts)
      && forall m: nat :: Candidate(nodes, paths, i, parts, m) && m != n ==> StaticFirst(paths[n], paths[m])
  }

  /** A candidate below `i` whose next shape is `s` is a candidate below that child, and conversely. */
  lemma CandidateBelow(nodes: seq<Node>, paths: seq<Pattern>, i: nat, s: Shape, j: nat, parts: seq<Part>, n: nat)
    requires |nodes| == |paths| && i < |nodes| && j < |nodes| && paths[j] == paths[i] + [s] && parts != []
    ensures Candidate(nodes, paths, j, parts[1..], n) && MatchesOne(s, parts[0]) ==>
      && Candidate(nodes, paths, i, parts, n)
      && paths[n][|paths[i]|] == s
      && Captured(paths[n][|paths[i]|..], parts)
         == (if s.Any? then [Range(parts[0].start, parts[0].end)] else [])
            + Captured(paths[n][|paths[j]|..], parts[1..])
    ensures Candidate(nodes, paths, i, parts, n) && paths[n][|paths[i]|] == s ==>
      Candidate(nodes, paths, j, parts[1..], n) && MatchesOne(s, parts[0])
  {
  }

  lemma CountAnyPrefix(p: Pattern, k: nat)
    requires k <= |p|
    ensures CountAny(p[..k]) <= CountAny(p)
  {
    if k < |p| {
      CountAnyPrefix(p[..|p| - 1], k);
      assert p[..|p| - 1][..k] == p[..k];
    } else {
      assert p[..k] == p;
    }
  }

  lemma CountAnyAppend(p: Pattern, s: Shape)
    ensures CountAny(p + [s]) == CountAny(p) + if s.Any? then 1 else 0
  {
  }

  /** The search below a node finds the preferred candidate, with the ranges of its captures. */
  lemma {:induction false} FindNodeIsRight(nodes: seq<Node>, paths: seq<Pattern>, i: nat, path: Bytes, next: nat,
                                           captures: CaptureSet)
    requires TrieOk(nodes, paths) && CapturesLimited(nodes, paths) && |path| < U32
    requires i < |nodes| && next <= |path|
    requires CapturesOk(captures) && captures.count == CountAny(paths[i])
    ensures forall k, s :: 0 <= k < |nodes| && Child(nodes[k], s).Some? ==> Child(nodes[k], s).value < |nodes|
    ensures RightAnswer(nodes, paths, i, Parts(path, next), Ranges(captures), FindNode(nodes, i, path, next, captures))
    decreases |path| - next
  {
    ChildrenInBounds(nodes, paths);
    var parts := Parts(path, next);
    match NextPart(path, next)
    case None => LeafIsRight(nodes, paths, i, captures);
    case Some(part) =>
      assert parts[1..] == Parts(path, part.end);
      var found := None;
      var child := Child(nodes[i], Lit(part.value));
      if child.Some? {
        assert ChildOk(nodes, paths, i, Lit(part.value));
        CountAnyAppend(paths[i], Lit(part.value));
        FindNodeIsRight(nodes, paths, child.value, path, part.end, captures);
        found := FindNode(nodes, child.value, path, part.end, captures);
      }
      if found.Some? {
        StaticBranchIsRight(nodes, paths, i, child.value, parts, Ranges(captures), found);
      } else {
        var capture := Child(nodes[i], Any);
        if captures.count < MAX_CAPTURE_PARAMS && WellEscaped(part.value) && capture.Some? {
          var range := Range(part.start, part.end);
          CaptureIsAppended(captures, range);
          var captured := WithCapture(captures, captures.count, range);
          assert ChildOk(nodes, paths, i, Any);
          CountAnyAppend(paths[i], Any);
          FindNodeIsRight(nodes, paths, capture.value, path, part.end, captured);
          CaptureBranchIsRight(nodes, paths, i, capture.value, parts, Ranges(captures), child,
                               FindNode(nodes, capture.value, path, part.end, captured));
        } else {
          NothingBelow(nodes, paths, i, parts, child, captures);
        }
      }
  }

  lemma LeafIsRight(nodes: seq<Node>, paths: seq<Pattern>, i: nat, captures: CaptureSet)
    requires TrieOk(nodes, paths) && i < |nodes| && CapturesOk(captures)
    ensures RightAnswer(nodes, paths, i, [], Ranges(captures),
                        if !IsEmpty(nodes[i].routes) then Some((i, captures)) else None)
  {
  }

  lemma StaticBranchIsRight(nodes: seq<Node>, paths: seq<Pattern>, i: nat, j: nat, parts: seq<Part>,
                            before: seq<Range>, found: Option<(nat, CaptureSet)>)
    requires TrieOk(nodes, paths) && i < |nodes| && j < |nodes| && parts != []
    requires paths[j] == paths[i] + [Lit(parts[0].value)]
    requires found.Some? && RightAnswer(nodes, paths, j, parts[1..], before, found)
    ensures RightAnswer(nodes, paths, i, parts, before, found)
  {
  }

  /** Without a static match below, every candidate has a capture next. */
  lemma OnlyCaptures(nodes: seq<Node>, paths: seq<Pattern>, i: nat, parts: seq<Part>, child: Option<nat>, n: nat)
    requires TrieOk(nodes, paths) && i < |nodes| && parts != [] && child == Child(nodes[i], Lit(parts[0].value))
    requires child.Some? ==>
      child.value < |nodes| && forall m: nat :: !Candidate(nodes, paths, child.value, parts[1..], m)
    requires Candidate(nodes, paths, i, parts, n)
    ensures paths[n][|paths[i]|] == Any && Child(nodes[i], Any).Some? && ChildOk(nodes, paths, i, Any)
    ensures WellEscaped(parts[0].value)
  {
    ChildExists(nodes, paths, i, n);
    var s := paths[n][|paths[i]|];
    assert MatchesOne(paths[n][|paths[i]|..][0], parts[0]);
    CandidateBelow(nodes, paths, i, s, Child(nodes[i], s).value, parts, n);
  }

  lemma CaptureBranchIsRight(nodes: seq<Node>, paths: seq<Pattern>, i: nat, j: nat, parts: seq<Part>,
                             before: seq<Range>, child: Option<nat>, found: Option<(nat, CaptureSet)>)
    requires TrieOk(nodes, paths) && i < |nodes| && parts != [] && child == Child(nodes[i], Lit(parts[0].value))
    requires child.Some? ==>
      child.value < |nodes| && forall m: nat :: !Candidate(nodes, paths, child.value, parts[1..], m)
    requires Child(nodes[i], Any) == Some(j) && j < |nodes| && paths[j] == paths[i] + [Any]
    requires WellEscaped(parts[0].value)
    requires RightAnswer(nodes, paths, j, parts[1..], before + [Range(parts[0].start, parts[0].end)], found)
    ensures RightAnswer(nodes, paths, i, parts, before, found)
  {
    forall n: nat | Candidate(nodes, paths, i, parts, n)
      ensures Candidate(nodes, paths, j, parts[1..], n)
    {
      OnlyCaptures(nodes, paths, i, parts, child, n);
      CandidateBelow(nodes, paths, i, Any, j, parts, n);
    }
    if found.Some? {
      var n := found.value.0;
      CandidateBelow(nodes, paths, i, Any, j, parts, n);
      var range := [Range(parts[0].start, parts[0].end)];
      assert before + (range + Captured(paths[n][|paths[j]|..], parts[1..]))
        == before + range + Captured(paths[n][|paths[j]|..], parts[1..]);
      forall m: nat | Candidate(nodes, paths, i, parts, m) && m != n
        ensures StaticFirst(paths[n], paths[m])
      {
        assert Candidate(nodes, paths, j, parts[1..], m);
      }
    }
  }

  /** Nothing is missed when the capture branch is not taken, not even at the limit of captures. */
  lemma NothingBelow(nodes: seq<Node>, paths: seq<Pattern>, i: nat, parts: seq<Part>, child: Option<nat>,
                     captures: CaptureSet)
    requires TrieOk(nodes, paths) && CapturesLimited(nodes, paths) && i < |nodes| && parts != []
    requires child == Child(nodes[i], Lit(parts[0].value))
    requires child.Some? ==>
      child.value < |nodes| && forall m: nat :: !Candidate(nodes, paths, child.value, parts[1..], m)
    requires captures.count == CountAny(paths[i])
    requires !(captures.count < MAX_CAPTURE_PARAMS && WellEscaped(parts[0].value) && Child(nodes[i], Any).Some?)
    ensures forall n: nat :: !Candidate(nodes, paths, i, parts, n)
  {
    forall n: nat | Candidate(nodes, paths, i, parts, n)
      ensures false
    {
      OnlyCaptures(nodes, paths, i, parts, child, n);
      var k := |paths[i]|;
      assert paths[n][..k + 1] == paths[i] + [Any];
      CountAnyAppend(paths[i], Any);
      CountAnyPrefix(paths[n], k + 1);
    }
  }
}
