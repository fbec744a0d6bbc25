/** The trie as a table of patterns: insertion updates it, and a search is a linear scan of it. */
module DynamicRoutes {
  import opened Wrappers
  import opened Codec
  import opened Path
  import opened Routes
  import opened Trie

  /** Node `n` holds the routes of pattern `p`. */
  ghost predicate Holds(nodes: seq<Node>, paths: seq<Pattern>, n: nat, p: Pattern) {
    n < |nodes| && n < |paths| && !IsEmpty(nodes[n].routes) && paths[n] == p
  }

  /** The registered patterns and their routes. */
  ghost function ViewOf(nodes: seq<Node>, paths: seq<Pattern>): (view: map<Pattern, RouteSet>)
    requires TrieOk(nodes, paths)
    ensures forall p :: p in view ==> exists n: nat :: Holds(nodes, paths, n, p)
    ensures forall n: nat, p :: Holds(nodes, paths, n, p) ==> p in view && view[p] == nodes[n].routes
    ensures forall p :: p in view ==> RouteSetOk(view[p])
  {
    HeldOnce(nodes, paths);
    map p | p in Patterns(nodes, paths) :: nodes[Holder(nodes, paths, p)].routes
  }

  ghost function Patterns(nodes: seq<Node>, paths: seq<Pattern>): (patterns: set<Pattern>)
    requires |nodes| == |paths|
    ensures forall p :: p in patterns <==> exists n: nat :: Holds(nodes, paths, n, p)
  {
    assert forall n: nat, p :: Holds(nodes, paths, n, p) ==> p == paths[n];
    set n: nat | n < |nodes| && Holds(nodes, paths, n, paths[n]) :: paths[n]
  }

  ghost function Holder(nodes: seq<Node>, paths: seq<Pattern>, p: Pattern): (n: nat)
    requires exists n: nat :: Holds(nodes, paths, n, p)
    ensures Holds(nodes, paths, n, p)
  {
    var n: nat :| Holds(nodes, paths, n, p);
    n
  }

  lemma HeldOnce(nodes: seq<Node>, paths: seq<Pattern>)
    requires TrieOk(nodes, paths)
    ensures forall n: nat, m: nat, p :: Holds(nodes, paths, n, p) && Holds(nodes, paths, m, p) ==> n == m
  {
  }

  /** Views agree when the same nodes hold the same routes. */
  lemma ViewIs(nodes: seq<Node>, paths: seq<Pattern>, view: map<Pattern, RouteSet>)
    requires TrieOk(nodes, paths)
    requires forall p :: p in view ==> exists n: nat :: Holds(nodes, paths, n, p)
    requires forall n: nat, p :: Holds(nodes, paths, n, p) ==> p in view && view[p] == nodes[n].routes
    ensures ViewOf(nodes, paths) == view
  {
  }

  /** `p` is the matching pattern that prefers static over capture at the first difference. */
  ghost predicate BestMatch(patterns: set<Pattern>, p: Pattern, parts: seq<Part>) {
    && p in patterns && Matches(p, parts)
    && forall q :: q in patterns && Matches(q, parts) && q != p ==> StaticFirst(p, q)
  }

  lemma FirstDifferenceIsUnique(p: Pattern, q: Pattern, d: nat, e: nat)
    requires d < |p| && d < |q| && p[..d] == q[..d] && p[d] != q[d]
    requires e < |p| && e < |q| && p[..e] == q[..e] && p[e] != q[e]
    ensures d == e
  {
  }

  /** There is at most one. */
  lemma BestMatchIsUnique(patterns: set<Pattern>, p: Pattern, q: Pattern, parts: seq<Part>)
    requires BestMatch(patterns, p, parts) && BestMatch(patterns, q, parts)
    ensures p == q
  {
    if p != q {
      var d :| 0 <= d < |p| && d < |q| && p[..d] == q[..d] && p[d].Lit? && q[d].Any?;
      var e :| 0 <= e < |p| && e < |q| && q[..e] == p[..e] && q[e].Lit? && p[e].Any?;
      FirstDifferenceIsUnique(p, q, d, e);
    }
  }

  function FindIn(nodes: seq<Node>, path: Bytes): Option<(RouteSet, CaptureSet)>
    requires forall k, s :: 0 <= k < |nodes| && Child(nodes[k], s).Some? ==> Child(nodes[k], s).value < |nodes|
    requires nodes != []
  {
    match FindNode(nodes, 0, path, 0, NO_CAPTURES)
    case None => None
    case Some((n, captures)) => if n < |nodes| then Some((nodes[n].routes, captures)) else None
  }

  /**
    The search refines a linear scan of the patterns: it finds nothing exactly
    when none matches, and otherwise the best match, its routes and the exact
    byte range of each captured segment.
   */
  lemma FindIsLinearScan(nodes: seq<Node>, paths: seq<Pattern>, path: Bytes)
    requires TrieOk(nodes, paths) && CapturesLimited(nodes, paths) && |path| < U32
    ensures forall k, s :: 0 <= k < |nodes| && Child(nodes[k], s).Some? ==> Child(nodes[k], s).value < |nodes|
    ensures var view := ViewOf(nodes, paths);
      match FindIn(nodes, path)
      case None => forall p :: p in view ==> !Matches(p, Parts(path, 0))
      case Some((routes, captures)) =>
        && CapturesOk(captures)
        && exists p :: BestMatch(view.Keys, p, Parts(path, 0)) && routes == view[p]
             && Ranges(captures) == Captured(p, Parts(path, 0))
  {
    var view, parts := ViewOf(nodes, paths), Parts(path, 0);
    FindNodeIsRight(nodes, paths, 0, path, 0, NO_CAPTURES);
    forall n: nat | n < |nodes|
      ensures Candidate(nodes, paths, 0, parts, n) <==> Registered(nodes, n) && Matches(paths[n], parts)
    {
      assert paths[n][..0] == [] && paths[n][0..] == paths[n];
    }
    match FindNode(nodes, 0, path, 0, NO_CAPTURES)
    case None =>
      forall p | p in view
        ensures !Matches(p, parts)
      {
        var n: nat :| Holds(nodes, paths, n, p);
        assert !Candidate(nodes, paths, 0, parts, n);
      }
    case Some((n, captures)) =>
      var p := paths[n];
      assert p[0..] == p;
      assert Ranges(NO_CAPTURES) + Captured(p, parts) == Captured(p, parts);
      forall q | q in view.Keys && Matches(q, parts) && q != p
        ensures StaticFirst(p, q)
      {
        var m: nat :| Holds(nodes, paths, m, q);
        assert Candidate(nodes, paths, 0, parts, m);
      }
      assert Holds(nodes, paths, n, p);
      assert BestMatch(view.Keys, p, parts);
  }

  // ---- Insertion ----

  function WithChild(node: Node, s: Shape, j: nat): Node {
    match s
    case Lit(value) => node.(statics := node.statics[value := j])
    case Any => node.(capture := Some(j))
  }

  function WithNewChild(nodes: seq<Node>, i: nat, s: Shape): seq<Node>
    requires i < |nodes|
  {
    (nodes + [NEW_NODE])[i := WithChild(nodes[i], s, |nodes|)]
  }

  lemma NewChildChildren(nodes: seq<Node>, i: nat, s: Shape, k: nat, t: Shape)
    requires i < |nodes| && k <= |nodes|
    ensures Child(WithNewChild(nodes, i, s)[k], t) ==
      if k == |nodes| then None else if k == i && t == s then Some(|nodes|) else Child(nodes[k], t)
  {
  }

  /** Adding a node keeps the trie a trie and registers nothing. */
  lemma NewChildOk(nodes: seq<Node>, paths: seq<Pattern>, i: nat, s: Shape)
    requires TrieOk(nodes, paths) && i < |nodes| && Child(nodes[i], s).None?
    ensures TrieOk(WithNewChild(nodes, i, s), paths + [paths[i] + [s]])
    ensures ViewOf(WithNewChild(nodes, i, s), paths + [paths[i] + [s]]) == ViewOf(nodes, paths)
    ensures CapturesLimited(nodes, paths) ==> CapturesLimited(WithNewChild(nodes, i, s), paths + [paths[i] + [s]])
  {
    var nodes', paths' := WithNewChild(nodes, i, s), paths + [paths[i] + [s]];
    var n := |nodes|;
    EmptyExactly(EMPTY);
    forall m | 0 <= m < n
      ensures paths[m] != paths[i] + [s]
    {
      if paths[m] == paths[i] + [s] {
        assert paths[m][..|paths[i]|] == paths[i];
        ChildExists(nodes, paths, i, m);
      }
    }
    forall k, t | 0 <= k < |nodes'| && Child(nodes'[k], t).Some?
      ensures ChildOk(nodes', paths', k, t)
    {
      NewChildChildren(nodes, i, s, k, t);
      if !(k == i && t == s) {
        assert ChildOk(nodes, paths, k, t);
      }
    }
    forall j | 0 < j < |nodes'|
      ensures HasParent(nodes', paths', j)
    {
      if j == n {
        NewChildChildren(nodes, i, s, i, s);
      } else {
        assert HasParent(nodes, paths, j);
        var k, t :| 0 <= k < j && Child(nodes[k], t) == Some(j) && paths[j] == paths[k] + [t];
        NewChildChildren(nodes, i, s, k, t);
        assert Child(nodes'[k], t) == Some(j) && paths'[j] == paths'[k] + [t];
      }
    }
    assert forall k :: 0 <= k < n ==> nodes'[k].routes == nodes[k].routes && paths'[k] == paths[k];
    assert IsEmpty(nodes'[n].routes);
    SameRoutesSameView(nodes, paths, nodes', paths');
  }

  lemma SameRoutesSameView(nodes: seq<Node>, paths: seq<Pattern>, nodes': seq<Node>, paths': seq<Pattern>)
    requires TrieOk(nodes, paths) && TrieOk(nodes', paths')
    requires |nodes'| == |nodes| + 1 && IsEmpty(nodes'[|nodes|].routes)
    requires forall k :: 0 <= k < |nodes| ==> nodes'[k].routes == nodes[k].routes && paths'[k] == paths[k]
    ensures ViewOf(nodes', paths') == ViewOf(nodes, paths)
    ensures CapturesLimited(nodes, paths) ==> CapturesLimited(nodes', paths')
  {
    forall p | p in ViewOf(nodes, paths)
      ensures exists n: nat :: Holds(nodes', paths', n, p)
    {
      var n: nat :| Holds(nodes, paths, n, p);
      assert Holds(nodes', paths', n, p);
    }
    forall n: nat, p | Holds(nodes', paths', n, p)
      ensures Holds(nodes, paths, n, p)
    {
      assert n < |nodes|;
    }
    ViewIs(nodes', paths', ViewOf(nodes, paths));
    if CapturesLimited(nodes, paths) {
      forall n: nat | Registered(nodes', n) && n < |paths'|
        ensures CountAny(paths'[n]) <= MAX_CAPTURE_PARAMS
      {
        assert Registered(nodes, n);
      }
    }
  }

  ghost function RoutesFor(view: map<Pattern, RouteSet>, p: Pattern): (routes: RouteSet)
    requires forall p :: p in view ==> RouteSetOk(view[p])
    ensures RouteSetOk(routes)
  {
    EmptyExactly(EMPTY);
    if p in view then view[p] else EMPTY
  }

  /** Giving a node other routes changes its pattern's entry only. */
  lemma SetRoutesOk(nodes: seq<Node>, paths: seq<Pattern>, n: nat, routes: RouteSet)
    requires TrieOk(nodes, paths) && n < |nodes| && RouteSetOk(routes) && !IsEmpty(routes)
    ensures var nodes' := nodes[n := nodes[n].(routes := routes)];
      && TrieOk(nodes', paths)
      && ViewOf(nodes', paths) == ViewOf(nodes, paths)[paths[n] := routes]
      && (CapturesLimited(nodes, paths) && CountAny(paths[n]) <= MAX_CAPTURE_PARAMS ==> CapturesLimited(nodes', paths))
  {
    var nodes' := nodes[n := nodes[n].(routes := routes)];
    assert forall k, s :: 0 <= k < |nodes| ==> Child(nodes'[k], s) == Child(nodes[k], s);
    forall k, s | 0 <= k < |nodes'| && Child(nodes'[k], s).Some?
      ensures ChildOk(nodes', paths, k, s)
    {
      assert ChildOk(nodes, paths, k, s);
    }
    forall j | 0 < j < |nodes'|
      ensures HasParent(nodes', paths, j)
    {
      assert HasParent(nodes, paths, j);
      var k, t :| 0 <= k < j && Child(nodes[k], t) == Some(j) && paths[j] == paths[k] + [t];
      assert Child(nodes'[k], t) == Some(j);
    }
    var view := ViewOf(nodes, paths)[paths[n] := routes];
    forall p | p in view
      ensures exists m: nat :: Holds(nodes', paths, m, p)
    {
      if p == paths[n] {
        assert Holds(nodes', paths, n, p);
      } else {
        var m: nat :| Holds(nodes, paths, m, p);
        assert Holds(nodes', paths, m, p);
      }
    }
    forall m: nat, p | Holds(nodes', paths, m, p)
      ensures p in view && view[p] == nodes'[m].routes
    {
      if m != n {
        assert Holds(nodes, paths, m, p);
        assert paths[m] != paths[n];
      }
    }
    ViewIs(nodes', paths, view);
    if CapturesLimited(nodes, paths) {
      forall m: nat | Registered(nodes', m) && m < |paths|
        ensures m != n ==> CountAny(paths[m]) <= MAX_CAPTURE_PARAMS
      {
        assert m != n ==> Registered(nodes, m);
      }
    }
  }

  lemma NodeRoutes(nodes: seq<Node>, paths: seq<Pattern>, n: nat)
    requires TrieOk(nodes, paths) && n < |nodes|
    ensures IsEmpty(nodes[n].routes) ==> paths[n] !in ViewOf(nodes, paths)
    ensures !IsEmpty(nodes[n].routes) ==>
      paths[n] in ViewOf(nodes, paths) && ViewOf(nodes, paths)[paths[n]] == nodes[n].routes
    ensures IsEmpty(nodes[n].routes) ==> forall m :: RouteOf(nodes[n].routes, m).None?
  {
  }

  class DynamicRouteTrie {
    var nodes: seq<Node>
    /** The pattern each node stands for. */
    ghost var paths: seq<Pattern>

    ghost predicate Valid()
      reads this
    {
      TrieOk(nodes, paths) && CapturesLimited(nodes, paths)
    }

    ghost function View(): map<Pattern, RouteSet>
      reads this
      requires Valid()
    {
      ViewOf(nodes, paths)
    }

    constructor ()
      ensures Valid() && View() == map[]
    {
      nodes, paths := [NEW_NODE], [[]];
      new;
      EmptyExactly(EMPTY);
      ViewIs(nodes, paths, map[]);
    }

    /** The child of node `i` for a segment, made if there is none yet. */
    method Descend(i: nat, segment: Segment) returns (next: nat)
      requires Valid() && i < |nodes| && |nodes| < U32
      modifies this
      ensures Valid() && View() == old(View())
      ensures old(paths) <= paths && |nodes| <= |old(nodes)| + 1
      ensures next < |nodes| && paths[next] == paths[i] + [ShapeOf(segment)]
    {
      ghost var s := ShapeOf(segment);
      if Child(nodes[i], s).Some? {
        assert ChildOk(nodes, paths, i, s);
      } else {
        NewChildOk(nodes, paths, i, s);
        paths := paths + [paths[i] + [s]];
      }
      ghost var nodes0 := nodes;
      match segment {
        case Static(value) =>
          if value in nodes[i].statics {
            next := nodes[i].statics[value];
          } else {
            next := |nodes|;
            nodes := nodes + [NEW_NODE];
            nodes := nodes[i := nodes[i].(statics := nodes[i].statics[value := next])];
            assert nodes == WithNewChild(nodes0, i, s);
          }
        case Capture(_) =>
          if nodes[i].capture.Some? {
            next := nodes[i].capture.value;
          } else {
            next := |nodes|;
            nodes := nodes + [NEW_NODE];
            nodes := nodes[i := nodes[i].(capture := Some(next))];
            assert nodes == WithNewChild(nodes0, i, s);
          }
      }
    }

    /** Registers a route; `false` where the insertion panics, which registers nothing. */
    method Insert(segments: seq<Segment>, m: Method, route: nat) returns (ok: bool)
      requires Valid() && |nodes| + |segments| <= U32 && route < NONE
      requires CountAny(ShapesOf(segments)) <= MAX_CAPTURE_PARAMS
      modifies this
      ensures Valid() && |nodes| <= |old(nodes)| + |segments|
      ensures var p := ShapesOf(segments);
        ok == (RouteOf(old(RoutesFor(View(), p)), m).None? && !m.Other?)
      ensures ok ==>
        var p := ShapesOf(segments);
        View() == old(View())[p := Routes.Insert(old(RoutesFor(View(), p)), m, route).value]
      ensures !ok ==> View() == old(View())
    {
      var nodeIndex: nat := 0;
      ghost var p := ShapesOf(segments);
      for k := 0 to |segments|
        invariant Valid() && View() == old(View())
        invariant |nodes| <= |old(nodes)| + k
        invariant nodeIndex < |nodes| && paths[nodeIndex] == p[..k]
      {
        assert p[..k + 1] == p[..k] + [p[k]];
        nodeIndex := Descend(nodeIndex, segments[k]);
      }
      assert p[..|p|] == p;
      NodeRoutes(nodes, paths, nodeIndex);
      InsertSame(nodes[nodeIndex].routes, RoutesFor(View(), p), m, route);
      match Routes.Insert(nodes[nodeIndex].routes, m, route) {
        case None => return false;
        case Some(routes) =>
          SetRoutesOk(nodes, paths, nodeIndex, routes);
          nodes := nodes[nodeIndex := nodes[nodeIndex].(routes := routes)];
          return true;
      }
    }

    function Find(path: Bytes): Option<(RouteSet, CaptureSet)>
      reads this
      requires Valid() && |path| < U32
    {
      ChildrenInBounds(nodes, paths);
      FindIn(nodes, path)
    }
  }

  /** A node without routes is as good as no node. */
  lemma InsertSame(a: RouteSet, b: RouteSet, m: Method, route: nat)
    requires RouteSetOk(a) && RouteSetOk(b) && route < NONE
    requires a == b || (IsEmpty(a) && b == EMPTY)
    ensures Routes.Insert(a, m, route).Some? <==> RouteOf(b, m).None? && !m.Other?
    ensures Routes.Insert(a, m, route) == Routes.Insert(b, m, route)
    ensures Routes.Insert(a, m, route).Some? ==>
      RouteSetOk(Routes.Insert(a, m, route).value) && !IsEmpty(Routes.Insert(a, m, route).value)
  {
    InsertSetsRoute(a, m, route);
    if a != b {
      EmptyIsEmpty(a);
    }
  }

  lemma EmptyIsEmpty(s: RouteSet)
    requires RouteSetOk(s) && IsEmpty(s)
    ensures s == EMPTY
  {
  }
}
