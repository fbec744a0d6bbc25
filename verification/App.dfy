/** Registering routes and layers, and dispatching requests to them. */
module App {
  import opened Wrappers
  import opened Codec
  import opened Path
  import opened Routes
  import opened Trie
  import opened DynamicRoutes
  import opened Scopes

  datatype RouteMeta = RouteMeta(verb: Method, template: Bytes, segments: seq<Segment>)

  predicate AllStatic(segments: seq<Segment>) {
    forall k :: 0 <= k < |segments| ==> segments[k].Static?
  }

  /** Where a route is looked up: by its template, or by its pattern. */
  datatype Key = ByTemplate(template: Bytes) | ByPattern(pattern: Pattern)

  function KeyOf(route: RouteMeta): Key {
    if AllStatic(route.segments) then ByTemplate(route.template) else ByPattern(ShapesOf(route.segments))
  }

  ghost predicate MetaOk(route: RouteMeta) {
    && ParseTemplate(route.template) == Some(route.segments)
    && CountAny(ShapesOf(route.segments)) <= MAX_CAPTURE_PARAMS
  }

  ghost predicate SetsOk<K(!new)>(table: map<K, RouteSet>) {
    forall k :: k in table ==> RouteSetOk(table[k]) && !IsEmpty(table[k])
  }

  ghost function Lookup(statics: map<Bytes, RouteSet>, view: map<Pattern, RouteSet>, key: Key, m: Method): Option<nat>
    requires SetsOk(statics) && SetsOk(view)
  {
    match key
    case ByTemplate(t) => if t in statics then RouteOf(statics[t], m) else None
    case ByPattern(p) => if p in view then RouteOf(view[p], m) else None
  }

  /** The two tables hold exactly the routes of the list, each under its key and method. */
  ghost predicate TablesOk(list: seq<RouteMeta>, statics: map<Bytes, RouteSet>, view: map<Pattern, RouteSet>) {
    && SetsOk(statics) && SetsOk(view)
    && (forall i :: 0 <= i < |list| ==> MetaOk(list[i]))
    && (forall i :: 0 <= i < |list| ==> Lookup(statics, view, KeyOf(list[i]), list[i].verb) == Some(i))
    && (forall key, m :: Lookup(statics, view, key, m).Some? ==>
          IsRoute(list, Lookup(statics, view, key, m).value, key, m))
  }

  ghost predicate IsRoute(list: seq<RouteMeta>, i: nat, key: Key, m: Method) {
    i < |list| && KeyOf(list[i]) == key && list[i].verb == m
  }

  /** A new entry for a new route keeps them so. */
  lemma AddedRoute(list: seq<RouteMeta>, statics: map<Bytes, RouteSet>, view: map<Pattern, RouteSet>,
                   route: RouteMeta, statics': map<Bytes, RouteSet>, view': map<Pattern, RouteSet>)
    requires TablesOk(list, statics, view) && MetaOk(route)
    requires SetsOk(statics') && SetsOk(view')
    requires Lookup(statics, view, KeyOf(route), route.verb).None?
    requires forall key, m :: Lookup(statics', view', key, m) ==
               (if key == KeyOf(route) && m == route.verb then Some(|list|) else Lookup(statics, view, key, m))
    ensures TablesOk(list + [route], statics', view')
  {
    hide Lookup, KeyOf, MetaOk, SetsOk;
    var list' := list + [route];
    forall i | 0 <= i < |list'|
      ensures MetaOk(list'[i]) && Lookup(statics', view', KeyOf(list'[i]), list'[i].verb) == Some(i)
    {
      assert i < |list| ==> list'[i] == list[i];
    }
    forall key, m | Lookup(statics', view', key, m).Some?
      ensures IsRoute(list', Lookup(statics', view', key, m).value, key, m)
    {
      if !(key == KeyOf(route) && m == route.verb) {
        assert IsRoute(list, Lookup(statics, view, key, m).value, key, m);
      }
    }
  }

  /** Inserting into one table changes one entry. */
  lemma InsertedStatic(statics: map<Bytes, RouteSet>, view: map<Pattern, RouteSet>, template: Bytes, verb: Method,
                       n: nat)
    requires SetsOk(statics) && SetsOk(view) && n < NONE
    ensures var before := if template in statics then statics[template] else EMPTY;
      var after := Routes.Insert(before, verb, n);
      && (after.None? <==> Lookup(statics, view, ByTemplate(template), verb).Some? || verb.Other?)
      && (after.Some? ==>
            && SetsOk(statics[template := after.value])
            && forall key, m :: Lookup(statics[template := after.value], view, key, m) ==
                 if key == ByTemplate(template) && m == verb then Some(n) else Lookup(statics, view, key, m))
  {
    EmptyExactly(EMPTY);
    InsertSetsRoute(if template in statics then statics[template] else EMPTY, verb, n);
    hide RouteSetOk, RouteOf, IsEmpty, Routes.Insert;
  }

  lemma InsertedDynamic(statics: map<Bytes, RouteSet>, view: map<Pattern, RouteSet>, p: Pattern, verb: Method, n: nat)
    requires SetsOk(statics) && SetsOk(view) && n < NONE
    ensures var after := Routes.Insert(RoutesFor(view, p), verb, n);
      && (after.None? <==> Lookup(statics, view, ByPattern(p), verb).Some? || verb.Other?)
      && (after.Some? ==>
            && SetsOk(view[p := after.value])
            && forall key, m :: Lookup(statics, view[p := after.value], key, m) ==
                 if key == ByPattern(p) && m == verb then Some(n) else Lookup(statics, view, key, m))
  {
    EmptyExactly(EMPTY);
    InsertSetsRoute(RoutesFor(view, p), verb, n);
    hide RouteSetOk, RouteOf, IsEmpty, Routes.Insert;
  }

  /** A route is looked up by its template when nothing in it is captured, and else by its literals and captures. */
  lemma KeyExactly(route: RouteMeta, key: Key)
    ensures KeyOf(route) == key <==>
      match key
      case ByTemplate(t) => t == route.template && forall k :: 0 <= k < |route.segments| ==> route.segments[k].Static?
      case ByPattern(p) =>
        && (exists k :: 0 <= k < |route.segments| && route.segments[k].Capture?)
        && |p| == |route.segments|
        && forall k :: 0 <= k < |p| ==>
          match route.segments[k]
          case Static(value) => p[k] == Lit(value)
          case Capture(_) => p[k] == Any
  {
  }

  // ---- What dispatch is meant to do, told by the list of routes alone ----

  ghost function DynamicPatterns(list: seq<RouteMeta>): set<Pattern> {
    set i | 0 <= i < |list| && !AllStatic(list[i].segments) :: ShapesOf(list[i].segments)
  }

  ghost predicate HasStatic(list: seq<RouteMeta>, template: Bytes) {
    exists i :: 0 <= i < |list| && KeyOf(list[i]) == ByTemplate(template)
  }

  /** The key of the routes a path belongs to: a template equal to it, and otherwise the best pattern. */
  ghost predicate Chosen(list: seq<RouteMeta>, path: Bytes, key: Key) {
    match key
    case ByTemplate(t) => LookedUpAs(path, t) && HasStatic(list, t)
    case ByPattern(q) =>
      && (forall t :: LookedUpAs(path, t) ==> !HasStatic(list, t))
      && BestMatch(DynamicPatterns(list), q, Parts(path, 0))
  }

  /** Only one text is what a path is looked up as. */
  lemma ChosenExactly(list: seq<RouteMeta>, path: Bytes, key: Key)
    ensures Chosen(list, path, key) <==>
      match key
      case ByTemplate(t) => t == NormalizeRequestPath(path) && HasStatic(list, t)
      case ByPattern(q) =>
        !HasStatic(list, NormalizeRequestPath(path)) && BestMatch(DynamicPatterns(list), q, Parts(path, 0))
  {
    hide HasStatic, DynamicPatterns, BestMatch;
    forall t
      ensures LookedUpAs(path, t) <==> t == NormalizeRequestPath(path)
    {
      NormalizedExactly(path, t);
    }
  }

  lemma ChosenIsUnique(list: seq<RouteMeta>, path: Bytes, a: Key, b: Key)
    requires Chosen(list, path, a) && Chosen(list, path, b)
    ensures a == b
  {
    ChosenExactly(list, path, a);
    ChosenExactly(list, path, b);
    if a.ByPattern? && b.ByPattern? {
      BestMatchIsUnique(DynamicPatterns(list), a.pattern, b.pattern, Parts(path, 0));
    }
  }

  /** Route `i` serves method `m` under `key`: its own, or `HEAD` where only `GET` is registered. */
  ghost predicate Serves(list: seq<RouteMeta>, key: Key, m: Method, i: nat) {
    || IsRoute(list, i, key, m)
    || (m == HEAD && IsRoute(list, i, key, GET) && !HasVerb(list, key, HEAD))
  }

  ghost predicate HasVerb(list: seq<RouteMeta>, key: Key, m: Method) {
    exists i: nat :: IsRoute(list, i, key, m)
  }

  datatype Dispatched =
    | Handled(index: nat, captures: CaptureSet)
    | OptionsAnswer(allow: seq<Method>)
    | NotAllowed(allow: seq<Method>)
    | NotFound

  ghost predicate AnswersFor(list: seq<RouteMeta>, key: Key, m: Method, path: Bytes, d: Dispatched) {
    match d
    case Handled(i, captures) =>
      && Serves(list, key, m, i)
      && CapturesOk(captures)
      && Ranges(captures) == RangesFor(key, path)
    case OptionsAnswer(allow) => m == OPTIONS && ListsVerbs(list, key, m, allow)
    case NotAllowed(allow) => m != OPTIONS && ListsVerbs(list, key, m, allow)
    case NotFound => false
  }

  /** No route serves `m`, and `allow` lists exactly the methods that have one, in alphabetical order. */
  ghost predicate ListsVerbs(list: seq<RouteMeta>, key: Key, m: Method, allow: seq<Method>) {
    && (forall i: nat :: !Serves(list, key, m, i))
    && InOrder(allow)
    && forall v :: v in allow <==> HasVerb(list, key, v)
  }

  // ---- Dispatch ----

  function WithRoutes(m: Method, routes: RouteSet, captures: CaptureSet): Dispatched
    requires |routes.routes| == 7
  {
    match Resolve(m, routes)
    case Route(i) => Handled(i, captures)
    case AnswerOptions(allow) => OptionsAnswer(allow)
    case MethodNotAllowed(allow) => NotAllowed(allow)
  }

  /** `prepare_direct`: static routes by the whole path, then the trie. */
  function Dispatch(statics: map<Bytes, RouteSet>, nodes: seq<Node>, m: Method, path: Bytes): Dispatched
    requires forall k, s :: 0 <= k < |nodes| && Child(nodes[k], s).Some? ==> Child(nodes[k], s).value < |nodes|
    requires nodes != []
    requires forall t :: t in statics ==> |statics[t].routes| == 7
    requires forall k :: 0 <= k < |nodes| ==> |nodes[k].routes.routes| == 7
  {
    var p := NormalizeRequestPath(path);
    if p in statics then WithRoutes(m, statics[p], NO_CAPTURES)
    else
      match FindIn(nodes, p)
      case None => NotFound
      case Some((routes, captures)) => if |routes.routes| == 7 then WithRoutes(m, routes, captures) else NotFound
  }

  /** Resolving among the routes of one key. */
  lemma ResolvesAmong(list: seq<RouteMeta>, statics: map<Bytes, RouteSet>, view: map<Pattern, RouteSet>, key: Key,
                      m: Method, routes: RouteSet)
    requires TablesOk(list, statics, view) && RouteSetOk(routes)
    requires forall v :: RouteOf(routes, v) == Lookup(statics, view, key, v)
    ensures match Resolve(m, routes)
      case Route(i) => Serves(list, key, m, i)
      case AnswerOptions(allow) => m == OPTIONS && ListsVerbs(list, key, m, allow)
      case MethodNotAllowed(allow) => m != OPTIONS && ListsVerbs(list, key, m, allow)
  {
    ResolvesTo(m, routes);
    forall v
      ensures HasVerb(list, key, v) <==> RouteOf(routes, v).Some?
      ensures RouteOf(routes, v).Some? ==> IsRoute(list, RouteOf(routes, v).value, key, v)
    {
      HasVerbExactly(list, statics, view, key, v);
    }
  }

  lemma HasVerbExactly(list: seq<RouteMeta>, statics: map<Bytes, RouteSet>, view: map<Pattern, RouteSet>, key: Key,
                       m: Method)
    requires TablesOk(list, statics, view)
    ensures HasVerb(list, key, m) <==> Lookup(statics, view, key, m).Some?
    ensures forall i: nat :: IsRoute(list, i, key, m) <==> Lookup(statics, view, key, m) == Some(i)
  {
  }

  /** The static table has a path exactly when a route has it as its template. */
  lemma StaticExactly(list: seq<RouteMeta>, statics: map<Bytes, RouteSet>, view: map<Pattern, RouteSet>, t: Bytes)
    requires TablesOk(list, statics, view)
    ensures t in statics <==> HasStatic(list, t)
  {
    if t in statics {
      EmptyExactly(statics[t]);
      var m :| RouteOf(statics[t], m).Some?;
      assert Lookup(statics, view, ByTemplate(t), m).Some?;
    }
    if HasStatic(list, t) {
      var i :| 0 <= i < |list| && KeyOf(list[i]) == ByTemplate(t);
      assert Lookup(statics, view, KeyOf(list[i]), list[i].verb) == Some(i);
    }
  }

  lemma HeldPatternIsRegistered(list: seq<RouteMeta>, statics: map<Bytes, RouteSet>, view: map<Pattern, RouteSet>,
                                p: Pattern)
    requires TablesOk(list, statics, view) && p in view
    ensures p in DynamicPatterns(list)
  {
    EmptyExactly(view[p]);
    var m :| RouteOf(view[p], m).Some?;
    assert Lookup(statics, view, ByPattern(p), m).Some?;
    var i := Lookup(statics, view, ByPattern(p), m).value;
    assert IsRoute(list, i, ByPattern(p), m);
  }

  /** The trie holds exactly the patterns of the other routes. */
  lemma PatternsExactly(list: seq<RouteMeta>, statics: map<Bytes, RouteSet>, view: map<Pattern, RouteSet>)
    requires TablesOk(list, statics, view)
    ensures view.Keys == DynamicPatterns(list)
  {
    hide RouteSetOk, RouteOf, IsEmpty, MetaOk;
    forall p | p in view
      ensures p in DynamicPatterns(list)
    {
      HeldPatternIsRegistered(list, statics, view, p);
    }
    forall p | p in DynamicPatterns(list)
      ensures p in view
    {
      var i :| 0 <= i < |list| && !AllStatic(list[i].segments) && ShapesOf(list[i].segments) == p;
      assert Lookup(statics, view, KeyOf(list[i]), list[i].verb) == Some(i);
    }
  }

  /**
    Dispatch does what the list of routes says, whatever order the routes came
    in: nothing is found exactly when no template and no pattern fits, and
    otherwise the route for the method among those of the chosen key, with the
    byte range of every captured segment.
   */
  lemma DispatchIsLinear(list: seq<RouteMeta>, statics: map<Bytes, RouteSet>, nodes: seq<Node>, paths: seq<Pattern>,
                         m: Method, path: Bytes)
    requires TrieOk(nodes, paths) && CapturesLimited(nodes, paths) && |path| < U32
    requires TablesOk(list, statics, ViewOf(nodes, paths))
    ensures forall k, s :: 0 <= k < |nodes| && Child(nodes[k], s).Some? ==> Child(nodes[k], s).value < |nodes|
    ensures var d := Dispatch(statics, nodes, m, path);
      if d.NotFound? then forall key :: !Chosen(list, path, key)
      else exists key :: Chosen(list, path, key) && AnswersFor(list, key, m, path, d)
  {
    var p, view := NormalizeRequestPath(path), ViewOf(nodes, paths);
    StaticExactly(list, statics, view, p);
    PatternsExactly(list, statics, view);
    FindIsLinearScan(nodes, paths, p);
    NormalizedParts(path);
    assert nodes != [] && forall k :: 0 <= k < |nodes| ==> |nodes[k].routes.routes| == 7;
    ChosenFrom(list, path, statics.Keys, view.Keys);
    hide TablesOk, NormalizeRequestPath, DynamicPatterns, HasStatic, FindIn, TrieOk, CapturesLimited, RouteSetOk,
        WithRoutes, Chosen;
    hide Ranges, RangesFor, AnswersFor;
    if p in statics {
      TemplateAnswer(list, statics, view, m, path);
    } else {
      match FindIn(nodes, p)
      case None => NothingChosen(list, path, view.Keys);
      case Some((routes, captures)) =>
        var q :| BestMatch(view.Keys, q, Parts(p, 0)) && routes == view[q]
          && Ranges(captures) == Captured(q, Parts(p, 0));
        PatternAnswer(list, statics, view, m, path, q, captures);
    }
  }

  lemma ChosenFrom(list: seq<RouteMeta>, path: Bytes, templates: set<Bytes>, patterns: set<Pattern>)
    requires NormalizeRequestPath(path) in templates <==> HasStatic(list, NormalizeRequestPath(path))
    requires patterns == DynamicPatterns(list)
    ensures NormalizeRequestPath(path) in templates ==> Chosen(list, path, ByTemplate(NormalizeRequestPath(path)))
    ensures NormalizeRequestPath(path) !in templates ==> forall q :: BestMatch(patterns, q, Parts(path, 0)) ==>
                                                           Chosen(list, path, ByPattern(q))
  {
    ChosenExactly(list, path, ByTemplate(NormalizeRequestPath(path)));
    forall q {:trigger BestMatch(patterns, q, Parts(path, 0))}
      ensures Chosen(list, path, ByPattern(q)) <==>
        NormalizeRequestPath(path) !in templates && BestMatch(patterns, q, Parts(path, 0))
    {
      ChosenExactly(list, path, ByPattern(q));
    }
  }

  lemma TemplateAnswer(list: seq<RouteMeta>, statics: map<Bytes, RouteSet>, view: map<Pattern, RouteSet>, m: Method,
                       path: Bytes)
    requires TablesOk(list, statics, view)
    requires NormalizeRequestPath(path) in statics && Chosen(list, path, ByTemplate(NormalizeRequestPath(path)))
    ensures RouteSetOk(statics[NormalizeRequestPath(path)])
    ensures !WithRoutes(m, statics[NormalizeRequestPath(path)], NO_CAPTURES).NotFound?
    ensures exists key :: (Chosen(list, path, key)
      && AnswersFor(list, key, m, path, WithRoutes(m, statics[NormalizeRequestPath(path)], NO_CAPTURES)))
  {
    RoutesAreOk(list, statics, view);
    hide TablesOk, Chosen, NormalizeRequestPath, RouteSetOk, AnswersFor, Resolve;
    AnswerAmong(list, statics, view, m, path, ByTemplate(NormalizeRequestPath(path)),
                statics[NormalizeRequestPath(path)], NO_CAPTURES);
  }

  lemma PatternAnswer(list: seq<RouteMeta>, statics: map<Bytes, RouteSet>, view: map<Pattern, RouteSet>, m: Method,
                      path: Bytes, q: Pattern, captures: CaptureSet)
    requires TablesOk(list, statics, view)
    requires q in view && Chosen(list, path, ByPattern(q)) && |q| == |Parts(path, 0)|
    requires CapturesOk(captures) && Ranges(captures) == Captured(q, Parts(path, 0))
    ensures RouteSetOk(view[q]) && !WithRoutes(m, view[q], captures).NotFound?
    ensures exists key :: Chosen(list, path, key) && AnswersFor(list, key, m, path, WithRoutes(m, view[q], captures))
  {
    RoutesAreOk(list, statics, view);
    hide TablesOk, Chosen, RouteSetOk, AnswersFor, CapturesOk, Ranges, Captured, Resolve;
    AnswerAmong(list, statics, view, m, path, ByPattern(q), view[q], captures);
  }

  /** Slashes at the end of a path of more than one byte make no difference to where it goes. */
  lemma SlashesDispatchAlike(statics: map<Bytes, RouteSet>, nodes: seq<Node>, m: Method, path: Bytes, slashes: Bytes)
    requires forall k, s :: 0 <= k < |nodes| && Child(nodes[k], s).Some? ==> Child(nodes[k], s).value < |nodes|
    requires nodes != [] && forall k :: 0 <= k < |nodes| ==> |nodes[k].routes.routes| == 7
    requires forall t :: t in statics ==> |statics[t].routes| == 7
    requires |path| > 1 && forall k :: 0 <= k < |slashes| ==> slashes[k] == SLASH
    ensures Dispatch(statics, nodes, m, path + slashes) == Dispatch(statics, nodes, m, path)
  {
    var rest := NormalizeRequestPath(path);
    NormalizedExactly(path, rest);
    assert Stripped(path + slashes, rest);
    NormalizedExactly(path + slashes, rest);
    hide NormalizeRequestPath;
  }

  /**
    A route without captures is reached under the path it was registered with, whatever
    slashes end either, unless just one of the two is a lone slash.
   */
  lemma RegisteredIsReached(list: seq<RouteMeta>, statics: map<Bytes, RouteSet>, nodes: seq<Node>,
                            paths: seq<Pattern>, i: nat, registered: Bytes, request: Bytes)
    requires TrieOk(nodes, paths) && CapturesLimited(nodes, paths) && |request| < U32
    requires TablesOk(list, statics, ViewOf(nodes, paths))
    requires i < |list| && list[i].template == NormalizePath(registered)
    requires forall k :: 0 <= k < |list[i].segments| ==> list[i].segments[k].Static?
    requires [SLASH] <= registered && [SLASH] <= request && SameButSlashes(registered, request)
    ensures forall k, s :: 0 <= k < |nodes| && Child(nodes[k], s).Some? ==> Child(nodes[k], s).value < |nodes|
    ensures var d := Dispatch(statics, nodes, list[i].verb, request);
      d.Handled? && d.index == i <==> (registered == [SLASH] <==> request == [SLASH])
  {
    var d, m, key := Dispatch(statics, nodes, list[i].verb, request), list[i].verb, KeyOf(list[i]);
    DispatchIsLinear(list, statics, nodes, paths, m, request);
    RegisteredIsChosen(list, i, registered, request);
    RouteIsUnique(list, statics, ViewOf(nodes, paths), i);
    hide *;
    if !d.NotFound? {
      var chosen :| Chosen(list, request, chosen) && AnswersFor(list, chosen, m, request, d);
      HandledIsChosen(list, chosen, key, m, request, d, i);
    }
  }

  lemma RouteIsUnique(list: seq<RouteMeta>, statics: map<Bytes, RouteSet>, view: map<Pattern, RouteSet>, i: nat)
    requires TablesOk(list, statics, view) && i < |list|
    ensures IsRoute(list, i, KeyOf(list[i]), list[i].verb)
    ensures forall j: nat :: IsRoute(list, j, KeyOf(list[i]), list[i].verb) ==> j == i
  {
    HasVerbExactly(list, statics, view, KeyOf(list[i]), list[i].verb);
  }

  lemma RegisteredIsChosen(list: seq<RouteMeta>, i: nat, registered: Bytes, request: Bytes)
    requires i < |list| && list[i].template == NormalizePath(registered)
    requires forall k :: 0 <= k < |list[i].segments| ==> list[i].segments[k].Static?
    requires [SLASH] <= registered && [SLASH] <= request && SameButSlashes(registered, request)
    ensures Chosen(list, request, KeyOf(list[i])) <==> (registered == [SLASH] <==> request == [SLASH])
  {
    RegisteredIsLookedUp(registered, request);
    ChosenExactly(list, request, KeyOf(list[i]));
    hide NormalizePath, NormalizeRequestPath, Chosen;
    assert HasStatic(list, list[i].template);
  }

  /** The answer is that of a route exactly if it is the chosen one's. */
  lemma HandledIsChosen(list: seq<RouteMeta>, chosen: Key, key: Key, m: Method, path: Bytes, d: Dispatched, i: nat)
    requires Chosen(list, path, chosen) && AnswersFor(list, chosen, m, path, d)
    requires IsRoute(list, i, key, m) && forall j: nat :: IsRoute(list, j, key, m) ==> j == i
    ensures d.Handled? && d.index == i <==> Chosen(list, path, key)
  {
    if Chosen(list, path, key) {
      ChosenIsUnique(list, path, chosen, key);
    }
    assert Serves(list, key, m, i);
    hide Chosen, Ranges, RangesFor, CapturesOk;
  }

  lemma RoutesAreOk(list: seq<RouteMeta>, statics: map<Bytes, RouteSet>, view: map<Pattern, RouteSet>)
    requires TablesOk(list, statics, view)
    ensures forall t :: t in statics ==>
              RouteSetOk(statics[t]) && forall v :: RouteOf(statics[t], v) == Lookup(statics, view, ByTemplate(t), v)
    ensures forall p :: p in view ==>
              RouteSetOk(view[p]) && forall v :: RouteOf(view[p], v) == Lookup(statics, view, ByPattern(p), v)
  {
  }

  /** The ranges a dispatch under `key` should come with. */
  ghost function RangesFor(key: Key, path: Bytes): seq<Range> {
    match key
    case ByTemplate(_) => []
    case ByPattern(p) => if |p| == |Parts(path, 0)| then Captured(p, Parts(path, 0)) else []
  }

  lemma AnswerAmong(list: seq<RouteMeta>, statics: map<Bytes, RouteSet>, view: map<Pattern, RouteSet>, m: Method,
                    path: Bytes, key: Key, routes: RouteSet, captures: CaptureSet)
    requires TablesOk(list, statics, view) && RouteSetOk(routes)
    requires forall v :: RouteOf(routes, v) == Lookup(statics, view, key, v)
    requires CapturesOk(captures) && Ranges(captures) == RangesFor(key, path)
    ensures AnswersFor(list, key, m, path, WithRoutes(m, routes, captures))
  {
    ResolvesAmong(list, statics, view, key, m, routes);
    hide TablesOk, RouteSetOk, RouteOf, Lookup, RangesFor, Resolve, ListsVerbs, Serves, Ranges, Bit;
  }

  lemma NothingChosen(list: seq<RouteMeta>, path: Bytes, patterns: set<Pattern>)
    requires patterns == DynamicPatterns(list) && !HasStatic(list, NormalizeRequestPath(path))
    requires forall p :: p in patterns ==> !Matches(p, Parts(path, 0))
    ensures forall key :: !Chosen(list, path, key)
  {
    forall key
      ensures !Chosen(list, path, key)
    {
      ChosenExactly(list, path, key);
    }
  }

  // ---- Layers cover what dispatch can reach ----

  /** `scope` is no narrower than the first segments of a route, for a path with these segments. */
  ghost predicate PrefixCovers(scope: seq<ScopeSegment>, segments: seq<Segment>, values: seq<Bytes>) {
    && |scope| <= |segments| <= |values|
    && forall k :: 0 <= k < |scope| ==> SegmentCovers(scope[k], segments[k], values[k])
  }

  /** A literal covers itself, and a captured value that decodes to it. */
  ghost predicate SegmentCovers(scope: ScopeSegment, segment: Segment, value: Bytes) {
    match scope
    case AnySegment => true
    case Literal(text) =>
      match segment
      case Static(v) => v == text
      case Capture(_) => Decode(value) == Success(text)
  }

  /** The scope is that of a layer meant for this route. */
  ghost predicate Covers(scope: Scope, route: RouteMeta, values: seq<Bytes>) {
    match scope
    case All => true
    case Prefix(segments) => PrefixCovers(segments, route.segments, values)
    case OneRoute(verb, segments) => verb == route.verb && ParseScope(route.template) == Some(segments)
  }

  /** Segment by segment: literals are the same text, captures are well escaped. */
  ghost predicate FitsSegments(segments: seq<Segment>, values: seq<Bytes>) {
    && |segments| == |values|
    && forall k :: 0 <= k < |segments| ==> FitsSegment(segments[k], values[k])
  }

  predicate FitsSegment(segment: Segment, value: Bytes) {
    match segment
    case Static(v) => v == value
    case Capture(_) => WellEscaped(value)
  }

  lemma MatchIsFit(segments: seq<Segment>, path: Bytes)
    ensures Matches(ShapesOf(segments), Parts(path, 0)) <==> FitsSegments(segments, Split(path))
  {
  }

  lemma TemplateFitsItself(route: RouteMeta)
    requires MetaOk(route) && AllStatic(route.segments)
    ensures FitsSegments(route.segments, Split(route.template))
  {
    var values := Split(route.template);
    hide Split;
    forall k | 0 <= k < |values|
      ensures FitsSegment(route.segments[k], values[k])
    {
      assert ParseSegment(values[k]) == Some(route.segments[k]);
    }
  }

  /** A path that reaches a route fits it. */
  lemma ReachedPathFits(list: seq<RouteMeta>, key: Key, m: Method, i: nat, path: Bytes)
    requires Chosen(list, path, key) && Serves(list, key, m, i)
    requires forall k :: 0 <= k < |list| ==> MetaOk(list[k])
    ensures list[i].verb == m || (list[i].verb == GET && m == HEAD)
    ensures FitsSegments(list[i].segments, Split(path))
  {
    var route := list[i];
    hide Chosen, LookedUpAs, HasStatic, FitsSegments, Parts;
    ChosenExactly(list, path, key);
    NormalizedParts(path);
    if AllStatic(route.segments) {
      TemplateFitsItself(route);
    } else {
      MatchIsFit(route.segments, path);
    }
    hide MetaOk;
  }

  lemma CoveredSegmentMatches(scope: ScopeSegment, segment: Segment, value: Bytes)
    requires SegmentCovers(scope, segment, value) && FitsSegment(segment, value)
    ensures SegmentMatches(scope, value)
  {
    if segment.Capture? && PERCENT !in value {
      PlainTextIsItself(value);
    }
  }

  lemma PrefixMatches(scope: seq<ScopeSegment>, segments: seq<Segment>, values: seq<Bytes>)
    requires PrefixCovers(scope, segments, values) && FitsSegments(segments, values)
    ensures SegmentsMatch(scope, values, false)
  {
    forall k | 0 <= k < |scope|
      ensures SegmentMatches(scope[k], values[k])
    {
      CoveredSegmentMatches(scope[k], segments[k], values[k]);
    }
  }

  lemma OwnScopeMatches(route: RouteMeta, scope: seq<ScopeSegment>, values: seq<Bytes>)
    requires MetaOk(route) && ParseScope(route.template) == Some(scope) && FitsSegments(route.segments, values)
    ensures SegmentsMatch(scope, values, true)
  {
  }

  /**
    Scopes are never narrower than routing: if a request reaches a route, every
    scope that covers the route matches the request, `HEAD` for `GET`, repeated
    and trailing slashes included.
   */
  lemma ScopesAreNotNarrower(list: seq<RouteMeta>, key: Key, m: Method, i: nat, path: Bytes, scope: Scope)
    requires Chosen(list, path, key) && Serves(list, key, m, i)
    requires forall k :: 0 <= k < |list| ==> MetaOk(list[k])
    requires Covers(scope, list[i], Split(path))
    ensures ScopeMatches(scope, m, path)
  {
    ReachedPathFits(list, key, m, i, path);
    hide Chosen, Serves, MetaOk, Split, FitsSegments, PrefixCovers, SegmentsMatch, ParseScope;
    match scope
    case All =>
    case Prefix(segments) => PrefixMatches(segments, list[i].segments, Split(path));
    case OneRoute(verb, segments) => OwnScopeMatches(list[i], segments, Split(path));
  }

  /** A layer scope whose pattern has the route's first segments covers the route, whatever the request. */
  lemma SameSegmentsCover(pattern: Bytes, route: RouteMeta, values: seq<Bytes>)
    requires MetaOk(route) && ParseScope(pattern).Some? && |route.segments| == |values|
    requires Split(pattern) <= Split(route.template)
    ensures Covers(Prefix(ParseScope(pattern).value), route, values)
  {
    ScopeAndTemplateAgree(pattern);
    var a, b := Split(pattern), Split(route.template);
    var scope := ParseScope(pattern).value;
    forall k | 0 <= k < |scope|
      ensures SegmentCovers(scope[k], route.segments[k], values[k])
    {
      assert a[k] == b[k];
      assert ParseScopeSegment(a[k]) == Some(scope[k]);
      assert ParseSegment(b[k]) == Some(route.segments[k]);
    }
  }

  /** The layers of a group, and of every group around it, cover the routes registered in it. */
  lemma GroupLayersCover(prefixes: seq<Bytes>, outer: nat, path: Bytes, route: RouteMeta, values: seq<Bytes>)
    requires 0 < |prefixes| && outer < |prefixes|
    requires MetaOk(route) && |route.segments| == |values|
    requires route.template == NormalizePath(Join(GroupPrefix(prefixes), path))
    requires ParseScope(GroupPrefix(prefixes[..outer + 1])).Some?
    ensures Covers(Prefix(ParseScope(GroupPrefix(prefixes[..outer + 1])).value), route, values)
  {
    NormalizedParts(Join(GroupPrefix(prefixes), path));
    JoinKeepsSegments(GroupPrefix(prefixes), path);
    OuterPrefix(prefixes, outer);
    SameSegmentsCover(GroupPrefix(prefixes[..outer + 1]), route, values);
  }

  /** The prefix of nested groups: the outermost one's as given, each inner one joined to it. */
  function GroupPrefix(prefixes: seq<Bytes>): Bytes
    requires prefixes != []
  {
    if |prefixes| == 1 then prefixes[0] else Join(GroupPrefix(prefixes[..|prefixes| - 1]), prefixes[|prefixes| - 1])
  }

  lemma {:induction false} OuterPrefix(prefixes: seq<Bytes>, outer: nat)
    requires outer < |prefixes|
    ensures Split(GroupPrefix(prefixes[..outer + 1])) <= Split(GroupPrefix(prefixes))
  {
    var n := |prefixes|;
    if outer + 1 == n {
      assert prefixes[..n] == prefixes;
    } else {
      var inner := prefixes[..n - 1];
      assert inner[..outer + 1] == prefixes[..outer + 1];
      OuterPrefix(inner, outer);
      JoinKeepsSegments(GroupPrefix(inner), prefixes[n - 1]);
    }
  }

  /**
    No way around a layer: whatever request is dispatched in the end, each layer
    whose scope covers the route it reaches has run. Layers may rewrite the request;
    `from` is then any layer from which on none does.
   */
  lemma NoWayAround(list: seq<RouteMeta>, layers: seq<ScopedLayer>, from: nat, request: Request, key: Key, i: nat,
                    l: nat)
    requires from <= l < |layers| && KeepTarget(layers, from)
    requires forall k :: 0 <= k < |list| ==> MetaOk(list[k])
    requires var sent := Chain(layers, 0, request).dispatched;
      && sent.Some? && Chosen(list, sent.value.path, key) && Serves(list, key, sent.value.verb, i)
      && Covers(layers[l].scope, list[i], Split(sent.value.path))
    ensures l in Chain(layers, 0, request).ran
  {
    var sent := ChainReaches(layers, 0, from, request);
    CoveringLayersRun(layers, from, sent);
    ScopesAreNotNarrower(list, key, sent.verb, i, sent.path, layers[l].scope);
    CoveringHas(layers, from, sent, l);
  }

  lemma {:induction false} CoveringHas(layers: seq<ScopedLayer>, index: nat, request: Request, l: nat)
    requires index <= l < |layers| && ScopeMatches(layers[l].scope, request.verb, request.path)
    ensures l in Covering(layers, index, request)
    decreases |layers| - index
  {
    if index < l {
      CoveringHas(layers, index + 1, request, l);
    }
  }

  // ---- Registration ----

  datatype Registration = Added(index: nat) | TooManyCaptures | Panicked

  /** Why a registration panics, in the order the code finds out. */
  ghost predicate Panics(list: seq<RouteMeta>, verb: Method, path: Bytes) {
    || !([SLASH] <= path)
    || (exists i :: 0 <= i < |list| && list[i].verb == verb && list[i].template == NormalizePath(path))
    || ParseTemplate(NormalizePath(path)).None?
    || (!Refused(path) && (verb.Other? || HasVerb(list, KeyOf(NewRoute(verb, path)), verb)))
  }

  /** More captures than a search can hold. */
  ghost predicate Refused(path: Bytes)
    requires ParseTemplate(NormalizePath(path)).Some?
  {
    CountAny(ShapesOf(ParseTemplate(NormalizePath(path)).value)) > MAX_CAPTURE_PARAMS
  }

  ghost function NewRoute(verb: Method, path: Bytes): RouteMeta
    requires ParseTemplate(NormalizePath(path)).Some?
  {
    var template := NormalizePath(path);
    RouteMeta(verb, template, ParseTemplate(template).value)
  }

  class App {
    var metadata: seq<RouteMeta>
    var staticRoutes: map<Bytes, RouteSet>
    const dynamicRoutes: DynamicRouteTrie
    var layers: seq<ScopedLayer>
    var lastRoute: Option<nat>
    /** The first route refused for its captures: its template and how many it has. */
    var routeError: Option<(Bytes, nat)>

    ghost predicate Valid()
      reads this, dynamicRoutes
    {
      && dynamicRoutes.Valid()
      && TablesOk(metadata, staticRoutes, dynamicRoutes.View())
      && (lastRoute.Some? ==> lastRoute.value < |metadata|)
    }

    constructor ()
      ensures Valid() && fresh(dynamicRoutes) && metadata == [] && layers == [] && lastRoute == None
        && routeError == None
    {
      metadata, staticRoutes, layers, lastRoute, routeError := [], map[], [], None, None;
      dynamicRoutes := new DynamicRouteTrie();
    }

    method IsDuplicate(verb: Method, template: Bytes) returns (duplicate: bool)
      ensures duplicate <==> exists i :: 0 <= i < |metadata| && metadata[i].verb == verb
                               && metadata[i].template == template
    {
      for k := 0 to |metadata|
        invariant forall i :: 0 <= i < k ==> !(metadata[i].verb == verb && metadata[i].template == template)
      {
        if metadata[k].verb == verb && metadata[k].template == template {
          return true;
        }
      }
      return false;
    }

    /** `add_route`, `add_raw_route`. Nothing is promised about the tables after a panic. */
    method AddRoute(verb: Method, path: Bytes) returns (outcome: Registration)
      requires Valid() && |metadata| < NONE
      requires |dynamicRoutes.nodes| + |Split(NormalizePath(path))| <= U32
      modifies this, dynamicRoutes
      ensures layers == old(layers)
      ensures outcome.Panicked? <==> Panics(old(metadata), verb, path)
      ensures !outcome.Panicked? ==> Valid() && (outcome.TooManyCaptures? <==> Refused(path))
      ensures outcome.Added? ==>
        && outcome.index == |old(metadata)| && lastRoute == Some(outcome.index)
        && metadata == old(metadata) + [NewRoute(verb, path)]
      ensures !outcome.Added? ==> metadata == old(metadata) && lastRoute == old(lastRoute)
      ensures routeError == if outcome.TooManyCaptures? && old(routeError).None? then
          Some((NormalizePath(path), CountAny(ShapesOf(ParseTemplate(NormalizePath(path)).value))))
        else old(routeError)
    {
      hide TablesOk, DynamicRouteTrie.Valid, ViewOf, ParseTemplate, ShapesOf, CountAny, KeyOf, Lookup, HasVerb,
          NormalizePath, Split;
      if path == [] || path[0] != SLASH {
        return Panicked;
      }
      var template := NormalizePath(path);
      var duplicate := IsDuplicate(verb, template);
      if duplicate {
        return Panicked;
      }
      var parsed := ParseTemplate(template);
      if parsed.None? {
        return Panicked;
      }
      var segments := parsed.value;
      var captures := CountCaptures(segments);
      if captures > MAX_CAPTURE_PARAMS {
        if routeError.None? {
          routeError := Some((template, captures));
        }
        return TooManyCaptures;
      }
      var index := |metadata|;
      var route := RouteMeta(verb, template, segments);
      HasVerbExactly(metadata, staticRoutes, dynamicRoutes.View(), KeyOf(route), verb);
      var ok := Enter(route);
      if !ok {
        return Panicked;
      }
      metadata := metadata + [route];
      lastRoute := Some(index);
      return Added(index);
    }

    /** Puts a route into the table it belongs to; `false` where that panics. */
    method Enter(route: RouteMeta) returns (ok: bool)
      requires Valid() && MetaOk(route) && |metadata| < NONE
      requires |dynamicRoutes.nodes| + |route.segments| <= U32
      modifies this`staticRoutes, dynamicRoutes
      ensures ok <==>
        old(Lookup(staticRoutes, dynamicRoutes.View(), KeyOf(route), route.verb)).None? && !route.verb.Other?
      ensures ok ==> dynamicRoutes.Valid() && TablesOk(metadata + [route], staticRoutes, dynamicRoutes.View())
    {
      var index := |metadata|;
      ghost var statics, view := staticRoutes, dynamicRoutes.View();
      hide DynamicRouteTrie.Valid, Routes.Insert, ViewOf;
      if AllStatic(route.segments) {
        InsertedStatic(statics, view, route.template, route.verb, index);
        var routes := if route.template in staticRoutes then staticRoutes[route.template] else EMPTY;
        var inserted := Routes.Insert(routes, route.verb, index);
        if inserted.None? {
          return false;
        }
        staticRoutes := staticRoutes[route.template := inserted.value];
      } else {
        InsertedDynamic(statics, view, ShapesOf(route.segments), route.verb, index);
        ok := dynamicRoutes.Insert(route.segments, route.verb, index);
        if !ok {
          return;
        }
      }
      AddedRoute(metadata, statics, view, route, staticRoutes, dynamicRoutes.View());
      return true;
    }

    /** `layer` */
    method Layer(layer: Request -> Action)
      requires Valid()
      modifies this`layers
      ensures Valid() && |layers| == |old(layers)| + 1 && layers[..|old(layers)|] == old(layers)
      ensures layers[|old(layers)|].layer == layer
      ensures forall verb, path :: ScopeMatches(layers[|old(layers)|].scope, verb, path)
      ensures forall route, values :: Covers(layers[|old(layers)|].scope, route, values)
    {
      layers := layers + [ScopedLayer(All, layer)];
    }

    /** `route_layer`: never panics, because a template that was accepted is a scope pattern too. */
    method RouteLayer(layer: Request -> Action)
      requires Valid()
      modifies this`layers
      ensures Valid()
      ensures lastRoute.None? ==> layers == old(layers)
      ensures lastRoute.Some? ==>
        var route := metadata[lastRoute.value];
        && |layers| == |old(layers)| + 1 && layers[..|old(layers)|] == old(layers)
        && layers[|old(layers)|].layer == layer
        && ParseScope(route.template).Some?
        && layers[|old(layers)|].scope == OneRoute(route.verb, ParseScope(route.template).value)
        && forall values :: Covers(layers[|old(layers)|].scope, route, values)
    {
      if lastRoute.Some? {
        var route := metadata[lastRoute.value];
        ScopeAndTemplateAgree(route.template);
        layers := layers + [ScopedLayer(OneRoute(route.verb, ParseScope(route.template).value), layer)];
      }
    }

    /** `layer_for`: panics on exactly the patterns that are no route template. */
    method LayerFor(prefix: Bytes, layer: Request -> Action) returns (ok: bool)
      requires Valid()
      modifies this`layers
      ensures Valid() && (ok <==> ParseTemplate(prefix).Some?)
      ensures ok ==>
        ParseScope(prefix).Some? && layers == old(layers) + [ScopedLayer(Prefix(ParseScope(prefix).value), layer)]
      ensures !ok ==> layers == old(layers)
    {
      ScopeAndTemplateAgree(prefix);
      var segments := ParseScope(prefix);
      if segments.None? {
        return false;
      }
      layers := layers + [ScopedLayer(Prefix(segments.value), layer)];
      return true;
    }
  }

  method CountCaptures(segments: seq<Segment>) returns (count: nat)
    ensures count == CountAny(ShapesOf(segments))
  {
    count := 0;
    var shapes := ShapesOf(segments);
    for k := 0 to |segments|
      invariant count == CountAny(shapes[..k])
    {
      assert shapes[..k + 1] == shapes[..k] + [shapes[k]];
      CountAnyAppend(shapes[..k], shapes[k]);
      if segments[k].Capture? {
        count := count + 1;
      }
    }
    assert shapes[..|shapes|] == shapes;
  }
}
