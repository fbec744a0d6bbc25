/**
  The types of an API as a graph. A type has a component name, a flag saying
  whether its own request form differs from its own response form, and the
  types its fields refer to. Cycles are allowed.
 */
module TypeGraph {
  /** Stands for `std::any::type_name`: only equality of types matters. */
  type TypeId = int

  datatype TypeInfo = TypeInfo(name: string, ownDiffers: bool, children: seq<TypeId>)

  datatype Graph = Graph(types: set<TypeId>, info: TypeId -> TypeInfo)

  function Name(g: Graph, t: TypeId): string {
    g.info(t).name
  }

  function InputName(g: Graph, t: TypeId): string {
    g.info(t).name + "Input"
  }

  function Kids(g: Graph, t: TypeId): seq<TypeId> {
    g.info(t).children
  }

  function Own(g: Graph, t: TypeId): bool {
    g.info(t).ownDiffers
  }

  /** The children of a type of `s` are in `s`. */
  ghost predicate Closed(g: Graph, s: set<TypeId>) {
    forall t, k {:trigger k in Kids(g, t)} :: t in s && k in Kids(g, t) ==> k in s
  }

  ghost predicate Path(g: Graph, p: seq<TypeId>) {
    && p != []
    && forall i :: 0 <= i < |p| - 1 ==> p[i + 1] in Kids(g, p[i])
  }

  ghost predicate PathBetween(g: Graph, p: seq<TypeId>, a: TypeId, b: TypeId) {
    Path(g, p) && p[0] == a && p[|p| - 1] == b
  }

  ghost predicate Reaches(g: Graph, a: TypeId, b: TypeId) {
    exists p :: PathBetween(g, p, a, b)
  }

  /** The request form of `t` differs: `t` differs itself or reaches a type that does. */
  ghost predicate Differs(g: Graph, t: TypeId) {
    exists b :: Reaches(g, t, b) && Own(g, b)
  }

  lemma ReachesSelf(g: Graph, a: TypeId)
    ensures Reaches(g, a, a)
  {
    assert PathBetween(g, [a], a, a);
  }

  lemma ReachesVia(g: Graph, a: TypeId, k: TypeId, b: TypeId)
    requires k in Kids(g, a) && Reaches(g, k, b)
    ensures Reaches(g, a, b)
  {
    var p :| PathBetween(g, p, k, b);
    assert PathBetween(g, [a] + p, a, b);
  }

  lemma ReachesStep(g: Graph, a: TypeId, b: TypeId, k: TypeId)
    requires Reaches(g, a, b) && k in Kids(g, b)
    ensures Reaches(g, a, k)
  {
    var p :| PathBetween(g, p, a, b);
    assert PathBetween(g, p + [k], a, k);
  }

  lemma {:induction false} PathStaysInside(g: Graph, s: set<TypeId>, p: seq<TypeId>)
    requires Closed(g, s) && Path(g, p) && p[0] in s
    ensures p[|p| - 1] in s
  {
    if |p| > 1 {
      var a, k := p[0], p[1];
      assert k in Kids(g, a);
      PathStaysInside(g, s, p[1..]);
    }
  }

  lemma ReachesStaysInside(g: Graph, s: set<TypeId>, a: TypeId, b: TypeId)
    requires Closed(g, s) && a in s && Reaches(g, a, b)
    ensures b in s
  {
    var p :| PathBetween(g, p, a, b);
    PathStaysInside(g, s, p);
  }

  lemma DiffersStep(g: Graph, t: TypeId)
    ensures Own(g, t) ==> Differs(g, t)
    ensures forall k :: k in Kids(g, t) && Differs(g, k) ==> Differs(g, t)
  {
    ReachesSelf(g, t);
    forall k | k in Kids(g, t) && Differs(g, k)
      ensures Differs(g, t)
    {
      var b :| Reaches(g, k, b) && Own(g, b);
      ReachesVia(g, t, k, b);
    }
  }

  /** A closed set without a type that differs itself contains no type that differs. */
  lemma NothingDiffersInside(g: Graph, s: set<TypeId>, t: TypeId)
    requires Closed(g, s) && t in s
    requires forall u :: u in s ==> !Own(g, u)
    ensures !Differs(g, t)
  {
    forall b | Reaches(g, t, b)
      ensures !Own(g, b)
    {
      ReachesStaysInside(g, s, t, b);
    }
  }

  /** `s` satisfies "a type is in it when it differs itself or has a child in it". */
  ghost predicate ClosedUpwards(g: Graph, s: iset<TypeId>) {
    forall t :: Own(g, t) || (exists k :: k in Kids(g, t) && k in s) ==> t in s
  }

  lemma {:induction false} PathPullsBack(g: Graph, s: iset<TypeId>, p: seq<TypeId>)
    requires ClosedUpwards(g, s) && Path(g, p) && Own(g, p[|p| - 1])
    ensures p[0] in s
  {
    if |p| > 1 {
      PathPullsBack(g, s, p[1..]);
      var a, k := p[0], p[1];
      assert k in Kids(g, a) && k in s;
    }
  }

  /** `Differs` is the least set of types closed under "differs itself or has a child that does". */
  lemma DiffersIsLeastFixpoint(g: Graph)
    ensures ClosedUpwards(g, iset t | Differs(g, t))
    ensures forall s: iset<TypeId> :: ClosedUpwards(g, s) ==> (iset t | Differs(g, t)) <= s
    ensures forall t :: Differs(g, t) ==> Own(g, t) || exists k :: k in Kids(g, t) && Differs(g, k)
  {
    forall t
      ensures Own(g, t) || (exists k :: k in Kids(g, t) && Differs(g, k)) ==> Differs(g, t)
    {
      DiffersStep(g, t);
    }
    forall s: iset<TypeId>, t | ClosedUpwards(g, s) && Differs(g, t)
      ensures t in s
    {
      var b :| Reaches(g, t, b) && Own(g, b);
      var p :| PathBetween(g, p, t, b);
      PathPullsBack(g, s, p);
    }
    forall t | Differs(g, t)
      ensures Own(g, t) || exists k :: k in Kids(g, t) && Differs(g, k)
    {
      var b :| Reaches(g, t, b) && Own(g, b);
      var p :| PathBetween(g, p, t, b);
      if |p| > 1 {
        assert p[1] in Kids(g, t);
        assert PathBetween(g, p[1..], p[1], b);
        assert Reaches(g, p[1], b);
      }
    }
  }
}
