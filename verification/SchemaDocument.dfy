/**
  What the registry has produced once every root type of an API has been
  registered: a document that depends on the type graph and the set of roots
  only, not on their order or on what was assumed on the way.
 */
module SchemaDocument {
  import opened Wrappers
  import opened TypeGraph
  import opened RegistryState
  import opened SchemaRegistry

  /** A type used in a response or in a request body. */
  datatype Root = Response(t: TypeId) | Request(t: TypeId)

  ghost predicate ReachedAs(g: Graph, roots: seq<Root>, t: TypeId) {
    exists r :: r in roots && Reaches(g, r.t, t)
  }

  ghost predicate ReachedAsRequest(g: Graph, roots: seq<Root>, t: TypeId) {
    exists r :: r in roots && r.Request? && Reaches(g, r.t, t)
  }

  ghost predicate RootsOk(g: Graph, roots: seq<Root>) {
    Closed(g, g.types) && forall r :: r in roots ==> r.t in g.types
  }

  ghost function PlanOf(g: Graph, roots: seq<Root>): Plan {
    var ins := set t | t in g.types && ReachedAsRequest(g, roots, t);
    Plan((set t | t in g.types && ReachedAs(g, roots, t)), ins, (set t | t in ins && Differs(g, t)))
  }

  /** The form a request refers to `t` in. */
  ghost function FinalRef(g: Graph, t: TypeId): string {
    if Differs(g, t) then g.info(t).name + "Input" else g.info(t).name
  }

  ghost function FinalRefs(g: Graph, ts: seq<TypeId>): (refs: seq<string>)
    ensures |refs| == |ts|
    ensures forall i :: 0 <= i < |ts| ==> refs[i] == FinalRef(g, ts[i])
  {
    seq(|ts|, i requires 0 <= i < |ts| => FinalRef(g, ts[i]))
  }

  ghost function FinalBody(g: Graph, t: TypeId): Schema {
    Body(Own(g, t), FinalRefs(g, Kids(g, t)))
  }

  /** The components an API with these types calls for: all of them, and nothing else. */
  ghost predicate IsDocument(g: Graph, plan: Plan, definitions: map<string, Schema>) {
    && (forall t :: t in plan.outs ==> Name(g, t) in definitions && definitions[Name(g, t)] == OutBody(g, t))
    && (forall t :: t in plan.ins && Differs(g, t) ==>
          InputName(g, t) in definitions && definitions[InputName(g, t)] == FinalBody(g, t))
    && (forall n :: n in definitions ==> exists t :: Contributes(g, plan, t, n))
  }

  lemma ReachIsClosed(g: Graph, roots: seq<Root>)
    requires RootsOk(g, roots)
    ensures PlanOk(g, PlanOf(g, roots))
  {
    var plan := PlanOf(g, roots);
    forall t, k {:trigger k in Kids(g, t)} | t in plan.outs && k in Kids(g, t)
      ensures k in plan.outs
    {
      var r :| r in roots && Reaches(g, r.t, t);
      ReachesStep(g, r.t, t, k);
    }
    forall t, k {:trigger k in Kids(g, t)} | t in plan.ins && k in Kids(g, t)
      ensures k in plan.ins
    {
      var r :| r in roots && r.Request? && Reaches(g, r.t, t);
      ReachesStep(g, r.t, t, k);
    }
    forall t | t in plan.ins
      ensures Own(g, t) ==> t in plan.differing
      ensures forall k {:trigger k in Kids(g, t)} :: k in Kids(g, t) && k in plan.differing ==> t in plan.differing
    {
      DiffersStep(g, t);
    }
  }

  /** Response components may be added between two registrations. */
  lemma OutsKeepValid(g: Graph, plan: Plan, s0: State, s1: State, since: map<TypeId, set<TypeId>>)
    requires Valid(g, plan, s0, since)
    requires s1.owners.Keys == s1.definitions.Keys && OutsAdded(g, plan, s0, s1)
    requires ConflictsOk(g, plan, s1.conflicts)
    ensures Valid(g, plan, s1, since)
  {
    assert BuildingSet(s1) == BuildingSet(s0) && DoneSet(s1) == DoneSet(s0);
    if s1.conflicts == [] {
      OutsKeepComponents(g, plan, s0, s1);
      forall u | IsDone(s1, u)
        ensures DoneOk(g, s1, u)
      {
        assert DoneOk(g, s0, u);
        BodiesEqual(g, s0, s1, u);
      }
      assert forall k :: IsBuilding(s0, k) == IsBuilding(s1, k);
      forall x | x in since
        ensures SelfContained(g, s1, since[x], x)
      {
        assert SelfContained(g, s0, since[x], x);
      }
    }
  }

  /** What a state in which nothing is being built and no name clashed amounts to. */
  ghost predicate Settled(g: Graph, plan: Plan, s: State) {
    && s.owners.Keys == s.definitions.Keys
    && s.inputs.Keys <= plan.ins
    && PlanOk(g, plan)
    && OwnersOk(g, plan, s.owners)
    && OutComponentsOk(g, s.owners, s.definitions)
    && DiffersOk(g, plan, s.inputDiffers)
    && forall t :: t in s.inputs ==> DoneOk(g, s, t)
  }

  lemma ValidSettles(g: Graph, plan: Plan, s: State)
    requires Valid(g, plan, s, map[]) && s.conflicts == []
    ensures Settled(g, plan, s)
  {
    forall t | t in s.inputs
      ensures DoneOk(g, s, t)
    {
      assert t !in BuildingSet(s);
      assert IsDone(s, t);
    }
  }

  /** Then every request form is the right one. */
  lemma SettledForms(g: Graph, plan: Plan, s: State, t: TypeId)
    requires Settled(g, plan, s) && t in s.inputs
    requires forall u :: u in plan.differing ==> Differs(g, u)
    ensures t in s.inputDiffers <==> Differs(g, t)
    ensures s.inputs[t] == Done(FinalRef(g, t))
  {
    if t !in s.inputDiffers {
      var same := set u | u in s.inputs && u !in s.inputDiffers;
      forall u | u in same
        ensures !Own(g, u) && forall k {:trigger k in Kids(g, u)} :: k in Kids(g, u) ==> k in same
      {
        assert DoneOk(g, s, u);
        BodyShowsDiffers(g, plan, s, u);
      }
      NothingDiffersInside(g, same, t);
    }
    assert DoneOk(g, s, t);
  }

  /** The types finished include all that the request roots reach. */
  lemma NoInputMissing(g: Graph, roots: seq<Root>, s: State)
    requires RootsOk(g, roots) && Settled(g, PlanOf(g, roots), s)
    requires forall r :: r in roots && r.Request? ==> r.t in s.inputs
    ensures forall t :: t in PlanOf(g, roots).ins ==> t in s.inputs
  {
    var done := s.inputs.Keys;
    assert Closed(g, done) by {
      forall t, k {:trigger k in Kids(g, t)} | t in done && k in Kids(g, t)
        ensures k in done
      {
        assert DoneOk(g, s, t);
      }
    }
    forall t | t in PlanOf(g, roots).ins
      ensures t in done
    {
      var r :| r in roots && r.Request? && Reaches(g, r.t, t);
      ReachesStaysInside(g, done, r.t, t);
    }
  }

  /** The types with a response component include all that the roots reach. */
  lemma NoOutputMissing(g: Graph, roots: seq<Root>, s: State)
    requires RootsOk(g, roots) && Settled(g, PlanOf(g, roots), s)
    requires forall r :: r in roots ==> OutOwned(g, s.owners, r.t)
    ensures forall t :: t in PlanOf(g, roots).outs ==> OutOwned(g, s.owners, t)
  {
    var owned := set t | t in g.types && OutOwned(g, s.owners, t);
    assert Closed(g, owned);
    forall t | t in PlanOf(g, roots).outs
      ensures OutOwned(g, s.owners, t)
    {
      var r :| r in roots && Reaches(g, r.t, t);
      ReachesStaysInside(g, owned, r.t, t);
    }
  }

  lemma NothingMissing(g: Graph, roots: seq<Root>, s: State)
    requires RootsOk(g, roots) && Settled(g, PlanOf(g, roots), s)
    requires forall r :: r in roots ==> if r.Request? then r.t in s.inputs else OutOwned(g, s.owners, r.t)
    requires forall t :: t in s.inputs ==> OutOwned(g, s.owners, t)
    ensures forall t :: t in PlanOf(g, roots).ins ==> t in s.inputs
    ensures forall t :: t in PlanOf(g, roots).outs ==> OutOwned(g, s.owners, t)
  {
    NoInputMissing(g, roots, s);
    NoOutputMissing(g, roots, s);
  }

  lemma FinalFormsShow(g: Graph, plan: Plan, s: State, t: TypeId)
    requires Settled(g, plan, s) && t in s.inputs
    requires forall u :: u in plan.differing ==> Differs(g, u)
    ensures CurrentBody(g, s, t) == FinalBody(g, t)
  {
    assert DoneOk(g, s, t);
    forall k | k in Kids(g, t)
      ensures RefOf(g, s, k) == FinalRef(g, k)
    {
      SettledForms(g, plan, s, k);
    }
    assert RefsOf(g, s, Kids(g, t)) == FinalRefs(g, Kids(g, t));
  }

  lemma DocumentIsRight(g: Graph, plan: Plan, s: State)
    requires Settled(g, plan, s)
    requires forall t :: t in plan.differing ==> Differs(g, t)
    requires forall t :: t in plan.ins ==> t in s.inputs
    requires forall t :: t in plan.outs ==> OutOwned(g, s.owners, t)
    ensures IsDocument(g, plan, s.definitions)
    ensures !Clash(g, plan)
  {
    forall t | t in plan.ins && Differs(g, t)
      ensures InputName(g, t) in s.owners && s.owners[InputName(g, t)] == t
      ensures s.definitions[InputName(g, t)] == FinalBody(g, t)
    {
      assert DoneOk(g, s, t);
      SettledForms(g, plan, s, t);
      FinalFormsShow(g, plan, s, t);
    }
    forall n, t | Contributes(g, plan, t, n)
      ensures n in s.owners && s.owners[n] == t
    {
    }
  }

  /** The most bodies built: quadratic in the number of types, although rebuilds nest. */
  function BuildBound(outs: nat, ins: nat): nat {
    outs + 2 * ins + 2 * (ins * ins)
  }

  /**
    Registers every root in order, as `App` does while routes are added. A
    conflict is reported exactly when two types need the same component name;
    otherwise the document is right and each reference returned on the way
    names the final form of its type. `builds` counts all bodies built, those for
    responses and those for requests.
   */
  method BuildDocument(g: Graph, roots: seq<Root>)
    returns (definitions: map<string, Schema>, conflicts: seq<string>, references: seq<string>, ghost builds: nat)
    requires RootsOk(g, roots)
    ensures conflicts == [] <==> !Clash(g, PlanOf(g, roots))
    ensures conflicts != [] ==> ClashOn(g, PlanOf(g, roots), conflicts[0])
    ensures forall i, j :: 0 <= i < j < |conflicts| ==> conflicts[i] != conflicts[j]
    ensures conflicts == [] ==> IsDocument(g, PlanOf(g, roots), definitions)
    ensures |references| == |roots|
    ensures conflicts == [] ==> forall i :: 0 <= i < |roots| ==>
      references[i] == if roots[i].Request? then FinalRef(g, roots[i].t) else Name(g, roots[i].t)
    ensures builds <= BuildBound(|PlanOf(g, roots).outs|, |PlanOf(g, roots).ins|)
  {
    ghost var plan := PlanOf(g, roots);
    ReachIsClosed(g, roots);
    RootsPlanned(g, roots);
    PlanDiffers(g, roots);
    hide Valid, Counted, OutCounted, PlanOf, FinalRef, IsDocument, RootDone, RootsOk, BuildBound, Clash, PlanOk,
        Differs, BuildingSet, OwnersOk;
    var registry := new Registry(g, plan);
    references := RegisterRoots(registry, roots);
    definitions, conflicts := registry.definitions, registry.conflicts;
    builds := registry.inputBuilds + registry.outputBuilds;
    CountedBound(g, plan, registry.Snap(), registry.rebuilt, registry.rebuilds, registry.inputBuilds,
                 registry.outputBuilds);
    AllRegistered(g, roots, registry.Snap(), references);
  }

  /** The roots in order. */
  method RegisterRoots(registry: Registry, roots: seq<Root>) returns (references: seq<string>)
    requires registry.Ok() && registry.since == map[]
    requires forall r :: r in roots ==> r.t in registry.plan.outs && (r.Request? ==> r.t in registry.plan.ins)
    requires forall t :: t in registry.plan.differing ==> Differs(registry.graph, t)
    modifies registry
    ensures registry.Ok() && registry.since == map[] && |references| == |roots|
    ensures registry.conflicts == [] ==> forall j :: 0 <= j < |roots| ==>
                                           RootDone(registry.graph, roots[j], registry.Snap(), references[j])
  {
    hide Valid, Counted, OutCounted, RootDone, Differs, BuildingSet;
    references := [];
    for i := 0 to |roots|
      invariant registry.Ok() && registry.since == map[]
      invariant |references| == i
      invariant registry.conflicts == [] ==> forall j :: 0 <= j < i ==>
        RootDone(registry.graph, roots[j], registry.Snap(), references[j])
    {
      var reference := RegisterRoot(registry, roots[i]);
      references := references + [reference];
    }
  }

  /** One registration at top level. */
  method RegisterRoot(registry: Registry, r: Root) returns (reference: string)
    requires registry.Ok() && registry.since == map[]
    requires r.t in registry.plan.outs && (r.Request? ==> r.t in registry.plan.ins)
    requires forall t :: t in registry.plan.differing ==> Differs(registry.graph, t)
    modifies registry
    ensures registry.Ok() && registry.since == map[]
    ensures old(registry.conflicts) <= registry.conflicts
    ensures registry.conflicts == [] ==> RootDone(registry.graph, r, registry.Snap(), reference)
    ensures registry.conflicts == [] ==> forall q, ref :: RootDone(registry.graph, q, old(registry.Snap()), ref) ==>
                                           RootDone(registry.graph, q, registry.Snap(), ref)
  {
    hide Valid, Counted, OutCounted, OutsAdded, Extends, OwnersOk, FinalRef, PlanOk, DoneOk, BuildingSet;
    ghost var g, plan, s, builds := registry.graph, registry.plan, registry.Snap(), registry.outputBuilds;
    ValidBasics(g, plan, s, map[]);
    StructuredBasics(plan, s);
    match r {
      case Response(t) =>
        reference := registry.Define(t);
        OutsKeepValid(g, plan, s, registry.Snap(), map[]);
        OutsStillCounted(g, plan, s, registry.Snap(), registry.rebuilt, registry.rebuilds, registry.inputBuilds);
        OutDefined(g, plan, s, registry.Snap(), registry.rebuilds, builds, registry.outputBuilds);
        OutsKeepRoots(g, plan, s, registry.Snap());
      case Request(t) =>
        reference := registry.DefineInput(t);
        InputKeepsRoots(g, s, registry.Snap());
        if registry.conflicts == [] {
          ValidSettles(g, plan, registry.Snap());
          SettledForms(g, plan, registry.Snap(), t);
        }
    }
  }

  /** With every root registered, the registry holds the document. */
  lemma AllRegistered(g: Graph, roots: seq<Root>, s: State, references: seq<string>)
    requires RootsOk(g, roots) && Valid(g, PlanOf(g, roots), s, map[])
    requires |references| == |roots|
    requires s.conflicts == [] ==> forall j :: 0 <= j < |roots| ==> RootDone(g, roots[j], s, references[j])
    ensures s.conflicts == [] <==> !Clash(g, PlanOf(g, roots))
    ensures ConflictsOk(g, PlanOf(g, roots), s.conflicts)
    ensures s.conflicts == [] ==> IsDocument(g, PlanOf(g, roots), s.definitions)
    ensures s.conflicts == [] ==> forall i :: 0 <= i < |roots| ==>
      references[i] == if roots[i].Request? then FinalRef(g, roots[i].t) else Name(g, roots[i].t)
  {
    assert s.conflicts != [] ==> Clash(g, PlanOf(g, roots));
    hide Clash, ClashOn, IsDocument, PlanOf;
    var plan := PlanOf(g, roots);
    if s.conflicts == [] {
      ValidSettles(g, plan, s);
      forall r | r in roots
        ensures if r.Request? then r.t in s.inputs else OutOwned(g, s.owners, r.t)
      {
        var j :| 0 <= j < |roots| && roots[j] == r;
        assert RootDone(g, roots[j], s, references[j]);
      }
      NothingMissing(g, roots, s);
      PlanDiffers(g, roots);
      DocumentIsRight(g, plan, s);
    }
  }

  lemma PlanDiffers(g: Graph, roots: seq<Root>)
    ensures forall t :: t in PlanOf(g, roots).differing ==> Differs(g, t)
  {
  }

  ghost predicate RootDone(g: Graph, r: Root, s: State, reference: string) {
    if r.Request? then
      r.t in s.inputs && reference == FinalRef(g, r.t)
    else
      OutOwned(g, s.owners, r.t) && reference == Name(g, r.t)
  }

  lemma RootsPlanned(g: Graph, roots: seq<Root>)
    requires RootsOk(g, roots)
    ensures forall r :: r in roots ==> r.t in PlanOf(g, roots).outs
    ensures forall r :: r in roots && r.Request? ==> r.t in PlanOf(g, roots).ins
  {
    forall r | r in roots
      ensures Reaches(g, r.t, r.t)
    {
      ReachesSelf(g, r.t);
    }
  }

  lemma OutsStillCounted(g: Graph, plan: Plan, s0: State, s1: State, rebuilt: set<TypeId>, rebuilds: nat,
                         inputBuilds: nat)
    requires s0.owners.Keys == s0.definitions.Keys && s1.owners.Keys == s1.definitions.Keys
      && OutsAdded(g, plan, s0, s1)
    requires Counted(plan, s0, rebuilt, rebuilds, inputBuilds)
    ensures Counted(plan, s1, rebuilt, rebuilds, inputBuilds)
  {
  }

  lemma CountedBound(g: Graph, plan: Plan, s: State, rebuilt: set<TypeId>, rebuilds: nat, inputBuilds: nat,
                     outputBuilds: nat)
    requires Counted(plan, s, rebuilt, rebuilds, inputBuilds)
    requires OutCounted(g, plan, s.owners.Keys, rebuilds, outputBuilds)
    ensures inputBuilds + outputBuilds <= BuildBound(|plan.outs|, |plan.ins|)
  {
    SubsetCardinality(rebuilt, plan.ins);
    SubsetCardinality(s.inputs.Keys, plan.ins);
    SubsetCardinality(s.owners.Keys, AllNames(g, plan));
    AllNamesBound(g, plan);
    hide AllNames;
    Quadratic(|plan.outs|, |plan.ins|, rebuilds, |s.inputs|, |s.owners.Keys|, inputBuilds, outputBuilds);
  }

  lemma Quadratic(outs: nat, ins: nat, rebuilds: nat, inputs: nat, names: nat, inputBuilds: nat, outputBuilds: nat)
    requires rebuilds <= ins && inputs <= ins && names <= outs + ins
    requires inputBuilds <= inputs + ins * rebuilds && outputBuilds <= names + ins * rebuilds
    ensures inputBuilds + outputBuilds <= BuildBound(outs, ins)
  {
    assert ins * rebuilds <= ins * ins;
  }

  lemma AllNamesBound(g: Graph, plan: Plan)
    ensures |AllNames(g, plan)| <= |plan.outs| + |plan.ins|
  {
    var a, b := Images(plan.outs, u => Name(g, u)), Images(plan.ins, u => InputName(g, u));
    FewNames(plan.outs, u => Name(g, u));
    FewNames(plan.ins, u => InputName(g, u));
    assert AllNames(g, plan) == a + b;
    assert |a + b| == |a| + |b| - |a * b|;
  }

  ghost function Images(ts: set<TypeId>, f: TypeId -> string): set<string> {
    set t | t in ts :: f(t)
  }

  lemma {:induction false} FewNames(ts: set<TypeId>, f: TypeId -> string)
    ensures |Images(ts, f)| <= |ts|
  {
    if t :| t in ts {
      FewNames(ts - {t}, f);
      assert Images(ts, f) == Images(ts - {t}, f) + {f(t)};
    } else {
      assert Images(ts, f) == {};
    }
  }

  lemma OutsKeepRoots(g: Graph, plan: Plan, s0: State, s1: State)
    requires s0.owners.Keys == s0.definitions.Keys && s1.owners.Keys == s1.definitions.Keys
      && OutsAdded(g, plan, s0, s1)
    ensures s0.conflicts <= s1.conflicts
    ensures forall r, reference :: RootDone(g, r, s0, reference) ==> RootDone(g, r, s1, reference)
  {
  }

  lemma InputKeepsRoots(g: Graph, s0: State, s1: State)
    requires Extends(s0, s1)
    ensures s0.conflicts <= s1.conflicts
    ensures s1.conflicts == [] ==> forall r, reference :: RootDone(g, r, s0, reference) ==>
                                     RootDone(g, r, s1, reference)
  {
  }

  // ---- The main properties of a document ----

  /** The document is determined by the graph and what is reached: there is only one. */
  lemma DocumentIsUnique(g: Graph, plan: Plan, a: map<string, Schema>, b: map<string, Schema>)
    requires IsDocument(g, plan, a) && IsDocument(g, plan, b)
    requires forall t :: t in plan.differing ==> Differs(g, t)
    ensures a == b
  {
    forall n | n in a
      ensures n in b && a[n] == b[n]
    {
      var t :| Contributes(g, plan, t, n);
    }
    forall n | n in b
      ensures n in a
    {
      var t :| Contributes(g, plan, t, n);
    }
  }

  /** The order in which root types are registered, and repetitions among them, do not matter. */
  lemma OrderDoesNotMatter(g: Graph, rs: seq<Root>, ss: seq<Root>, a: map<string, Schema>, b: map<string, Schema>)
    requires forall r :: r in rs <==> r in ss
    requires IsDocument(g, PlanOf(g, rs), a) && IsDocument(g, PlanOf(g, ss), b)
    ensures PlanOf(g, rs) == PlanOf(g, ss)
    ensures a == b
  {
    var p, q := PlanOf(g, rs), PlanOf(g, ss);
    assert p.ins == q.ins;
    assert p.outs == q.outs;
    assert p.differing == q.differing;
    DocumentIsUnique(g, p, a, b);
  }

  /** Every `$ref` in every stored body resolves. */
  lemma EveryReferenceResolves(g: Graph, plan: Plan, definitions: map<string, Schema>, n: string, i: nat)
    requires PlanOk(g, plan) && IsDocument(g, plan, definitions)
    requires forall t :: t in plan.differing ==> Differs(g, t)
    requires n in definitions
    ensures definitions[n].Body?
    ensures i < |definitions[n].refs| ==> definitions[n].refs[i] in definitions
  {
    var t :| Contributes(g, plan, t, n);
    var kids := Kids(g, t);
    if i < |kids| {
      var k := kids[i];
      assert k in Kids(g, t);
    }
  }
}
