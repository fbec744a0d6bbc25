/** `SchemaRegistry`: components of an OpenAPI document, built speculatively over a cyclic graph of types. */
module SchemaRegistry {
  import opened Wrappers
  import opened TypeGraph
  import opened RegistryState

  /** The names a document's response forms can take. */
  ghost function NamesOf(g: Graph, plan: Plan): set<string> {
    set u | u in plan.outs :: Name(g, u)
  }

  /** The types rebuilt so far are distinct and known to differ, and bound how many request bodies were built. */
  ghost predicate Counted(plan: Plan, s: State, rebuilt: set<TypeId>, rebuilds: nat, inputBuilds: nat) {
    && rebuilt <= s.inputDiffers <= plan.ins
    && rebuilt !! s.assumedSame
    && rebuilds == |rebuilt|
    && s.inputs.Keys <= plan.ins
    && inputBuilds <= |s.inputs| + |plan.ins| * rebuilds
  }

  /** All names a component can take. */
  ghost function AllNames(g: Graph, plan: Plan): set<string> {
    NamesOf(g, plan) + set u | u in plan.ins :: InputName(g, u)
  }

  /** Each response body built gave its component a name, and only a rollback takes names away: at most one per type. */
  ghost predicate OutCounted(g: Graph, plan: Plan, names: set<string>, rebuilds: nat, outputBuilds: nat) {
    names <= AllNames(g, plan) && outputBuilds <= |names| + |plan.ins| * rebuilds
  }

  class Registry {
    const graph: Graph
    /** The types the whole document needs, fixed before the first registration. */
    ghost const plan: Plan

    var definitions: map<string, Schema>
    var owners: map<string, TypeId>
    var conflicts: seq<string>
    var inputs: map<TypeId, InputState>
    var inputDiffers: set<TypeId>
    var assumedSame: set<TypeId>
    var completed: seq<Completed>

    /** What was finished when each type now being built started. */
    ghost var since: map<TypeId, set<TypeId>>
    /** The types discarded and rebuilt so far, and how often a rebuild took place. */
    ghost var rebuilt: set<TypeId>
    ghost var rebuilds: nat
    /** How often a request body and a response body was built. */
    ghost var inputBuilds: nat
    ghost var outputBuilds: nat

    ghost function Snap(): State
      reads this
    {
      State(definitions, owners, conflicts, inputs, inputDiffers, assumedSame, completed)
    }

    /** Building a response body and giving it a name go together. */
    ghost function Surplus(): int
      reads this
    {
      outputBuilds - |owners.Keys|
    }

    ghost predicate Ok()
      reads this
    {
      && Valid(graph, plan, Snap(), since)
      && Counted(plan, Snap(), rebuilt, rebuilds, inputBuilds)
      && OutCounted(graph, plan, owners.Keys, rebuilds, outputBuilds)
    }

    constructor (graph: Graph, ghost plan: Plan)
      requires PlanOk(graph, plan)
      ensures this.graph == graph && this.plan == plan
      ensures Ok() && conflicts == [] && since == map[]
      ensures definitions == map[] && inputs == map[] && inputBuilds == 0
    {
      this.graph, this.plan := graph, plan;
      definitions, owners, conflicts := map[], map[], [];
      inputs, inputDiffers, assumedSame, completed := map[], {}, {}, [];
      since, rebuilt, rebuilds, inputBuilds, outputBuilds := map[], {}, 0, 0, 0;
      new;
      assert OwnersOf(completed) == DoneSet(Snap());
      assert since.Keys == BuildingSet(Snap());
    }

    /** `define`: the response form of `t`, built once, by name. */
    method Define(t: TypeId) returns (reference: string)
      requires PlanOk(graph, plan) && t in plan.outs
      requires owners.Keys == definitions.Keys
      requires conflicts == [] ==> OwnersOk(graph, plan, owners)
      requires ConflictsOk(graph, plan, conflicts)
      modifies this`definitions, this`owners, this`conflicts, this`outputBuilds
      ensures owners.Keys == definitions.Keys
      ensures Surplus() == old(Surplus())
      ensures conflicts == [] ==> OwnersOk(graph, plan, owners)
      ensures ConflictsOk(graph, plan, conflicts)
      ensures OutsAdded(graph, plan, old(Snap()), Snap())
      ensures conflicts == [] ==> OutOwned(graph, owners, t)
      ensures reference == Name(graph, t)
      ensures reference in old(owners) ==>
        && owners == old(owners) && definitions == old(definitions)
        && conflicts == if old(owners)[reference] == t || reference in old(conflicts) then old(conflicts)
                        else old(conflicts) + [reference]
      decreases NamesOf(graph, plan) - owners.Keys, 0
    {
      var name := Name(graph, t);
      if name in owners && owners[name] != t {
        assert conflicts == [] ==> Contributes(graph, plan, t, name) && Contributes(graph, plan, owners[name], name);
        if name !in conflicts {
          assert conflicts == [] ==> ClashOn(graph, plan, name);
          OneConflictMore(graph, plan, conflicts, name);
          conflicts := conflicts + [name];
        }
      } else if name !in owners {
        assert name in NamesOf(graph, plan) - owners.Keys;
        ghost var s0 := Snap();
        OneNameMore(owners, name, t);
        owners := owners[name := t];
        definitions := definitions[name := Pending];
        outputBuilds := outputBuilds + 1;
        assert Surplus() == old(Surplus());
        hide Surplus, OutsAdded;
        ghost var s1 := Snap();
        var schema := Output(t);
        DefinitionAdded(graph, plan, s0, s1, Snap(), t, schema);
        definitions := definitions[name := schema];
      }
      return name;
    }

    /** The body of the response form of `t`. */
    method Output(t: TypeId) returns (body: Schema)
      requires PlanOk(graph, plan) && t in plan.outs
      requires owners.Keys == definitions.Keys
      requires conflicts == [] ==> OwnersOk(graph, plan, owners)
      requires ConflictsOk(graph, plan, conflicts)
      modifies this`definitions, this`owners, this`conflicts, this`outputBuilds
      ensures owners.Keys == definitions.Keys
      ensures Surplus() == old(Surplus())
      ensures conflicts == [] ==> OwnersOk(graph, plan, owners)
      ensures ConflictsOk(graph, plan, conflicts)
      ensures OutsAdded(graph, plan, old(Snap()), Snap())
      ensures conflicts == [] ==> forall k :: k in Kids(graph, t) ==> OutOwned(graph, owners, k)
      ensures body == OutBody(graph, t)
      decreases NamesOf(graph, plan) - owners.Keys, 1
    {
      var kids := Kids(graph, t);
      var refs := [];
      hide OutAddedOk, OwnersOk, ConflictsOk, OutOwned, Surplus;
      for i := 0 to |kids|
        invariant owners.Keys == definitions.Keys
        invariant Surplus() == old(Surplus())
        invariant conflicts == [] ==> OwnersOk(graph, plan, owners)
        invariant ConflictsOk(graph, plan, conflicts)
        invariant OutsAdded(graph, plan, old(Snap()), Snap())
        invariant conflicts == [] ==> forall j :: 0 <= j < i ==> OutOwned(graph, owners, kids[j])
        invariant refs == Names(graph, kids)[..i]
      {
        ghost var s1 := Snap();
        var k := kids[i];
        assert k in Kids(graph, t);
        var reference := Define(k);
        refs := refs + [reference];
        OutsAddedTransitive(graph, plan, old(Snap()), s1, Snap());
        forall j | 0 <= j < i && conflicts == []
          ensures OutOwned(graph, owners, kids[j])
        {
          StillOwned(graph, plan, s1, Snap(), kids[j]);
        }
      }
      return Body(false, refs);
    }

    /**
      `define_input`: the request form of `t`. Where `t` is unfinished further up
      the stack, it is taken to be unchanged; should that turn out wrong there,
      `Rebuild` undoes what has relied on it.
     */
    method DefineInput(t: TypeId) returns (reference: string)
      requires Ok() && t in plan.ins
      modifies this
      ensures Ok() && since == old(since)
      ensures Extends(old(Snap()), Snap())
      ensures t in inputs && reference == RefOf(graph, Snap(), t)
      ensures IsBuilding(Snap(), t) && t !in inputDiffers ==> t in assumedSame
      decreases plan.ins - BuildingSet(Snap()), 1
    {
      if t in inputs {
        match inputs[t]
        case Done(schema) => return schema;
        case Building =>
          if t in inputDiffers {
            return InputName(graph, t);
          } else {
            AssumeKeepsValid(graph, plan, Snap(), since, t);
            CountFinish(plan, Snap(), Snap().(assumedSame := assumedSame + {t}), t, rebuilt, rebuilds, inputBuilds);
            assumedSame := assumedSame + {t};
            assert BuildingSet(Snap()) == BuildingSet(old(Snap()));
            return Name(graph, t);
          }
      }
      reference := Build(t);
    }

    /** The request form of a type met for the first time, or again after it was forgotten. */
    method Build(t: TypeId) returns (reference: string)
      requires Ok() && t in plan.ins && t !in inputs
      modifies this
      ensures Ok() && since == old(since)
      ensures Extends(old(Snap()), Snap())
      ensures t in inputs && inputs[t] == Done(reference)
      decreases plan.ins - BuildingSet(Snap()), 0
    {
      hide Counted, OutCounted, Valid, ExtendsBut, Extends, OutsAdded, ReadyToFinish, CurrentBody, OutBody, PlanOk,
          OwnersOk, Structured, OwnersOf, Distinct, DoneSet, ConflictsOk;
      ghost var s0, since0 := Snap(), since;
      var startedAt := |completed|;
      var outputRef := Start(t);
      ghost var s1 := Snap();
      var built := Input(t);
      BuildExtends(s0, s1, Snap(), t);
      CanFinish(graph, plan, s0, since0, Snap(), t);
      if conflicts == [] {
        ComparesForms(graph, plan, Snap(), since, t);
      }
      if outputRef in definitions && definitions[outputRef] == built {
        FinishSame(t, s0, since0, outputRef);
        reference := outputRef;
      } else {
        if t in assumedSame {
          built := Rebuild(t, startedAt, s0, since0);
        }
        FinishDiffers(t, s0, since0, built);
        reference := InputName(graph, t);
      }
    }

    /** Marks `t` as being built and puts its response form in place. */
    method Start(t: TypeId) returns (outputRef: string)
      requires Ok() && t in plan.ins && t !in inputs
      modifies this
      ensures Ok() && t !in old(since) && since == old(since)[t := DoneSet(old(Snap()))]
      ensures ExtendsBut(old(Snap()), Snap(), t) && IsBuilding(Snap(), t)
      ensures BuildingSet(Snap()) == BuildingSet(old(Snap())) + {t} && t !in BuildingSet(old(Snap()))
      ensures outputRef == Name(graph, t)
    {
      hide Counted, OutCounted, Valid, ExtendsBut, OutsAdded, PlanOk, OwnersOk, Structured, DoneSet, ConflictsOk,
          BuildingSet;
      ghost var s0, builds := Snap(), outputBuilds;
      ValidBasics(graph, plan, s0, since);
      PlanIncludes(graph, plan, t);
      StructuredBasics(plan, s0);
      outputRef := MarkBuilding(t);
      ghost var s1 := Snap();
      Started(graph, plan, s0, s1, since, t, rebuilt, rebuilds, inputBuilds);
      OutStarted(graph, plan, s0, s1, t, rebuilds, builds, outputBuilds);
      since := since[t := DoneSet(s0)];
      inputBuilds := inputBuilds + 1;
    }

    method MarkBuilding(t: TypeId) returns (outputRef: string)
      requires PlanOk(graph, plan) && t in plan.outs && owners.Keys == definitions.Keys
      requires conflicts == [] ==> OwnersOk(graph, plan, owners)
      requires ConflictsOk(graph, plan, conflicts)
      modifies this`inputs, this`definitions, this`owners, this`conflicts, this`outputBuilds
      ensures owners.Keys == definitions.Keys && outputRef == Name(graph, t)
      ensures OutsAdded(graph, plan, old(Snap()).(inputs := old(inputs)[t := Building]), Snap())
      ensures conflicts == [] ==> OutOwned(graph, owners, t)
      ensures ConflictsOk(graph, plan, conflicts)
      ensures outputBuilds - |owners.Keys| == old(outputBuilds) - |old(owners.Keys)|
    {
      hide OutsAdded, OutOwned, ConflictsOk, OwnersOk, PlanOk;
      inputs := inputs[t := Building];
      outputRef := Define(t);
    }

    /** `t` is finished under its plain name. */
    method FinishSame(t: TypeId, ghost s0: State, ghost since0: map<TypeId, set<TypeId>>, outputRef: string)
      requires Ok() && ExtendsBut(s0, Snap(), t) && outputRef == Name(graph, t)
      requires t !in since0 && t in since && since == since0[t := since[t]]
      requires conflicts == [] ==>
        ReadyToFinish(graph, Snap(), since, t) && CurrentBody(graph, Snap(), t) == OutBody(graph, t)
      modifies this
      ensures Ok() && since == since0
      ensures Extends(s0, Snap())
      ensures t in inputs && inputs[t] == Done(outputRef)
    {
      hide Counted, OutCounted, Valid, ExtendsBut, Extends, ReadyToFinish, CurrentBody, OutBody, BuildingSet;
      ghost var s2 := Snap();
      ButBasics(s0, s2, t);
      FinishSameKeepsValid(graph, plan, s2, since, t);
      SinceRestored(since0, since, t);
      inputs := inputs[t := Done(outputRef)];
      completed := completed + [Completed(t, None)];
      since := since0;
      FinishExtends(s0, s2, Snap(), t);
      CountFinish(plan, s2, Snap(), t, rebuilt, rebuilds, inputBuilds);
    }

    /** `t` is finished under its `Input` name, which `built` is registered as. */
    method FinishDiffers(t: TypeId, ghost s0: State, ghost since0: map<TypeId, set<TypeId>>, built: Schema)
      requires Ok() && ExtendsBut(s0, Snap(), t)
      requires t !in since0 && t in since && since == since0[t := since[t]]
      requires conflicts == [] ==>
        && ReadyToFinish(graph, Snap(), since, t)
        && built == CurrentBody(graph, Snap(), t) && built != OutBody(graph, t)
      requires t in inputDiffers || t !in assumedSame
      modifies this
      ensures Ok() && since == since0
      ensures Extends(s0, Snap())
      ensures t in inputs && inputs[t] == Done(InputName(graph, t))
    {
      hide Counted, OutCounted, Valid, ExtendsBut, Extends, ReadyToFinish, CurrentBody, OutBody, BuildingSet,
          ConflictsOk;
      ghost var s2 := Snap();
      FinishedDiffersOk(graph, plan, s0, s2, since0, since, t, built, rebuilt, rebuilds, inputBuilds);
      FinishedDiffersCounted(graph, plan, s2, since, t, built, rebuilds, outputBuilds);
      RecordDiffers(t, built);
      since := since0;
    }

    method RecordDiffers(t: TypeId, built: Schema)
      modifies this`inputs, this`inputDiffers, this`completed, this`owners, this`definitions, this`conflicts
      ensures Snap() == FinishedDiffers(graph, old(Snap()), t, built)
    {
      var inputName := InputName(graph, t);
      inputDiffers := inputDiffers + {t};
      Register(inputName, t, built);
      inputs := inputs[t := Done(inputName)];
      completed := completed + [Completed(t, Some(inputName))];
    }

    /** Registers `built` as component `inputName`, unless another type has that name. */
    method Register(inputName: string, t: TypeId, built: Schema)
      modifies this`owners, this`definitions, this`conflicts
      ensures
        if inputName in old(owners) && old(owners)[inputName] != t then
          && owners == old(owners) && definitions == old(definitions)
          && conflicts == if inputName in old(conflicts) then old(conflicts) else old(conflicts) + [inputName]
        else
          && owners == old(owners)[inputName := t] && definitions == old(definitions)[inputName := built]
          && conflicts == old(conflicts)
    {
      if inputName in owners && owners[inputName] != t {
        if inputName !in conflicts {
          conflicts := conflicts + [inputName];
        }
      } else {
        owners := owners[inputName := t];
        definitions := definitions[inputName := built];
      }
    }

    /** Something built since `t` started referred to it as unchanged: forget all that and build `t` again. */
    method Rebuild(t: TypeId, startedAt: nat, ghost s0: State, ghost since0: map<TypeId, set<TypeId>>)
      returns (built: Schema)
      requires Ok() && t in plan.ins && t in assumedSame
      requires Valid(graph, plan, s0, since0) && ExtendsBut(s0, Snap(), t)
      requires startedAt == |s0.completed| && since == since0[t := DoneSet(s0)]
      requires conflicts == [] ==>
        ReadyToFinish(graph, Snap(), since, t) && CurrentBody(graph, Snap(), t) != OutBody(graph, t)
      modifies this
      ensures Ok() && since == old(since) && t in inputDiffers
      ensures ExtendsBut(s0, Snap(), t)
      ensures conflicts == [] ==>
        && ReadyToFinish(graph, Snap(), since, t)
        && built == CurrentBody(graph, Snap(), t) && built != OutBody(graph, t)
      decreases plan.ins - BuildingSet(Snap()), 3
    {
      hide Counted, OutCounted, Valid, Structured, ExtendsBut, Extends, ReadyToFinish, CurrentBody, OutBody, DoneSet,
          RolledBack, BuildingSet;
      ghost var s2 := Snap();
      RebuildStarts(graph, plan, s0, s2, since0, since, t, rebuilt, rebuilds, inputBuilds);
      ValidBasics(graph, plan, s2, since);
      inputDiffers := inputDiffers + {t};
      assumedSame := assumedSame - {t};
      Forget(t, startedAt, s2);
      OutRolledBack(graph, plan, s2, t, startedAt, rebuilds, outputBuilds);
      rebuilt, rebuilds, inputBuilds := rebuilt + {t}, rebuilds + 1, inputBuilds + 1;
      ghost var s3 := Snap();
      built := Input(t);
      RebuildEnds(graph, plan, s0, s3, Snap(), since0, t);
    }

    /** The request body of `t`, its children in the forms they have by now. */
    method Input(t: TypeId) returns (body: Schema)
      requires Ok() && IsBuilding(Snap(), t)
      modifies this
      ensures Ok() && since == old(since)
      ensures Extends(old(Snap()), Snap())
      ensures forall k {:trigger k in Kids(graph, t)} :: k in Kids(graph, t) ==> k in inputs
      ensures forall k {:trigger k in Kids(graph, t)} ::
                k in Kids(graph, t) && IsBuilding(Snap(), k) && k !in inputDiffers ==> k in assumedSame
      ensures body == CurrentBody(graph, Snap(), t)
      decreases plan.ins - BuildingSet(Snap()), 2
    {
      hide Counted, OutCounted, Valid, Structured;
      ValidBasics(graph, plan, Snap(), since);
      KidsPlanned(graph, plan, Snap(), t);
      var kids := Kids(graph, t);
      var refs := [];
      for i := 0 to |kids|
        invariant Ok() && since == old(since)
        invariant Extends(old(Snap()), Snap())
        invariant |refs| == i
        invariant forall j :: 0 <= j < i ==> kids[j] in inputs && refs[j] == RefOf(graph, Snap(), kids[j])
        invariant forall j :: 0 <= j < i && IsBuilding(Snap(), kids[j]) && kids[j] !in inputDiffers ==>
                    kids[j] in assumedSame
      {
        ghost var s1 := Snap();
        var k := kids[i];
        assert k in Kids(graph, t);
        var reference := DefineInput(k);
        refs := refs + [reference];
        ExtendsTransitive(old(Snap()), s1, Snap());
        forall j | 0 <= j < i
          ensures kids[j] in inputs && refs[j] == RefOf(graph, Snap(), kids[j])
          ensures IsBuilding(Snap(), kids[j]) && kids[j] !in inputDiffers ==> kids[j] in assumedSame
        {
          ExtendsKeepsRefs(graph, s1, Snap(), kids[j]);
        }
      }
      assert refs == RefsOf(graph, Snap(), kids);
      return Body(Own(graph, t), refs);
    }

    /** The rollback loop: forgets what finished since `t` started. */
    method Forget(t: TypeId, startedAt: nat, ghost s: State)
      requires startedAt <= |completed|
      requires Snap() == s.(inputDiffers := s.inputDiffers + {t}, assumedSame := s.assumedSame - {t})
      modifies this`inputs, this`definitions, this`owners, this`completed
      ensures Snap() == RolledBack(s, startedAt, t)
    {
      hide OwnersOf, ComponentsOf;
      var dropped := completed[startedAt..];
      completed := completed[..startedAt];
      NothingForgotten(s);
      assert dropped[..0] == [];
      for i := 0 to |dropped|
        invariant completed == s.completed[..startedAt]
        invariant inputs == s.inputs - OwnersOf(dropped[..i])
        invariant definitions == s.definitions - ComponentsOf(dropped[..i])
        invariant owners == s.owners - ComponentsOf(dropped[..i])
      {
        ForgetOne(s, dropped, i);
        inputs := inputs - {dropped[i].owner};
        match dropped[i].component
        case None =>
        case Some(component) =>
          definitions := definitions - {component};
          owners := owners - {component};
      }
      assert dropped[..|dropped|] == dropped;
    }
  }

  lemma Started(g: Graph, plan: Plan, s0: State, s1: State, since: map<TypeId, set<TypeId>>, t: TypeId,
                rebuilt: set<TypeId>, rebuilds: nat, inputBuilds: nat)
    requires Valid(g, plan, s0, since) && t in plan.ins && t !in s0.inputs
    requires s0.owners.Keys == s0.definitions.Keys && s1.owners.Keys == s1.definitions.Keys
    requires OutsAdded(g, plan, s0.(inputs := s0.inputs[t := Building]), s1)
    requires s1.conflicts == [] ==> OutOwned(g, s1.owners, t)
    requires ConflictsOk(g, plan, s1.conflicts)
    requires Counted(plan, s0, rebuilt, rebuilds, inputBuilds)
    ensures t !in since && Valid(g, plan, s1, since[t := DoneSet(s0)]) && ExtendsBut(s0, s1, t)
    ensures Counted(plan, s1, rebuilt, rebuilds, inputBuilds + 1)
    ensures IsBuilding(s1, t) && BuildingSet(s1) == BuildingSet(s0) + {t} && t !in BuildingSet(s0)
  {
    hide OutsAdded, OutOwned, ConflictsOk, Counted;
    ValidBasics(g, plan, s0, since);
    StartKeepsValid(g, plan, s0, s1, since, t);
    StartExtends(g, plan, s0, s1, t);
    CountStart(g, plan, s0, s1, t, rebuilt, rebuilds, inputBuilds);
    hide Valid, ExtendsBut, BuildingSet;
  }

  lemma OneNameMore(owners: map<string, TypeId>, name: string, t: TypeId)
    requires name !in owners
    ensures |owners[name := t].Keys| == |owners.Keys| + 1
  {
    assert owners[name := t].Keys == owners.Keys + {name};
  }

  /** A response component whose name was free, from before it was named to after its body is stored. */
  lemma DefinitionAdded(g: Graph, plan: Plan, s0: State, s1: State, s2: State, t: TypeId, schema: Schema)
    requires s0.owners.Keys == s0.definitions.Keys && s2.owners.Keys == s2.definitions.Keys
    requires Name(g, t) !in s0.owners && t in plan.outs && schema == OutBody(g, t)
    requires s1 == s0.(owners := s0.owners[Name(g, t) := t], definitions := s0.definitions[Name(g, t) := Pending])
    requires s1.owners.Keys == s1.definitions.Keys && OutsAdded(g, plan, s1, s2)
    requires s2.conflicts == [] ==> forall k :: k in Kids(g, t) ==> OutOwned(g, s2.owners, k)
    ensures Name(g, t) in s2.owners && s2.owners[Name(g, t)] == t
    ensures var s3 := s2.(definitions := s2.definitions[Name(g, t) := schema]);
      s3.owners.Keys == s3.definitions.Keys && OutsAdded(g, plan, s0, s3)
  {
    var s3 := s2.(definitions := s2.definitions[Name(g, t) := schema]);
    forall n | n in s3.owners && n !in s0.owners
      ensures OutAddedOk(g, plan, s3, n)
    {
      assert n != Name(g, t) ==> OutAddedOk(g, plan, s2, n);
    }
  }

  lemma OutDefined(g: Graph, plan: Plan, s0: State, s1: State, rebuilds: nat, before: nat, after: nat)
    requires s0.owners.Keys == s0.definitions.Keys && s1.owners.Keys == s1.definitions.Keys
    requires OutsAdded(g, plan, s0, s1) && after - |s1.owners.Keys| == before - |s0.owners.Keys|
    requires OutCounted(g, plan, s0.owners.Keys, rebuilds, before)
    ensures OutCounted(g, plan, s1.owners.Keys, rebuilds, after)
  {
    forall n | n in s1.owners
      ensures n in AllNames(g, plan)
    {
      assert n !in s0.owners ==> OutAddedOk(g, plan, s1, n);
    }
  }

  lemma OutStarted(g: Graph, plan: Plan, s0: State, s1: State, t: TypeId, rebuilds: nat, before: nat, after: nat)
    requires s0.owners.Keys == s0.definitions.Keys && s1.owners.Keys == s1.definitions.Keys
    requires OutsAdded(g, plan, s0.(inputs := s0.inputs[t := Building]), s1)
    requires after - |s1.owners.Keys| == before - |s0.owners.Keys|
    requires OutCounted(g, plan, s0.owners.Keys, rebuilds, before)
    ensures OutCounted(g, plan, s1.owners.Keys, rebuilds, after)
  {
    OutDefined(g, plan, s0.(inputs := s0.inputs[t := Building]), s1, rebuilds, before, after);
  }

  lemma FinishedDiffersCounted(g: Graph, plan: Plan, s: State, since: map<TypeId, set<TypeId>>, t: TypeId,
                               built: Schema, rebuilds: nat, builds: nat)
    requires Valid(g, plan, s, since) && t in since && OutCounted(g, plan, s.owners.Keys, rebuilds, builds)
    ensures OutCounted(g, plan, FinishedDiffers(g, s, t, built).owners.Keys, rebuilds, builds)
  {
    SubsetCardinality(s.owners.Keys, FinishedDiffers(g, s, t, built).owners.Keys);
  }

  lemma OutRolledBack(g: Graph, plan: Plan, s: State, t: TypeId, startedAt: nat, rebuilds: nat, builds: nat)
    requires Structured(plan, s) && startedAt <= |s.completed|
    requires OutCounted(g, plan, s.owners.Keys, rebuilds, builds)
    ensures OutCounted(g, plan, RolledBack(s, startedAt, t).owners.Keys, rebuilds + 1, builds)
  {
    var dropped := s.completed[startedAt..];
    assert Distinct(dropped);
    FewComponents(dropped);
    DistinctSplits(s.completed, startedAt);
    assert OwnersOf(s.completed) <= plan.ins;
    SubsetCardinality(OwnersOf(dropped), plan.ins);
    hide OwnersOf, ComponentsOf, Distinct, Structured, AllNames;
    NamesLeft(s.owners.Keys, ComponentsOf(dropped));
    assert RolledBack(s, startedAt, t).owners.Keys == s.owners.Keys - ComponentsOf(dropped);
    assert |plan.ins| * (rebuilds + 1) == |plan.ins| * rebuilds + |plan.ins|;
  }

  lemma NamesLeft(names: set<string>, gone: set<string>)
    ensures |names - gone| >= |names| - |gone|
  {
    assert names == (names - gone) + (names * gone);
    SubsetCardinality(names * gone, gone);
  }

  /** A type finished at most one component. */
  lemma {:induction false} FewComponents(entries: seq<Completed>)
    requires Distinct(entries)
    ensures |ComponentsOf(entries)| <= |entries| == |OwnersOf(entries)|
  {
    if entries != [] {
      var n := |entries| - 1;
      var e, rest := entries[n], entries[..n];
      FewComponents(rest);
      assert entries == rest + [e];
      assert OwnersOf(entries) == OwnersOf(rest) + {e.owner};
      assert ComponentsOf(entries) == ComponentsOf(rest) + if e.component.Some? then {e.component.value} else {};
    } else {
      assert OwnersOf(entries) == {} && ComponentsOf(entries) == {};
    }
  }

  lemma NothingForgotten(s: State)
    ensures s.inputs - OwnersOf([]) == s.inputs
    ensures s.definitions - ComponentsOf([]) == s.definitions && s.owners - ComponentsOf([]) == s.owners
  {
  }

  /** One round of the rollback loop. */
  lemma ForgetOne(s: State, dropped: seq<Completed>, i: nat)
    requires i < |dropped|
    ensures s.inputs - OwnersOf(dropped[..i]) - {dropped[i].owner} == s.inputs - OwnersOf(dropped[..i + 1])
    ensures match dropped[i].component
      case None =>
        && s.definitions - ComponentsOf(dropped[..i]) == s.definitions - ComponentsOf(dropped[..i + 1])
        && s.owners - ComponentsOf(dropped[..i]) == s.owners - ComponentsOf(dropped[..i + 1])
      case Some(n) =>
        && s.definitions - ComponentsOf(dropped[..i]) - {n} == s.definitions - ComponentsOf(dropped[..i + 1])
        && s.owners - ComponentsOf(dropped[..i]) - {n} == s.owners - ComponentsOf(dropped[..i + 1])
  {
  }

  lemma SinceRestored(since0: map<TypeId, set<TypeId>>, since: map<TypeId, set<TypeId>>, t: TypeId)
    requires t !in since0 && t in since && since == since0[t := since[t]]
    ensures since - {t} == since0
  {
  }

  lemma FinishedDiffersOk(g: Graph, plan: Plan, s0: State, s: State, since0: map<TypeId, set<TypeId>>,
                          since: map<TypeId, set<TypeId>>, t: TypeId, built: Schema,
                          rebuilt: set<TypeId>, rebuilds: nat, inputBuilds: nat)
    requires t !in since0 && t in since && since == since0[t := since[t]]
    requires Valid(g, plan, s, since) && ExtendsBut(s0, s, t)
    requires Counted(plan, s, rebuilt, rebuilds, inputBuilds)
    requires s.conflicts == [] ==>
      ReadyToFinish(g, s, since, t) && built == CurrentBody(g, s, t) && built != OutBody(g, t)
    requires t in s.inputDiffers || t !in s.assumedSame
    ensures var s1 := FinishedDiffers(g, s, t, built);
      && Valid(g, plan, s1, since0)
      && Extends(s0, s1)
      && Counted(plan, s1, rebuilt, rebuilds, inputBuilds)
  {
    hide Counted, OutCounted, Valid, ExtendsBut, Extends, ReadyToFinish, CurrentBody, OutBody;
    var s1 := FinishedDiffers(g, s, t, built);
    ButBasics(s0, s, t);
    FinishDiffersKeepsValid(g, plan, s, since, t, built);
    SinceRestored(since0, since, t);
    FinishExtends(s0, s, s1, t);
    CountFinish(plan, s, s1, t, rebuilt, rebuilds, inputBuilds);
  }

  lemma RebuildStarts(g: Graph, plan: Plan, s0: State, s: State, since0: map<TypeId, set<TypeId>>,
                      since: map<TypeId, set<TypeId>>, t: TypeId,
                      rebuilt: set<TypeId>, rebuilds: nat, inputBuilds: nat)
    requires Valid(g, plan, s0, since0) && Valid(g, plan, s, since) && ExtendsBut(s0, s, t)
    requires Counted(plan, s, rebuilt, rebuilds, inputBuilds)
    requires t in plan.ins && t in s.assumedSame && since == since0[t := DoneSet(s0)]
    requires s.conflicts == [] ==> ReadyToFinish(g, s, since, t) && CurrentBody(g, s, t) != OutBody(g, t)
    ensures |s0.completed| <= |s.completed|
    ensures var s1 := RolledBack(s, |s0.completed|, t);
      && Valid(g, plan, s1, since) && IsBuilding(s1, t) && t in s1.inputDiffers
      && BuildingSet(s1) == BuildingSet(s)
      && ExtendsBut(s0, s1, t)
      && Counted(plan, s1, rebuilt + {t}, rebuilds + 1, inputBuilds + 1)
  {
    hide Counted, OutCounted, Valid, ReadyToFinish, CurrentBody, OutBody;
    ValidBasics(g, plan, s, since);
    ValidBasics(g, plan, s0, since0);
    ButBasics(s0, s, t);
    RollbackExtends(g, plan, s0, s, since0, since, t);
    RollbackKeepsValid(g, plan, s, since, t, |s0.completed|);
    CountRollback(g, plan, s, t, |s0.completed|, rebuilt, rebuilds, inputBuilds);
  }

  lemma RebuildEnds(g: Graph, plan: Plan, s0: State, s1: State, s2: State, since0: map<TypeId, set<TypeId>>, t: TypeId)
    requires Valid(g, plan, s0, since0) && Valid(g, plan, s2, since0[t := DoneSet(s0)])
    requires ExtendsBut(s0, s1, t) && Extends(s1, s2) && t in s1.inputDiffers
    requires forall k {:trigger k in Kids(g, t)} :: k in Kids(g, t) ==> k in s2.inputs
    requires forall k {:trigger k in Kids(g, t)} :: k in Kids(g, t) && IsBuilding(s2, k) && k !in s2.inputDiffers ==>
               k in s2.assumedSame
    ensures ExtendsBut(s0, s2, t) && t in s2.inputDiffers
    ensures s2.conflicts == [] ==>
      ReadyToFinish(g, s2, since0[t := DoneSet(s0)], t) && CurrentBody(g, s2, t) != OutBody(g, t)
  {
    assert t in s2.inputDiffers;
    hide Valid, ReadyToFinish, CurrentBody, OutBody, ExtendsBut, Extends;
    BuildExtends(s0, s1, s2, t);
    CanFinish(g, plan, s0, since0, s2, t);
    KnownDiffers(g, plan, s2, since0[t := DoneSet(s0)], t);
  }

  lemma KidsPlanned(g: Graph, plan: Plan, s: State, t: TypeId)
    requires PlanOk(g, plan) && Structured(plan, s) && t in s.inputs
    ensures forall k {:trigger k in Kids(g, t)} :: k in Kids(g, t) ==> k in plan.ins
  {
  }

  lemma StructuredBasics(plan: Plan, s: State)
    requires Structured(plan, s)
    ensures s.owners.Keys == s.definitions.Keys
  {
  }

  lemma PlanIncludes(g: Graph, plan: Plan, t: TypeId)
    requires PlanOk(g, plan) && t in plan.ins
    ensures t in plan.outs
  {
  }

  lemma CountStart(g: Graph, plan: Plan, s0: State, s1: State, t: TypeId, rebuilt: set<TypeId>, rebuilds: nat,
                   inputBuilds: nat)
    requires Counted(plan, s0, rebuilt, rebuilds, inputBuilds) && t in plan.ins
    requires t !in s0.inputs && s0.owners.Keys == s0.definitions.Keys && s1.owners.Keys == s1.definitions.Keys
    requires OutsAdded(g, plan, s0.(inputs := s0.inputs[t := Building]), s1)
    ensures Counted(plan, s1, rebuilt, rebuilds, inputBuilds + 1)
    ensures IsBuilding(s1, t) && BuildingSet(s1) == BuildingSet(s0) + {t} && t !in BuildingSet(s0)
  {
  }

  lemma CountFinish(plan: Plan, s0: State, s1: State, t: TypeId, rebuilt: set<TypeId>, rebuilds: nat, inputBuilds: nat)
    requires Counted(plan, s0, rebuilt, rebuilds, inputBuilds) && t in s0.inputs
    requires s1.inputs.Keys == s0.inputs.Keys && s0.inputDiffers <= s1.inputDiffers <= s0.inputDiffers + {t}
    requires s1.assumedSame <= s0.assumedSame + (if t in s0.inputDiffers then {} else {t})
    ensures Counted(plan, s1, rebuilt, rebuilds, inputBuilds)
  {
  }

  /** The budget for request bodies still suffices when `t` is rebuilt, which happens to it once. */
  lemma CountRollback(g: Graph, plan: Plan, s: State, t: TypeId, startedAt: nat, rebuilt: set<TypeId>, rebuilds: nat,
                      inputBuilds: nat)
    requires Counted(plan, s, rebuilt, rebuilds, inputBuilds)
    requires Structured(plan, s) && IsBuilding(s, t) && t in s.assumedSame && startedAt <= |s.completed|
    ensures t !in rebuilt
    ensures Counted(plan, RolledBack(s, startedAt, t), rebuilt + {t}, rebuilds + 1, inputBuilds + 1)
    ensures IsBuilding(RolledBack(s, startedAt, t), t)
  {
    var s1 := RolledBack(s, startedAt, t);
    RollbackFields(plan, s, t, startedAt);
    SubsetCardinality(s.inputs.Keys, plan.ins);
    SubsetCardinality({t}, s1.inputs.Keys);
    BudgetGrows(|plan.ins|, |s.inputs|, |s1.inputs|, rebuilds);
  }

  lemma BudgetGrows(n: nat, before: nat, after: nat, rebuilds: nat)
    requires before <= n && 1 <= after
    ensures before + n * rebuilds + 1 <= after + n * (rebuilds + 1)
  {
  }

  lemma RollbackFields(plan: Plan, s: State, t: TypeId, startedAt: nat)
    requires Structured(plan, s) && IsBuilding(s, t) && t in plan.ins && startedAt <= |s.completed|
    ensures s.inputs.Keys <= plan.ins
    ensures var s1 := RolledBack(s, startedAt, t);
      && s1.inputs.Keys <= plan.ins && IsBuilding(s1, t)
      && s1.inputDiffers == s.inputDiffers + {t} && s1.assumedSame == s.assumedSame - {t}
  {
    RollbackStructured(plan, s, t, startedAt);
    assert t in BuildingSet(RolledBack(s, startedAt, t));
  }

  /** A type known to differ has a request body that shows it. */
  lemma KnownDiffers(g: Graph, plan: Plan, s: State, since: map<TypeId, set<TypeId>>, t: TypeId)
    requires Valid(g, plan, s, since) && t in s.inputDiffers
    requires s.conflicts == [] ==> ReadyToFinish(g, s, since, t)
    ensures s.conflicts == [] ==> CurrentBody(g, s, t) != OutBody(g, t)
  {
    if s.conflicts == [] {
      BodyShowsDiffers(g, plan, s, t);
    }
  }

  lemma StillOwned(g: Graph, plan: Plan, s0: State, s1: State, t: TypeId)
    requires s0.owners.Keys == s0.definitions.Keys && s1.owners.Keys == s1.definitions.Keys
    requires OutsAdded(g, plan, s0, s1) && (s0.conflicts == [] ==> OutOwned(g, s0.owners, t))
    ensures s1.conflicts == [] ==> OutOwned(g, s1.owners, t)
  {
  }

  lemma OutsAddedTransitive(g: Graph, plan: Plan, s0: State, s1: State, s2: State)
    requires s0.owners.Keys == s0.definitions.Keys && s1.owners.Keys == s1.definitions.Keys
      && s2.owners.Keys == s2.definitions.Keys
    requires OutsAdded(g, plan, s0, s1) && OutsAdded(g, plan, s1, s2)
    ensures OutsAdded(g, plan, s0, s2)
  {
  }
}
