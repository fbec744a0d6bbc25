/**
  The registry of named schemas: what one registration keeps, as lemmas about
  its state, and the registry itself.
 */
module RegistryState {
  import opened Wrappers
  import opened TypeGraph

  /** `Pending` is the `null` stored while a component's body is being built. */
  datatype Schema = Pending | Body(requestSide: bool, refs: seq<string>)

  datatype InputState = Building | Done(reference: string)

  datatype Completed = Completed(owner: TypeId, component: Option<string>)

  datatype State = State(
    definitions: map<string, Schema>,
    owners: map<string, TypeId>,
    conflicts: seq<string>,
    inputs: map<TypeId, InputState>,
    inputDiffers: set<TypeId>,
    assumedSame: set<TypeId>,
    completed: seq<Completed>)

  /**
    The types a document needs: `outs` in their response form, `ins` also in
    their request form (both closed under children), of which the request form
    of those in `differing` differs.
   */
  datatype Plan = Plan(outs: set<TypeId>, ins: set<TypeId>, differing: set<TypeId>)

  ghost predicate PlanOk(g: Graph, plan: Plan) {
    && Closed(g, plan.outs)
    && Closed(g, plan.ins)
    && plan.ins <= plan.outs
    && (forall t :: t in plan.ins && Own(g, t) ==> t in plan.differing)
    && (forall t, k {:trigger k in Kids(g, t)} :: t in plan.ins && k in Kids(g, t) && k in plan.differing ==>
          t in plan.differing)
  }

  /** `n` is a component that type `t` contributes to the planned document. */
  ghost predicate Contributes(g: Graph, plan: Plan, t: TypeId, n: string) {
    || (t in plan.outs && n == Name(g, t))
    || (t in plan.ins && t in plan.differing && n == InputName(g, t))
  }

  /** Two types ask for a component of this name. */
  ghost predicate ClashOn(g: Graph, plan: Plan, n: string) {
    exists t, u :: t != u && Contributes(g, plan, t, n) && Contributes(g, plan, u, n)
  }

  /** Two types contribute a component of the same name. */
  ghost predicate Clash(g: Graph, plan: Plan) {
    exists n :: ClashOn(g, plan, n)
  }

  /** The first conflict listed, which is the one reported, is a name two types ask for; and no name is listed twice. */
  ghost predicate ConflictsOk(g: Graph, plan: Plan, conflicts: seq<string>) {
    && (conflicts != [] ==> ClashOn(g, plan, conflicts[0]))
    && forall i, j :: 0 <= i < j < |conflicts| ==> conflicts[i] != conflicts[j]
  }

  /** Listing one more name keeps it so, if it is new and, where it is the first, two types ask for it. */
  lemma OneConflictMore(g: Graph, plan: Plan, conflicts: seq<string>, n: string)
    requires ConflictsOk(g, plan, conflicts) && n !in conflicts && (conflicts == [] ==> ClashOn(g, plan, n))
    ensures ConflictsOk(g, plan, conflicts + [n])
  {
  }

  function Names(g: Graph, ts: seq<TypeId>): (names: seq<string>)
    ensures |names| == |ts|
    ensures forall i :: 0 <= i < |ts| ==> names[i] == Name(g, ts[i])
  {
    seq(|ts|, i requires 0 <= i < |ts| => Name(g, ts[i]))
  }

  function OutBody(g: Graph, t: TypeId): Schema {
    Body(false, Names(g, Kids(g, t)))
  }

  predicate IsBuilding(s: State, t: TypeId) {
    t in s.inputs && s.inputs[t].Building?
  }

  predicate IsDone(s: State, t: TypeId) {
    t in s.inputs && s.inputs[t].Done?
  }

  ghost function BuildingSet(s: State): set<TypeId> {
    set t | t in s.inputs && s.inputs[t].Building?
  }

  ghost function DoneSet(s: State): set<TypeId> {
    set t | t in s.inputs && s.inputs[t].Done?
  }

  /** What a reference to `t` met now resolves to. */
  function RefOf(g: Graph, s: State, t: TypeId): string {
    if IsDone(s, t) then s.inputs[t].reference
    else if t in s.inputDiffers then InputName(g, t)
    else Name(g, t)
  }

  function RefsOf(g: Graph, s: State, ts: seq<TypeId>): (refs: seq<string>)
    ensures |refs| == |ts|
    ensures forall i :: 0 <= i < |ts| ==> refs[i] == RefOf(g, s, ts[i])
  {
    seq(|ts|, i requires 0 <= i < |ts| => RefOf(g, s, ts[i]))
  }

  /** The request body of `t` with every child in its present form. */
  function CurrentBody(g: Graph, s: State, t: TypeId): Schema {
    Body(Own(g, t), RefsOf(g, s, Kids(g, t)))
  }

  predicate OutOwned(g: Graph, owners: map<string, TypeId>, t: TypeId) {
    Name(g, t) in owners && owners[Name(g, t)] == t
  }

  ghost function OwnersOf(completed: seq<Completed>): set<TypeId> {
    set e | e in completed :: e.owner
  }

  ghost predicate Distinct(completed: seq<Completed>) {
    forall i, j :: 0 <= i < j < |completed| ==> completed[i].owner != completed[j].owner
  }

  // ---- Invariants ----

  /** What holds even after a name conflict. */
  ghost predicate Structured(plan: Plan, s: State) {
    && s.inputs.Keys <= plan.ins
    && s.inputDiffers <= plan.ins
    && s.owners.Keys == s.definitions.Keys
    && Distinct(s.completed)
    && OwnersOf(s.completed) == DoneSet(s)
  }

  ghost predicate OwnersOk(g: Graph, plan: Plan, owners: map<string, TypeId>) {
    forall n :: n in owners ==> Contributes(g, plan, owners[n], n)
  }

  /** An owned response component is complete and so are the names it refers to. */
  ghost predicate OutComponentsOk(g: Graph, owners: map<string, TypeId>, definitions: map<string, Schema>)
    requires owners.Keys == definitions.Keys
  {
    forall n :: n in owners && n == Name(g, owners[n]) ==>
      && definitions[n] == OutBody(g, owners[n])
      && forall k :: k in Kids(g, owners[n]) ==> OutOwned(g, owners, k)
  }

  ghost predicate InComponentOk(g: Graph, s: State, t: TypeId)
    requires s.owners.Keys == s.definitions.Keys
  {
    && InputName(g, t) in s.owners
    && s.owners[InputName(g, t)] == t
    && s.definitions[InputName(g, t)] == CurrentBody(g, s, t)
  }

  /** A finished type has the form its body calls for, its children being in their present forms. */
  ghost predicate DoneOk(g: Graph, s: State, t: TypeId)
    requires s.owners.Keys == s.definitions.Keys
  {
    && IsDone(s, t)
    && (forall k {:trigger k in Kids(g, t)} :: k in Kids(g, t) ==> k in s.inputs)
    && if t in s.inputDiffers then
         && s.inputs[t].reference == InputName(g, t)
         && CurrentBody(g, s, t) != OutBody(g, t)
         && InComponentOk(g, s, t)
       else
         && s.inputs[t].reference == Name(g, t)
         && CurrentBody(g, s, t) == OutBody(g, t)
  }

  /** The types known to differ do, and each has a reason that is known too. */
  ghost predicate DiffersOk(g: Graph, plan: Plan, differs: set<TypeId>) {
    && differs <= plan.differing
    && forall t {:trigger HasReason(g, differs, t)} :: t in differs ==> HasReason(g, differs, t)
  }

  ghost predicate HasReason(g: Graph, differs: set<TypeId>, t: TypeId) {
    Own(g, t) || exists k :: k in Kids(g, t) && k in differs
  }

  /**
    `since[x]` is what was finished when `x` started. It refers to nothing
    finished later, and not to `x`, so it survives if `x` is rebuilt.
   */
  ghost predicate SinceOk(g: Graph, s: State, since: map<TypeId, set<TypeId>>) {
    && since.Keys == BuildingSet(s)
    && forall x :: x in since ==>
         && since[x] <= DoneSet(s)
         && SelfContained(g, s, since[x], x)
  }

  ghost predicate SelfContained(g: Graph, s: State, done: set<TypeId>, x: TypeId) {
    forall t, k {:trigger k in Kids(g, t)} :: t in done && k in Kids(g, t) ==> k != x && (k in done || IsBuilding(s, k))
  }

  /** A finished type that refers to one still being built, not known to differ, did so on the record. */
  ghost predicate AssumptionsOk(g: Graph, s: State) {
    forall t, k {:trigger k in Kids(g, t)} ::
      IsDone(s, t) && k in Kids(g, t) && IsBuilding(s, k) && k !in s.inputDiffers ==> k in s.assumedSame
  }

  /** The list of finished types names the component each has registered. */
  ghost predicate CompletedOk(g: Graph, s: State) {
    forall e :: e in s.completed ==>
      && IsDone(s, e.owner)
      && e.component == if e.owner in s.inputDiffers then Some(InputName(g, e.owner)) else None
  }

  /** An owned request component belongs to a finished type that differs: there are no orphans. */
  ghost predicate InComponentsInUse(g: Graph, s: State) {
    forall n :: n in s.owners && n == InputName(g, s.owners[n]) ==>
      IsDone(s, s.owners[n]) && s.owners[n] in s.inputDiffers
  }

  ghost predicate Meaningful(g: Graph, plan: Plan, s: State, since: map<TypeId, set<TypeId>>)
    requires s.owners.Keys == s.definitions.Keys
  {
    && OwnersOk(g, plan, s.owners)
    && OutComponentsOk(g, s.owners, s.definitions)
    && InComponentsInUse(g, s)
    && (forall t :: t in s.inputs ==> OutOwned(g, s.owners, t))
    && (forall t :: IsDone(s, t) ==> DoneOk(g, s, t))
    && AssumptionsOk(g, s)
    && CompletedOk(g, s)
    && DiffersOk(g, plan, s.inputDiffers)
    && SinceOk(g, s, since)
  }

  ghost predicate Valid(g: Graph, plan: Plan, s: State, since: map<TypeId, set<TypeId>>) {
    && PlanOk(g, plan)
    && Structured(plan, s)
    && since.Keys == BuildingSet(s)
    && (s.conflicts == [] ==> Meaningful(g, plan, s, since))
    && ConflictsOk(g, plan, s.conflicts)
  }

  /** What a finished nested call may have changed. */
  ghost predicate Extends(s0: State, s1: State) {
    && s0.completed <= s1.completed
    && s0.conflicts <= s1.conflicts
    && s0.inputDiffers <= s1.inputDiffers
    && BuildingSet(s0) == BuildingSet(s1)
    && (forall t :: t in s0.inputs ==> t in s1.inputs && s1.inputs[t] == s0.inputs[t])
    && (forall t :: IsBuilding(s0, t) && t in s1.inputDiffers ==> t in s0.inputDiffers)
    && (forall t :: IsBuilding(s0, t) && t in s0.assumedSame ==> t in s1.assumedSame)
    && (s1.conflicts == [] ==> forall n :: n in s0.owners ==> n in s1.owners && s1.owners[n] == s0.owners[n])
  }

  /** The components added by building response forms. */
  ghost predicate OutsAdded(g: Graph, plan: Plan, s0: State, s1: State)
    requires s0.owners.Keys == s0.definitions.Keys && s1.owners.Keys == s1.definitions.Keys
  {
    && s1 == s0.(definitions := s1.definitions, owners := s1.owners, conflicts := s1.conflicts)
    && s0.conflicts <= s1.conflicts
    && (forall n :: n in s0.owners ==>
          n in s1.owners && s1.owners[n] == s0.owners[n] && s1.definitions[n] == s0.definitions[n])
    && (forall n :: n in s1.owners && n !in s0.owners ==> OutAddedOk(g, plan, s1, n))
  }

  ghost predicate OutAddedOk(g: Graph, plan: Plan, s1: State, n: string)
    requires s1.owners.Keys == s1.definitions.Keys
  {
    && n in s1.owners
    && n == Name(g, s1.owners[n])
    && s1.owners[n] in plan.outs
    && s1.definitions[n] == OutBody(g, s1.owners[n])
    && (s1.conflicts == [] ==> forall k :: k in Kids(g, s1.owners[n]) ==> OutOwned(g, s1.owners, k))
  }

  // ---- Steps ----

  /** Adding response components keeps all components right. */
  lemma OutsKeepComponents(g: Graph, plan: Plan, s1: State, s2: State)
    requires s1.owners.Keys == s1.definitions.Keys && s2.owners.Keys == s2.definitions.Keys
    requires OutsAdded(g, plan, s1, s2) && s2.conflicts == []
    requires OwnersOk(g, plan, s1.owners) && OutComponentsOk(g, s1.owners, s1.definitions) && InComponentsInUse(g, s1)
    ensures OwnersOk(g, plan, s2.owners) && OutComponentsOk(g, s2.owners, s2.definitions) && InComponentsInUse(g, s2)
  {
  }

  /** The finished forms depend only on `inputs`, `inputDiffers` and the `Input` components. */
  lemma StartKeepsForms(g: Graph, s0: State, s2: State, t: TypeId)
    requires s0.owners.Keys == s0.definitions.Keys && s2.owners.Keys == s2.definitions.Keys
    requires forall u :: IsDone(s0, u) ==> DoneOk(g, s0, u)
    requires t !in s0.inputs && s2.inputs == s0.inputs[t := Building] && s2.inputDiffers == s0.inputDiffers
    requires forall n :: n in s0.owners ==>
               n in s2.owners && s2.owners[n] == s0.owners[n] && s2.definitions[n] == s0.definitions[n]
    ensures forall u :: IsDone(s2, u) ==> DoneOk(g, s2, u)
  {
    forall u | IsDone(s2, u)
      ensures DoneOk(g, s2, u)
    {
      assert DoneOk(g, s0, u);
      assert RefsOf(g, s2, Kids(g, u)) == RefsOf(g, s0, Kids(g, u));
    }
  }

  lemma StartKeepsSince(g: Graph, s0: State, s2: State, since: map<TypeId, set<TypeId>>, t: TypeId)
    requires s0.owners.Keys == s0.definitions.Keys
    requires SinceOk(g, s0, since)
    requires forall u :: IsDone(s0, u) ==> DoneOk(g, s0, u)
    requires t !in s0.inputs && s2.inputs == s0.inputs[t := Building]
    ensures SinceOk(g, s2, since[t := DoneSet(s0)])
  {
    assert BuildingSet(s2) == BuildingSet(s0) + {t};
    assert DoneSet(s2) == DoneSet(s0);
    assert SelfContained(g, s2, DoneSet(s0), t) by {
      forall u, k {:trigger k in Kids(g, u)} | u in DoneSet(s0) && k in Kids(g, u)
        ensures k != t
        ensures k in DoneSet(s0) || IsBuilding(s2, k)
      {
        assert DoneOk(g, s0, u);
      }
    }
    assert forall u :: IsBuilding(s0, u) ==> IsBuilding(s2, u);
    forall x | x in since
      ensures SelfContained(g, s2, since[x], x)
    {
      assert SelfContained(g, s0, since[x], x);
    }
    var since' := since[t := DoneSet(s0)];
    assert since'.Keys == BuildingSet(s2);
    assert forall x :: x in since' ==> since'[x] <= DoneSet(s2);
    assert forall x :: x in since' ==> SelfContained(g, s2, since'[x], x);
  }

  lemma StartKeepsAssumptions(g: Graph, s0: State, s2: State, t: TypeId)
    requires s0.owners.Keys == s0.definitions.Keys
    requires forall u :: IsDone(s0, u) ==> DoneOk(g, s0, u)
    requires AssumptionsOk(g, s0) && CompletedOk(g, s0)
    requires t !in s0.inputs && s2.inputs == s0.inputs[t := Building]
    requires s2.inputDiffers == s0.inputDiffers && s2.assumedSame == s0.assumedSame && s2.completed == s0.completed
    ensures AssumptionsOk(g, s2) && CompletedOk(g, s2)
  {
    forall u, k | IsDone(s2, u) && k in Kids(g, u) && IsBuilding(s2, k) && k !in s2.inputDiffers
      ensures k in s2.assumedSame
    {
      assert DoneOk(g, s0, u) && IsDone(s0, u);
    }
  }

  lemma StartIsMeaningful(g: Graph, plan: Plan, s0: State, s2: State, since: map<TypeId, set<TypeId>>, t: TypeId)
    requires s0.owners.Keys == s0.definitions.Keys && s2.owners.Keys == s2.definitions.Keys
    requires Meaningful(g, plan, s0, since) && t !in s0.inputs
    requires OutsAdded(g, plan, s0.(inputs := s0.inputs[t := Building]), s2) && s2.conflicts == []
    requires OutOwned(g, s2.owners, t)
    ensures Meaningful(g, plan, s2, since[t := DoneSet(s0)])
  {
    OutsKeepComponents(g, plan, s0.(inputs := s0.inputs[t := Building]), s2);
    StartKeepsForms(g, s0, s2, t);
    StartKeepsSince(g, s0, s2, since, t);
    StartKeepsAssumptions(g, s0, s2, t);
  }

  /** `define_input` starts building `t` and has its response form in place. */
  lemma StartKeepsValid(g: Graph, plan: Plan, s0: State, s2: State, since: map<TypeId, set<TypeId>>, t: TypeId)
    requires Valid(g, plan, s0, since) && t in plan.ins && t !in s0.inputs
    requires s2.owners.Keys == s2.definitions.Keys
    requires OutsAdded(g, plan, s0.(inputs := s0.inputs[t := Building]), s2)
    requires s2.conflicts == [] ==> OutOwned(g, s2.owners, t)
    requires ConflictsOk(g, plan, s2.conflicts)
    ensures Valid(g, plan, s2, since[t := DoneSet(s0)])
  {
    assert BuildingSet(s2) == BuildingSet(s0) + {t};
    assert DoneSet(s2) == DoneSet(s0);
    if s2.conflicts == [] {
      StartIsMeaningful(g, plan, s0, s2, since, t);
    }
  }

  /**
    The body of `t` with its children in their present forms differs from the
    response body exactly when `t` differs itself or has a child known to.
   */
  lemma BodyShowsDiffers(g: Graph, plan: Plan, s: State, t: TypeId)
    requires PlanOk(g, plan) && t in plan.ins
    requires s.owners.Keys == s.definitions.Keys
    requires forall k :: k in Kids(g, t) ==> k in s.inputs
    requires forall k :: IsDone(s, k) ==> DoneOk(g, s, k)
    requires DiffersOk(g, plan, s.inputDiffers)
    ensures CurrentBody(g, s, t) != OutBody(g, t) <==> HasReason(g, s.inputDiffers, t)
    ensures CurrentBody(g, s, t) != OutBody(g, t) ==> t in plan.differing
    ensures t in s.inputDiffers ==> CurrentBody(g, s, t) != OutBody(g, t)
  {
  }

  lemma OwnersOfAppend(completed: seq<Completed>, e: Completed)
    ensures OwnersOf(completed + [e]) == OwnersOf(completed) + {e.owner}
    ensures Distinct(completed) && e.owner !in OwnersOf(completed) ==> Distinct(completed + [e])
  {
  }

  lemma BodiesEqual(g: Graph, s0: State, s1: State, t: TypeId)
    requires forall k :: k in Kids(g, t) ==> RefOf(g, s0, k) == RefOf(g, s1, k)
    ensures CurrentBody(g, s1, t) == CurrentBody(g, s0, t)
  {
  }

  /** The conditions under which `t` may be finished: its body is what its children call for. */
  ghost predicate ReadyToFinish(g: Graph, s: State, since: map<TypeId, set<TypeId>>, t: TypeId) {
    && IsBuilding(s, t)
    && (forall k {:trigger k in Kids(g, t)} :: k in Kids(g, t) ==> k in s.inputs)
    && (forall k {:trigger k in Kids(g, t)} :: k in Kids(g, t) && IsBuilding(s, k) && k !in s.inputDiffers ==>
          k in s.assumedSame)
    && t in since
    && (forall x :: x in since ==> since[x] <= since[t])
  }

  /** Finishing `t` keeps every finished type right, as long as references to `t` do not change. */
  lemma FinishKeepsForms(g: Graph, s0: State, s1: State, t: TypeId)
    requires s0.owners.Keys == s0.definitions.Keys && s1.owners.Keys == s1.definitions.Keys
    requires IsBuilding(s0, t) && IsDone(s1, t)
    requires forall u :: IsDone(s0, u) ==> DoneOk(g, s0, u)
    requires forall u :: u != t ==>
               (u in s1.inputs <==> u in s0.inputs) && (u in s0.inputs ==> s1.inputs[u] == s0.inputs[u])
    requires forall u :: u != t ==> (u in s1.inputDiffers <==> u in s0.inputDiffers)
    requires forall u :: (IsDone(s0, u) || u == t) && t in Kids(g, u) ==> RefOf(g, s1, t) == RefOf(g, s0, t)
    requires forall u :: InComponentOk(g, s0, u) && u != t ==>
      && InputName(g, u) in s1.owners && s1.owners[InputName(g, u)] == u
      && s1.definitions[InputName(g, u)] == s0.definitions[InputName(g, u)]
    ensures forall u :: IsDone(s0, u) ==> DoneOk(g, s1, u)
    ensures CurrentBody(g, s1, t) == CurrentBody(g, s0, t)
  {
  }

  lemma FinishKeepsSince(g: Graph, s0: State, s1: State, since: map<TypeId, set<TypeId>>, t: TypeId)
    requires SinceOk(g, s0, since) && IsBuilding(s0, t)
    requires forall x :: x in since ==> since[x] <= since[t]
    requires IsDone(s1, t) && s1.inputs == s0.inputs[t := s1.inputs[t]]
    ensures SinceOk(g, s1, since - {t})
  {
  }

  lemma FinishKeepsRecords(g: Graph, s0: State, s1: State, since: map<TypeId, set<TypeId>>, t: TypeId, e: Completed)
    requires ReadyToFinish(g, s0, since, t)
    requires AssumptionsOk(g, s0) && CompletedOk(g, s0)
    requires IsDone(s1, t) && s1.inputs == s0.inputs[t := s1.inputs[t]]
    requires s1.inputDiffers == s0.inputDiffers || s1.inputDiffers == s0.inputDiffers + {t}
    requires s1.assumedSame == s0.assumedSame
    requires s1.completed == s0.completed + [e] && e.owner == t
    requires e.component == if t in s1.inputDiffers then Some(InputName(g, t)) else None
    ensures AssumptionsOk(g, s1) && CompletedOk(g, s1)
  {
  }

  lemma DiffersKeptBy(g: Graph, plan: Plan, differs: set<TypeId>, t: TypeId)
    requires DiffersOk(g, plan, differs) && t in plan.differing && HasReason(g, differs, t)
    ensures DiffersOk(g, plan, differs + {t})
  {
    forall u | u in differs + {t}
      ensures HasReason(g, differs + {t}, u)
    {
      assert HasReason(g, differs, u);
    }
  }

  lemma FinishStructured(plan: Plan, s0: State, s1: State, t: TypeId, e: Completed)
    requires Structured(plan, s0) && IsBuilding(s0, t) && e.owner == t
    requires IsDone(s1, t) && s1.inputs == s0.inputs[t := s1.inputs[t]]
    requires s1.inputDiffers <= s0.inputDiffers + {t}
    requires s1.owners.Keys == s1.definitions.Keys
    requires s1.completed == s0.completed + [e]
    ensures Structured(plan, s1)
    ensures BuildingSet(s1) == BuildingSet(s0) - {t}
  {
    assert BuildingSet(s1) == BuildingSet(s0) - {t};
    assert DoneSet(s1) == DoneSet(s0) + {t};
    OwnersOfAppend(s0.completed, e);
  }

  /** The state after `t` turned out the same. */
  function FinishedSame(g: Graph, s: State, t: TypeId): State {
    s.(inputs := s.inputs[t := Done(Name(g, t))], completed := s.completed + [Completed(t, None)])
  }

  lemma FinishSameIsMeaningful(g: Graph, plan: Plan, s0: State, since: map<TypeId, set<TypeId>>, t: TypeId)
    requires s0.owners.Keys == s0.definitions.Keys
    requires PlanOk(g, plan) && t in plan.ins && Meaningful(g, plan, s0, since)
    requires ReadyToFinish(g, s0, since, t) && CurrentBody(g, s0, t) == OutBody(g, t)
    ensures Meaningful(g, plan, FinishedSame(g, s0, t), since - {t})
  {
    var s1 := FinishedSame(g, s0, t);
    BodyShowsDiffers(g, plan, s0, t);
    FinishKeepsForms(g, s0, s1, t);
    FinishKeepsSince(g, s0, s1, since, t);
    FinishKeepsRecords(g, s0, s1, since, t, Completed(t, None));
    assert DoneOk(g, s1, t);
  }

  lemma FinishSameKeepsValid(g: Graph, plan: Plan, s0: State, since: map<TypeId, set<TypeId>>, t: TypeId)
    requires Valid(g, plan, s0, since) && IsBuilding(s0, t)
    requires s0.conflicts == [] ==> ReadyToFinish(g, s0, since, t) && CurrentBody(g, s0, t) == OutBody(g, t)
    ensures Valid(g, plan, FinishedSame(g, s0, t), since - {t})
  {
    var s1 := FinishedSame(g, s0, t);
    FinishStructured(plan, s0, s1, t, Completed(t, None));
    if s0.conflicts == [] {
      FinishSameIsMeaningful(g, plan, s0, since, t);
    }
  }

  /** The state after `t` turned out different and registered `built` (unless its name is taken). */
  function FinishedDiffers(g: Graph, s: State, t: TypeId, built: Schema): State {
    var n := InputName(g, t);
    var s' := s.(
      inputs := s.inputs[t := Done(n)],
      inputDiffers := s.inputDiffers + {t},
      completed := s.completed + [Completed(t, Some(n))]);
    if n in s.owners && s.owners[n] != t then
      if n in s.conflicts then s' else s'.(conflicts := s.conflicts + [n])
    else
      s'.(owners := s.owners[n := t], definitions := s.definitions[n := built])
  }

  lemma FinishDiffersComponents(g: Graph, plan: Plan, s0: State, built: Schema, t: TypeId)
    requires s0.owners.Keys == s0.definitions.Keys
    requires PlanOk(g, plan) && t in plan.ins && t in plan.differing && IsBuilding(s0, t)
    requires InputName(g, t) !in s0.owners
    requires OwnersOk(g, plan, s0.owners) && OutComponentsOk(g, s0.owners, s0.definitions) && InComponentsInUse(g, s0)
    ensures var s1 := FinishedDiffers(g, s0, t, built);
      && OwnersOk(g, plan, s1.owners) && OutComponentsOk(g, s1.owners, s1.definitions) && InComponentsInUse(g, s1)
  {
    assert |InputName(g, t)| != |Name(g, t)|;
  }

  lemma FinishDiffersForms(g: Graph, s0: State, t: TypeId)
    requires s0.owners.Keys == s0.definitions.Keys && IsBuilding(s0, t)
    requires forall u :: IsDone(s0, u) ==> DoneOk(g, s0, u)
    requires AssumptionsOk(g, s0)
    requires forall k {:trigger k in Kids(g, t)} :: k in Kids(g, t) ==> k in s0.inputs
    requires t in Kids(g, t) && t !in s0.inputDiffers ==> t in s0.assumedSame
    requires t in s0.inputDiffers || t !in s0.assumedSame
    requires CurrentBody(g, s0, t) != OutBody(g, t)
    requires InputName(g, t) !in s0.owners
    ensures var s1 := FinishedDiffers(g, s0, t, CurrentBody(g, s0, t));
      forall u :: IsDone(s1, u) ==> DoneOk(g, s1, u)
  {
    var s1 := FinishedDiffers(g, s0, t, CurrentBody(g, s0, t));
    FinishKeepsForms(g, s0, s1, t);
    assert DoneOk(g, s1, t);
  }

  lemma FinishDiffersIsMeaningful(g: Graph, plan: Plan, s0: State, since: map<TypeId, set<TypeId>>, t: TypeId)
    requires s0.owners.Keys == s0.definitions.Keys
    requires PlanOk(g, plan) && t in plan.ins && t in plan.differing && Meaningful(g, plan, s0, since)
    requires ReadyToFinish(g, s0, since, t) && CurrentBody(g, s0, t) != OutBody(g, t)
    requires HasReason(g, s0.inputDiffers, t)
    requires t in s0.inputDiffers || t !in s0.assumedSame
    requires InputName(g, t) !in s0.owners
    ensures Meaningful(g, plan, FinishedDiffers(g, s0, t, CurrentBody(g, s0, t)), since - {t})
  {
    var s1 := FinishedDiffers(g, s0, t, CurrentBody(g, s0, t));
    FinishDiffersComponents(g, plan, s0, CurrentBody(g, s0, t), t);
    FinishDiffersForms(g, s0, t);
    FinishKeepsSince(g, s0, s1, since, t);
    FinishKeepsRecords(g, s0, s1, since, t, Completed(t, Some(InputName(g, t))));
    DiffersKeptBy(g, plan, s0.inputDiffers, t);
  }

  lemma FinishDiffersKeepsValid(g: Graph, plan: Plan, s0: State, since: map<TypeId, set<TypeId>>, t: TypeId,
                                built: Schema)
    requires Valid(g, plan, s0, since) && IsBuilding(s0, t)
    requires s0.conflicts == [] ==>
      && ReadyToFinish(g, s0, since, t)
      && built == CurrentBody(g, s0, t) && built != OutBody(g, t)
      && (t in s0.inputDiffers || t !in s0.assumedSame)
    ensures Valid(g, plan, FinishedDiffers(g, s0, t, built), since - {t})
  {
    var n := InputName(g, t);
    var s1 := FinishedDiffers(g, s0, t, built);
    FinishStructured(plan, s0, s1, t, Completed(t, Some(n)));
    if s0.conflicts == [] {
      BodyShowsDiffers(g, plan, s0, t);
      if n in s0.owners {
        assert Contributes(g, plan, t, n) && Contributes(g, plan, s0.owners[n], n);
        assert ClashOn(g, plan, n);
        OneConflictMore(g, plan, s0.conflicts, n);
      } else {
        FinishDiffersIsMeaningful(g, plan, s0, since, t);
      }
    } else if n !in s0.conflicts {
      OneConflictMore(g, plan, s0.conflicts, n);
    }
  }

  // ---- Rollback ----

  ghost function ComponentsOf(entries: seq<Completed>): set<string> {
    set e | e in entries && e.component.Some? :: e.component.value
  }

  /** The state in which what finished since `t` started is forgotten and `t` is known to differ. */
  ghost function RolledBack(s: State, started: nat, t: TypeId): State
    requires started <= |s.completed|
  {
    var dropped := s.completed[started..];
    s.(completed := s.completed[..started],
       inputs := s.inputs - OwnersOf(dropped),
       definitions := s.definitions - ComponentsOf(dropped),
       owners := s.owners - ComponentsOf(dropped),
       inputDiffers := s.inputDiffers + {t},
       assumedSame := s.assumedSame - {t})
  }

  lemma DistinctSplits(completed: seq<Completed>, started: nat)
    requires started <= |completed|
    ensures OwnersOf(completed) == OwnersOf(completed[..started]) + OwnersOf(completed[started..])
    ensures Distinct(completed) ==> OwnersOf(completed[..started]) !! OwnersOf(completed[started..])
    ensures Distinct(completed) ==> Distinct(completed[..started])
  {
  }

  lemma RollbackStructured(plan: Plan, s0: State, t: TypeId, started: nat)
    requires Structured(plan, s0) && IsBuilding(s0, t) && t in plan.ins && started <= |s0.completed|
    ensures Structured(plan, RolledBack(s0, started, t))
    ensures BuildingSet(RolledBack(s0, started, t)) == BuildingSet(s0)
    ensures DoneSet(RolledBack(s0, started, t)) == OwnersOf(s0.completed[..started])
    ensures forall u :: u in OwnersOf(s0.completed[..started]) ==> u in RolledBack(s0, started, t).inputs
  {
    var s1 := RolledBack(s0, started, t);
    DistinctSplits(s0.completed, started);
    var pre, post := s0.completed[..started], s0.completed[started..];
    assert OwnersOf(pre) <= DoneSet(s0) && OwnersOf(post) <= DoneSet(s0);
    assert forall u :: u in BuildingSet(s0) ==> u !in OwnersOf(post);
    assert BuildingSet(s1) == BuildingSet(s0);
    assert DoneSet(s1) == OwnersOf(pre);
  }

  /** Exactly the request components of the forgotten types are dropped. */
  lemma DroppedComponents(g: Graph, s0: State, started: nat, n: string)
    requires CompletedOk(g, s0) && started <= |s0.completed|
    ensures n in ComponentsOf(s0.completed[started..]) <==>
      exists u :: u in OwnersOf(s0.completed[started..]) && u in s0.inputDiffers && n == InputName(g, u)
  {
  }

  lemma RollbackKeepsComponents(g: Graph, plan: Plan, s0: State, since: map<TypeId, set<TypeId>>, t: TypeId,
                                started: nat)
    requires s0.owners.Keys == s0.definitions.Keys
    requires Structured(plan, s0) && IsBuilding(s0, t) && started <= |s0.completed|
    requires Meaningful(g, plan, s0, since)
    ensures var s1 := RolledBack(s0, started, t);
      && s1.owners.Keys == s1.definitions.Keys
      && OwnersOk(g, plan, s1.owners) && OutComponentsOk(g, s1.owners, s1.definitions) && InComponentsInUse(g, s1)
      && (forall u :: OutOwned(g, s0.owners, u) ==> OutOwned(g, s1.owners, u))
      && (forall u :: IsDone(s0, u) && u !in OwnersOf(s0.completed[started..]) && InComponentOk(g, s0, u) ==>
           && InputName(g, u) in s1.owners && s1.owners[InputName(g, u)] == u
           && s1.definitions[InputName(g, u)] == s0.definitions[InputName(g, u)])
  {
    var s1 := RolledBack(s0, started, t);
    var post := s0.completed[started..];
    DistinctSplits(s0.completed, started);
    forall n | n in ComponentsOf(post)
      ensures n in s0.owners ==>
        n == InputName(g, s0.owners[n]) && n != Name(g, s0.owners[n]) && s0.owners[n] in OwnersOf(post)
    {
      DroppedComponents(g, s0, started, n);
      var u :| u in OwnersOf(post) && u in s0.inputDiffers && n == InputName(g, u);
      assert DoneOk(g, s0, u);
      assert |InputName(g, u)| != |Name(g, u)|;
    }
    forall n | n in s1.owners && n == InputName(g, s1.owners[n])
      ensures IsDone(s1, s1.owners[n])
    {
      DroppedComponents(g, s0, started, n);
    }
  }

  lemma RollbackKeepsForms(g: Graph, s0: State, since: map<TypeId, set<TypeId>>, t: TypeId, started: nat)
    requires s0.owners.Keys == s0.definitions.Keys && started <= |s0.completed|
    requires SinceOk(g, s0, since) && t in since && OwnersOf(s0.completed[..started]) == since[t]
    requires DoneSet(s0) == OwnersOf(s0.completed) && Distinct(s0.completed)
    requires forall u :: IsDone(s0, u) ==> DoneOk(g, s0, u)
    requires RolledBack(s0, started, t).owners.Keys == RolledBack(s0, started, t).definitions.Keys
    requires forall u :: IsDone(s0, u) && u !in OwnersOf(s0.completed[started..]) && InComponentOk(g, s0, u) ==>
      var s1 := RolledBack(s0, started, t);
      && InputName(g, u) in s1.owners && s1.owners[InputName(g, u)] == u
      && s1.definitions[InputName(g, u)] == s0.definitions[InputName(g, u)]
    ensures forall u :: IsDone(RolledBack(s0, started, t), u) ==> DoneOk(g, RolledBack(s0, started, t), u)
  {
    var s1 := RolledBack(s0, started, t);
    DistinctSplits(s0.completed, started);
    forall u | IsDone(s1, u)
      ensures DoneOk(g, s1, u)
    {
      assert DoneOk(g, s0, u);
      assert u in since[t];
      forall k | k in Kids(g, u)
        ensures k in s1.inputs && RefOf(g, s1, k) == RefOf(g, s0, k)
      {
        assert SelfContained(g, s0, since[t], t);
      }
      BodiesEqual(g, s0, s1, u);
    }
  }

  lemma RollbackKeepsRecords(g: Graph, s0: State, since: map<TypeId, set<TypeId>>, t: TypeId, started: nat)
    requires started <= |s0.completed|
    requires SinceOk(g, s0, since) && t in since && OwnersOf(s0.completed[..started]) == since[t]
    requires forall x :: x in since ==> since[x] <= since[t]
    requires DoneSet(s0) == OwnersOf(s0.completed) && Distinct(s0.completed)
    requires AssumptionsOk(g, s0) && CompletedOk(g, s0)
    ensures AssumptionsOk(g, RolledBack(s0, started, t)) && CompletedOk(g, RolledBack(s0, started, t))
    ensures SinceOk(g, RolledBack(s0, started, t), since)
  {
  }

  lemma RollbackKeepsValid(g: Graph, plan: Plan, s0: State, since: map<TypeId, set<TypeId>>, t: TypeId, started: nat)
    requires Valid(g, plan, s0, since) && IsBuilding(s0, t) && started <= |s0.completed|
    requires OwnersOf(s0.completed[..started]) == since[t]
    requires s0.conflicts == [] ==> ReadyToFinish(g, s0, since, t) && CurrentBody(g, s0, t) != OutBody(g, t)
    ensures Valid(g, plan, RolledBack(s0, started, t), since)
    ensures BuildingSet(RolledBack(s0, started, t)) == BuildingSet(s0)
  {
    RollbackStructured(plan, s0, t, started);
    if s0.conflicts == [] {
      BodyShowsDiffers(g, plan, s0, t);
      RollbackKeepsComponents(g, plan, s0, since, t, started);
      RollbackKeepsForms(g, s0, since, t, started);
      RollbackKeepsRecords(g, s0, since, t, started);
      DiffersKeptBy(g, plan, s0.inputDiffers, t);
    }
  }

  // ---- Nested calls ----

  lemma ExtendsTransitive(s0: State, s1: State, s2: State)
    requires Extends(s0, s1) && Extends(s1, s2)
    ensures Extends(s0, s2)
  {
  }

  /** A reference already made stays right while other types are built. */
  lemma ExtendsKeepsRefs(g: Graph, s0: State, s1: State, k: TypeId)
    requires Extends(s0, s1) && k in s0.inputs
    ensures RefOf(g, s1, k) == RefOf(g, s0, k)
    ensures IsBuilding(s1, k) && k !in s1.inputDiffers ==> IsBuilding(s0, k) && k !in s0.inputDiffers
    ensures IsBuilding(s0, k) && k in s0.assumedSame ==> k in s1.assumedSame
  {
  }

  /** Putting an assumption on the record changes nothing else. */
  lemma AssumeKeepsValid(g: Graph, plan: Plan, s: State, since: map<TypeId, set<TypeId>>, t: TypeId)
    requires Valid(g, plan, s, since)
    ensures Valid(g, plan, s.(assumedSame := s.assumedSame + {t}), since)
  {
    var s' := s.(assumedSame := s.assumedSame + {t});
    assert BuildingSet(s') == BuildingSet(s) && DoneSet(s') == DoneSet(s);
    if s.conflicts == [] {
      forall u | IsDone(s', u)
        ensures DoneOk(g, s', u)
      {
        assert DoneOk(g, s, u);
        BodiesEqual(g, s, s', u);
      }
      assert forall k :: IsBuilding(s, k) == IsBuilding(s', k);
      forall x | x in since
        ensures SelfContained(g, s', since[x], x)
      {
        assert SelfContained(g, s, since[x], x);
      }
    }
  }

  /** Like `Extends`, from before `t` was started to a state in which it is being built. */
  ghost predicate ExtendsBut(s0: State, s1: State, t: TypeId) {
    && t !in s0.inputs && IsBuilding(s1, t)
    && s0.completed <= s1.completed
    && s0.conflicts <= s1.conflicts
    && s0.inputDiffers <= s1.inputDiffers
    && BuildingSet(s1) == BuildingSet(s0) + {t}
    && (forall u :: u in s0.inputs ==> u in s1.inputs && s1.inputs[u] == s0.inputs[u])
    && (forall u :: IsBuilding(s0, u) && u in s1.inputDiffers ==> u in s0.inputDiffers)
    && (forall u :: IsBuilding(s0, u) && u in s0.assumedSame ==> u in s1.assumedSame)
    && (s1.conflicts == [] ==> forall n :: n in s0.owners ==> n in s1.owners && s1.owners[n] == s0.owners[n])
  }

  lemma ButBasics(s0: State, s2: State, t: TypeId)
    requires ExtendsBut(s0, s2, t)
    ensures IsBuilding(s2, t) && |s0.completed| <= |s2.completed|
  {
  }

  lemma StartExtends(g: Graph, plan: Plan, s0: State, s2: State, t: TypeId)
    requires t !in s0.inputs && s0.owners.Keys == s0.definitions.Keys && s2.owners.Keys == s2.definitions.Keys
    requires OutsAdded(g, plan, s0.(inputs := s0.inputs[t := Building]), s2)
    ensures ExtendsBut(s0, s2, t)
  {
  }

  lemma BuildExtends(s0: State, s1: State, s2: State, t: TypeId)
    requires ExtendsBut(s0, s1, t) && Extends(s1, s2)
    ensures ExtendsBut(s0, s2, t)
  {
  }

  lemma RollbackExtends(g: Graph, plan: Plan, s0: State, s2: State, since0: map<TypeId, set<TypeId>>,
                        since: map<TypeId, set<TypeId>>, t: TypeId)
    requires Valid(g, plan, s0, since0) && Valid(g, plan, s2, since) && t in plan.ins && ExtendsBut(s0, s2, t)
    ensures ExtendsBut(s0, RolledBack(s2, |s0.completed|, t), t)
    ensures OwnersOf(s2.completed[..|s0.completed|]) == DoneSet(s0)
  {
    assert s2.completed[..|s0.completed|] == s0.completed;
    RollbackStructured(plan, s2, t, |s0.completed|);
    DistinctSplits(s2.completed, |s0.completed|);
    forall u | u in s0.inputs
      ensures u !in OwnersOf(s2.completed[|s0.completed|..])
    {
      assert IsDone(s0, u) ==> u in DoneSet(s0);
    }
    if s2.conflicts == [] {
      forall n | n in s0.owners
        ensures n !in ComponentsOf(s2.completed[|s0.completed|..])
      {
        RollbackKeepsOwner(g, plan, s0, s2, since0, since, |s0.completed|, n);
      }
    }
  }

  lemma RollbackKeepsOwner(g: Graph, plan: Plan, s0: State, s2: State, since0: map<TypeId, set<TypeId>>,
                           since: map<TypeId, set<TypeId>>, started: nat, n: string)
    requires s0.owners.Keys == s0.definitions.Keys && s2.owners.Keys == s2.definitions.Keys
    requires Meaningful(g, plan, s0, since0) && Meaningful(g, plan, s2, since)
    requires started <= |s2.completed| && forall u :: u in s0.inputs ==> u !in OwnersOf(s2.completed[started..])
    requires n in s0.owners && n in s2.owners && s2.owners[n] == s0.owners[n]
    ensures n !in ComponentsOf(s2.completed[started..])
  {
  }

  lemma FinishExtends(s0: State, s2: State, s3: State, t: TypeId)
    requires ExtendsBut(s0, s2, t)
    requires IsDone(s3, t) && s3.inputs == s2.inputs[t := s3.inputs[t]]
    requires s2.completed <= s3.completed && s2.conflicts <= s3.conflicts
    requires s3.inputDiffers == s2.inputDiffers || s3.inputDiffers == s2.inputDiffers + {t}
    requires s3.assumedSame == s2.assumedSame
    requires forall n :: n in s2.owners ==> n in s3.owners && s3.owners[n] == s2.owners[n]
    ensures Extends(s0, s3)
  {
  }

  /** What `t` needs to be finished, once its body has been built. */
  lemma CanFinish(g: Graph, plan: Plan, s0: State, since: map<TypeId, set<TypeId>>, s2: State, t: TypeId)
    requires Valid(g, plan, s0, since) && ExtendsBut(s0, s2, t)
    requires forall k {:trigger k in Kids(g, t)} :: k in Kids(g, t) ==> k in s2.inputs
    requires forall k {:trigger k in Kids(g, t)} :: k in Kids(g, t) && IsBuilding(s2, k) && k !in s2.inputDiffers ==>
               k in s2.assumedSame
    ensures s2.conflicts == [] ==> ReadyToFinish(g, s2, since[t := DoneSet(s0)], t)
  {
  }

  /**
    With all names clear, the response component of `t` is in place, so comparing it with `built`
    compares the two forms.
   */
  lemma ComparesForms(g: Graph, plan: Plan, s: State, since: map<TypeId, set<TypeId>>, t: TypeId)
    requires Valid(g, plan, s, since) && IsBuilding(s, t) && s.conflicts == []
    ensures Name(g, t) in s.definitions && s.definitions[Name(g, t)] == OutBody(g, t)
  {
  }

  lemma ValidBasics(g: Graph, plan: Plan, s: State, since: map<TypeId, set<TypeId>>)
    requires Valid(g, plan, s, since)
    ensures PlanOk(g, plan) && Structured(plan, s) && since.Keys == BuildingSet(s)
    ensures s.conflicts == [] ==> OwnersOk(g, plan, s.owners)
    ensures ConflictsOk(g, plan, s.conflicts)
  {
  }
}
