/** The routes registered for one path pattern, by method. */
module Routes {
  import opened Wrappers
  import opened Codec

  datatype Method = DELETE | GET | HEAD | OPTIONS | PATCH | POST | PUT | Other(token: Bytes)

  const METHODS: seq<Method> := [DELETE, GET, HEAD, OPTIONS, PATCH, POST, PUT]

  /** The `u32` that marks a free slot. */
  const NONE: nat := 0xFFFF_FFFF

  datatype RouteSet = RouteSet(routes: seq<nat>, mask: bv8)

  const EMPTY: RouteSet := RouteSet([NONE, NONE, NONE, NONE, NONE, NONE, NONE], 0)

  function MethodSlot(m: Method): (slot: Option<nat>)
    ensures slot.None? <==> m.Other?
    ensures slot.Some? ==> slot.value < 7 && METHODS[slot.value] == m
  {
    match m
    case DELETE => Some(0)
    case GET => Some(1)
    case HEAD => Some(2)
    case OPTIONS => Some(3)
    case PATCH => Some(4)
    case POST => Some(5)
    case PUT => Some(6)
    case Other(_) => None
  }

  predicate Bit(mask: bv8, slot: nat)
    requires slot < 8
  {
    mask & ((1 as bv8) << slot) != 0
  }

  function WithBit(mask: bv8, slot: nat): bv8
    requires slot < 8
  {
    mask | ((1 as bv8) << slot)
  }

  /** The mask has exactly the bits of the slots in use. */
  ghost predicate RouteSetOk(s: RouteSet) {
    && |s.routes| == 7
    && !Bit(s.mask, 7)
    && forall slot :: 0 <= slot < 7 ==> (Bit(s.mask, slot) <==> s.routes[slot] != NONE)
  }

  /** `insert`; `None` where it panics: an unsupported method, or one that has a route already. */
  function Insert(s: RouteSet, m: Method, route: nat): Option<RouteSet>
    requires |s.routes| == 7
  {
    match MethodSlot(m)
    case None => None
    case Some(slot) =>
      if s.routes[slot] != NONE then None
      else Some(RouteSet(s.routes[slot := route], WithBit(s.mask, slot)))
  }

  function RouteOf(s: RouteSet, m: Method): Option<nat>
    requires |s.routes| == 7
  {
    match MethodSlot(m)
    case None => None
    case Some(slot) => if s.routes[slot] != NONE then Some(s.routes[slot]) else None
  }

  predicate IsEmpty(s: RouteSet) {
    s.mask == 0
  }

  /** The methods an `Allow` header lists: those whose bit is set, in order. */
  function Allowed(s: RouteSet, from: nat := 0): seq<Method>
    requires from <= 7
    decreases 7 - from
  {
    if from == 7 then [] else (if Bit(s.mask, from) then [METHODS[from]] else []) + Allowed(s, from + 1)
  }

  /** Methods are listed in the order of their names, each once. */
  ghost predicate InOrder(allow: seq<Method>) {
    forall i, j :: 0 <= i < j < |allow| ==> Precedes(allow[i], allow[j])
  }

  ghost predicate Precedes(a: Method, b: Method) {
    exists i, j :: 0 <= i < j < 7 && METHODS[i] == a && METHODS[j] == b
  }

  /** A `HEAD` request falls back to the `GET` route. */
  function RouteIndex(s: RouteSet, m: Method): Option<nat>
    requires |s.routes| == 7
  {
    var route := RouteOf(s, m);
    if route.None? && m == HEAD then RouteOf(s, GET) else route
  }

  datatype Resolution = Route(index: nat) | AnswerOptions(allow: seq<Method>) | MethodNotAllowed(allow: seq<Method>)

  function Resolve(m: Method, s: RouteSet): Resolution
    requires |s.routes| == 7
  {
    var index := RouteIndex(s, m);
    if index.None? && m == OPTIONS then AnswerOptions(Allowed(s))
    else match index
         case None => MethodNotAllowed(Allowed(s))
         case Some(i) => Route(i)
  }

  lemma SetBit(mask: bv8, slot: nat, other: nat)
    requires slot < 8 && other < 8
    ensures Bit(WithBit(mask, slot), other) <==> other == slot || Bit(mask, other)
  {
  }

  lemma ZeroMask(mask: bv8)
    ensures mask == 0 <==> forall slot :: 0 <= slot < 8 ==> !Bit(mask, slot)
  {
    if forall slot :: 0 <= slot < 8 ==> !Bit(mask, slot) {
      assert !Bit(mask, 0) && !Bit(mask, 1) && !Bit(mask, 2) && !Bit(mask, 3);
      assert !Bit(mask, 4) && !Bit(mask, 5) && !Bit(mask, 6) && !Bit(mask, 7);
    }
  }

  /** The set is empty exactly when no method has a route. */
  lemma EmptyExactly(s: RouteSet)
    requires RouteSetOk(s)
    ensures IsEmpty(s) <==> forall m :: RouteOf(s, m).None?
    ensures RouteSetOk(EMPTY) && IsEmpty(EMPTY)
  {
    ZeroMask(s.mask);
    if forall m :: RouteOf(s, m).None? {
      forall slot | 0 <= slot < 7
        ensures !Bit(s.mask, slot)
      {
        assert RouteOf(s, METHODS[slot]).None?;
      }
    }
  }

  /**
    Inserting gives `m` its route and changes no other method's; it panics exactly on a duplicate or an
    unsupported method.
   */
  lemma InsertSetsRoute(s: RouteSet, m: Method, route: nat)
    requires RouteSetOk(s) && route < NONE
    ensures Insert(s, m, route).None? <==> RouteOf(s, m).Some? || m.Other?
    ensures Insert(s, m, route).Some? ==>
      && RouteSetOk(Insert(s, m, route).value)
      && !IsEmpty(Insert(s, m, route).value)
      && forall other ::
           RouteOf(Insert(s, m, route).value, other) == if other == m then Some(route) else RouteOf(s, other)
  {
    hide Bit, WithBit;
    match Insert(s, m, route)
    case None =>
    case Some(t) =>
      var set_ := MethodSlot(m).value;
      forall slot | 0 <= slot < 8
        ensures Bit(t.mask, slot) <==> slot == set_ || Bit(s.mask, slot)
      {
        SetBit(s.mask, set_, slot);
      }
      ZeroMask(t.mask);
      assert Bit(t.mask, set_);
  }

  lemma {:induction false} AllowedInOrder(s: RouteSet, from: nat)
    requires RouteSetOk(s) && from <= 7
    ensures InOrder(Allowed(s, from))
    decreases 7 - from
  {
    if from < 7 {
      var rest := Allowed(s, from + 1);
      AllowedInOrder(s, from + 1);
      forall k | 0 <= k < |rest|
        ensures Precedes(METHODS[from], rest[k])
      {
        AllowedFrom(s, from + 1, rest[k]);
        assert METHODS[MethodSlot(rest[k]).value] == rest[k];
      }
    }
  }

  lemma {:induction false} AllowedFrom(s: RouteSet, from: nat, m: Method)
    requires RouteSetOk(s) && from <= 7
    ensures m in Allowed(s, from) <==> RouteOf(s, m).Some? && MethodSlot(m).value >= from
    decreases 7 - from
  {
    if from < 7 {
      AllowedFrom(s, from + 1, m);
      assert MethodSlot(METHODS[from]) == Some(from);
      hide Bit;
    }
  }

  /**
    What a request resolves to: its own route, `GET`'s for `HEAD`, and otherwise a list of exactly the
    methods that have one.
   */
  lemma ResolvesTo(m: Method, s: RouteSet)
    requires RouteSetOk(s)
    ensures Resolve(m, s).Route? ==>
      || RouteOf(s, m) == Some(Resolve(m, s).index)
      || (m == HEAD && RouteOf(s, HEAD).None? && RouteOf(s, GET) == Some(Resolve(m, s).index))
    ensures !Resolve(m, s).Route? ==>
      && RouteOf(s, m).None? && (m == HEAD ==> RouteOf(s, GET).None?)
      && (Resolve(m, s).AnswerOptions? <==> m == OPTIONS)
      && InOrder(Resolve(m, s).allow)
      && forall other :: other in Resolve(m, s).allow <==> RouteOf(s, other).Some?
  {
    AllowedInOrder(s, 0);
    forall other
      ensures other in Allowed(s) <==> RouteOf(s, other).Some?
    {
      AllowedFrom(s, 0, other);
    }
  }
}
