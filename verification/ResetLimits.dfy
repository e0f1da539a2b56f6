/** Concrete inputs on which the generator or its output falls short. */
module ResetLimits {
  import opened GoTypes
  import opened Graphs
  import opened Optional
  import opened ResetAccepted
  import opened ResetCalls
  import opened ResetGen
  import opened ResetMachine
  import opened ResetSpec
  import opened ResetTheorems
  import opened ResetTyping
  import opened ResetVisits

  // A Reset method on the pointer type.
  const BY_HAND := MethodSets([], [Method("Reset", 0, None)])

  // ---- A generator without end ----

  const PAIR := TypeId("list", "Pair")

  // type Pair struct { Value int; Next *Pair }
  const PAIR_FIELDS := [Plain("Value", true, Basic("int")), Plain("Next", true, Pointer(Named(PAIR)))]

  function PairEnv(): Env {
    Env(map[PAIR := Decl(Struct(PAIR_FIELDS, NO_METHODS), NO_METHODS, true)], map[], {}, 0)
  }

  /** On a pointer to such a struct the generator overflows every stack, though the field that leads back is
      not the first one. */
  lemma {:induction false} PairNeverEnds(d: nat)
    ensures ResetStatement(d, PairEnv(), "list", ["p"], Pointer(Named(PAIR)), false, false).result
         == Fail(StackOverflow)
  {
    var env := PairEnv();
    var graph := CallGraph(env);
    var c0, c1 := Call(Pointer(Named(PAIR)), false, false), Call(Named(PAIR), true, false);
    var c2 := Call(Struct(PAIR_FIELDS, NO_METHODS), true, false);
    assert Outcome(0, env, FieldCall(PAIR_FIELDS[0])).Emit?;
    assert ComesTo(env, PAIR_FIELDS, 1);
    assert c0 == FieldCall(PAIR_FIELDS[1]);
    assert graph(c0, c1) && graph(c1, c2) && graph(c2, c0);
    ReachesSelf(graph, c0);
    ReachesFirst(graph, c2, c0);
    ReachesFirst(graph, c1, c0);
    assert ReachesCycle(graph, c0);
    GeneratorEnds(env, c0);
    assert !Ends(d, env, c0);
    SameVerdict(d, env, "", [], "list", ["p"], c0.t, false, false);
  }

  /** The same struct held by value is not opened. */
  lemma {:induction false} PairByValueEnds(d: nat)
    ensures ResetStatement(d + 1, PairEnv(), "list", ["p"], Named(PAIR), false, false).result == Emit([])
  {
  }

  // type Refused struct { C chan int; Next *Refused }
  const REFUSED := TypeId("list", "Refused")
  const REFUSED_FIELDS := [Plain("C", true, Other("chan int")), Plain("Next", true, Pointer(Named(REFUSED)))]

  function RefusedEnv(): Env {
    Env(map[REFUSED := Decl(Struct(REFUSED_FIELDS, NO_METHODS), NO_METHODS, true)], map[], {}, 1)
  }

  /** A field that is refused ends the loop before the field that would lead back. */
  lemma {:induction false} RefusedEnds(d: nat)
    ensures ResetStatement(d + 1, RefusedEnv(), "list", ["p"], Pointer(Named(REFUSED)), false, false).result
         == Fail(UnknownType)
  {
    var env := RefusedEnv();
    var sel := ["p"] + ["C"];
    assert ResetStatement(d, env, "list", sel, Other("chan int"), false, false).result == Fail(UnknownType);
    assert ResetFields(d, env, "list", ["p"], REFUSED_FIELDS).result == Fail(UnknownType);
    assert ResetStatement(d, env, "list", ["p"], Under(env, REFUSED), true, false).result == Fail(UnknownType);
    assert ResetStatement(d + 1, env, "list", ["p"], Named(REFUSED), true, false).result == Fail(UnknownType);
  }

  // ---- A call without end ----

  const NODE := TypeId("list", "Node")

  // type Node struct { next *Node }, marked for generation.
  const NODE_FIELDS := [Plain("next", false, Pointer(Named(NODE)))]

  function ListEnv(): Env {
    Env(map[NODE := Decl(Struct(NODE_FIELDS, NO_METHODS), NO_METHODS, true)], map[], {NODE}, 1)
  }

  function ListWorld(): World {
    World(ListEnv(), map["list" := {}],
          map[Var(0, []) := Named(NODE), Var(0, ["next"]) := Pointer(Named(NODE))],
          (t: GoType, s: int) => Some(s), {}, {})
  }

  // One node, whose next is nil or the node itself.
  function ListHeap(next: Option<nat>): Heap {
    map[Var(0, ["next"]) := Ptr(next)]
  }

  lemma {:induction false} ListProgram()
    ensures Program(ListWorld())
  {
    var env, sel := ListEnv(), ["next"];
    var call := CallReset(Sel(sel));
    assert ResetStatement(0, env, "list", sel, Under(env, NODE), true, true) == Output(Emit([call]), {});
    assert ResetStatement(1, env, "list", sel, Named(NODE), true, false) == Output(Emit([call]), {});
    assert ResetStatement(1, env, "list", sel, Pointer(Named(NODE)), false, false)
        == Output(Emit([IfNotNil(Sel(sel), [call])]), {});
    assert OwnFields(NODE_FIELDS) == NODE_FIELDS;
    assert BodyOf(env, "list", NODE_FIELDS) == Output(Emit([IfNotNil(Sel(sel), [call])]), {});
    assert [ReturnIfNil] + [IfNotNil(Sel(sel), [call])] == [ReturnIfNil, IfNotNil(Sel(sel), [call])];
    assert MethodOf(env, NODE) == Output(Emit([ReturnIfNil, IfNotNil(Sel(sel), [call])]), {});
    assert TypeOf(env, Named(NODE), []) == Some(Named(NODE)) && sel[..0] == [];
    assert TypeOf(env, Named(NODE), sel) == Some(Pointer(Named(NODE)));
  }

  lemma {:induction false} ListReceiver(next: Option<nat>)
    requires next == None || next == Some(0)
    ensures Receiver(ListWorld(), ListHeap(next), Var(0, []))
  {
    ListProgram();
    assert Sub(Var(0, []), "next") == Var(0, ["next"]);
  }

  lemma {:induction false} NodeEdges(next: Option<nat>, q: Place)
    requires next == None || next == Some(0)
    ensures Edge(ListWorld(), ListHeap(next), Var(0, []), q) <==> q == Var(0, ["next"])
    ensures Edge(ListWorld(), ListHeap(next), Var(0, ["next"]), q) <==> next.Some? && q == Var(0, [])
  {
    var w, p := ListWorld(), Var(0, []);
    assert OwnFields(NODE_FIELDS) == NODE_FIELDS;
    assert ShapeAt(w, p) == Record(NODE_FIELDS) && ShapeAt(w, Var(0, ["next"])) == Followed;
    assert Var(0, ["next"]) == Sub(p, NODE_FIELDS[0].name);
  }

  lemma {:induction false} NoTrapOnList(next: Option<nat>)
    ensures !ReachesTrap(ListWorld(), ListHeap(next), Var(0, []))
  {
    var w, h := ListWorld(), ListHeap(next);
    forall q ensures !NilTrap(w, h, q) && ShapeAt(w, q) != Delegated {
    }
    NoTrapReached(w, h, Var(0, []));
  }

  /** A generated Reset follows pointers to structs that have one, so on a node linked to itself it never
      ends. */
  lemma {:induction false} LinkedToItself(k: nat)
    ensures Receiver(ListWorld(), ListHeap(Some(0)), Var(0, []))
    ensures CallOn(k, ListWorld(), ListHeap(Some(0)), Var(0, [])) == OutOfFuel
  {
    var w, h, p, next := ListWorld(), ListHeap(Some(0)), Var(0, []), Var(0, ["next"]);
    var graph := Edges(w, h);
    ListReceiver(Some(0));
    NodeEdges(Some(0), next);
    NodeEdges(Some(0), p);
    ReachesSelf(graph, p);
    ReachesFirst(graph, next, p);
    ResetEnds(w, h, p);
    ResetCorrect(k, w, h, p);
    NoTrapOnList(Some(0));
  }

  /** On the same node with a nil link it ends. */
  lemma {:induction false} LinkedToNothing()
    ensures Receiver(ListWorld(), ListHeap(None), Var(0, []))
    ensures exists k: nat :: CallOn(k, ListWorld(), ListHeap(None), Var(0, [])).Done?
  {
    var w, h, p, next := ListWorld(), ListHeap(None), Var(0, []), Var(0, ["next"]);
    var graph := Edges(w, h);
    ListReceiver(None);
    forall q { NodeEdges(None, q); }
    ShallowFrom(graph, next, 0);
    ShallowFrom(graph, p, 1);
    NoTrapOnList(None);
    ResetCorrect(2, w, h, p);
    assert CallOn(2, w, h, p).Done?;
  }

  // ---- Calls that panic ----

  const HOLDER := TypeId("list", "Holder")
  const RESETTER := TypeId("list", "Resetter")
  const CACHE := TypeId("list", "Cache")
  const OUTER := TypeId("list", "Outer")
  const BOX := TypeId("list", "Box")

  const RESETTER_METHODS := MethodSets([Method("Reset", 0, None)], [])

  // type Holder struct { r Resetter }, marked for generation; Cache has a Reset method written by hand.
  const HOLDER_FIELDS := [Plain("r", false, Named(RESETTER))]

  // type Outer struct { Resetter }, whose Reset is that of the embedded interface.
  const OUTER_FIELDS := [Field("Resetter", true, true, Named(RESETTER))]
  const PROMOTED := MethodSets([Method("Reset", 0, Some("Resetter"))], [])

  // type Box struct { f Outer }, marked for generation.
  const BOX_FIELDS := [Plain("f", false, Named(OUTER))]

  function ResettersEnv(stack: nat): Env {
    Env(map[HOLDER := Decl(Struct(HOLDER_FIELDS, NO_METHODS), NO_METHODS, true),
            RESETTER := Decl(Interface(RESETTER_METHODS), RESETTER_METHODS, true),
            CACHE := Decl(Struct([], NO_METHODS), BY_HAND, true),
            OUTER := Decl(Struct(OUTER_FIELDS, PROMOTED), PROMOTED, true),
            BOX := Decl(Struct(BOX_FIELDS, NO_METHODS), NO_METHODS, true)],
        map[], {HOLDER, BOX}, stack)
  }

  const HOLDER_AT := Var(0, [])
  const R_AT := Var(0, ["r"])
  const BOX_AT := Var(1, [])
  const F_AT := Var(1, ["f"])
  const EMBEDDED_AT := Var(1, ["f", "Resetter"])

  function ResettersWorld(stack: nat): World {
    World(ResettersEnv(stack), map["list" := {}],
          map[HOLDER_AT := Named(HOLDER), R_AT := Named(RESETTER),
              BOX_AT := Named(BOX), F_AT := Named(OUTER), EMBEDDED_AT := Named(RESETTER)],
          (t: GoType, s: int) => Some(s), {}, {})
  }

  // The interface of the holder holds a nil *Cache. The box is its zero value.
  function ResettersHeap(): Heap {
    map[R_AT := Iface(TypedNil(CACHE)), EMBEDDED_AT := Iface(NilIface)]
  }

  lemma ResettersHaveReset()
    ensures HasReset(RESETTER_METHODS) && HasReset(BY_HAND) && HasReset(PROMOTED) && !HasReset(NO_METHODS)
    ensures FirstReset(PROMOTED.value + PROMOTED.pointer) == Some(Method("Reset", 0, Some("Resetter")))
  {
    assert BY_HAND.value + BY_HAND.pointer == BY_HAND.pointer;
    assert PROMOTED.value + PROMOTED.pointer == PROMOTED.value;
  }

  lemma {:induction false} ResettersValid(stack: nat)
    ensures ValidEnv(ResettersEnv(stack))
  {
    ResettersHaveReset();
    forall id | id in ResettersEnv(stack).decls ensures ValidDecl(ResettersEnv(stack), id) {
      assert id == HOLDER || id == RESETTER || id == CACHE || id == OUTER || id == BOX;
      if id == RESETTER { assert Resettable(ResettersEnv(stack), RESETTER); }
    }
  }

  lemma {:induction false} HolderMethod(stack: nat)
    requires stack > 0
    ensures MethodOf(ResettersEnv(stack), HOLDER)
         == Output(Emit([ReturnIfNil, IfNotNil(Sel(["r"]), [CallReset(Sel(["r"]))])]), {})
  {
    var env, sel := ResettersEnv(stack), ["r"];
    var s := IfNotNil(Sel(sel), [CallReset(Sel(sel))]);
    ResettersHaveReset();
    assert ResetStatement(stack - 1, env, "list", sel, Under(env, RESETTER), false, true) == Output(Emit([s]), {});
    assert ResetStatement(stack, env, "list", sel, Named(RESETTER), false, false) == Output(Emit([s]), {});
    assert OwnFields(HOLDER_FIELDS) == HOLDER_FIELDS;
    assert Under(env, HOLDER) == Struct(HOLDER_FIELDS, NO_METHODS);
    assert BodyOf(env, "list", HOLDER_FIELDS) == Output(Emit([s]), {});
    assert [ReturnIfNil] + [s] == [ReturnIfNil, s];
  }

  lemma {:induction false} HolderAccepted(stack: nat)
    requires stack > 0
    ensures MethodOk(ResettersWorld(stack), HOLDER)
  {
    var env, sel := ResettersEnv(stack), ["r"];
    HolderMethod(stack);
    ResettersHaveReset();
    assert TypeOf(env, Named(HOLDER), []) == Some(Named(HOLDER)) && sel[..0] == [];
    assert TypeOf(env, Named(HOLDER), sel) == Some(Named(RESETTER));
    assert HasMethod(env, Named(RESETTER));
    OneAccepted(env, {}, "list", Named(HOLDER), CallReset(Sel(sel)));
  }

  lemma {:induction false} BoxMethod(stack: nat)
    requires stack > 0
    ensures MethodOf(ResettersEnv(stack), BOX) == Output(Emit([ReturnIfNil, CallReset(Sel(["f"]))]), {})
  {
    var env, sel := ResettersEnv(stack), ["f"];
    var s := CallReset(Sel(sel));
    ResettersHaveReset();
    assert ResetStatement(stack - 1, env, "list", sel, Under(env, OUTER), false, true) == Output(Emit([s]), {});
    assert ResetStatement(stack, env, "list", sel, Named(OUTER), false, false) == Output(Emit([s]), {});
    assert OwnFields(BOX_FIELDS) == BOX_FIELDS;
    assert Under(env, BOX) == Struct(BOX_FIELDS, NO_METHODS);
    assert BodyOf(env, "list", BOX_FIELDS) == Output(Emit([s]), {});
    assert [ReturnIfNil] + [s] == [ReturnIfNil, s];
  }

  lemma {:induction false} BoxAccepted(stack: nat)
    requires stack > 0
    ensures MethodOk(ResettersWorld(stack), BOX)
  {
    var env, sel := ResettersEnv(stack), ["f"];
    BoxMethod(stack);
    ResettersHaveReset();
    assert TypeOf(env, Named(BOX), []) == Some(Named(BOX)) && sel[..0] == [];
    assert TypeOf(env, Named(BOX), sel) == Some(Named(OUTER));
  }

  lemma {:induction false} ResettersShapes(stack: nat)
    ensures var w := ResettersWorld(stack);
            && ShapeAt(w, HOLDER_AT) == Record(HOLDER_FIELDS) && ShapeAt(w, R_AT) == Followed
            && ShapeAt(w, BOX_AT) == Record(BOX_FIELDS) && ShapeAt(w, F_AT) == Record(OUTER_FIELDS)
            && ShapeAt(w, EMBEDDED_AT) == Followed
            && Relayed(w.env, Named(OUTER)) == Some(OUTER_FIELDS[0])
  {
    ResettersHaveReset();
    assert OwnFields(HOLDER_FIELDS) == HOLDER_FIELDS && OwnFields(BOX_FIELDS) == BOX_FIELDS;
  }

  lemma {:induction false} ResettersPlaces()
    ensures Sub(HOLDER_AT, "r") == R_AT && Sub(BOX_AT, "f") == F_AT && Sub(F_AT, "Resetter") == EMBEDDED_AT
  {
  }

  lemma {:induction false} HolderTyped(stack: nat)
    ensures TypedAt(ResettersWorld(stack), ResettersHeap(), HOLDER_AT)
    ensures TypedAt(ResettersWorld(stack), ResettersHeap(), R_AT)
  {
    ResettersHaveReset();
    ResettersPlaces();
  }

  lemma {:induction false} BoxTyped(stack: nat)
    ensures TypedAt(ResettersWorld(stack), ResettersHeap(), BOX_AT)
    ensures TypedAt(ResettersWorld(stack), ResettersHeap(), F_AT)
    ensures TypedAt(ResettersWorld(stack), ResettersHeap(), EMBEDDED_AT)
  {
    ResettersShapes(stack);
    ResettersPlaces();
  }

  lemma {:induction false} ResettersTyped(stack: nat, p: Place)
    requires p in ResettersWorld(stack).types
    ensures p.Var? && TypedAt(ResettersWorld(stack), ResettersHeap(), p)
  {
    assert p == HOLDER_AT || p == R_AT || p == BOX_AT || p == F_AT || p == EMBEDDED_AT;
    if p == HOLDER_AT || p == R_AT { HolderTyped(stack); } else { BoxTyped(stack); }
  }

  lemma {:induction false} ResettersProgram(stack: nat)
    requires stack > 0
    ensures Program(ResettersWorld(stack))
  {
    ResettersValid(stack);
    HolderAccepted(stack);
    BoxAccepted(stack);
    forall id | id in ResettersEnv(stack).marked ensures MethodOk(ResettersWorld(stack), id) {
      assert id == HOLDER || id == BOX;
    }
  }

  lemma {:induction false} ResettersReceivers(stack: nat)
    requires stack > 0
    ensures Receiver(ResettersWorld(stack), ResettersHeap(), HOLDER_AT)
    ensures Receiver(ResettersWorld(stack), ResettersHeap(), BOX_AT)
  {
    ResettersProgram(stack);
    forall p | p in ResettersWorld(stack).types { ResettersTyped(stack, p); }
  }

  lemma {:induction false} HolderEdges(stack: nat, q: Place)
    ensures var w, h := ResettersWorld(stack), ResettersHeap();
            (Edge(w, h, HOLDER_AT, q) <==> q == R_AT) && !Edge(w, h, R_AT, q)
  {
    ResettersShapes(stack);
    ResettersPlaces();
    assert HOLDER_FIELDS[0].name == "r";
  }

  lemma {:induction false} HolderReaches(stack: nat)
    ensures var graph := Edges(ResettersWorld(stack), ResettersHeap());
            Reaches(graph, HOLDER_AT, R_AT) && Shallow(graph, HOLDER_AT, 1)
  {
    var graph := Edges(ResettersWorld(stack), ResettersHeap());
    forall q { HolderEdges(stack, q); }
    ShallowFrom(graph, R_AT, 0);
    ShallowFrom(graph, HOLDER_AT, 1);
    ReachesSelf(graph, R_AT);
    ReachesFirst(graph, HOLDER_AT, R_AT);
  }

  lemma {:induction false} BoxReaches(stack: nat)
    ensures var graph := Edges(ResettersWorld(stack), ResettersHeap());
            Reaches(graph, BOX_AT, EMBEDDED_AT) && Shallow(graph, BOX_AT, 2)
  {
    var graph := Edges(ResettersWorld(stack), ResettersHeap());
    forall q { BoxEdges(stack, q); }
    ShallowFrom(graph, EMBEDDED_AT, 0);
    ShallowFrom(graph, F_AT, 1);
    ShallowFrom(graph, BOX_AT, 2);
    ReachesSelf(graph, EMBEDDED_AT);
    ReachesFirst(graph, F_AT, EMBEDDED_AT);
    ReachesFirst(graph, BOX_AT, EMBEDDED_AT);
  }

  lemma {:induction false} BoxEdges(stack: nat, q: Place)
    ensures var w, h := ResettersWorld(stack), ResettersHeap();
            && (Edge(w, h, BOX_AT, q) <==> q == F_AT) && (Edge(w, h, F_AT, q) <==> q == EMBEDDED_AT)
            && !Edge(w, h, EMBEDDED_AT, q)
  {
    ResettersShapes(stack);
    ResettersPlaces();
    assert BOX_FIELDS[0].name == "f" && OUTER_FIELDS[0].name == "Resetter";
  }

  lemma {:induction false} ResettersTraps(stack: nat)
    ensures NilTrap(ResettersWorld(stack), ResettersHeap(), R_AT)
    ensures NilTrap(ResettersWorld(stack), ResettersHeap(), EMBEDDED_AT)
  {
    ResettersShapes(stack);
    assert EMBEDDED_AT.path[..|EMBEDDED_AT.path| - 1] == F_AT.path;
  }

  /** The emitted nil check lets a nil pointer inside an interface through, and its Reset is called. */
  lemma {:induction false} TypedNilPanics(stack: nat, k: nat)
    requires stack > 0
    ensures Receiver(ResettersWorld(stack), ResettersHeap(), HOLDER_AT)
    ensures CallOn(k + 2, ResettersWorld(stack), ResettersHeap(), HOLDER_AT) == Panic
  {
    ResettersReceivers(stack);
    HolderReaches(stack);
    ResettersTraps(stack);
    TrapReached(ResettersWorld(stack), ResettersHeap(), HOLDER_AT, R_AT);
    ResetCorrect(k + 2, ResettersWorld(stack), ResettersHeap(), HOLDER_AT);
  }

  /** A promoted Reset is called without any nil check on the embedded interface. */
  lemma {:induction false} ZeroBoxPanics(stack: nat, k: nat)
    requires stack > 0
    ensures Receiver(ResettersWorld(stack), ResettersHeap(), BOX_AT)
    ensures CallOn(k + 3, ResettersWorld(stack), ResettersHeap(), BOX_AT) == Panic
  {
    ResettersReceivers(stack);
    BoxReaches(stack);
    ResettersTraps(stack);
    TrapReached(ResettersWorld(stack), ResettersHeap(), BOX_AT, EMBEDDED_AT);
    ResetCorrect(k + 3, ResettersWorld(stack), ResettersHeap(), BOX_AT);
  }

  // ---- Output that Go rejects ----

  /** An array of another package's type is written with the type's bare name, which means another type. */
  lemma {:induction false} ForeignArrayRejected(d: nat, env: Env, imports: set<string>, pkg: string, base: GoType,
                                                sel: seq<string>, len: nat, id: TypeId)
    requires ValidEnv(env) && Foreign(pkg, id) && TypeOf(env, base, sel) == Some(Array(len, Named(id)))
    ensures var out := ResetStatement(d, env, pkg, sel, Array(len, Named(id)), false, false);
            out.result.Emit? && !AcceptsAll(env, imports, pkg, base, out.result.stmts)
  {
    AcceptedExactly(d, env, imports, pkg, base, sel, Array(len, Named(id)), false, false, false);
  }

  /** An array of unsafe.Pointer is written with the bare name Pointer, which nothing declares. */
  lemma {:induction false} UnsafeArrayRejected(d: nat, env: Env, imports: set<string>, pkg: string, base: GoType,
                                               sel: seq<string>, len: nat)
    requires ValidEnv(env) && TypeOf(env, base, sel) == Some(Array(len, Basic("Pointer")))
    ensures var out := ResetStatement(d, env, pkg, sel, Array(len, Basic("Pointer")), false, false);
            && out.result == Emit([Assign(Sel(sel), ArrayLit(len, "Pointer"))])
            && !AcceptsAll(env, imports, pkg, base, out.result.stmts)
  {
    AcceptedExactly(d, env, imports, pkg, base, sel, Array(len, Basic("Pointer")), false, false, false);
  }

  // type Hidden *struct { x int }
  const HIDDEN := TypeId("list", "Hidden")
  const HIDDEN_FIELDS := [Plain("x", false, Basic("int"))]

  /** A name for a pointer to a struct with hidden fields is written as a composite literal of the pointer type. */
  lemma {:induction false} PointerLiteralRejected(d: nat, env: Env, imports: set<string>, base: GoType,
                                                  sel: seq<string>)
    requires ValidEnv(env) && !Resettable(env, HIDDEN)
    requires Under(env, HIDDEN) == Pointer(Struct(HIDDEN_FIELDS, NO_METHODS))
    requires TypeOf(env, base, sel) == Some(Named(HIDDEN))
    ensures var out := ResetStatement(d + 1, env, "list", sel, Named(HIDDEN), false, false);
            && out.result == Emit([Assign(Sel(sel), StructLit(Local("Hidden")))])
            && !AcceptsAll(env, imports, "list", base, out.result.stmts)
  {
    assert ResetFields(d, env, "list", sel, HIDDEN_FIELDS).result == Fail(NotExportedFields);
    assert ResetStatement(d, env, "list", sel, Pointer(Struct(HIDDEN_FIELDS, NO_METHODS)), false, false).result
        == Fail(NotExportedFields);
    OneAccepted(env, imports, "list", base, Assign(Sel(sel), StructLit(Local("Hidden"))));
  }
}
