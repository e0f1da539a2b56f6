/** Which calls resetStatement makes of itself: when its recursion ends, and where a failure comes from. */
module ResetCalls {
  import opened GoTypes
  import opened Graphs
  import opened ResetAccepted
  import opened ResetGen

  // The arguments of a call that decide what it calls.
  datatype Call = Call(t: GoType, pointer: bool, hasReset: bool)

  function Outcome(d: nat, env: Env, c: Call): Result {
    ResetStatement(d, env, "", [], c.t, c.pointer, c.hasReset).result
  }

  // The call returns before the stack overflows.
  predicate Ends(d: nat, env: Env, c: Call) {
    Outcome(d, env, c) != Fail(StackOverflow)
  }

  // The call succeeds when the stack is large enough.
  ghost predicate Emits(env: Env, c: Call) {
    exists d: nat :: Outcome(d, env, c).Emit?
  }

  function FieldCall(f: Field): Call {
    Call(f.typ, false, false)
  }

  /** The loop over the fields of a pointee comes to the i-th field: all fields up to it are exported, and the
      calls for those before it have succeeded. */
  ghost predicate ComesTo(env: Env, fields: seq<Field>, i: nat)
    requires i < |fields|
  {
    && (forall j :: 0 <= j <= i ==> fields[j].exported)
    && (forall j :: 0 <= j < i ==> Emits(env, FieldCall(fields[j])))
  }

  // The loop is entered.
  predicate Opened(c: Call) {
    c.t.Struct? && !c.hasReset && !HasReset(c.t.methods) && c.pointer
  }

  /** The call c makes the call e. */
  ghost predicate Calls(env: Env, c: Call, e: Call) {
    match c.t
    case Named(id) => e == Call(Under(env, id), c.pointer, c.hasReset || Resettable(env, id))
    case Pointer(elem) => e == Call(elem, true, c.hasReset)
    case Struct(fields, _) =>
      Opened(c) && exists i :: 0 <= i < |fields| && ComesTo(env, fields, i) && e == FieldCall(fields[i])
    case _ => false
  }

  ghost function CallGraph(env: Env): Graph<Call> {
    (c: Call, e: Call) => Calls(env, c, e)
  }

  // ---- More stack changes nothing that has ended ----

  lemma {:induction false} MoreStack(d: nat, m: nat, env: Env, pkg: string, sel: seq<string>, t: GoType,
                                     pointer: bool, hasReset: bool)
    requires d <= m && ResetStatement(d, env, pkg, sel, t, pointer, hasReset).result != Fail(StackOverflow)
    ensures ResetStatement(m, env, pkg, sel, t, pointer, hasReset)
         == ResetStatement(d, env, pkg, sel, t, pointer, hasReset)
    decreases d, t
  {
    match t
    case Named(id) =>
      MoreStack(d - 1, m - 1, env, pkg, sel, Under(env, id), pointer, hasReset || Resettable(env, id));
    case Pointer(elem) => MoreStack(d, m, env, pkg, sel, elem, true, hasReset);
    case Struct(fields, methods) =>
      if !hasReset && !HasReset(methods) && pointer { MoreFieldsStack(d, m, env, pkg, sel, fields); }
    case _ =>
  }

  lemma {:induction false} MoreFieldsStack(d: nat, m: nat, env: Env, pkg: string, sel: seq<string>, fields: seq<Field>)
    requires d <= m && ResetFields(d, env, pkg, sel, fields).result != Fail(StackOverflow)
    ensures ResetFields(m, env, pkg, sel, fields) == ResetFields(d, env, pkg, sel, fields)
    decreases d, fields
  {
    if fields != [] && fields[0].exported {
      var path := sel + [fields[0].name];
      MoreStack(d, m, env, pkg, path, fields[0].typ, false, false);
      if ResetStatement(d, env, pkg, path, fields[0].typ, false, false).result.Emit? {
        MoreFieldsStack(d, m, env, pkg, sel, fields[1..]);
      }
    }
  }

  // Any two stacks on which a call ends agree.
  lemma SameOutcome(d: nat, m: nat, env: Env, c: Call)
    requires Ends(d, env, c) && Ends(m, env, c)
    ensures Outcome(d, env, c) == Outcome(m, env, c)
  {
    if d <= m {
      MoreStack(d, m, env, "", [], c.t, c.pointer, c.hasReset);
    } else {
      MoreStack(m, d, env, "", [], c.t, c.pointer, c.hasReset);
    }
  }

  lemma SameFieldOutcome(d: nat, env: Env, sel: seq<string>, f: Field)
    ensures Alike(ResetStatement(d, env, "", sel, f.typ, false, false).result, Outcome(d, env, FieldCall(f)))
  {
    SameVerdict(d, env, "", sel, "", [], f.typ, false, false);
  }

  // ---- A call that ends makes calls to a bounded depth ----

  lemma {:induction false} EndsBounded(d: nat, env: Env, c: Call) returns (n: nat)
    requires Ends(d, env, c)
    ensures Shallow(CallGraph(env), c, n)
    decreases d, c.t
  {
    n := 0;
    match c.t
    case Named(id) =>
      n := EndsBounded(d - 1, env, Call(Under(env, id), c.pointer, c.hasReset || Resettable(env, id)));
      n := n + 1;
      ShallowFrom(CallGraph(env), c, n);
    case Pointer(elem) =>
      n := EndsBounded(d, env, Call(elem, true, c.hasReset));
      n := n + 1;
      ShallowFrom(CallGraph(env), c, n);
    case Struct(fields, methods) =>
      if Opened(c) {
        n := FieldsBounded(d, env, [], fields, fields, 0);
      }
      n := n + 1;
      ShallowFrom(CallGraph(env), c, n);
    case _ =>
      ShallowFrom(CallGraph(env), c, 0);
  }

  lemma {:induction false} FieldsBounded(d: nat, env: Env, sel: seq<string>, all: seq<Field>, fields: seq<Field>,
                                         i: nat)
    returns (n: nat)
    requires i <= |all| && fields == all[i..]
    requires ResetFields(d, env, "", sel, fields).result != Fail(StackOverflow)
    ensures forall j :: i <= j < |all| && ComesTo(env, all, j) ==> Shallow(CallGraph(env), FieldCall(all[j]), n)
    decreases d, fields
  {
    n := 0;
    if fields != [] && fields[0].exported {
      var f := fields[0];
      assert f == all[i];
      SameFieldOutcome(d, env, sel + [f.name], f);
      var m := EndsBounded(d, env, FieldCall(f));
      if Outcome(d, env, FieldCall(f)).Emit? {
        n := FieldsBounded(d, env, sel, all, fields[1..], i + 1);
      } else {
        forall j | i < j < |all| ensures !ComesTo(env, all, j) {
          if ComesTo(env, all, j) {
            var m: nat :| Outcome(m, env, FieldCall(all[i])).Emit?;
            SameOutcome(d, m, env, FieldCall(f));
          }
        }
      }
      n := if n < m then m else n;
    }
  }

  // ---- Calls to a bounded depth end ----

  lemma {:induction false} BoundedEnds(env: Env, c: Call, n: int) returns (d: nat)
    requires Shallow(CallGraph(env), c, n)
    ensures Ends(d, env, c)
    decreases n, 1
  {
    ShallowNat(CallGraph(env), c, n);
    d := 0;
    match c.t
    case Named(id) =>
      var e := Call(Under(env, id), c.pointer, c.hasReset || Resettable(env, id));
      ShallowStep(CallGraph(env), c, e, n);
      d := BoundedEnds(env, e, n - 1);
      d := d + 1;
    case Pointer(elem) =>
      var e := Call(elem, true, c.hasReset);
      ShallowStep(CallGraph(env), c, e, n);
      d := BoundedEnds(env, e, n - 1);
    case Struct(fields, methods) =>
      if Opened(c) {
        forall i | 0 <= i < |fields| && ComesTo(env, fields, i)
          ensures Shallow(CallGraph(env), FieldCall(fields[i]), n - 1) {
          ShallowStep(CallGraph(env), c, FieldCall(fields[i]), n);
        }
        d := BoundedFieldsEnd(env, [], fields, fields, 0, n - 1);
      }
    case _ =>
  }

  lemma {:induction false} BoundedFieldsEnd(env: Env, sel: seq<string>, all: seq<Field>, fields: seq<Field>, i: nat,
                                            n: int)
    returns (d: nat)
    requires i <= |all| && fields == all[i..]
    requires forall j :: 0 <= j < i ==> all[j].exported && Emits(env, FieldCall(all[j]))
    requires forall j :: 0 <= j < |all| && ComesTo(env, all, j) ==> Shallow(CallGraph(env), FieldCall(all[j]), n)
    ensures ResetFields(d, env, "", sel, fields).result != Fail(StackOverflow)
    decreases n, 2, fields
  {
    d := 0;
    if fields != [] && fields[0].exported {
      var f := fields[0];
      assert f == all[i] && ComesTo(env, all, i);
      d := BoundedEnds(env, FieldCall(f), n);
      SameFieldOutcome(d, env, sel + [f.name], f);
      if Outcome(d, env, FieldCall(f)).Emit? {
        var m := BoundedFieldsEnd(env, sel, all, fields[1..], i + 1, n);
        var both := if d < m then m else d;
        MoreStack(d, both, env, "", sel + [f.name], f.typ, false, false);
        MoreFieldsStack(m, both, env, "", sel, fields[1..]);
        d := both;
      }
    }
  }

  // ---- Only finitely many calls can be made ----

  function Parts(t: GoType): set<GoType>
    decreases t
  {
    {t} + match t
          case Pointer(elem) => Parts(elem)
          case Struct(fields, _) => FieldParts(fields)
          case _ => {}
  }

  function FieldParts(fields: seq<Field>): set<GoType>
    decreases fields
  {
    if fields == [] then {} else Parts(fields[0].typ) + FieldParts(fields[1..])
  }

  lemma {:induction false} FieldPartsAt(fields: seq<Field>, i: nat)
    requires i < |fields|
    ensures fields[i].typ in FieldParts(fields)
  {
    if i > 0 { FieldPartsAt(fields[1..], i - 1); }
  }

  lemma {:induction false} PartsClosed(t: GoType, u: GoType)
    requires u in Parts(t)
    ensures Parts(u) <= Parts(t)
    decreases t
  {
    if u != t {
      match t
      case Pointer(elem) => PartsClosed(elem, u);
      case Struct(fields, _) => FieldPartsClosed(fields, u);
      case _ =>
    }
  }

  lemma {:induction false} FieldPartsClosed(fields: seq<Field>, u: GoType)
    requires u in FieldParts(fields)
    ensures Parts(u) <= FieldParts(fields)
    decreases fields
  {
    if u in Parts(fields[0].typ) { PartsClosed(fields[0].typ, u); } else { FieldPartsClosed(fields[1..], u); }
  }

  // The types that calls from one for t can come to.
  ghost function TypesFrom(env: Env, t: GoType): set<GoType> {
    Parts(t) + {Other("undeclared")} + set id, u | id in env.decls && u in Parts(env.decls[id].underlying) :: u
  }

  ghost function CallsFrom(env: Env, t: GoType): set<Call> {
    set u, pointer: bool, hasReset: bool | u in TypesFrom(env, t) :: Call(u, pointer, hasReset)
  }

  lemma CallOfType(env: Env, t: GoType, c: Call)
    ensures c in CallsFrom(env, t) <==> c.t in TypesFrom(env, t)
  {
    assert c == Call(c.t, c.pointer, c.hasReset);
  }

  lemma {:induction false} TypesClosed(env: Env, t: GoType, u: GoType, v: GoType)
    requires u in TypesFrom(env, t) && v in Parts(u)
    ensures v in TypesFrom(env, t)
  {
    if u in Parts(t) {
      PartsClosed(t, u);
    } else if id :| id in env.decls && u in Parts(env.decls[id].underlying) {
      PartsClosed(env.decls[id].underlying, u);
    }
  }

  lemma {:induction false} UnderlyingKnown(env: Env, t: GoType, id: TypeId)
    ensures Under(env, id) in TypesFrom(env, t)
  {
    if id in env.decls { assert Under(env, id) in Parts(env.decls[id].underlying); }
  }

  lemma {:induction false} FieldIsPart(fields: seq<Field>, methods: MethodSets, i: nat)
    requires i < |fields|
    ensures fields[i].typ in Parts(Struct(fields, methods))
  {
    FieldPartsAt(fields, i);
    assert Parts(Struct(fields, methods)) == {Struct(fields, methods)} + FieldParts(fields);
  }

  lemma {:induction false} CalledType(env: Env, c: Call, e: Call)
    requires Calls(env, c, e) && !c.t.Named?
    ensures e.t in Parts(c.t)
  {
    match c.t
    case Struct(fields, methods) =>
      var i :| 0 <= i < |fields| && ComesTo(env, fields, i) && e == FieldCall(fields[i]);
      FieldIsPart(fields, methods, i);
    case Pointer(elem) => assert elem in Parts(elem);
    case _ =>
  }

  lemma {:induction false} CallsStayWithin(env: Env, t: GoType, c: Call, e: Call)
    requires c in CallsFrom(env, t) && Calls(env, c, e)
    ensures e in CallsFrom(env, t)
  {
    CallOfType(env, t, c);
    CallOfType(env, t, e);
    if c.t.Named? {
      UnderlyingKnown(env, t, c.t.id);
    } else {
      CalledType(env, c, e);
      TypesClosed(env, t, c.t, e.t);
    }
  }

  /** The generator returns on a type, given stack enough, if and only if its calls reach no cycle. */
  lemma {:induction false} GeneratorEnds(env: Env, c: Call)
    ensures (exists d: nat :: Ends(d, env, c)) <==> !ReachesCycle(CallGraph(env), c)
  {
    var graph := CallGraph(env);
    if d: nat :| Ends(d, env, c) {
      var n := EndsBounded(d, env, c);
      if ReachesCycle(graph, c) { CycleUnbounded(graph, c, n); }
    }
    if !ReachesCycle(graph, c) {
      var calls := CallsFrom(env, c.t);
      forall a, b | a in calls && graph(a, b) ensures b in calls {
        CallsStayWithin(env, c.t, a, b);
      }
      forall e | Reaches(graph, c, e) ensures e in calls {
        var trail :| Leads(graph, c, trail, e);
        ReachesWithin(graph, c, trail, e, calls);
      }
      BoundedWithoutCycle(graph, c, calls);
      var d := BoundedEnds(env, c, |calls|);
    }
  }

  /** A ranking of the calls, falling with every call that is made, is such a reason to end. */
  lemma RankedEnds(env: Env, c: Call, rank: Call -> nat)
    requires forall a, b :: Reaches(CallGraph(env), c, a) && Calls(env, a, b) ==> rank(b) < rank(a)
    ensures exists d: nat :: Ends(d, env, c)
  {
    var graph := CallGraph(env);
    if ReachesCycle(graph, c) {
      var a, b :| Reaches(graph, c, a) && graph(a, b) && Reaches(graph, b, a);
      var first :| Leads(graph, c, first, a);
      LeadsOnward(graph, c, first, a, b);
      var back :| Leads(graph, b, back, a);
      RankFalls(env, c, first + [b], b, back, a, rank);
    }
    GeneratorEnds(env, c);
  }

  lemma {:induction false} RankFalls(env: Env, c: Call, first: seq<Call>, a: Call, trail: seq<Call>, b: Call,
                                     rank: Call -> nat)
    requires forall a, b :: Reaches(CallGraph(env), c, a) && Calls(env, a, b) ==> rank(b) < rank(a)
    requires Leads(CallGraph(env), c, first, a) && Leads(CallGraph(env), a, trail, b)
    ensures rank(b) <= rank(a)
    decreases trail
  {
    if trail != [] {
      assert Reaches(CallGraph(env), c, a) && Calls(env, a, trail[0]);
      LeadsOnward(CallGraph(env), c, first, a, trail[0]);
      RankFalls(env, c, first + [trail[0]], trail[0], trail[1..], b, rank);
    }
  }

  // ---- Where a failure comes from ----

  /** The call itself returns this error: its type is one of those that the generator does not know, or the
      loop over a pointee's fields comes to a field that is not exported. */
  ghost predicate FailsAt(env: Env, c: Call, error: Error) {
    match c.t
    case Basic(name) => !Settable(name) && error == UnknownBasic
    case Array(_, elem) => ElemName(elem).None? && error == UnknownElement
    case Interface(_) => c.pointer && error == InterfacePointer
    case Other(_) => error == UnknownType
    case Struct(fields, _) =>
      Opened(c) && error == NotExportedFields && exists i :: 0 <= i < |fields| && StopsAt(env, fields, i)
    case _ => false
  }

  ghost predicate StopsAt(env: Env, fields: seq<Field>, i: nat)
    requires i < |fields|
  {
    !fields[i].exported && forall j :: 0 <= j < i ==> fields[j].exported && Emits(env, FieldCall(fields[j]))
  }

  // The calls through which an error is passed on: a declared name stops ErrNotExportedFields.
  ghost function Passes(env: Env, error: Error): Graph<Call> {
    (c: Call, e: Call) => Calls(env, c, e) && (error == NotExportedFields ==> !c.t.Named?)
  }

  lemma {:induction false} FailureTrace(d: nat, env: Env, c: Call, error: Error) returns (e: Call)
    requires Outcome(d, env, c) == Fail(error) && error != StackOverflow
    ensures Reaches(Passes(env, error), c, e) && FailsAt(env, e, error)
    decreases d, c.t
  {
    e := c;
    ReachesSelf(Passes(env, error), c);
    var next := c;
    match c.t
    case Named(id) =>
      next := Call(Under(env, id), c.pointer, c.hasReset || Resettable(env, id));
      e := FailureTrace(d - 1, env, next, error);
      ReachesFirst(Passes(env, error), c, e);
    case Pointer(elem) =>
      next := Call(elem, true, c.hasReset);
      e := FailureTrace(d, env, next, error);
      ReachesFirst(Passes(env, error), c, e);
    case Struct(fields, methods) =>
      var i := FailingField(d, env, [], fields, fields, 0, error);
      if fields[i].exported {
        assert ComesTo(env, fields, i);
        next := FieldCall(fields[i]);
        assert Calls(env, c, next);
        e := FailureTrace(d, env, next, error);
        ReachesFirst(Passes(env, error), c, e);
      } else {
        assert StopsAt(env, fields, i);
      }
    case _ =>
  }

  lemma {:induction false} FailingField(d: nat, env: Env, sel: seq<string>, all: seq<Field>, fields: seq<Field>, i: nat,
                                        error: Error) returns (k: nat)
    requires i <= |all| && fields == all[i..]
    requires forall j :: 0 <= j < i ==> all[j].exported && Emits(env, FieldCall(all[j]))
    requires ResetFields(d, env, "", sel, fields).result == Fail(error)
    ensures k < |all| && forall j :: 0 <= j < k ==> all[j].exported && Emits(env, FieldCall(all[j]))
    ensures if all[k].exported then Outcome(d, env, FieldCall(all[k])) == Fail(error) else error == NotExportedFields
    decreases fields
  {
    var f := fields[0];
    assert f == all[i];
    k := i;
    if f.exported {
      SameFieldOutcome(d, env, sel + [f.name], f);
      if Outcome(d, env, FieldCall(f)).Emit? {
        k := FailingField(d, env, sel, all, fields[1..], i + 1, error);
      }
    }
  }

  // One stack is large enough for all fields before the i-th.
  lemma {:induction false} PrefixEmits(env: Env, fields: seq<Field>, i: nat) returns (d: nat)
    requires i <= |fields| && forall j :: 0 <= j < i ==> Emits(env, FieldCall(fields[j]))
    ensures forall j :: 0 <= j < i ==> Outcome(d, env, FieldCall(fields[j])).Emit?
  {
    d := 0;
    if i > 0 {
      var m := PrefixEmits(env, fields, i - 1);
      var last: nat :| Outcome(last, env, FieldCall(fields[i - 1])).Emit?;
      d := if m < last then last else m;
      forall j | 0 <= j < i ensures Outcome(d, env, FieldCall(fields[j])).Emit? {
        MoreStack(if j < i - 1 then m else last, d, env, "", [], fields[j].typ, false, false);
      }
    }
  }

  lemma {:induction false} FieldsFail(d: nat, env: Env, sel: seq<string>, fields: seq<Field>, i: nat, error: Error)
    requires i < |fields|
    requires forall j :: 0 <= j < i ==> fields[j].exported && Outcome(d, env, FieldCall(fields[j])).Emit?
    requires if fields[i].exported then Outcome(d, env, FieldCall(fields[i])) == Fail(error)
             else error == NotExportedFields
    ensures ResetFields(d, env, "", sel, fields).result == Fail(error)
    decreases i
  {
    SameFieldOutcome(d, env, sel + [fields[0].name], fields[0]);
    if i > 0 { FieldsFail(d, env, sel, fields[1..], i - 1, error); }
  }

  lemma {:induction false} FailsHere(env: Env, c: Call, error: Error) returns (d: nat)
    requires FailsAt(env, c, error)
    ensures Outcome(d, env, c) == Fail(error)
  {
    d := 0;
    if c.t.Struct? {
      var i :| 0 <= i < |c.t.fields| && StopsAt(env, c.t.fields, i);
      d := PrefixEmits(env, c.t.fields, i);
      FieldsFail(d, env, [], c.t.fields, i, error);
    }
  }

  lemma {:induction false} FailurePasses(env: Env, c: Call, e: Call, error: Error, m: nat) returns (d: nat)
    requires Passes(env, error)(c, e) && Outcome(m, env, e) == Fail(error) && error != StackOverflow
    ensures Outcome(d, env, c) == Fail(error)
  {
    d := m;
    match c.t
    case Named(_) => d := m + 1;
    case Pointer(_) =>
    case Struct(fields, _) =>
      var i :| 0 <= i < |fields| && ComesTo(env, fields, i) && e == FieldCall(fields[i]);
      var prefix := PrefixEmits(env, fields, i);
      d := if prefix < m then m else prefix;
      MoreStack(m, d, env, "", [], e.t, false, false);
      forall j | 0 <= j < i ensures Outcome(d, env, FieldCall(fields[j])).Emit? {
        MoreStack(prefix, d, env, "", [], fields[j].typ, false, false);
      }
      FieldsFail(d, env, [], fields, i, error);
  }

  lemma {:induction false} FailureAlong(env: Env, c: Call, trail: seq<Call>, e: Call, error: Error) returns (d: nat)
    requires Leads(Passes(env, error), c, trail, e) && FailsAt(env, e, error)
    ensures Outcome(d, env, c) == Fail(error)
    decreases trail
  {
    if trail == [] {
      d := FailsHere(env, c, error);
    } else {
      var m := FailureAlong(env, trail[0], trail[1..], e, error);
      d := FailurePasses(env, c, trail[0], error, m);
    }
  }

  /** Generation fails with an error if and only if its calls reach one that returns it, through calls that
      pass it on. In particular ErrNotExportedFields never leaves a call on a named type, however deep it
      arose. */
  lemma {:induction false} FailsExactly(env: Env, c: Call, error: Error)
    requires error != StackOverflow
    ensures (exists d: nat :: Outcome(d, env, c) == Fail(error))
       <==> exists e :: Reaches(Passes(env, error), c, e) && FailsAt(env, e, error)
  {
    if d: nat :| Outcome(d, env, c) == Fail(error) {
      var e := FailureTrace(d, env, c, error);
    }
    if e :| Reaches(Passes(env, error), c, e) && FailsAt(env, e, error) {
      var trail :| Leads(Passes(env, error), c, trail, e);
      var d := FailureAlong(env, c, trail, e, error);
    }
  }

  // Some call that is reached fails, and its error comes out.
  ghost predicate Fails(env: Env, c: Call, error: Error) {
    error != StackOverflow && exists e :: Reaches(Passes(env, error), c, e) && FailsAt(env, e, error)
  }

  /** Generation succeeds if and only if its calls reach neither a cycle nor a failure that comes out. */
  lemma {:induction false} EmitsExactly(env: Env, c: Call)
    ensures Emits(env, c) <==> !ReachesCycle(CallGraph(env), c) && forall error :: !Fails(env, c, error)
  {
    GeneratorEnds(env, c);
    if d: nat :| Outcome(d, env, c).Emit? {
      assert Ends(d, env, c);
      if error :| Fails(env, c, error) {
        FailsExactly(env, c, error);
        var m: nat :| Outcome(m, env, c) == Fail(error);
        MoreStack(d, d + m, env, "", [], c.t, c.pointer, c.hasReset);
        MoreStack(m, d + m, env, "", [], c.t, c.pointer, c.hasReset);
      }
    } else if d: nat :| Ends(d, env, c) {
      FailsExactly(env, c, Outcome(d, env, c).error);
      assert Fails(env, c, Outcome(d, env, c).error);
    }
  }
}
