/** A machine that runs the emitted statements on a heap of typed variables. */
module ResetMachine {
  import opened GoTypes
  import opened Optional
  import opened ResetGen
  import opened ResetTyping

  // A variable inside an allocated cell, or the contents of a map.
  datatype Place = Var(addr: nat, path: seq<string>) | Table(addr: nat)

  // What an interface variable holds: a struct by value lies in a cell of its own.
  datatype Dyn = NilIface | TypedNil(id: TypeId) | Holds(addr: nat) | ByValue(copy: Option<nat>)

  /** The value of a variable that is not itself a struct or an array. An object whose Reset method is
      written by hand is one Opaque leaf; the state 0 stands for its zero value. */
  datatype Leaf =
    | Str(s: string)
    | Bool(b: bool)
    | Int(i: int)
    | Float(f: real)
    | Complex(re: real, im: real)
    | SliceOf(base: Option<nat>, len: nat, cap: nat)
    | MapRef(table: Option<nat>)
    | Ptr(to: Option<nat>)
    | Iface(dyn: Dyn)
    | Opaque(state: int)
    | Entries(entries: map<int, int>)

  type Heap = map<Place, Leaf>

  /** `types` gives every variable its declared type, `files` the imports of each package's generated
      file, `user` the effect of the Reset methods that are written by hand, None where they panic; those of
      the types in `nilSafe` accept a nil receiver. `copies` are the cells of structs that interfaces hold
      by value: a method that is called there works on a copy. */
  datatype World = World(
    env: Env,
    files: map<string, set<string>>,
    types: map<Place, GoType>,
    user: (GoType, int) -> Option<int>,
    nilSafe: set<TypeId>,
    copies: set<nat>)

  datatype Loc = At(place: Place) | NilDeref | Bad

  datatype Run = Done(heap: Heap) | Panic | IllTyped | OutOfFuel

  predicate Above(p: Place, q: Place) {
    p.Var? && q.Var? && p.addr == q.addr && p.path <= q.path
  }

  function Sub(p: Place, field: string): Place {
    if p.Var? then Var(p.addr, p.path + [field]) else p
  }

  function ZeroLeaf(v: Leaf): Leaf {
    match v
    case Str(_) => Str("")
    case Bool(_) => Bool(false)
    case Int(_) => Int(0)
    case Float(_) => Float(0.0)
    case Complex(_, _) => Complex(0.0, 0.0)
    case SliceOf(_, _, _) => SliceOf(None, 0, 0)
    case MapRef(_) => MapRef(None)
    case Ptr(_) => Ptr(None)
    case Iface(_) => Iface(NilIface)
    case Opaque(_) => Opaque(0)
    case Entries(_) => v
  }

  function Truncate(v: Leaf): Leaf {
    if v.SliceOf? then v.(len := 0) else v
  }

  // A composite literal T{} stores the zero value in every variable of the struct or array at p.
  function ZeroUnder(h: Heap, p: Place): Heap {
    map q | q in h :: if Above(p, q) then ZeroLeaf(h[q]) else h[q]
  }

  // Selecting a field goes through a pointer; the blank field cannot be selected.
  function AutoDeref(h: Heap, p: Place): Loc {
    if p in h && h[p].Ptr? then
      match h[p].to
      case Some(a) => At(Var(a, []))
      case None => NilDeref
    else At(p)
  }

  function Select(w: World, h: Heap, p: Place, field: string): Loc {
    match AutoDeref(h, p)
    case At(q) => if field != "_" && Sub(q, field) in w.types then At(Sub(q, field)) else Bad
    case other => other
  }

  // The variable that r.f.g... denotes when r points to recv.
  function Resolve(w: World, h: Heap, recv: Place, path: seq<string>): Loc
    decreases |path|
  {
    if path == [] then At(recv)
    else
      match Resolve(w, h, recv, path[..|path| - 1])
      case At(p) => Select(w, h, p, path[|path| - 1])
      case other => other
  }

  function PlaceOf(w: World, h: Heap, recv: Option<Place>, e: Expr): Loc {
    match e
    case Sel(path) => if recv.Some? then Resolve(w, h, recv.value, path) else NilDeref
    case Star(Sel(path)) =>
      if recv.None? then NilDeref
      else
        (match Resolve(w, h, recv.value, path)
         case At(p) => if p in h && h[p].Ptr? then AutoDeref(h, p) else Bad
         case other => other)
    case _ => Bad
  }

  function ZeroOf(kind: Kind): Leaf {
    match kind
    case StringKind => Str("")
    case BoolKind => Bool(false)
    case IntKind => Int(0)
    case FloatKind => Float(0.0)
    case ComplexKind => Complex(0.0, 0.0)
  }

  // A literal is converted to the type of the variable.
  function StoreLiteral(w: World, h: Heap, q: Place): Run {
    if q in w.types && Core(w.env, w.types[q]).Basic? && KindOf(Core(w.env, w.types[q]).name).Some? then
      Done(h[q := ZeroOf(KindOf(Core(w.env, w.types[q]).name).value)])
    else IllTyped
  }

  function Store(w: World, h: Heap, recv: Option<Place>, q: Place, rhs: Expr): Run {
    match rhs
    case EmptyString => StoreLiteral(w, h, q)
    case FalseLit => StoreLiteral(w, h, q)
    case IntZero => StoreLiteral(w, h, q)
    case FloatZero => StoreLiteral(w, h, q)
    case ImagZero => StoreLiteral(w, h, q)
    case Nil => Done(h[q := Iface(NilIface)])
    case ArrayLit(_, _) => Done(ZeroUnder(h, q))
    case StructLit(_) => Done(ZeroUnder(h, q))
    case SliceToZero(of) =>
      (match PlaceOf(w, h, recv, of)
       case At(p) => if p in h && h[p].SliceOf? then Done(h[q := Truncate(h[p])]) else IllTyped
       case NilDeref => Panic
       case Bad => IllTyped)
    case _ => IllTyped
  }

  function ImportsOf(w: World, pkg: string): set<string> {
    if pkg in w.files then w.files[pkg] else {}
  }

  function RunAssign(w: World, pkg: string, recv: Option<Place>, lhs: Expr, rhs: Expr, h: Heap): Run {
    match PlaceOf(w, h, recv, lhs)
    case At(q) =>
      if q in w.types && Assignable(w.env, ImportsOf(w, pkg), pkg, w.types[q], rhs) then Store(w, h, recv, q, rhs)
      else IllTyped
    case NilDeref => Panic
    case Bad => IllTyped
  }

  function RunClear(w: World, recv: Option<Place>, arg: Expr, h: Heap): Run {
    match PlaceOf(w, h, recv, arg)
    case At(q) =>
      if q in h && h[q].MapRef? then
        match h[q].table
        case Some(m) => Done(h[Table(m) := Entries(map[])])
        case None => Done(h)
      else IllTyped
    case NilDeref => Panic
    case Bad => IllTyped
  }

  // The fields generateResetFunc loops over: those declared with a name, not the embedded ones.
  function OwnFields(fields: seq<Field>): seq<Field> {
    if fields == [] then []
    else if fields[0].embedded then OwnFields(fields[1..])
    else [fields[0]] + OwnFields(fields[1..])
  }

  lemma {:induction false} OwnFieldsAmong(fields: seq<Field>, f: Field)
    requires f in OwnFields(fields)
    ensures f in fields
  {
    if fields[0] != f { OwnFieldsAmong(fields[1..], f); }
  }

  /** The fields with a name and no others, in the order of their declaration. */
  lemma {:induction false} OwnFieldsExactly(before: seq<Field>, f: Field, after: seq<Field>)
    ensures OwnFields(before + [f] + after)
         == OwnFields(before) + (if f.embedded then [] else [f]) + OwnFields(after)
  {
    if before == [] {
      assert before + [f] + after == [f] + after && ([f] + after)[1..] == after;
    } else {
      assert (before + [f] + after)[1..] == before[1..] + [f] + after;
      OwnFieldsExactly(before[1..], f, after);
    }
  }

  // The statements generateResetFunc emits for a list of fields, one field after the other.
  function BodyOf(env: Env, pkg: string, fields: seq<Field>): Output
  {
    if fields == [] then Output(Emit([]), {})
    else
      var first := ResetStatement(env.stack, env, pkg, [fields[0].name], fields[0].typ, false, false);
      if first.result.Fail? then first
      else
        var rest := BodyOf(env, pkg, fields[1..]);
        Output(if rest.result.Fail? then rest.result else Emit(first.result.stmts + rest.result.stmts),
               first.imports + rest.imports)
  }

  function MethodOf(env: Env, id: TypeId): Output
  {
    var out := if Under(env, id).Struct? then BodyOf(env, id.pkg, OwnFields(Under(env, id).fields))
               else Output(Emit([]), {});
    if out.result.Emit? then out.(result := Emit([ReturnIfNil] + out.result.stmts)) else out
  }

  function RunAll(k: nat, w: World, pkg: string, recv: Option<Place>, stmts: seq<Stmt>, h: Heap): Run
    decreases k, 2, stmts, 0
  {
    if stmts == [] then Done(h)
    else if stmts[0].ReturnIfNil? && recv.None? then Done(h)
    else
      var first := RunOne(k, w, pkg, recv, stmts[0], h);
      if first.Done? then RunAll(k, w, pkg, recv, stmts[1..], first.heap) else first
  }

  function RunOne(k: nat, w: World, pkg: string, recv: Option<Place>, s: Stmt, h: Heap): Run
    decreases k, 2, s, 1
  {
    match s
    case ReturnIfNil => Done(h)
    case Assign(lhs, rhs) => RunAssign(w, pkg, recv, lhs, rhs, h)
    case Clear(arg) => RunClear(w, recv, arg, h)
    case IfNotNil(cond, body) =>
      (match PlaceOf(w, h, recv, cond)
       case At(q) =>
         if q !in h then IllTyped
         else if h[q] == Ptr(None) || h[q] == Iface(NilIface) then Done(h)
         else if h[q].Ptr? || h[q].Iface? then RunAll(k, w, pkg, recv, body, h)
         else IllTyped
       case NilDeref => Panic
       case Bad => IllTyped)
    case CallReset(receiver) =>
      (match PlaceOf(w, h, recv, receiver)
       case At(q) => RunCall(k, w, q, h)
       case NilDeref => Panic
       case Bad => IllTyped)
  }

  // x.Reset() for the variable x at q: a struct, a pointer to one, or an interface.
  function RunCall(k: nat, w: World, q: Place, h: Heap): Run
    decreases k, 1
  {
    if q !in w.types then IllTyped
    else if q !in h || h[q].Opaque? then RunMethod(k, w, w.types[q], Some(q), h)
    else
      match h[q]
      case Ptr(to) =>
        if !w.types[q].Pointer? then IllTyped
        else RunMethod(k, w, w.types[q].elem, if to.Some? then Some(Var(to.value, [])) else None, h)
      case Iface(NilIface) => Panic
      case Iface(TypedNil(id)) => RunMethod(k, w, Named(id), None, h)
      case Iface(Holds(a)) =>
        if Var(a, []) !in w.types then IllTyped
        else RunMethod(k, w, w.types[Var(a, [])], Some(Var(a, [])), h)
      case Iface(ByValue(Some(a))) =>
        if Var(a, []) !in w.types then IllTyped
        else RunMethod(k, w, w.types[Var(a, [])], Some(Var(a, [])), h)
      case Iface(ByValue(None)) => Done(h)
      case _ => IllTyped
  }

  // The state of the object at p after one call of its hand-written Reset method, None if that panics.
  function ByHand(w: World, t: GoType, p: Place, state: int): Option<int> {
    match w.user(t, state)
    case Some(s) => Some(if p.Var? && p.addr in w.copies then state else s)
    case None => None
  }

  /** The Reset method of type t on the given receiver. Every call of a generated or promoted method takes
      one unit of fuel. */
  function RunMethod(k: nat, w: World, t: GoType, recv: Option<Place>, h: Heap): Run
    decreases k, 0
  {
    if Generated(w.env, t) then
      var out := MethodOf(w.env, t.id);
      if out.result.Fail? then IllTyped
      else if k == 0 then OutOfFuel
      else RunAll(k - 1, w, t.id.pkg, recv, out.result.stmts, h)
    else if recv.None? then
      if t.Named? && t.id in w.nilSafe && Relayed(w.env, t).None? then Done(h) else Panic
    else
      match Relayed(w.env, t)
      case Some(f) => if k == 0 then OutOfFuel else RunCall(k - 1, w, Sub(recv.value, f.name), h)
      case None => RunByHand(w, t, recv.value, h)
  }

  function RunByHand(w: World, t: GoType, p: Place, h: Heap): Run {
    if p in h && h[p].Opaque? then
      match ByHand(w, t, p, h[p].state)
      case Some(s) => Done(h[p := Opaque(s)])
      case None => Panic
    else IllTyped
  }

  // The first Reset in the method sets of t is promoted from this embedded field.
  predicate PromotedFrom(w: World, t: GoType, f: string, ft: GoType) {
    var ms := MethodsOf(w.env, t);
    var reset := FirstReset(ms.value + ms.pointer);
    && !Generated(w.env, t) && Core(w.env, t).Struct?
    && reset.Some? && reset.value.via == Some(f)
    && f != "_" && FieldType(Core(w.env, t).fields, f) == Some(ft)
  }

  /** A promoted Reset runs that of the embedded struct, of what the embedded pointer refers to, nil too, or of
      what the embedded interface holds; on a nil interface it panics. */
  lemma {:induction false} PromotedRuns(k: nat, w: World, t: GoType, p: Place, h: Heap, f: string, ft: GoType)
    requires PromotedFrom(w, t, f, ft) && Sub(p, f) in w.types && w.types[Sub(p, f)] == ft
    ensures Core(w.env, ft).Struct? && HasMethod(w.env, ft) && Sub(p, f) !in h ==>
              RunMethod(k + 1, w, t, Some(p), h) == RunMethod(k, w, ft, Some(Sub(p, f)), h)
    ensures ft.Pointer? && Core(w.env, ft.elem).Struct? && HasMethod(w.env, ft.elem)
            && Sub(p, f) in h && h[Sub(p, f)].Ptr? ==>
              RunMethod(k + 1, w, t, Some(p), h)
                == var to := h[Sub(p, f)].to;
                   RunMethod(k, w, ft.elem, if to.Some? then Some(Var(to.value, [])) else None, h)
    ensures Core(w.env, ft).Interface? && HasMethod(w.env, ft) && Sub(p, f) in h && h[Sub(p, f)].Iface? ==>
              match h[Sub(p, f)].dyn
              case NilIface => RunMethod(k + 1, w, t, Some(p), h) == Panic
              case TypedNil(id) => RunMethod(k + 1, w, t, Some(p), h) == RunMethod(k, w, Named(id), None, h)
              case Holds(a) =>
                Var(a, []) in w.types ==>
                  RunMethod(k + 1, w, t, Some(p), h) == RunMethod(k, w, w.types[Var(a, [])], Some(Var(a, [])), h)
              case _ => true
  {
    assert Relayed(w.env, t).None? || Relayed(w.env, t).value.name == f;
  }
}
