/** What the types dictate, said without statements: which variables a Reset call visits and what
    becomes of each of them. */
module ResetSpec {
  import opened GoTypes
  import opened Graphs
  import opened Optional
  import opened ResetGen
  import opened ResetMachine
  import opened ResetTyping

  // ---- What a type dictates ----

  datatype Shape =
    | Zeroed                          // becomes the zero value
    | Truncated                       // keeps its array, length 0
    | Emptied                         // a map's contents: no entries are left
    | Followed                        // a reference: kept, what it refers to is reset
    | Delegated                       // its hand-written Reset method is called
    | Record(fields: seq<Field>)      // each of these fields is reset; a promoted method resets one field
    | Untouched

  /** The treatment of a variable of type t; `cell` says that it is the target of a pointer. A pointer to
      a pointer is left alone. */
  function ShapeOf(env: Env, t: GoType, cell: bool): Shape {
    match Core(env, t)
    case Basic(name) => if Settable(name) then Zeroed else Untouched
    case Slice(_) => Truncated
    case Array(_, _) => Zeroed
    case Map(_, _) => Followed
    case Pointer(elem) => if Core(env, elem).Pointer? then Untouched else Followed
    case Interface(methods) =>
      if HasMethod(env, t) then Followed else Zeroed
    case Struct(fields, methods) =>
      if Generated(env, t) then Record(OwnFields(fields))
      else if Relayed(env, t).Some? then Record([Relayed(env, t).value])
      else if HasMethod(env, t) then Delegated
      else if !cell then Untouched
      else if HidesField(fields) then Zeroed
      else Record(fields)
    case _ => Untouched
  }

  function ShapeAt(w: World, p: Place): Shape {
    if p.Table? then Emptied
    else if p in w.types then ShapeOf(w.env, w.types[p], p.path == [])
    else Untouched
  }

  // What the reference at p refers to.
  function Referent(h: Heap, p: Place): Option<Place> {
    if p !in h then None
    else
      match h[p]
      case Ptr(Some(a)) => Some(Var(a, []))
      case MapRef(Some(m)) => Some(Table(m))
      case Iface(Holds(a)) => Some(Var(a, []))
      case Iface(ByValue(Some(a))) => Some(Var(a, []))
      case _ => None
  }

  /** One step of a visit: from a record to its fields, from a reference to what it refers to. A blank
      field cannot be selected. */
  ghost predicate Edge(w: World, h: Heap, p: Place, q: Place) {
    match ShapeAt(w, p)
    case Record(fields) => exists i :: 0 <= i < |fields| && fields[i].name != "_" && q == Sub(p, fields[i].name)
    case Followed => Referent(h, p) == Some(q)
    case _ => false
  }

  // The graph that a Reset walks on.
  ghost function Edges(w: World, h: Heap): Graph<Place> {
    (p: Place, q: Place) => Edge(w, h, p, q)
  }

  ghost predicate Bounded(w: World, h: Heap, p: Place) {
    exists n: nat :: Shallow(Edges(w, h), p, n)
  }

  // Everything that Reset on p reaches, in the heap before the call.
  ghost function ReachSet(w: World, h: Heap, p: Place): set<Place> {
    set q | q in w.types.Keys + h.Keys + {p} && Reaches(Edges(w, h), p, q)
  }

  /** The places that trails of up to n edges from p lead to, each as often as there are trails to it:
      a variable that several pointers refer to is visited several times. */
  ghost function VisitsWithin(w: World, h: Heap, p: Place, n: nat): multiset<Place>
    decreases n, 0
  {
    multiset{p} + if n == 0 then multiset{} else Onward(w, h, p, n - 1)
  }

  ghost function Onward(w: World, h: Heap, p: Place, n: nat): multiset<Place>
    decreases n, 2
  {
    match ShapeAt(w, p)
    case Record(fields) => FieldVisitsWithin(w, h, p, fields, n)
    case Followed => if Referent(h, p).Some? then VisitsWithin(w, h, Referent(h, p).value, n) else multiset{}
    case _ => multiset{}
  }

  ghost function FieldVisitsWithin(w: World, h: Heap, p: Place, fields: seq<Field>, n: nat): multiset<Place>
    decreases n, 1, fields
  {
    if fields == [] then multiset{}
    else
      (if fields[0].name == "_" then multiset{} else VisitsWithin(w, h, Sub(p, fields[0].name), n))
      + FieldVisitsWithin(w, h, p, fields[1..], n)
  }

  // All visits of a Reset on p, when no trail goes on for ever.
  ghost function Visits(w: World, h: Heap, p: Place): multiset<Place> {
    if Bounded(w, h, p) then
      var n: nat :| Shallow(Edges(w, h), p, n);
      VisitsWithin(w, h, p, n)
    else multiset{}
  }

  // The state of the object at q after m calls of its hand-written Reset method, None if one panicked.
  ghost function Called(w: World, t: GoType, q: Place, state: int, m: nat): Option<int> {
    if m == 0 then Some(state)
    else
      match Called(w, t, q, state, m - 1)
      case Some(s) => ByHand(w, t, q, s)
      case None => None
  }

  // A place that becomes zero is q or has q inside it.
  ghost predicate Cleared(w: World, q: Place, visits: multiset<Place>) {
    exists p :: p in visits && Above(p, q) && ShapeAt(w, p) == Zeroed
  }

  // The value of the leaf q after each of the visits treated its place as the place's type dictates.
  ghost function After(w: World, v: Leaf, q: Place, visits: multiset<Place>): Leaf {
    if Cleared(w, q, visits) then ZeroLeaf(v)
    else if q !in visits then v
    else
      match ShapeAt(w, q)
      case Truncated => Truncate(v)
      case Emptied => Entries(map[])
      case Delegated => AfterCalls(w, w.types[q], q, v, visits[q])
      case _ => v
  }

  ghost function AfterCalls(w: World, t: GoType, q: Place, v: Leaf, m: nat): Leaf {
    if v.Opaque? && Called(w, t, q, v.state, m).Some? then Opaque(Called(w, t, q, v.state, m).value) else v
  }

  ghost function Apply(w: World, h: Heap, visits: multiset<Place>): Heap {
    map q | q in h :: After(w, h[q], q, visits)
  }

  // ---- Where a Reset call cannot go on ----

  // An embedded field through which a Reset is promoted: no nil check is emitted for it.
  predicate Unguarded(w: World, p: Place) {
    && p.Var? && p.path != []
    && var outer := Var(p.addr, p.path[..|p.path| - 1]);
       outer in w.types && Relayed(w.env, w.types[outer]).Some?
       && Relayed(w.env, w.types[outer]).value.name == p.path[|p.path| - 1]
  }

  // Generated methods return on a nil receiver, those written by hand may not expect it.
  predicate AcceptsNil(w: World, t: GoType) {
    Generated(w.env, t) || (Relayed(w.env, t).None? && t.Named? && t.id in w.nilSafe)
  }

  /** A nil that a Reset method is called on and that panics: inside an interface that is not nil itself, so
      that the emitted nil check does not see it, or in an embedded field. */
  predicate NilTrap(w: World, h: Heap, p: Place) {
    && ShapeAt(w, p) == Followed && p in h
    && match h[p]
       case Iface(TypedNil(id)) => !AcceptsNil(w, Named(id))
       case Iface(NilIface) => Unguarded(w, p)
       case Ptr(None) => Unguarded(w, p) && w.types[p].Pointer? && !AcceptsNil(w, w.types[p].elem)
       case _ => false
  }

  // An object whose hand-written Reset method panics before the m-th call of it has ended.
  ghost predicate CallTrap(w: World, h: Heap, p: Place, m: nat) {
    ShapeAt(w, p) == Delegated && p in h && h[p].Opaque? && Called(w, w.types[p], p, h[p].state, m).None?
  }

  // Nothing keeps a Reset from making these visits.
  ghost predicate Passable(w: World, h: Heap, visits: multiset<Place>) {
    forall p :: p in visits ==> !NilTrap(w, h, p) && !CallTrap(w, h, p, visits[p])
  }

  // After these visits, those from p cannot all be made.
  ghost predicate Blocked(w: World, h: Heap, visits: multiset<Place>, p: Place) {
    exists n: nat :: !Passable(w, h, visits + VisitsWithin(w, h, p, n))
  }

  // On its way from p, a Reset comes to a nil or an object whose Reset method panics.
  ghost predicate ReachesTrap(w: World, h: Heap, p: Place) {
    Blocked(w, h, multiset{}, p)
  }

  // ---- Programs and heaps ----

  ghost predicate MethodOk(w: World, id: TypeId) {
    && MethodOf(w.env, id).result.Emit?
    && id.pkg in w.files && MethodOf(w.env, id).imports <= w.files[id.pkg]
    && AcceptsAll(w.env, w.files[id.pkg], id.pkg, Named(id), MethodOf(w.env, id).result.stmts)
  }

  /** Generation succeeded for every marked struct, `files` holds the imports it wrote, and Go accepts
      the generated methods. */
  ghost predicate Program(w: World) {
    && ValidEnv(w.env)
    && (forall id :: id in w.env.marked && Under(w.env, id).Struct? ==> MethodOk(w, id))
  }

  predicate HoldsBasic(name: string, v: Leaf) {
    match KindOf(name)
    case Some(StringKind) => v.Str?
    case Some(BoolKind) => v.Bool?
    case Some(IntKind) => v.Int?
    case Some(FloatKind) => v.Float?
    case Some(ComplexKind) => v.Complex?
    case None => true
  }

  ghost predicate Childless(h: Heap, p: Place) {
    forall q :: q in h && Above(p, q) ==> q == p
  }

  // The variable at p has a value of its type. Pointers refer to whole cells.
  ghost predicate TypedAt(w: World, h: Heap, p: Place)
    requires p in w.types
  {
    var t := w.types[p];
    match Core(w.env, t)
    case Basic(name) => p in h && HoldsBasic(name, h[p]) && Childless(h, p)
    case Slice(_) => p in h && h[p].SliceOf?
    case Map(_, _) =>
      p in h && h[p].MapRef? && (h[p].table.Some? ==> Table(h[p].table.value) in h)
    case Pointer(elem) =>
      && p in h && h[p].Ptr?
      && (h[p].to.Some? ==>
            Var(h[p].to.value, []) in w.types && w.types[Var(h[p].to.value, [])] == elem)
    case Interface(_) =>
      && p in h && h[p].Iface? && Childless(h, p)
      && (ShapeOf(w.env, t, false) == Followed ==> DynOk(w, h[p].dyn))
    case Struct(fields, _) =>
      if ShapeOf(w.env, t, false) == Delegated then p in h && h[p].Opaque?
      else
        && p !in h
        && forall i :: 0 <= i < |fields| && fields[i].name != "_" ==>
             Sub(p, fields[i].name) in w.types && w.types[Sub(p, fields[i].name)] == fields[i].typ
    case _ => true
  }

  // An interface with a Reset method holds a struct that has one, or a nil pointer to a type that has one.
  ghost predicate DynOk(w: World, dyn: Dyn) {
    match dyn
    case Holds(a) => Var(a, []) in w.types && Object(w.env, w.types[Var(a, [])])
    case ByValue(Some(a)) => a in w.copies && Var(a, []) in w.types && ValueObject(w.env, w.types[Var(a, [])])
    case TypedNil(id) => HasMethod(w.env, Named(id))
    case _ => true
  }

  ghost predicate WellTyped(w: World, h: Heap) {
    forall p :: p in w.types ==> p.Var? && TypedAt(w, h, p)
  }
}
