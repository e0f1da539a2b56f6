/** The main results about generated Reset methods. */
module ResetTheorems {
  import opened GoTypes
  import opened Graphs
  import opened Optional
  import opened ResetAccepted
  import opened ResetGen
  import opened ResetMachine
  import opened ResetProof
  import opened ResetSpec
  import opened ResetVisits

  // p is a struct variable with a generated Reset method, in a well-typed heap.
  ghost predicate Receiver(w: World, h: Heap, p: Place) {
    Program(w) && WellTyped(w, h) && Legit(w, h, p) && p.Var? && Generated(w.env, w.types[p])
  }

  ghost function CallOn(k: nat, w: World, h: Heap, p: Place): Run
    requires Receiver(w, h, p)
  {
    RunMethod(k, w, w.types[p], Some(p), h)
  }

  lemma ApplyNothing(w: World, h: Heap)
    ensures Apply(w, h, multiset{}) == h
  {
  }

  /** Whatever pointers are shared, a call of a generated Reset never runs a statement Go would reject. When
      it ends, the heap is that of its visits, each treating its variable as the type dictates. It panics
      only where its visits cannot all be made. */
  lemma {:induction false} ResetCorrect(k: nat, w: World, h: Heap, p: Place)
    requires Receiver(w, h, p)
    ensures match CallOn(k, w, h, p)
            case OutOfFuel => true
            case Panic => ReachesTrap(w, h, p)
            case IllTyped => false
            case Done(g) =>
              Bounded(w, h, p) && !ReachesTrap(w, h, p) && g == Apply(w, h, Visits(w, h, p))
    ensures forall n: int :: Shallow(Edges(w, h), p, n) && n < k ==> !CallOn(k, w, h, p).OutOfFuel?
  {
    ApplyNothing(w, h);
    assert multiset{} + Visits(w, h, p) == Visits(w, h, p);
    forall n: int ensures Outcome(k, n, w, h, multiset{}, p, CallOn(k, w, h, p)) {
      MethodCorrect(k, n, w, h, multiset{}, p);
    }
    assert Outcome(k, 0, w, h, multiset{}, p, CallOn(k, w, h, p));
    if CallOn(k, w, h, p).Done? { PassableReachesNoTrap(w, h, p); }
    forall n: int | Shallow(Edges(w, h), p, n) && n < k ensures !CallOn(k, w, h, p).OutOfFuel? {
      assert Outcome(k, n, w, h, multiset{}, p, CallOn(k, w, h, p));
    }
  }

  // When no trail goes on for ever, the visits decide whether a trap is reached.
  lemma PassableReachesNoTrap(w: World, h: Heap, p: Place)
    requires Bounded(w, h, p)
    ensures Passable(w, h, Visits(w, h, p)) <==> !ReachesTrap(w, h, p)
  {
    if Passable(w, h, Visits(w, h, p)) {
      forall n: nat ensures Passable(w, h, multiset{} + VisitsWithin(w, h, p, n)) {
        VisitsAreAll(w, h, p, n);
        PassableLess(w, h, multiset{} + VisitsWithin(w, h, p, n), Visits(w, h, p));
      }
    } else {
      var n: nat :| Shallow(Edges(w, h), p, n) && Visits(w, h, p) == VisitsWithin(w, h, p, n);
      assert multiset{} + VisitsWithin(w, h, p, n) == Visits(w, h, p);
    }
  }

  // ---- When a call ends ----

  lemma ReachedAreKnown(w: World, h: Heap, p: Place)
    requires Program(w) && WellTyped(w, h) && Legit(w, h, p) && !ReachesCycle(Edges(w, h), p)
    ensures Shallow(Edges(w, h), p, |w.types.Keys + h.Keys|)
  {
    forall q | Reaches(Edges(w, h), p, q) ensures q in w.types.Keys + h.Keys {
      var trail :| Leads(Edges(w, h), p, trail, q);
      TrailLegit(w, h, p, trail, q);
    }
    BoundedWithoutCycle(Edges(w, h), p, w.types.Keys + h.Keys);
  }

  // A fuel above the number of variables.
  function Enough(w: World, h: Heap): nat {
    |w.types.Keys + h.Keys| + 1
  }

  /** A call of a generated Reset can end normally if and only if neither a cycle of references nor a trap is
      reached from its receiver. Without a cycle some fixed fuel is enough, whatever the end. */
  lemma ResetEnds(w: World, h: Heap, p: Place)
    requires Receiver(w, h, p)
    ensures (exists k: nat :: CallOn(k, w, h, p).Done?) <==> !ReachesCycle(Edges(w, h), p) && !ReachesTrap(w, h, p)
    ensures !ReachesCycle(Edges(w, h), p) ==> !CallOn(Enough(w, h), w, h, p).OutOfFuel?
  {
    var k := Enough(w, h);
    ResetCorrect(k, w, h, p);
    if !ReachesCycle(Edges(w, h), p) {
      ReachedAreKnown(w, h, p);
      assert !CallOn(k, w, h, p).OutOfFuel?;
    }
    if m: nat :| CallOn(m, w, h, p).Done? {
      ResetCorrect(m, w, h, p);
      if ReachesCycle(Edges(w, h), p) {
        var n: nat :| Shallow(Edges(w, h), p, n);
        CycleUnbounded(Edges(w, h), p, n);
      }
    }
  }

  /** A trap is a nil whose Reset does not accept that, or an object whose hand-written Reset panics in a state
      that the calls before have left. */
  lemma TrapsExactly(w: World, h: Heap, p: Place)
    ensures ReachesTrap(w, h, p)
       <==> (exists q :: Reaches(Edges(w, h), p, q) && NilTrap(w, h, q))
            || (exists q, n: nat :: CallTrap(w, h, q, VisitsWithin(w, h, p, n)[q]))
  {
    if n: nat :| !Passable(w, h, multiset{} + VisitsWithin(w, h, p, n)) {
      assert multiset{} + VisitsWithin(w, h, p, n) == VisitsWithin(w, h, p, n);
      var q :| q in VisitsWithin(w, h, p, n)
               && (NilTrap(w, h, q) || CallTrap(w, h, q, VisitsWithin(w, h, p, n)[q]));
      VisitsWithinReach(w, h, p, n, q);
    }
    if q :| Reaches(Edges(w, h), p, q) && NilTrap(w, h, q) { TrapReached(w, h, p, q); }
    if q, n: nat :| CallTrap(w, h, q, VisitsWithin(w, h, p, n)[q]) {
      assert multiset{} + VisitsWithin(w, h, p, n) == VisitsWithin(w, h, p, n);
      assert q in VisitsWithin(w, h, p, n);
    }
  }

  /** A call that ends, one way or the other, panics if and only if a trap is reached. */
  lemma ResetPanics(k: nat, w: World, h: Heap, p: Place)
    requires Receiver(w, h, p) && !CallOn(k, w, h, p).OutOfFuel?
    ensures CallOn(k, w, h, p).Panic? <==> ReachesTrap(w, h, p)
  {
    ResetCorrect(k, w, h, p);
  }

  // ---- Twice is once ----

  lemma ApplyKeepsTypes(w: World, h: Heap, visits: multiset<Place>)
    requires WellTyped(w, h)
    ensures WellTyped(w, Apply(w, h, visits))
  {
    forall p | p in w.types ensures p.Var? && TypedAt(w, Apply(w, h, visits), p) {
      KeepsTypeAt(w, h, visits, p);
    }
  }

  lemma KeepsTypeAt(w: World, h: Heap, visits: multiset<Place>, p: Place)
    requires p in w.types && p.Var? && TypedAt(w, h, p)
    ensures TypedAt(w, Apply(w, h, visits), p)
  {
    if p in h { KeepsKind(w, h[p], p, visits); }
  }

  // A variable keeps its kind of value, and refers to nothing new.
  lemma KeepsKind(w: World, v: Leaf, q: Place, visits: multiset<Place>)
    ensures var u := After(w, v, q, visits);
            ShapeAt(w, q) != Emptied ==>
              && (u == v || u == ZeroLeaf(v) || u == Truncate(v) || (u.Opaque? && v.Opaque?))
  {
  }

  lemma SameReferent(w: World, h: Heap, visits: multiset<Place>, p: Place)
    requires AllLegit(w, h, visits) && Legit(w, h, p) && ShapeAt(w, p) == Followed
    ensures Referent(Apply(w, h, visits), p) == Referent(h, p)
    ensures NilTrap(w, Apply(w, h, visits), p) <==> NilTrap(w, h, p)
  {
    if p in h { KeepsReferences(w, h, visits, p); }
  }

  lemma SameEdges(w: World, h: Heap, visits: multiset<Place>, p: Place, q: Place)
    requires AllLegit(w, h, visits) && Legit(w, h, p)
    ensures Edge(w, Apply(w, h, visits), p, q) <==> Edge(w, h, p, q)
  {
    if ShapeAt(w, p) == Followed { SameReferent(w, h, visits, p); }
  }

  lemma {:induction false} SameTrails(w: World, h: Heap, visits: multiset<Place>, p: Place, trail: seq<Place>, q: Place)
    requires Program(w) && WellTyped(w, h) && AllLegit(w, h, visits) && Legit(w, h, p)
    ensures Leads(Edges(w, Apply(w, h, visits)), p, trail, q) <==> Leads(Edges(w, h), p, trail, q)
    decreases trail
  {
    if trail != [] {
      SameEdges(w, h, visits, p, trail[0]);
      if Edge(w, h, p, trail[0]) {
        EdgeLegit(w, h, p, trail[0]);
        SameTrails(w, h, visits, trail[0], trail[1..], q);
      }
    }
  }

  lemma {:induction false} SameVisitsWithin(w: World, h: Heap, visits: multiset<Place>, p: Place, n: nat)
    requires Program(w) && WellTyped(w, h) && AllLegit(w, h, visits) && Legit(w, h, p)
    ensures VisitsWithin(w, Apply(w, h, visits), p, n) == VisitsWithin(w, h, p, n)
    decreases n, 0
  {
    if n > 0 {
      SameOnward(w, h, visits, p, n - 1);
    } else {
      assert VisitsWithin(w, h, p, 0) == multiset{p} == VisitsWithin(w, Apply(w, h, visits), p, 0);
    }
  }

  lemma {:induction false} SameOnward(w: World, h: Heap, visits: multiset<Place>, p: Place, n: nat)
    requires Program(w) && WellTyped(w, h) && AllLegit(w, h, visits) && Legit(w, h, p)
    ensures Onward(w, Apply(w, h, visits), p, n) == Onward(w, h, p, n)
    decreases n, 2
  {
    if ShapeAt(w, p).Record? {
      SameFieldVisits(w, h, visits, p, ShapeAt(w, p).fields, 0, n);
    } else if ShapeAt(w, p).Followed? {
      SameReferent(w, h, visits, p);
      if Referent(h, p).Some? {
        EdgeLegit(w, h, p, Referent(h, p).value);
        SameVisitsWithin(w, h, visits, Referent(h, p).value, n);
      }
    }
  }

  lemma {:induction false} SameFieldVisits(w: World, h: Heap, visits: multiset<Place>, p: Place,
                                           fields: seq<Field>, i: nat, n: nat)
    requires Program(w) && WellTyped(w, h) && AllLegit(w, h, visits) && Legit(w, h, p)
    requires ShapeAt(w, p).Record? && i <= |ShapeAt(w, p).fields| && fields == ShapeAt(w, p).fields[i..]
    ensures FieldVisitsWithin(w, Apply(w, h, visits), p, fields, n) == FieldVisitsWithin(w, h, p, fields, n)
    decreases n, 1, fields
  {
    if fields != [] {
      if fields[0].name != "_" {
        RecordField(w, h, p, i);
        SameVisitsWithin(w, h, visits, Sub(p, fields[0].name), n);
      }
      SameFieldVisits(w, h, visits, p, fields[1..], i + 1, n);
    }
  }

  /** Resetting changes nothing about what Reset visits, nor how often. */
  lemma SameVisits(w: World, h: Heap, visits: multiset<Place>, p: Place)
    requires Program(w) && WellTyped(w, h) && AllLegit(w, h, visits) && Legit(w, h, p) && Bounded(w, h, p)
    ensures Bounded(w, Apply(w, h, visits), p)
    ensures Visits(w, Apply(w, h, visits), p) == Visits(w, h, p)
  {
    var g := Apply(w, h, visits);
    var n: nat :| Shallow(Edges(w, h), p, n);
    forall trail, q | Leads(Edges(w, g), p, trail, q) ensures |trail| <= n {
      SameTrails(w, h, visits, p, trail, q);
    }
    VisitsFrom(w, h, p, n);
    VisitsFrom(w, g, p, n);
    SameVisitsWithin(w, h, visits, p, n);
  }

  // The hand-written Reset of this type can be called again on what it left, and then does nothing more.
  ghost predicate Idempotent(w: World, t: GoType) {
    forall s :: w.user(t, s).Some? ==> w.user(t, w.user(t, s).value) == w.user(t, s)
  }

  lemma {:induction false} CalledAgain(w: World, t: GoType, q: Place, state: int, m: nat)
    requires Idempotent(w, t) && m > 0 && Called(w, t, q, state, m).Some?
    ensures Called(w, t, q, state, m) == ByHand(w, t, q, state)
    ensures ByHand(w, t, q, Called(w, t, q, state, m).value) == ByHand(w, t, q, state)
    decreases m
  {
    if m > 1 {
      CalledAgain(w, t, q, state, m - 1);
    } else {
      assert Called(w, t, q, state, 0) == Some(state);
    }
  }

  lemma {:induction false} CalledTwice(w: World, t: GoType, q: Place, state: int, m: nat, n: nat)
    requires Idempotent(w, t) && m > 0 && Called(w, t, q, state, m).Some?
    ensures var s := Called(w, t, q, state, m).value; Called(w, t, q, s, n) == Some(s)
    decreases n
  {
    CalledAgain(w, t, q, state, m);
    if n > 0 { CalledTwice(w, t, q, state, m, n - 1); }
  }

  // Whatever hand-written Reset methods these visits call, can be called again.
  ghost predicate AllIdempotent(w: World, visits: multiset<Place>) {
    forall q :: q in visits && ShapeAt(w, q) == Delegated ==> q in w.types && Idempotent(w, w.types[q])
  }

  lemma AfterTwice(w: World, h: Heap, q: Place, visits: multiset<Place>)
    requires q in h && AllIdempotent(w, visits) && Passable(w, h, visits)
    ensures After(w, After(w, h[q], q, visits), q, visits) == After(w, h[q], q, visits)
  {
    if !Cleared(w, q, visits) && q in visits && ShapeAt(w, q) == Delegated && h[q].Opaque? {
      CalledTwice(w, w.types[q], q, h[q].state, visits[q], visits[q]);
    }
  }

  lemma ApplyTwice(w: World, h: Heap, visits: multiset<Place>)
    requires AllIdempotent(w, visits) && Passable(w, h, visits)
    ensures Apply(w, Apply(w, h, visits), visits) == Apply(w, h, visits)
  {
    forall q | q in h ensures After(w, After(w, h[q], q, visits), q, visits) == After(w, h[q], q, visits) {
      AfterTwice(w, h, q, visits);
    }
  }

  // What could be visited once, can be visited again.
  lemma PassableAgain(w: World, h: Heap, visits: multiset<Place>)
    requires AllLegit(w, h, visits) && AllIdempotent(w, visits) && Passable(w, h, visits)
    ensures Passable(w, Apply(w, h, visits), visits)
  {
    var g := Apply(w, h, visits);
    forall q | q in visits ensures !NilTrap(w, g, q) && !CallTrap(w, g, q, visits[q]) {
      if ShapeAt(w, q) == Followed {
        SameReferent(w, h, visits, q);
      } else if ShapeAt(w, q) == Delegated && q in h && h[q].Opaque? {
        NotZeroedFromAbove(w, h, visits, q);
        CalledTwice(w, w.types[q], q, h[q].state, visits[q], visits[q]);
      }
    }
  }

  /** Running a generated Reset again leaves the heap as the first call left it, when that is so of the
      hand-written Reset methods it calls. */
  lemma ResetIdempotent(k: nat, m: nat, w: World, h: Heap, p: Place)
    requires Receiver(w, h, p) && CallOn(k, w, h, p).Done?
    requires forall q :: q in ReachSet(w, h, p) && ShapeAt(w, q) == Delegated ==> Idempotent(w, w.types[q])
    ensures var g := CallOn(k, w, h, p).heap;
            Receiver(w, g, p) && (CallOn(m, w, g, p) == OutOfFuel || CallOn(m, w, g, p) == Done(g))
  {
    var visits := Visits(w, h, p);
    ResetCorrect(k, w, h, p);
    VisitsLegit(w, h, p);
    VisitsAreReach(w, h, p);
    ApplyKeepsTypes(w, h, visits);
    var g := Apply(w, h, visits);
    ResetCorrect(m, w, g, p);
    SameVisits(w, h, visits, p);
    PassableReachesNoTrap(w, h, p);
    PassableAgain(w, h, visits);
    PassableReachesNoTrap(w, g, p);
    ApplyTwice(w, h, visits);
  }

  // ---- What a call changes ----

  function Read(h: Heap, q: Place): Option<Leaf> {
    if q in h then Some(h[q]) else None
  }

  /** Only variables that the receiver's named fields lead to can change, and none appears or disappears. */
  lemma ResetFrame(k: nat, w: World, h: Heap, p: Place, g: Heap, q: Place)
    requires Receiver(w, h, p) && CallOn(k, w, h, p) == Done(g)
    ensures Read(g, q) != Read(h, q) ==>
              q in g && q in h
              && (exists z :: Reaches(Edges(w, h), p, z) && (z == q || Inside(q, z))
                              && ShapeAt(w, z) in {Zeroed, Truncated, Emptied, Delegated})
  {
    var visits := Visits(w, h, p);
    ResetCorrect(k, w, h, p);
    VisitsAreReach(w, h, p);
    if q in h && g[q] != h[q] {
      var z := ChangedBy(w, h[q], q, visits);
      assert z in ReachSet(w, h, p);
    }
  }

  // A variable changes by a visit of it or of one around it.
  lemma ChangedBy(w: World, v: Leaf, q: Place, visits: multiset<Place>) returns (z: Place)
    requires After(w, v, q, visits) != v
    ensures z in visits && (z == q || Inside(q, z)) && ShapeAt(w, z) in {Zeroed, Truncated, Emptied, Delegated}
  {
    z := q;
    if Cleared(w, q, visits) { z :| z in visits && Above(z, q) && ShapeAt(w, z) == Zeroed; }
  }

  /** A struct held by value without a Reset method keeps every variable inside it. */
  lemma ByValueUntouched(k: nat, w: World, h: Heap, p: Place, g: Heap, s: Place, q: Place)
    requires Receiver(w, h, p) && CallOn(k, w, h, p) == Done(g)
    requires Legit(w, h, s) && ShapeAt(w, s) == Untouched && Inside(q, s)
    ensures Read(g, q) == Read(h, q)
  {
    var visits := Visits(w, h, p);
    ResetCorrect(k, w, h, p);
    VisitsLegit(w, h, p);
    forall z | z in visits && Above(z, q) ensures ShapeAt(w, z) != Zeroed && Above(z, s) {
      StaysOutside(w, h, z, s, q);
    }
    if q in visits { assert Above(q, q) && q == s; }
  }

  // No place that can be visited lies inside a struct that is left alone.
  lemma StaysOutside(w: World, h: Heap, z: Place, s: Place, q: Place)
    requires Legit(w, h, z) && Legit(w, h, s) && ShapeAt(w, s) == Untouched && Above(z, q) && Above(s, q)
    ensures ShapeAt(w, z) != Zeroed && Above(z, s)
  {
    if |z.path| < |s.path| {
      assert z.path == q.path[..|z.path|] == s.path[..|z.path|];
    } else {
      assert s.path == q.path[..|s.path|] == z.path[..|s.path|];
      if |z.path| == |s.path| { assert z.path == s.path; }
    }
  }

  // The zero value of the kind of v.
  predicate IsZero(u: Leaf, v: Leaf) {
    match v
    case Str(_) => u == Str("")
    case Bool(_) => u == Bool(false)
    case Int(_) => u == Int(0)
    case Float(_) => u == Float(0.0)
    case Complex(_, _) => u == Complex(0.0, 0.0)
    case SliceOf(_, _, _) => u == SliceOf(None, 0, 0)
    case MapRef(_) => u == MapRef(None)
    case Ptr(_) => u == Ptr(None)
    case Iface(_) => u == Iface(NilIface)
    case Opaque(_) => u == Opaque(0)
    case Entries(_) => u == v
  }

  // e is the variable at p or one inside it.
  predicate Inside(e: Place, p: Place) {
    e.Var? && p.Var? && e.addr == p.addr && |p.path| <= |e.path| && e.path[..|p.path|] == p.path
  }

  ghost predicate ZeroBelow(h: Heap, g: Heap, p: Place) {
    forall e :: e in h && Inside(e, p) ==> e in g && IsZero(g[e], h[e])
  }

  // The zero value of a basic type.
  predicate IsBasicZero(name: string, v: Leaf) {
    match KindOf(name)
    case Some(StringKind) => v == Str("")
    case Some(BoolKind) => v == Bool(false)
    case Some(IntKind) => v == Int(0)
    case Some(FloatKind) => v == Float(0.0)
    case Some(ComplexKind) => v == Complex(0.0, 0.0)
    case None => false
  }

  // A function that may panic, applied m times.
  function Times(f: int -> Option<int>, state: int, m: nat): Option<int> {
    if m == 0 then Some(state)
    else
      match Times(f, state, m - 1)
      case Some(s) => f(s)
      case None => None
  }

  // The effect of a hand-written Reset on one state.
  function Effect(w: World, t: GoType): int -> Option<int> {
    (s: int) => w.user(t, s)
  }

  /** An object has gone through all the calls of its Reset method; a copy inside an interface is as it was. */
  lemma {:induction false} CalledTimes(w: World, t: GoType, q: Place, state: int, m: nat)
    ensures !(q.Var? && q.addr in w.copies) ==> Called(w, t, q, state, m) == Times(Effect(w, t), state, m)
    ensures q.Var? && q.addr in w.copies ==>
              Called(w, t, q, state, m) == if m == 0 || w.user(t, state).Some? then Some(state) else None
    decreases m
  {
    if m > 0 { CalledTimes(w, t, q, state, m - 1); }
  }

  // What the type of q dictates: the values before, in h, and after, in g, when q was visited m times.
  ghost predicate AsDictated(w: World, h: Heap, g: Heap, q: Place, m: nat)
    requires q in w.types
  {
    match Core(w.env, w.types[q])
    case Basic(name) => Settable(name) ==> q in g && IsBasicZero(name, g[q])
    case Slice(_) => q in h && h[q].SliceOf? && Read(g, q) == Some(SliceOf(h[q].base, 0, h[q].cap))
    case Array(_, _) => ZeroBelow(h, g, q)
    case Map(_, _) =>
      q in h && h[q].MapRef? && Read(g, q) == Some(h[q])
      && (h[q].table.Some? ==> Read(g, Table(h[q].table.value)) == Some(Entries(map[])))
    case Pointer(_) => q in h && h[q].Ptr? && Read(g, q) == Some(h[q])
    case Interface(_) =>
      q in h && h[q].Iface? && Read(g, q) == Some(if ShapeAt(w, q) == Followed then h[q] else Iface(NilIface))
    case Struct(_, _) =>
      && (ShapeAt(w, q) == Zeroed ==> ZeroBelow(h, g, q))
      && (ShapeAt(w, q) == Delegated ==>
            q in h && h[q].Opaque? && q in g && g[q].Opaque?
            && if q.Var? && q.addr in w.copies then g[q] == h[q]
               else Times(Effect(w, w.types[q]), h[q].state, m) == Some(g[q].state))
    case _ => true
  }

  lemma {:induction false} ZeroedValue(w: World, h: Heap, visits: multiset<Place>, q: Place)
    requires WellTyped(w, h) && q in w.types && q in visits && ShapeAt(w, q) == Zeroed
    ensures AsDictated(w, h, Apply(w, h, visits), q, visits[q])
  {
    assert TypedAt(w, h, q);
    forall e | e in h && Inside(e, q) ensures IsZero(Apply(w, h, visits)[e], h[e]) {
      assert Above(q, e);
    }
  }

  lemma {:induction false} OtherValue(w: World, h: Heap, visits: multiset<Place>, q: Place)
    requires WellTyped(w, h) && q in w.types && q in visits && ShapeAt(w, q) != Zeroed
    requires !Cleared(w, q, visits) && Passable(w, h, visits)
    requires Core(w.env, w.types[q]).Map? && q in h && h[q].MapRef? && h[q].table.Some? ==>
               Table(h[q].table.value) in visits
    ensures AsDictated(w, h, Apply(w, h, visits), q, visits[q])
  {
    assert TypedAt(w, h, q);
    if ShapeAt(w, q) == Delegated { CalledTimes(w, w.types[q], q, h[q].state, visits[q]); }
  }

  /** The value of each variable that is reached, type by type. A hand-written Reset is called once for
      every visit. */
  lemma {:induction false} ResetValues(k: nat, w: World, h: Heap, p: Place, g: Heap, q: Place)
    requires Receiver(w, h, p) && CallOn(k, w, h, p) == Done(g)
    requires q in ReachSet(w, h, p) && q in w.types
    ensures Visits(w, h, p)[q] > 0 && AsDictated(w, h, g, q, Visits(w, h, p)[q])
  {
    var visits := Visits(w, h, p);
    ResetCorrect(k, w, h, p);
    VisitsLegit(w, h, p);
    VisitsAreReach(w, h, p);
    if ShapeAt(w, q) == Zeroed {
      ZeroedValue(w, h, visits, q);
    } else {
      NotZeroedFromAbove(w, h, visits, q);
      if Core(w.env, w.types[q]).Map? && q in h && h[q].MapRef? && h[q].table.Some? {
        TableReached(w, h, p, q);
      }
      PassableReachesNoTrap(w, h, p);
      OtherValue(w, h, visits, q);
    }
  }

  // The zero value that a variable of a basic type gets, by the type's name.
  predicate ZeroByName(name: string, v: Option<Leaf>) {
    && (name == "string" ==> v == Some(Str("")))
    && (name == "bool" ==> v == Some(Bool(false)))
    && (name in INTEGERS ==> v == Some(Int(0)))
    && (name == "float32" || name == "float64" ==> v == Some(Float(0.0)))
    && (name == "complex64" || name == "complex128" ==> v == Some(Complex(0.0, 0.0)))
  }

  lemma KindByName(name: string, v: Leaf)
    requires Settable(name) ==> IsBasicZero(name, v)
    ensures ZeroByName(name, Some(v))
  {
  }

  /** In particular, the basic types by their names. */
  lemma BasicValues(k: nat, w: World, h: Heap, p: Place, g: Heap, q: Place, name: string)
    requires Receiver(w, h, p) && CallOn(k, w, h, p) == Done(g)
    requires q in ReachSet(w, h, p) && q in w.types && w.types[q] == Basic(name)
    ensures ZeroByName(name, Read(g, q))
  {
    ResetValues(k, w, h, p, g, q);
    if q in g {
      KindByName(name, g[q]);
    } else {
      assert !Settable(name);
      KindByName(name, Int(1));
      KindByName(name, Str("1"));
    }
  }

  lemma TableReached(w: World, h: Heap, p: Place, q: Place)
    requires Receiver(w, h, p) && q in ReachSet(w, h, p) && q in w.types && Core(w.env, w.types[q]).Map?
    requires q in h && h[q].MapRef? && h[q].table.Some?
    ensures Table(h[q].table.value) in ReachSet(w, h, p)
  {
    var t := Table(h[q].table.value);
    var trail :| Leads(Edges(w, h), p, trail, q);
    TrailLegit(w, h, p, trail, q);
    assert TypedAt(w, h, q);
    assert Edge(w, h, q, t);
    LeadsOnward(Edges(w, h), p, trail, q, t);
  }
}
