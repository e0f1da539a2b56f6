/** The generated Reset methods do what the types dictate. */
module ResetProof {
  import opened GoTypes
  import opened Graphs
  import opened Optional
  import opened ResetAccepted
  import opened ResetGen
  import opened ResetMachine
  import opened ResetSpec
  import opened ResetTyping
  import opened ResetVisits

  // ---- Selectors ----

  /** r.sel denotes q, whatever has been reset before. */
  ghost predicate Stable(w: World, h: Heap, recv: Place, sel: seq<string>, q: Place) {
    forall visits :: AllLegit(w, h, visits) ==> Resolve(w, Apply(w, h, visits), recv, sel) == At(q)
  }

  lemma SelectLast(w: World, h: Heap, recv: Place, sel: seq<string>, field: string)
    ensures Resolve(w, h, recv, sel + [field])
         == match Resolve(w, h, recv, sel) case At(p) => Select(w, h, p, field) case other => other
  {
    assert (sel + [field])[..|sel + [field]| - 1] == sel;
  }

  // What r.sel.field selects from: the record at q, or the cell that the pointer at q refers to.
  ghost predicate SelectsFrom(w: World, h: Heap, q: Place, base: Place) {
    if q in h then ShapeAt(w, q) == Followed && h[q] == Ptr(Some(base.addr)) && base == Var(base.addr, [])
    else base == q
  }

  lemma SelectedField(w: World, h: Heap, visits: multiset<Place>, q: Place, base: Place, field: string)
    requires AllLegit(w, h, visits) && Legit(w, h, q) && SelectsFrom(w, h, q, base)
    requires field != "_" && Sub(base, field) in w.types
    ensures Select(w, Apply(w, h, visits), q, field) == At(Sub(base, field))
  {
    if q in h { KeepsReferences(w, h, visits, q); }
  }

  lemma StableField(w: World, h: Heap, recv: Place, sel: seq<string>, q: Place, base: Place, field: string)
    requires Legit(w, h, q) && Stable(w, h, recv, sel, q) && SelectsFrom(w, h, q, base)
    requires field != "_" && Sub(base, field) in w.types
    ensures Stable(w, h, recv, sel + [field], Sub(base, field))
  {
    forall visits | AllLegit(w, h, visits)
      ensures Resolve(w, Apply(w, h, visits), recv, sel + [field]) == At(Sub(base, field)) {
      SelectLast(w, Apply(w, h, visits), recv, sel, field);
      SelectedField(w, h, visits, q, base, field);
    }
  }

  // ---- Runs ----

  lemma RunSingle(k: nat, w: World, pkg: string, recv: Place, s: Stmt, h: Heap)
    ensures RunAll(k, w, pkg, Some(recv), [s], h) == RunOne(k, w, pkg, Some(recv), s, h)
  {
    var first := RunOne(k, w, pkg, Some(recv), s, h);
    if first.Done? {
      assert [s][1..] == [];
      assert RunAll(k, w, pkg, Some(recv), [], first.heap) == first;
    }
  }

  lemma {:induction false} RunConcat(k: nat, w: World, pkg: string, recv: Place, a: seq<Stmt>, b: seq<Stmt>, h: Heap)
    ensures RunAll(k, w, pkg, Some(recv), a + b, h)
         == var first := RunAll(k, w, pkg, Some(recv), a, h);
            if first.Done? then RunAll(k, w, pkg, Some(recv), b, first.heap) else first
    decreases a
  {
    if a == [] {
      assert a + b == b;
    } else {
      assert (a + b)[1..] == a[1..] + b;
      var first := RunOne(k, w, pkg, Some(recv), a[0], h);
      if first.Done? { RunConcat(k, w, pkg, recv, a[1..], b, first.heap); }
    }
  }

  // ---- Outcomes ----

  /** After some visits, the run ended with exactly the visits from `target` made, panicked because they cannot
      all be made, or went out of fuel. It does not when the fuel exceeds the depth of what is reached, and it
      cannot end when there is no such depth. */
  ghost predicate Outcome(k: nat, n: int, w: World, h: Heap, visits: multiset<Place>, target: Place, run: Run) {
    && (match run
        case OutOfFuel => true
        case Panic => Blocked(w, h, visits, target)
        case IllTyped => false
        case Done(g) =>
          && Bounded(w, h, target) && Passable(w, h, visits + Visits(w, h, target))
          && g == Apply(w, h, visits + Visits(w, h, target)))
    && (Shallow(Edges(w, h), target, n) && n < k ==> !run.OutOfFuel?)
  }

  // The outcome for a variable without references and fields.
  lemma LeafOutcome(k: nat, n: int, w: World, h: Heap, visits: multiset<Place>, p: Place, run: Run)
    requires Passable(w, h, visits + multiset{p}) && forall q :: !Edge(w, h, p, q)
    requires run == Done(Apply(w, h, visits + multiset{p}))
    ensures Outcome(k, n, w, h, visits, p, run)
  {
    VisitsLeaf(w, h, p);
  }

  // The outcome for such a variable when nothing is to be done with it.
  lemma StayOutcome(k: nat, n: int, w: World, h: Heap, visits: multiset<Place>, p: Place)
    requires Passable(w, h, visits) && !NilTrap(w, h, p) && forall q :: !Edge(w, h, p, q)
    requires ShapeAt(w, p).Followed? || ShapeAt(w, p).Record? || ShapeAt(w, p).Untouched?
    ensures Outcome(k, n, w, h, visits, p, Done(Apply(w, h, visits)))
  {
    AddNothing(w, h, visits, p);
    PassableMore(w, h, visits, p);
    LeafOutcome(k, n, w, h, visits, p, Done(Apply(w, h, visits)));
  }

  // To come past p on the way to other visits adds nothing to them.
  lemma PassingBy(w: World, h: Heap, visits: multiset<Place>, p: Place, inner: multiset<Place>)
    requires ShapeAt(w, p).Followed? || ShapeAt(w, p).Record?
    requires Passable(w, h, visits + inner) && !NilTrap(w, h, p)
    ensures Passable(w, h, visits + (multiset{p} + inner))
    ensures Apply(w, h, visits + (multiset{p} + inner)) == Apply(w, h, visits + inner)
  {
    assert visits + (multiset{p} + inner) == visits + inner + multiset{p};
    AddNothing(w, h, visits + inner, p);
    PassableMore(w, h, visits + inner, p);
  }

  lemma TrapOutcome(k: nat, n: int, w: World, h: Heap, visits: multiset<Place>, p: Place)
    requires !Passable(w, h, visits + multiset{p})
    ensures Outcome(k, n, w, h, visits, p, Panic)
  {
    assert VisitsWithin(w, h, p, 0) == multiset{p};
  }

  lemma {:induction false} ReferenceOutcome(k: nat, n: int, w: World, h: Heap, visits: multiset<Place>, p: Place,
                                            q: Place, run: Run)
    requires ShapeAt(w, p) == Followed && Referent(h, p) == Some(q)
    requires Outcome(k, n, w, h, visits, q, run)
    ensures Outcome(k, n, w, h, visits, p, run)
  {
    if Shallow(Edges(w, h), p, n) { ShallowStep(Edges(w, h), p, q, n); }
    if run.Done? {
      VisitsReference(w, h, p, q);
      PassingBy(w, h, visits, p, Visits(w, h, q));
    } else if run.Panic? {
      ReferenceBlocked(w, h, visits, p, q);
    }
  }

  lemma {:induction false} ReferenceBlocked(w: World, h: Heap, visits: multiset<Place>, p: Place, q: Place)
    requires ShapeAt(w, p) == Followed && Referent(h, p) == Some(q) && Blocked(w, h, visits, q)
    ensures Blocked(w, h, visits, p)
  {
    var m: nat :| !Passable(w, h, visits + VisitsWithin(w, h, q, m));
    ReferenceVisits(w, h, p, q, m);
    BlockedBelow(w, h, visits, p, VisitsWithin(w, h, q, m), m + 1);
  }

  lemma {:induction false} ReferenceVisits(w: World, h: Heap, p: Place, q: Place, m: nat)
    requires ShapeAt(w, p) == Followed && Referent(h, p) == Some(q)
    ensures VisitsWithin(w, h, q, m) <= VisitsWithin(w, h, p, m + 1)
  {
    assert Onward(w, h, p, m) == VisitsWithin(w, h, q, m);
  }

  lemma {:induction false} RecordVisits(w: World, h: Heap, p: Place, m: nat)
    requires ShapeAt(w, p).Record?
    ensures FieldVisitsWithin(w, h, p, ShapeAt(w, p).fields, m) <= VisitsWithin(w, h, p, m + 1)
  {
    assert Onward(w, h, p, m) == FieldVisitsWithin(w, h, p, ShapeAt(w, p).fields, m);
  }

  lemma {:induction false} RecordBlocked(w: World, h: Heap, visits: multiset<Place>, p: Place)
    requires ShapeAt(w, p).Record? && FieldsBlocked(w, h, visits, p, ShapeAt(w, p).fields)
    ensures Blocked(w, h, visits, p)
  {
    var fields := ShapeAt(w, p).fields;
    var m: nat :| !Passable(w, h, visits + FieldVisitsWithin(w, h, p, fields, m));
    RecordVisits(w, h, p, m);
    BlockedBelow(w, h, visits, p, FieldVisitsWithin(w, h, p, fields, m), m + 1);
  }

  lemma BlockedBelow(w: World, h: Heap, visits: multiset<Place>, p: Place, found: multiset<Place>, n: nat)
    requires !Passable(w, h, visits + found) && found <= VisitsWithin(w, h, p, n)
    ensures Blocked(w, h, visits, p)
  {
    if Passable(w, h, visits + VisitsWithin(w, h, p, n)) {
      PassableLess(w, h, visits + found, visits + VisitsWithin(w, h, p, n));
    }
  }

  ghost predicate FieldsBlocked(w: World, h: Heap, visits: multiset<Place>, p: Place, fields: seq<Field>) {
    exists n: nat :: !Passable(w, h, visits + FieldVisitsWithin(w, h, p, fields, n))
  }

  // The outcome for some fields of the record at p.
  ghost predicate FieldsOutcome(k: nat, n: int, w: World, h: Heap, visits: multiset<Place>, p: Place,
                                fields: seq<Field>, run: Run)
  {
    && (match run
        case OutOfFuel => true
        case Panic => FieldsBlocked(w, h, visits, p, fields)
        case IllTyped => false
        case Done(g) =>
          && FieldsBounded(w, h, p, fields) && Passable(w, h, visits + FieldVisits(w, h, p, fields))
          && g == Apply(w, h, visits + FieldVisits(w, h, p, fields)))
    && (FieldsShallow(w, h, p, fields, n) && n < k ==> !run.OutOfFuel?)
  }

  lemma {:induction false} RecordShallow(w: World, h: Heap, p: Place, n: int)
    requires ShapeAt(w, p).Record? && Shallow(Edges(w, h), p, n)
    ensures FieldsShallow(w, h, p, ShapeAt(w, p).fields, n - 1)
  {
    var fields := ShapeAt(w, p).fields;
    forall f | f in fields && f.name != "_" ensures Shallow(Edges(w, h), Sub(p, f.name), n - 1) {
      var i :| 0 <= i < |fields| && fields[i] == f;
      ShallowStep(Edges(w, h), p, Sub(p, f.name), n);
    }
  }

  lemma {:induction false} RecordOutcome(k: nat, n: int, w: World, h: Heap, visits: multiset<Place>, p: Place,
                                         fields: seq<Field>, run: Run)
    requires ShapeAt(w, p) == Record(fields) && FieldsOutcome(k, n - 1, w, h, visits, p, fields, run)
    ensures Outcome(k + 1, n, w, h, visits, p, run)
    ensures Outcome(k, n, w, h, visits, p, run)
  {
    if Shallow(Edges(w, h), p, n) { RecordShallow(w, h, p, n); }
    if run.Done? {
      VisitsRecord(w, h, p);
      PassingBy(w, h, visits, p, FieldVisits(w, h, p, fields));
    } else if run.Panic? {
      RecordBlocked(w, h, visits, p);
    }
  }

  // The outcomes of one field and of the fields after it.
  lemma {:induction false} NextField(k: nat, n: int, w: World, h: Heap, visits: multiset<Place>, p: Place,
                                     fields: seq<Field>, first: Run, run: Run)
    requires fields != [] && fields[0].name != "_"
    requires Outcome(k, n, w, h, visits, Sub(p, fields[0].name), first)
    requires if first.Done? then
               FieldsOutcome(k, n, w, h, visits + Visits(w, h, Sub(p, fields[0].name)), p, fields[1..], run)
             else run == first
    ensures FieldsOutcome(k, n, w, h, visits, p, fields, run)
  {
    var q := Sub(p, fields[0].name);
    assert fields[0] in fields && forall f :: f in fields <==> f == fields[0] || f in fields[1..];
    if run.Panic? {
      NextFieldBlocked(w, h, visits, p, fields, first);
    } else {
      assert visits + Visits(w, h, q) + FieldVisits(w, h, p, fields[1..]) == visits + FieldVisits(w, h, p, fields);
    }
  }

  lemma {:induction false} NextFieldBlocked(w: World, h: Heap, visits: multiset<Place>, p: Place, fields: seq<Field>,
                                            first: Run)
    requires fields != [] && fields[0].name != "_"
    requires var q := Sub(p, fields[0].name);
             if first.Done? then
               Bounded(w, h, q) && FieldsBlocked(w, h, visits + Visits(w, h, q), p, fields[1..])
             else Blocked(w, h, visits, q)
    ensures FieldsBlocked(w, h, visits, p, fields)
  {
    var q, rest := Sub(p, fields[0].name), fields[1..];
    if first.Done? {
      var n: nat :| !Passable(w, h, visits + Visits(w, h, q) + FieldVisitsWithin(w, h, p, rest, n));
      var found := Visits(w, h, q) + FieldVisitsWithin(w, h, p, rest, n);
      assert visits + Visits(w, h, q) + FieldVisitsWithin(w, h, p, rest, n) == visits + found;
      var far := VisitsOfNext(w, h, p, fields, n);
      FieldsBlockedBelow(w, h, visits, p, fields, found, far);
    } else {
      var n: nat :| !Passable(w, h, visits + VisitsWithin(w, h, q, n));
      FieldsBlockedBelow(w, h, visits, p, fields, VisitsWithin(w, h, q, n), n);
    }
  }

  lemma {:induction false} VisitsOfNext(w: World, h: Heap, p: Place, fields: seq<Field>, n: nat) returns (far: nat)
    requires fields != [] && fields[0].name != "_" && Bounded(w, h, Sub(p, fields[0].name))
    ensures Visits(w, h, Sub(p, fields[0].name)) + FieldVisitsWithin(w, h, p, fields[1..], n)
         <= FieldVisitsWithin(w, h, p, fields, far)
  {
    var m: nat :| Shallow(Edges(w, h), Sub(p, fields[0].name), m);
    far := if n < m then m else n;
    VisitsFrom(w, h, Sub(p, fields[0].name), far);
    FieldVisitsGrow(w, h, p, fields[1..], n, far);
  }

  lemma FieldsBlockedBelow(w: World, h: Heap, visits: multiset<Place>, p: Place, fields: seq<Field>,
                           found: multiset<Place>, n: nat)
    requires !Passable(w, h, visits + found) && found <= FieldVisitsWithin(w, h, p, fields, n)
    ensures FieldsBlocked(w, h, visits, p, fields)
  {
    if Passable(w, h, visits + FieldVisitsWithin(w, h, p, fields, n)) {
      PassableLess(w, h, visits + found, visits + FieldVisitsWithin(w, h, p, fields, n));
    }
  }

  lemma {:induction false} BlankField(k: nat, n: int, w: World, h: Heap, visits: multiset<Place>, p: Place,
                                      fields: seq<Field>, run: Run)
    requires fields != [] && fields[0].name == "_"
    requires FieldsOutcome(k, n, w, h, visits, p, fields[1..], run)
    ensures FieldsOutcome(k, n, w, h, visits, p, fields, run)
  {
    var rest := fields[1..];
    assert forall f :: f in fields && f.name != "_" <==> f in rest && f.name != "_";
    assert FieldsBounded(w, h, p, fields) <==> FieldsBounded(w, h, p, rest);
    assert forall m: nat :: FieldVisitsWithin(w, h, p, fields, m) == FieldVisitsWithin(w, h, p, rest, m);
    assert FieldsShallow(w, h, p, fields, n) ==> FieldsShallow(w, h, p, rest, n);
    assert FieldVisits(w, h, p, fields) == FieldVisits(w, h, p, rest);
  }

  lemma {:induction false} NoFields(k: nat, n: int, w: World, h: Heap, visits: multiset<Place>, p: Place)
    requires Passable(w, h, visits)
    ensures FieldsOutcome(k, n, w, h, visits, p, [], Done(Apply(w, h, visits)))
  {
    assert visits + multiset{} == visits;
  }

  // ---- One statement list ----

  /** The heap in which a Reset method is called on p, after some visits. */
  ghost predicate Callee(w: World, h: Heap, visits: multiset<Place>, p: Place) {
    && Program(w) && WellTyped(w, h) && AllLegit(w, h, visits) && Passable(w, h, visits)
    && Legit(w, h, p) && p.Var?
  }

  /** r.sel is the variable at q, and `target` what is to be reset: q itself or the cell it points to. */
  ghost predicate Ready(w: World, h: Heap, visits: multiset<Place>, recv: Place, sel: seq<string>,
                        q: Place, target: Place, pointer: bool)
  {
    && Program(w) && WellTyped(w, h) && AllLegit(w, h, visits) && Passable(w, h, visits)
    && Legit(w, h, q) && Stable(w, h, recv, sel, q) && Legit(w, h, target) && target.Var?
    && !Unguarded(w, q)
    && if pointer then
         && ShapeAt(w, q) == Followed && q in h && Core(w.env, w.types[q]).Pointer?
         && target.path == [] && h[q] == Ptr(Some(target.addr))
       else target == q && q.path != []
  }

  lemma {:induction false} PlaceOfTarget(w: World, h: Heap, visits: multiset<Place>, recv: Place, sel: seq<string>,
                                         q: Place, target: Place, pointer: bool)
    requires Ready(w, h, visits, recv, sel, q, target, pointer)
    ensures PlaceOf(w, Apply(w, h, visits), Some(recv), Target(sel, pointer)) == At(target)
    ensures PlaceOf(w, Apply(w, h, visits), Some(recv), Sel(sel)) == At(q)
  {
    assert Resolve(w, Apply(w, h, visits), recv, sel) == At(q);
    if pointer { KeepsReferences(w, h, visits, q); }
  }

  // Treating a variable does not change what kind of value it holds.
  lemma SameKind(w: World, v: Leaf, q: Place, visits: multiset<Place>)
    ensures var u := After(w, v, q, visits);
            && (v.Str? <==> u.Str?) && (v.Bool? <==> u.Bool?) && (v.Int? <==> u.Int?) && (v.Float? <==> u.Float?)
            && (v.Complex? <==> u.Complex?) && (v.Iface? <==> u.Iface?)
    requires v.Entries? || ShapeAt(w, q) != Emptied
  {
  }

  lemma {:induction false} LiteralStored(w: World, h: Heap, visits: multiset<Place>, recv: Option<Place>, pkg: string,
                                         target: Place, zero: Expr)
    requires target in w.types && target.Var? && TypedAt(w, h, target)
    requires Assignable(w.env, ImportsOf(w, pkg), pkg, w.types[target], zero)
    requires !zero.SliceToZero? && !zero.ArrayLit? && !zero.StructLit?
    ensures var g := Apply(w, h, visits);
            && target in g && Childless(g, target)
            && Store(w, g, recv, target, zero) == Done(g[target := ZeroLeaf(g[target])])
  {
    SameKind(w, h[target], target, visits);
  }

  // target = zero literal, for a type whose variables become zero.
  lemma {:induction false} ZeroRun(k: nat, w: World, h: Heap, visits: multiset<Place>, pkg: string, recv: Place,
                                   sel: seq<string>, q: Place, target: Place, pointer: bool, zero: Expr)
    requires Ready(w, h, visits, recv, sel, q, target, pointer)
    requires !zero.SliceToZero? && Assignable(w.env, ImportsOf(w, pkg), pkg, w.types[target], zero)
    ensures RunOne(k, w, pkg, Some(recv), Assign(Target(sel, pointer), zero), Apply(w, h, visits))
         == Done(ZeroUnder(Apply(w, h, visits), target))
  {
    PlaceOfTarget(w, h, visits, recv, sel, q, target, pointer);
    if !(zero.ArrayLit? || zero.StructLit?) {
      assert TypedAt(w, h, target);
      LiteralStored(w, h, visits, Some(recv), pkg, target, zero);
      ZeroUnderLeaf(Apply(w, h, visits), target);
    }
  }

  lemma {:induction false} AssignZero(k: nat, n: int, w: World, h: Heap, visits: multiset<Place>, pkg: string,
                                      recv: Place,
                                      sel: seq<string>, q: Place, target: Place, pointer: bool, zero: Expr)
    requires Ready(w, h, visits, recv, sel, q, target, pointer)
    requires ShapeAt(w, target) == Zeroed && !zero.SliceToZero?
    requires Assignable(w.env, ImportsOf(w, pkg), pkg, w.types[target], zero)
    ensures Outcome(k, n, w, h, visits, target,
                    RunAll(k, w, pkg, Some(recv), [Assign(Target(sel, pointer), zero)], Apply(w, h, visits)))
  {
    var g := Apply(w, h, visits);
    var s := Assign(Target(sel, pointer), zero);
    RunSingle(k, w, pkg, recv, s, g);
    ZeroRun(k, w, h, visits, pkg, recv, sel, q, target, pointer, zero);
    AddZeroed(w, h, visits, target);
    PassableMore(w, h, visits, target);
    LeafOutcome(k, n, w, h, visits, target, RunOne(k, w, pkg, Some(recv), s, g));
  }

  lemma {:induction false} AssignTruncated(k: nat, n: int, w: World, h: Heap, visits: multiset<Place>, pkg: string,
                                           recv: Place, sel: seq<string>, q: Place, target: Place, pointer: bool)
    requires Ready(w, h, visits, recv, sel, q, target, pointer)
    requires Core(w.env, w.types[target]).Slice?
    ensures Outcome(k, n, w, h, visits, target,
                    RunAll(k, w, pkg, Some(recv),
                           [Assign(Target(sel, pointer), SliceToZero(Target(sel, pointer)))], Apply(w, h, visits)))
  {
    var g := Apply(w, h, visits);
    var s := Assign(Target(sel, pointer), SliceToZero(Target(sel, pointer)));
    PlaceOfTarget(w, h, visits, recv, sel, q, target, pointer);
    RunSingle(k, w, pkg, recv, s, g);
    assert TypedAt(w, h, target);
    AddTruncated(w, h, visits, target);
    PassableMore(w, h, visits, target);
    LeafOutcome(k, n, w, h, visits, target, RunOne(k, w, pkg, Some(recv), s, g));
  }

  lemma {:induction false} ClearMap(k: nat, n: int, w: World, h: Heap, visits: multiset<Place>, pkg: string,
                                    recv: Place,
                                    sel: seq<string>, q: Place, target: Place, pointer: bool)
    requires Ready(w, h, visits, recv, sel, q, target, pointer)
    requires Core(w.env, w.types[target]).Map?
    ensures Outcome(k, n, w, h, visits, target,
                    RunAll(k, w, pkg, Some(recv), [Clear(Target(sel, pointer))], Apply(w, h, visits)))
  {
    var g := Apply(w, h, visits);
    var s := Clear(Target(sel, pointer));
    PlaceOfTarget(w, h, visits, recv, sel, q, target, pointer);
    RunSingle(k, w, pkg, recv, s, g);
    assert TypedAt(w, h, target);
    KeepsReferences(w, h, visits, target);
    var run := RunOne(k, w, pkg, Some(recv), s, g);
    match h[target].table
    case Some(m) =>
      AddEmptied(w, h, visits, Table(m));
      PassableMore(w, h, visits, Table(m));
      LeafOutcome(k, n, w, h, visits, Table(m), run);
      ReferenceOutcome(k, n, w, h, visits, target, Table(m), run);
    case None =>
      StayOutcome(k, n, w, h, visits, target);
  }

  // ---- The induction ----

  // A call of resetStatement that emitted these statements, with its imports in the file, for a type that fits.
  ghost predicate Generates(d: nat, w: World, pkg: string, sel: seq<string>, t: GoType, pointer: bool, hasReset: bool,
                            defined: bool, stmts: seq<Stmt>)
  {
    && ResetStatement(d, w.env, pkg, sel, t, pointer, hasReset).result == Emit(stmts)
    && Fits(d, w.env, ImportsOf(w, pkg), pkg, t, pointer, hasReset, defined)
  }

  /** The statements that resetStatement emits for a selector make exactly the visits from its variable. */
  lemma {:induction false} StatementCorrect(d: nat, k: nat, n: int, w: World, h: Heap, visits: multiset<Place>,
                                            pkg: string,
                                            recv: Place, sel: seq<string>, q: Place, target: Place,
                                            t: GoType, pointer: bool, hasReset: bool, defined: bool, stmts: seq<Stmt>)
    requires Ready(w, h, visits, recv, sel, q, target, pointer)
    requires Reading(w.env, w.types[target], t, hasReset)
    requires pointer || t.Pointer? ==> defined == w.types[q].Named?
    requires Generates(d, w, pkg, sel, t, pointer, hasReset, defined, stmts)
    ensures Outcome(k, n, w, h, visits, target, RunAll(k, w, pkg, Some(recv), stmts, Apply(w, h, visits)))
    decreases k, 2, d, t
  {
    match t
    case Named(id) => NamedCorrect(d, k, n, w, h, visits, pkg, recv, sel, q, target, id, pointer, defined, stmts);
    case Pointer(elem) =>
      assert TypedAt(w, h, q);
      PointerCorrect(d, k, n, w, h, visits, pkg, recv, sel, q, t, defined, stmts);
    case Struct(fields, methods) =>
      StructCorrect(d, k, n, w, h, visits, pkg, recv, sel, q, target, t, pointer, hasReset, defined, stmts);
    case Interface(methods) =>
      if hasReset || HasReset(methods) {
        InterfaceCorrect(k, n, w, h, visits, pkg, recv, sel, q);
      } else {
        AssignZero(k, n, w, h, visits, pkg, recv, sel, q, target, pointer, Nil);
      }
    case _ => LeafCorrect(d, k, n, w, h, visits, pkg, recv, sel, q, target, t, pointer, hasReset, defined, stmts);
  }

  // A type without parts.
  lemma {:induction false} LeafCorrect(d: nat, k: nat, n: int, w: World, h: Heap, visits: multiset<Place>,
                                       pkg: string, recv: Place, sel: seq<string>, q: Place, target: Place,
                                       t: GoType, pointer: bool, hasReset: bool, defined: bool, stmts: seq<Stmt>)
    requires Ready(w, h, visits, recv, sel, q, target, pointer) && Core(w.env, w.types[target]) == t
    requires !t.Named? && !t.Pointer? && !t.Struct? && !t.Interface?
    requires Generates(d, w, pkg, sel, t, pointer, hasReset, defined, stmts)
    ensures Outcome(k, n, w, h, visits, target, RunAll(k, w, pkg, Some(recv), stmts, Apply(w, h, visits)))
  {
    LeafEmits(d, w.env, pkg, sel, t, pointer, hasReset);
    if t.Slice? {
      AssignTruncated(k, n, w, h, visits, pkg, recv, sel, q, target, pointer);
    } else if t.Map? {
      ClearMap(k, n, w, h, visits, pkg, recv, sel, q, target, pointer);
    } else {
      var zero := ZeroLiteral(d, w, pkg, sel, target, t, pointer, hasReset, defined);
      AssignZero(k, n, w, h, visits, pkg, recv, sel, q, target, pointer, zero);
    }
  }

  lemma {:induction false} ZeroLiteral(d: nat, w: World, pkg: string, sel: seq<string>, target: Place, t: GoType,
                                       pointer: bool, hasReset: bool, defined: bool) returns (zero: Expr)
    requires target in w.types && target.Var? && Core(w.env, w.types[target]) == t && IsLeaf(t)
    requires (t.Basic? || t.Array?) && Fits(d, w.env, ImportsOf(w, pkg), pkg, t, pointer, hasReset, defined)
    ensures LeafStatement(sel, t, pointer) == Assign(Target(sel, pointer), zero) && !zero.SliceToZero?
    ensures ShapeAt(w, target) == Zeroed && Assignable(w.env, ImportsOf(w, pkg), pkg, w.types[target], zero)
  {
    zero := LeafStatement(sel, t, pointer).rhs;
  }

  // A struct: its Reset is called, its fields are opened behind a pointer, or it is left alone.
  lemma {:induction false} StructCorrect(d: nat, k: nat, n: int, w: World, h: Heap, visits: multiset<Place>,
                                         pkg: string,
                                         recv: Place, sel: seq<string>, q: Place, target: Place,
                                         t: GoType, pointer: bool, hasReset: bool, defined: bool, stmts: seq<Stmt>)
    requires Ready(w, h, visits, recv, sel, q, target, pointer) && t.Struct?
    requires Reading(w.env, w.types[target], t, hasReset)
    requires pointer ==> defined == w.types[q].Named?
    requires Generates(d, w, pkg, sel, t, pointer, hasReset, defined, stmts)
    ensures Outcome(k, n, w, h, visits, target, RunAll(k, w, pkg, Some(recv), stmts, Apply(w, h, visits)))
    decreases k, 2, d, t, 0
  {
    if hasReset || HasReset(t.methods) {
      CallCorrect(k, n, w, h, visits, pkg, recv, sel, q, target, pointer);
    } else if pointer {
      FieldsNothingHidden(d, w.env, pkg, sel, t.fields);
      assert ShapeAt(w, target) == Record(t.fields);
      FieldsSpliced(d, w, pkg, sel, t.fields);
      RecordCorrect(d, k, n, w, h, visits, pkg, recv, sel, q, target, t.fields, stmts);
    } else {
      StayOutcome(k, n, w, h, visits, target);
    }
  }

  // A named type: its underlying type's statements, or T{} when fields are hidden.
  lemma {:induction false} NamedCorrect(d: nat, k: nat, n: int, w: World, h: Heap, visits: multiset<Place>, pkg: string,
                                        recv: Place, sel: seq<string>, q: Place, target: Place, id: TypeId,
                                        pointer: bool, defined: bool, stmts: seq<Stmt>)
    requires Ready(w, h, visits, recv, sel, q, target, pointer)
    requires w.types[target] == Named(id)
    requires pointer ==> defined == w.types[q].Named?
    requires Generates(d, w, pkg, sel, Named(id), pointer, false, defined, stmts)
    ensures Outcome(k, n, w, h, visits, target, RunAll(k, w, pkg, Some(recv), stmts, Apply(w, h, visits)))
    decreases k, 2, d, Named(id), 0
  {
    var under, reset := Under(w.env, id), Resettable(w.env, id);
    NamedEmits(d, w.env, pkg, sel, id, pointer, false);
    assert !Shadowed(w.env, id, reset);
    if Hides(under, pointer, reset) {
      assert ShapeAt(w, target) == Zeroed;
      AssignZero(k, n, w, h, visits, pkg, recv, sel, q, target, pointer, StructLit(NameOf(w.env, pkg, id)));
    } else {
      assert !under.Named?;
      StatementCorrect(d - 1, k, n, w, h, visits, pkg, recv, sel, q, target, under, pointer, reset,
                       defined || !pointer, stmts);
    }
  }

  // A pointer: kept, and its target is reset when there is one. A pointer to a pointer is left alone.
  lemma {:induction false} PointerCorrect(d: nat, k: nat, n: int, w: World, h: Heap, visits: multiset<Place>,
                                          pkg: string,
                                          recv: Place, sel: seq<string>, q: Place, t: GoType, defined: bool,
                                          stmts: seq<Stmt>)
    requires Ready(w, h, visits, recv, sel, q, q, false) && t.Pointer?
    requires Reading(w.env, w.types[q], t, false) && defined == w.types[q].Named?
    requires Generates(d, w, pkg, sel, t, false, false, defined, stmts)
    ensures Outcome(k, n, w, h, visits, q, RunAll(k, w, pkg, Some(recv), stmts, Apply(w, h, visits)))
    decreases k, 2, d, t, 0
  {
    var elem := t.elem;
    assert Core(w.env, w.types[q]) == t;
    if Core(w.env, elem).Pointer? {
      DeepEmitsNothing(d, w.env, ImportsOf(w, pkg), pkg, sel, elem, defined, stmts);
      StayOutcome(k, n, w, h, visits, q);
    } else {
      var inner := PointerEmits(d, w.env, pkg, sel, elem, stmts);
      PointerRun(k, w, h, visits, pkg, recv, sel, q, elem, inner);
      assert TypedAt(w, h, q);
      match h[q].to
      case None => StayOutcome(k, n, w, h, visits, q);
      case Some(a) =>
        StatementCorrect(d, k, n, w, h, visits, pkg, recv, sel, q, Var(a, []), elem, true, false, defined, inner);
        ReferenceOutcome(k, n, w, h, visits, q, Var(a, []),
                         RunAll(k, w, pkg, Some(recv), stmts, Apply(w, h, visits)));
    }
  }

  // The emitted nil check guards the statements for the pointee.
  lemma {:induction false} PointerRun(k: nat, w: World, h: Heap, visits: multiset<Place>, pkg: string, recv: Place,
                                      sel: seq<string>, q: Place, elem: GoType, inner: seq<Stmt>)
    requires Ready(w, h, visits, recv, sel, q, q, false)
    requires Core(w.env, w.types[q]) == Pointer(elem) && !Core(w.env, elem).Pointer?
    ensures q in h && h[q].Ptr?
    ensures var g, stmts := Apply(w, h, visits), if inner == [] then [] else [IfNotNil(Sel(sel), inner)];
            RunAll(k, w, pkg, Some(recv), stmts, g)
              == if h[q].to.None? then Done(g) else RunAll(k, w, pkg, Some(recv), inner, g)
  {
    assert TypedAt(w, h, q);
    PlaceOfTarget(w, h, visits, recv, sel, q, q, false);
    KeepsReferences(w, h, visits, q);
    RunSingle(k, w, pkg, recv, IfNotNil(Sel(sel), inner), Apply(w, h, visits));
  }

  /** The fields of the record at `target` are reset through r.sel, the record itself at q or a pointer to it. */
  ghost predicate Entered(w: World, h: Heap, visits: multiset<Place>, recv: Place, sel: seq<string>, q: Place,
                          target: Place)
  {
    && Callee(w, h, visits, target) && Legit(w, h, q) && Stable(w, h, recv, sel, q)
    && (if q in h then ShapeAt(w, q) == Followed && target.path == [] && h[q] == Ptr(Some(target.addr))
        else target == q)
    && ShapeAt(w, target).Record? && Relayed(w.env, w.types[target]).None?
  }

  lemma {:induction false} FieldReady(w: World, h: Heap, visits: multiset<Place>, recv: Place, sel: seq<string>,
                                      q: Place, target: Place, i: nat)
    requires Entered(w, h, visits, recv, sel, q, target)
    requires i < |ShapeAt(w, target).fields| && ShapeAt(w, target).fields[i].name != "_"
    ensures var f := ShapeAt(w, target).fields[i];
            var p := Sub(target, f.name);
            Ready(w, h, visits, recv, sel + [f.name], p, p, false) && w.types[p] == f.typ
  {
    var f := ShapeAt(w, target).fields[i];
    RecordField(w, h, target, i);
    assert (target.path + [f.name])[..|target.path + [f.name]| - 1] == target.path;
    StableField(w, h, recv, sel, q, target, f.name);
  }

  // The statements for a list of fields are those of each field in order.
  ghost predicate Spliced(d: nat, w: World, pkg: string, sel: seq<string>, fields: seq<Field>, stmts: seq<Stmt>)
    decreases fields
  {
    if fields == [] then stmts == []
    else
      var first := ResetStatement(d, w.env, pkg, sel + [fields[0].name], fields[0].typ, false, false).result;
      && first.Emit? && |first.stmts| <= |stmts| && first.stmts == stmts[..|first.stmts|]
      && Spliced(d, w, pkg, sel, fields[1..], stmts[|first.stmts|..])
  }

  lemma {:induction false} FieldsSpliced(d: nat, w: World, pkg: string, sel: seq<string>, fields: seq<Field>)
    requires ResetFields(d, w.env, pkg, sel, fields).result.Emit?
    ensures Spliced(d, w, pkg, sel, fields, ResetFields(d, w.env, pkg, sel, fields).result.stmts)
    decreases fields
  {
    if fields != [] {
      var first := ResetStatement(d, w.env, pkg, sel + [fields[0].name], fields[0].typ, false, false).result.stmts;
      var rest := ResetFields(d, w.env, pkg, sel, fields[1..]).result.stmts;
      FieldsSpliced(d, w, pkg, sel, fields[1..]);
      assert (first + rest)[..|first|] == first && (first + rest)[|first|..] == rest;
    }
  }

  lemma {:induction false} BodySpliced(w: World, pkg: string, fields: seq<Field>)
    requires BodyOf(w.env, pkg, fields).result.Emit?
    ensures Spliced(w.env.stack, w, pkg, [], fields, BodyOf(w.env, pkg, fields).result.stmts)
    decreases fields
  {
    if fields != [] {
      assert [] + [fields[0].name] == [fields[0].name];
      var first := ResetStatement(w.env.stack, w.env, pkg, [fields[0].name], fields[0].typ, false, false).result.stmts;
      var rest := BodyOf(w.env, pkg, fields[1..]).result.stmts;
      BodySpliced(w, pkg, fields[1..]);
      assert (first + rest)[..|first|] == first && (first + rest)[|first|..] == rest;
    }
  }

  /** Statements for the fields of a record, from the i-th on, make the visits from each of them. */
  lemma {:induction false} FieldsCorrect(d: nat, k: nat, n: int, w: World, h: Heap, visits: multiset<Place>,
                                         pkg: string, recv: Place, sel: seq<string>, q: Place, target: Place,
                                         fields: seq<Field>, i: nat, stmts: seq<Stmt>)
    requires Entered(w, h, visits, recv, sel, q, target)
    requires i <= |ShapeAt(w, target).fields| && fields == ShapeAt(w, target).fields[i..]
    requires FitsFields(d, w.env, ImportsOf(w, pkg), pkg, fields) && Spliced(d, w, pkg, sel, fields, stmts)
    ensures FieldsOutcome(k, n, w, h, visits, target, fields, RunAll(k, w, pkg, Some(recv), stmts, Apply(w, h, visits)))
    decreases k, 2, d, fields, 1
  {
    if fields == [] {
      NoFields(k, n, w, h, visits, target);
    } else {
      var f, path := fields[0], sel + [fields[0].name];
      var first := ResetStatement(d, w.env, pkg, path, f.typ, false, false).result.stmts;
      var rest := stmts[|first|..];
      assert stmts == first + rest;
      if f.name == "_" {
        BlankEmitsNothing(d, w.env, ImportsOf(w, pkg), pkg, path, fields);
        FieldsCorrect(d, k, n, w, h, visits, pkg, recv, sel, q, target, fields[1..], i + 1, rest);
        BlankField(k, n, w, h, visits, target, fields, RunAll(k, w, pkg, Some(recv), stmts, Apply(w, h, visits)));
      } else {
        NamedFieldCorrect(d, k, n, w, h, visits, pkg, recv, sel, q, target, fields, i, first, rest);
      }
    }
  }

  // All the fields of a record. The statements may be those of a method, which takes one more unit of fuel.
  lemma {:induction false} RecordCorrect(d: nat, k: nat, n: int, w: World, h: Heap, visits: multiset<Place>,
                                         pkg: string, recv: Place, sel: seq<string>, q: Place, target: Place,
                                         fields: seq<Field>, stmts: seq<Stmt>)
    requires Entered(w, h, visits, recv, sel, q, target) && ShapeAt(w, target) == Record(fields)
    requires FitsFields(d, w.env, ImportsOf(w, pkg), pkg, fields) && Spliced(d, w, pkg, sel, fields, stmts)
    ensures Outcome(k, n, w, h, visits, target, RunAll(k, w, pkg, Some(recv), stmts, Apply(w, h, visits)))
    ensures Outcome(k + 1, n, w, h, visits, target, RunAll(k, w, pkg, Some(recv), stmts, Apply(w, h, visits)))
    decreases k, 2, d, fields, 2
  {
    assert fields == fields[0..];
    FieldsCorrect(d, k, n - 1, w, h, visits, pkg, recv, sel, q, target, fields, 0, stmts);
    RecordOutcome(k, n, w, h, visits, target, fields, RunAll(k, w, pkg, Some(recv), stmts, Apply(w, h, visits)));
  }

  lemma {:induction false} NamedFieldCorrect(d: nat, k: nat, n: int, w: World, h: Heap, visits: multiset<Place>,
                                             pkg: string, recv: Place, sel: seq<string>, q: Place, target: Place,
                                             fields: seq<Field>, i: nat, first: seq<Stmt>, rest: seq<Stmt>)
    requires Entered(w, h, visits, recv, sel, q, target)
    requires i < |ShapeAt(w, target).fields| && fields == ShapeAt(w, target).fields[i..] && fields[0].name != "_"
    requires Generates(d, w, pkg, sel + [fields[0].name], fields[0].typ, false, false, false, first)
    requires FitsFields(d, w.env, ImportsOf(w, pkg), pkg, fields[1..]) && Spliced(d, w, pkg, sel, fields[1..], rest)
    ensures FieldsOutcome(k, n, w, h, visits, target, fields,
                          RunAll(k, w, pkg, Some(recv), first + rest, Apply(w, h, visits)))
    decreases k, 2, d, fields, 0
  {
    var p, path := Sub(target, fields[0].name), sel + [fields[0].name];
    var run := RunAll(k, w, pkg, Some(recv), first, Apply(w, h, visits));
    FieldReady(w, h, visits, recv, sel, q, target, i);
    StatementCorrect(d, k, n, w, h, visits, pkg, recv, path, p, p, fields[0].typ, false, false, false, first);
    if run.Done? {
      VisitsLegit(w, h, p);
      FieldsCorrect(d, k, n, w, h, visits + Visits(w, h, p), pkg, recv, sel, q, target, fields[1..], i + 1, rest);
    }
    RunConcat(k, w, pkg, recv, first, rest, Apply(w, h, visits));
    NextField(k, n, w, h, visits, target, fields, run,
              RunAll(k, w, pkg, Some(recv), first + rest, Apply(w, h, visits)));
  }

  lemma PastNilCheck(k: nat, w: World, pkg: string, p: Place, stmts: seq<Stmt>, g: Heap)
    ensures RunAll(k, w, pkg, Some(p), [ReturnIfNil] + stmts, g) == RunAll(k, w, pkg, Some(p), stmts, g)
  {
    RunSingle(k, w, pkg, p, ReturnIfNil, g);
    RunConcat(k, w, pkg, p, [ReturnIfNil], stmts, g);
  }

  lemma {:induction false} GeneratedBody(w: World, id: TypeId) returns (stmts: seq<Stmt>)
    requires Program(w) && Generated(w.env, Named(id))
    ensures MethodOf(w.env, id).result == Emit([ReturnIfNil] + stmts)
    ensures Spliced(w.env.stack, w, id.pkg, [], OwnFields(Under(w.env, id).fields), stmts)
  {
    assert MethodOk(w, id);
    stmts := BodyOf(w.env, id.pkg, OwnFields(Under(w.env, id).fields)).result.stmts;
    BodySpliced(w, id.pkg, OwnFields(Under(w.env, id).fields));
  }

  // Past its nil check, a generated method runs the statements of its fields.
  lemma {:induction false} GeneratedRun(k: nat, w: World, p: Place, id: TypeId, g: Heap) returns (stmts: seq<Stmt>)
    requires Program(w) && Generated(w.env, Named(id)) && k > 0
    ensures Spliced(w.env.stack, w, id.pkg, [], OwnFields(Under(w.env, id).fields), stmts)
    ensures RunMethod(k, w, Named(id), Some(p), g) == RunAll(k - 1, w, id.pkg, Some(p), stmts, g)
  {
    stmts := GeneratedBody(w, id);
    PastNilCheck(k - 1, w, id.pkg, p, stmts, g);
  }

  lemma {:induction false} GeneratedMethod(w: World, p: Place, id: TypeId) returns (fields: seq<Field>)
    requires Program(w) && p in w.types && p.Var? && w.types[p] == Named(id) && Generated(w.env, Named(id))
    ensures fields == OwnFields(Under(w.env, id).fields) && ShapeAt(w, p) == Record(fields)
    ensures FitsFields(w.env.stack, w.env, ImportsOf(w, id.pkg), id.pkg, fields)
  {
    assert MethodOk(w, id);
    MethodAcceptedExactly(w.env, w.files[id.pkg], id);
    fields := OwnFields(Under(w.env, id).fields);
  }

  lemma {:induction false} GeneratedCorrect(k: nat, n: int, w: World, h: Heap, visits: multiset<Place>, p: Place,
                                            id: TypeId)
    requires Callee(w, h, visits, p)
    requires w.types[p] == Named(id) && Generated(w.env, Named(id))
    ensures Outcome(k, n, w, h, visits, p, RunMethod(k, w, Named(id), Some(p), Apply(w, h, visits)))
    decreases k, 1, 0
  {
    if k > 0 {
      var fields := GeneratedMethod(w, p, id);
      var stmts := GeneratedRun(k, w, p, id, Apply(w, h, visits));
      RecordCorrect(w.env.stack, k - 1, n, w, h, visits, id.pkg, p, [], p, p, fields, stmts);
      assert k - 1 + 1 == k;
    } else if Shallow(Edges(w, h), p, n) {
      ShallowNat(Edges(w, h), p, n);
    }
  }

  /** A promoted Reset method is that of the embedded field. */
  lemma {:induction false} RelayCorrect(k: nat, n: int, w: World, h: Heap, visits: multiset<Place>, p: Place, f: Field)
    requires Callee(w, h, visits, p) && Relayed(w.env, w.types[p]) == Some(f)
    ensures Outcome(k, n, w, h, visits, p, RunMethod(k, w, w.types[p], Some(p), Apply(w, h, visits)))
    decreases k, 1, 0
  {
    RelayShape(w, h, p, f);
    if k > 0 {
      var run := RunCall(k - 1, w, Sub(p, f.name), Apply(w, h, visits));
      CalledCorrect(k - 1, n - 1, w, h, visits, Sub(p, f.name));
      OneField(k - 1, n - 1, w, h, visits, p, f, run);
      RecordOutcome(k - 1, n, w, h, visits, p, [f], run);
    } else if Shallow(Edges(w, h), p, n) {
      ShallowNat(Edges(w, h), p, n);
    }
  }

  lemma {:induction false} RelayShape(w: World, h: Heap, p: Place, f: Field)
    requires Program(w) && WellTyped(w, h) && Legit(w, h, p) && p.Var? && Relayed(w.env, w.types[p]) == Some(f)
    ensures ShapeAt(w, p) == Record([f]) && f.name != "_"
    ensures var q := Sub(p, f.name); Legit(w, h, q) && Unguarded(w, q) && Promotes(w.env, w.types[q])
  {
    assert ShapeAt(w, p) == Record([f]);
    RecordField(w, h, p, 0);
    assert (p.path + [f.name])[..|p.path + [f.name]| - 1] == p.path;
  }

  lemma {:induction false} OneField(k: nat, n: int, w: World, h: Heap, visits: multiset<Place>, p: Place, f: Field,
                                    run: Run)
    requires f.name != "_" && Outcome(k, n, w, h, visits, Sub(p, f.name), run)
    ensures FieldsOutcome(k, n, w, h, visits, p, [f], run)
  {
    if run.Done? { NoFields(k, n, w, h, visits + Visits(w, h, Sub(p, f.name)), p); }
    NextField(k, n, w, h, visits, p, [f], run, run);
  }

  /** A hand-written Reset method. */
  lemma {:induction false} ByHandCorrect(k: nat, n: int, w: World, h: Heap, visits: multiset<Place>, p: Place)
    requires Callee(w, h, visits, p) && ShapeAt(w, p) == Delegated
    ensures Outcome(k, n, w, h, visits, p, RunByHand(w, w.types[p], p, Apply(w, h, visits)))
  {
    assert TypedAt(w, h, p);
    AddDelegated(w, h, visits, p);
    PassableMore(w, h, visits, p);
    var run := RunByHand(w, w.types[p], p, Apply(w, h, visits));
    if run.Panic? { TrapOutcome(k, n, w, h, visits, p); } else { LeafOutcome(k, n, w, h, visits, p, run); }
  }

  // A Reset method called on p: generated, promoted, or written by hand.
  lemma {:induction false} MethodCorrect(k: nat, n: int, w: World, h: Heap, visits: multiset<Place>, p: Place)
    requires Callee(w, h, visits, p) && Object(w.env, w.types[p])
    ensures Outcome(k, n, w, h, visits, p, RunMethod(k, w, w.types[p], Some(p), Apply(w, h, visits)))
    decreases k, 1, 1
  {
    if Generated(w.env, w.types[p]) {
      GeneratedCorrect(k, n, w, h, visits, p, w.types[p].id);
    } else if Relayed(w.env, w.types[p]).Some? {
      RelayCorrect(k, n, w, h, visits, p, Relayed(w.env, w.types[p]).value);
    } else {
      ByHandCorrect(k, n, w, h, visits, p);
    }
  }

  lemma ObjectRun(k: nat, w: World, h: Heap, visits: multiset<Place>, q: Place)
    requires Callee(w, h, visits, q) && Object(w.env, w.types[q])
    ensures RunCall(k, w, q, Apply(w, h, visits)) == RunMethod(k, w, w.types[q], Some(q), Apply(w, h, visits))
  {
    assert TypedAt(w, h, q);
  }

  lemma PointerCallRun(k: nat, w: World, h: Heap, visits: multiset<Place>, q: Place)
    requires Callee(w, h, visits, q) && ShapeAt(w, q) == Followed && w.types[q].Pointer?
    ensures q in h && h[q].Ptr?
    ensures var recv := if h[q].to.Some? then Some(Var(h[q].to.value, [])) else None;
            RunCall(k, w, q, Apply(w, h, visits)) == RunMethod(k, w, w.types[q].elem, recv, Apply(w, h, visits))
  {
    assert TypedAt(w, h, q);
    KeepsReferences(w, h, visits, q);
  }

  // r.sel.Reset() on a struct or on a pointer to one.
  lemma {:induction false} CallCorrect(k: nat, n: int, w: World, h: Heap, visits: multiset<Place>, pkg: string,
                                       recv: Place,
                                       sel: seq<string>, q: Place, target: Place, pointer: bool)
    requires Ready(w, h, visits, recv, sel, q, target, pointer)
    requires Object(w.env, w.types[target]) && (pointer ==> w.types[q].Pointer?)
    ensures Outcome(k, n, w, h, visits, target,
                    RunAll(k, w, pkg, Some(recv), [CallReset(Sel(sel))], Apply(w, h, visits)))
    decreases k, 1, 2
  {
    PlaceOfTarget(w, h, visits, recv, sel, q, target, pointer);
    RunSingle(k, w, pkg, recv, CallReset(Sel(sel)), Apply(w, h, visits));
    if pointer {
      assert TypedAt(w, h, q);
      PointerCallRun(k, w, h, visits, q);
    } else {
      ObjectRun(k, w, h, visits, q);
    }
    MethodCorrect(k, n, w, h, visits, target);
  }

  /** A generated Reset method does nothing when its receiver is nil. */
  lemma {:induction false} NilReceiver(k: nat, w: World, id: TypeId, h: Heap)
    requires Program(w) && Generated(w.env, Named(id))
    ensures RunMethod(k, w, Named(id), None, h) == if k == 0 then OutOfFuel else Done(h)
  {
    assert MethodOk(w, id);
    assert MethodOf(w.env, id).result.stmts[0] == ReturnIfNil;
  }

  // A Reset method called on the nil that is found at q.
  lemma {:induction false} NilOutcome(k: nat, n: int, w: World, h: Heap, visits: multiset<Place>, q: Place, t: GoType)
    requires Program(w) && Passable(w, h, visits) && ShapeAt(w, q) == Followed && Referent(h, q).None?
    requires NilTrap(w, h, q) <==> !AcceptsNil(w, t)
    ensures Outcome(k, n, w, h, visits, q, RunMethod(k, w, t, None, Apply(w, h, visits)))
  {
    var g := Apply(w, h, visits);
    PassableMore(w, h, visits, q);
    if !AcceptsNil(w, t) {
      TrapOutcome(k, n, w, h, visits, q);
    } else {
      StayOutcome(k, n, w, h, visits, q);
      if Generated(w.env, t) { NilReceiver(k, w, t.id, g); }
      if Shallow(Edges(w, h), q, n) { ShallowNat(Edges(w, h), q, n); }
    }
  }

  // if r.sel != nil { r.sel.Reset() } for an interface variable that denotes q.
  lemma {:induction false} InterfaceRun(k: nat, w: World, g: Heap, pkg: string, recv: Place, sel: seq<string>, q: Place)
    requires PlaceOf(w, g, Some(recv), Sel(sel)) == At(q)
    requires q in w.types && q in g && g[q].Iface?
    ensures RunAll(k, w, pkg, Some(recv), [IfNotNil(Sel(sel), [CallReset(Sel(sel))])], g)
         == if g[q].dyn == NilIface then Done(g) else RunCall(k, w, q, g)
  {
    RunSingle(k, w, pkg, recv, CallReset(Sel(sel)), g);
    RunSingle(k, w, pkg, recv, IfNotNil(Sel(sel), [CallReset(Sel(sel))]), g);
  }

  // An interface: kept; what it holds is reset. A typed nil panics unless its method accepts it.
  lemma {:induction false} InterfaceCorrect(k: nat, n: int, w: World, h: Heap, visits: multiset<Place>, pkg: string,
                                            recv: Place, sel: seq<string>, q: Place)
    requires Ready(w, h, visits, recv, sel, q, q, false)
    requires Core(w.env, w.types[q]).Interface? && ShapeAt(w, q) == Followed
    ensures Outcome(k, n, w, h, visits, q,
                    RunAll(k, w, pkg, Some(recv), [IfNotNil(Sel(sel), [CallReset(Sel(sel))])], Apply(w, h, visits)))
    decreases k, 1, 3
  {
    PlaceOfTarget(w, h, visits, recv, sel, q, q, false);
    assert TypedAt(w, h, q);
    KeepsReferences(w, h, visits, q);
    InterfaceRun(k, w, Apply(w, h, visits), pkg, recv, sel, q);
    if h[q].dyn.NilIface? {
      StayOutcome(k, n, w, h, visits, q);
    } else {
      DynCorrect(k, n, w, h, visits, q);
    }
  }

  // The Reset method of what an interface holds.
  lemma {:induction false} DynCorrect(k: nat, n: int, w: World, h: Heap, visits: multiset<Place>, q: Place)
    requires Callee(w, h, visits, q) && Core(w.env, w.types[q]).Interface? && ShapeAt(w, q) == Followed
    requires q in h && (h[q] == Iface(NilIface) ==> Unguarded(w, q))
    ensures Outcome(k, n, w, h, visits, q, RunCall(k, w, q, Apply(w, h, visits)))
    decreases k, 1, 2
  {
    var run := RunCall(k, w, q, Apply(w, h, visits));
    assert TypedAt(w, h, q) && DynOk(w, h[q].dyn);
    KeepsReferences(w, h, visits, q);
    match h[q].dyn
    case NilIface =>
      PassableMore(w, h, visits, q);
      TrapOutcome(k, n, w, h, visits, q);
    case TypedNil(id) => NilOutcome(k, n, w, h, visits, q, Named(id));
    case Holds(a) =>
      MethodCorrect(k, n, w, h, visits, Var(a, []));
      ReferenceOutcome(k, n, w, h, visits, q, Var(a, []), run);
    case ByValue(Some(a)) =>
      MethodCorrect(k, n, w, h, visits, Var(a, []));
      ReferenceOutcome(k, n, w, h, visits, q, Var(a, []), run);
    case ByValue(None) => StayOutcome(k, n, w, h, visits, q);
  }

  // The Reset method of an embedded field.
  lemma {:induction false} CalledCorrect(k: nat, n: int, w: World, h: Heap, visits: multiset<Place>, q: Place)
    requires Callee(w, h, visits, q) && Unguarded(w, q) && Promotes(w.env, w.types[q])
    ensures Outcome(k, n, w, h, visits, q, RunCall(k, w, q, Apply(w, h, visits)))
    decreases k, 1, 3
  {
    var t := w.types[q];
    assert TypedAt(w, h, q);
    if t.Pointer? {
      PointerCallRun(k, w, h, visits, q);
      match h[q].to
      case None => NilOutcome(k, n, w, h, visits, q, t.elem);
      case Some(a) =>
        MethodCorrect(k, n, w, h, visits, Var(a, []));
        ReferenceOutcome(k, n, w, h, visits, q, Var(a, []), RunCall(k, w, q, Apply(w, h, visits)));
    } else if Object(w.env, t) {
      ObjectRun(k, w, h, visits, q);
      MethodCorrect(k, n, w, h, visits, q);
    } else {
      DynCorrect(k, n, w, h, visits, q);
    }
  }
}
