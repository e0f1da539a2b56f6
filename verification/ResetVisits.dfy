/** Visits: where a Reset comes to, how often, and what one more visit changes. */
module ResetVisits {
  import opened GoTypes
  import opened Graphs
  import opened Optional
  import opened ResetMachine
  import opened ResetSpec

  // ---- Places that a Reset can come to ----

  /** A place that the reset of some cell can come to: every struct around it is reset field by field. */
  ghost predicate Legit(w: World, h: Heap, p: Place)
  {
    if p.Table? then p in h
    else
      && p in w.types
      && forall n :: 0 <= n < |p.path| ==> ShapeAt(w, Var(p.addr, p.path[..n])).Record?
  }

  ghost predicate AllLegit(w: World, h: Heap, ps: multiset<Place>)
  {
    forall p :: p in ps ==> Legit(w, h, p)
  }

  lemma {:induction false} FieldTypeAmong(fields: seq<Field>, name: string)
    requires FieldType(fields, name).Some?
    ensures exists i :: 0 <= i < |fields| && fields[i].name == name && fields[i].typ == FieldType(fields, name).value
  {
    if fields[0].name != name {
      FieldTypeAmong(fields[1..], name);
      var i :| 0 <= i < |fields[1..]| && fields[1..][i].name == name
               && fields[1..][i].typ == FieldType(fields, name).value;
      assert fields[i + 1] == fields[1..][i];
    }
  }

  // The fields that a record resets are among those of its struct.
  lemma {:induction false} RecordAmong(env: Env, t: GoType, cell: bool, f: Field)
    requires ShapeOf(env, t, cell).Record? && f in ShapeOf(env, t, cell).fields
    ensures Core(env, t).Struct?
    ensures exists i :: 0 <= i < |Core(env, t).fields|
                        && Core(env, t).fields[i].name == f.name && Core(env, t).fields[i].typ == f.typ
  {
    var fields := Core(env, t).fields;
    if Generated(env, t) {
      OwnFieldsAmong(fields, f);
    } else if Relayed(env, t).Some? {
      FieldTypeAmong(fields, f.name);
    }
  }

  // A field of a record is a typed variable of its own.
  lemma RecordField(w: World, h: Heap, p: Place, i: nat)
    requires Program(w) && WellTyped(w, h) && Legit(w, h, p)
    requires ShapeAt(w, p).Record? && i < |ShapeAt(w, p).fields| && ShapeAt(w, p).fields[i].name != "_"
    ensures p.Var? && p !in h
    ensures Legit(w, h, Sub(p, ShapeAt(w, p).fields[i].name))
    ensures w.types[Sub(p, ShapeAt(w, p).fields[i].name)] == ShapeAt(w, p).fields[i].typ
  {
    assert TypedAt(w, h, p);
    RecordAmong(w.env, w.types[p], p.path == [], ShapeAt(w, p).fields[i]);
    var q := Sub(p, ShapeAt(w, p).fields[i].name);
    forall n | 0 <= n < |q.path| ensures ShapeAt(w, Var(q.addr, q.path[..n])).Record? {
      assert q.path[..n] == p.path[..n];
      if n == |p.path| { assert p.path[..n] == p.path; }
    }
  }

  lemma EdgeLegit(w: World, h: Heap, p: Place, q: Place)
    requires Program(w) && WellTyped(w, h) && Legit(w, h, p) && Edge(w, h, p, q)
    ensures Legit(w, h, q)
  {
    if ShapeAt(w, p).Record? {
      var i :| 0 <= i < |ShapeAt(w, p).fields| && ShapeAt(w, p).fields[i].name != "_"
        && q == Sub(p, ShapeAt(w, p).fields[i].name);
      RecordField(w, h, p, i);
    } else {
      assert TypedAt(w, h, p);
    }
  }

  lemma {:induction false} TrailLegit(w: World, h: Heap, p: Place, trail: seq<Place>, q: Place)
    requires Program(w) && WellTyped(w, h)
    requires Legit(w, h, p) && Leads(Edges(w, h), p, trail, q)
    ensures Legit(w, h, q)
    decreases trail
  {
    if trail != [] {
      EdgeLegit(w, h, p, trail[0]);
      TrailLegit(w, h, trail[0], trail[1..], q);
    }
  }

  // ---- Visits ----

  lemma {:induction false} VisitsWithinReach(w: World, h: Heap, p: Place, n: nat, q: Place)
    requires q in VisitsWithin(w, h, p, n)
    ensures Reaches(Edges(w, h), p, q)
    decreases n, 0
  {
    ReachesSelf(Edges(w, h), p);
    if q != p {
      var next := OnwardReach(w, h, p, n - 1, q);
      ReachesFirst(Edges(w, h), p, q);
    }
  }

  lemma {:induction false} OnwardReach(w: World, h: Heap, p: Place, n: nat, q: Place) returns (next: Place)
    requires q in Onward(w, h, p, n)
    ensures Edge(w, h, p, next) && Reaches(Edges(w, h), next, q)
    decreases n, 2
  {
    if ShapeAt(w, p).Record? {
      var fields := ShapeAt(w, p).fields;
      var i := FieldVisitsWithinReach(w, h, p, fields, n, q);
      next := Sub(p, fields[i].name);
    } else {
      next := Referent(h, p).value;
      VisitsWithinReach(w, h, next, n, q);
    }
  }

  lemma {:induction false} FieldVisitsWithinReach(w: World, h: Heap, p: Place, fields: seq<Field>, n: nat, q: Place)
    returns (i: nat)
    requires q in FieldVisitsWithin(w, h, p, fields, n)
    ensures i < |fields| && fields[i].name != "_" && Reaches(Edges(w, h), Sub(p, fields[i].name), q)
    decreases n, 1, fields
  {
    if fields[0].name != "_" && q in VisitsWithin(w, h, Sub(p, fields[0].name), n) {
      VisitsWithinReach(w, h, Sub(p, fields[0].name), n, q);
      i := 0;
    } else {
      i := FieldVisitsWithinReach(w, h, p, fields[1..], n, q);
      i := i + 1;
    }
  }

  lemma {:induction false} ReachedIsVisited(w: World, h: Heap, p: Place, trail: seq<Place>, q: Place, n: nat)
    requires Leads(Edges(w, h), p, trail, q) && |trail| <= n
    ensures q in VisitsWithin(w, h, p, n)
    decreases trail
  {
    if trail != [] {
      ReachedIsVisited(w, h, trail[0], trail[1..], q, n - 1);
      NextIsVisited(w, h, p, trail[0], q, n - 1);
    }
  }

  lemma {:induction false} NextIsVisited(w: World, h: Heap, p: Place, next: Place, q: Place, n: nat)
    requires Edge(w, h, p, next) && q in VisitsWithin(w, h, next, n)
    ensures q in Onward(w, h, p, n)
  {
    if ShapeAt(w, p).Record? {
      var fields := ShapeAt(w, p).fields;
      var i :| 0 <= i < |fields| && fields[i].name != "_" && next == Sub(p, fields[i].name);
      FieldIsVisited(w, h, p, fields, i, q, n);
    }
  }

  lemma {:induction false} FieldIsVisited(w: World, h: Heap, p: Place, fields: seq<Field>, i: nat, q: Place, n: nat)
    requires i < |fields| && fields[i].name != "_" && q in VisitsWithin(w, h, Sub(p, fields[i].name), n)
    ensures q in FieldVisitsWithin(w, h, p, fields, n)
    decreases i
  {
    if i > 0 { FieldIsVisited(w, h, p, fields[1..], i - 1, q, n); }
  }

  /** What is visited is what is visits. */
  lemma VisitsAreReach(w: World, h: Heap, p: Place)
    requires Program(w) && WellTyped(w, h) && Legit(w, h, p) && Bounded(w, h, p)
    ensures forall q :: q in Visits(w, h, p) <==> q in ReachSet(w, h, p)
  {
    var n: nat :| Shallow(Edges(w, h), p, n) && Visits(w, h, p) == VisitsWithin(w, h, p, n);
    forall q ensures q in Visits(w, h, p) <==> q in ReachSet(w, h, p) {
      if q in Visits(w, h, p) {
        VisitsWithinReach(w, h, p, n, q);
        var trail :| Leads(Edges(w, h), p, trail, q);
        TrailLegit(w, h, p, trail, q);
      }
      if q in ReachSet(w, h, p) {
        var trail :| Leads(Edges(w, h), p, trail, q);
        ReachedIsVisited(w, h, p, trail, q, n);
      }
    }
  }

  lemma VisitsLegit(w: World, h: Heap, p: Place)
    requires Program(w) && WellTyped(w, h) && Legit(w, h, p)
    ensures AllLegit(w, h, Visits(w, h, p))
  {
    if Bounded(w, h, p) {
      VisitsAreReach(w, h, p);
      forall q | q in Visits(w, h, p) ensures Legit(w, h, q) {
        var trail :| Leads(Edges(w, h), p, trail, q);
        TrailLegit(w, h, p, trail, q);
      }
    }
  }

  // Looking further than the longest trail finds nothing new.
  lemma {:induction false} VisitsStable(w: World, h: Heap, p: Place, n: nat, m: nat)
    requires Shallow(Edges(w, h), p, n) && n <= m
    ensures VisitsWithin(w, h, p, n) == VisitsWithin(w, h, p, m)
    decreases n, 0
  {
    if n > 0 {
      OnwardStable(w, h, p, n - 1, m - 1);
    } else if m > 0 {
      NothingOnward(w, h, p, m - 1);
    }
  }

  lemma {:induction false} OnwardStable(w: World, h: Heap, p: Place, n: nat, m: nat)
    requires Shallow(Edges(w, h), p, n + 1) && n <= m
    ensures Onward(w, h, p, n) == Onward(w, h, p, m)
    decreases n, 2
  {
    if ShapeAt(w, p).Record? {
      var fields := ShapeAt(w, p).fields;
      forall i | 0 <= i < |fields| && fields[i].name != "_" ensures Shallow(Edges(w, h), Sub(p, fields[i].name), n) {
        ShallowStep(Edges(w, h), p, Sub(p, fields[i].name), n + 1);
      }
      FieldVisitsStable(w, h, p, fields, n, m);
    } else if ShapeAt(w, p).Followed? && Referent(h, p).Some? {
      ShallowStep(Edges(w, h), p, Referent(h, p).value, n + 1);
      VisitsStable(w, h, Referent(h, p).value, n, m);
    }
  }

  lemma {:induction false} NothingOnward(w: World, h: Heap, p: Place, m: nat)
    requires Shallow(Edges(w, h), p, 0)
    ensures Onward(w, h, p, m) == multiset{}
  {
    forall q ensures !Edge(w, h, p, q) {
      if Edge(w, h, p, q) {
        ShallowStep(Edges(w, h), p, q, 0);
        ShallowNat(Edges(w, h), q, -1);
      }
    }
    if ShapeAt(w, p).Record? {
      var fields := ShapeAt(w, p).fields;
      forall i | 0 <= i < |fields| ensures fields[i].name == "_" {
        assert !Edge(w, h, p, Sub(p, fields[i].name));
      }
      BlankVisits(w, h, p, fields, m);
    } else if ShapeAt(w, p).Followed? && Referent(h, p).Some? {
      assert !Edge(w, h, p, Referent(h, p).value);
    }
  }

  lemma {:induction false} BlankVisits(w: World, h: Heap, p: Place, fields: seq<Field>, n: nat)
    requires forall i :: 0 <= i < |fields| ==> fields[i].name == "_"
    ensures FieldVisitsWithin(w, h, p, fields, n) == multiset{}
    decreases fields
  {
    if fields != [] { BlankVisits(w, h, p, fields[1..], n); }
  }

  lemma {:induction false} FieldVisitsStable(w: World, h: Heap, p: Place, fields: seq<Field>, n: nat, m: nat)
    requires forall i :: 0 <= i < |fields| && fields[i].name != "_" ==> Shallow(Edges(w, h), Sub(p, fields[i].name), n)
    requires n <= m
    ensures FieldVisitsWithin(w, h, p, fields, n) == FieldVisitsWithin(w, h, p, fields, m)
    decreases n, 1, fields
  {
    if fields != [] {
      if fields[0].name != "_" { VisitsStable(w, h, Sub(p, fields[0].name), n, m); }
      FieldVisitsStable(w, h, p, fields[1..], n, m);
    }
  }

  // Any bound on the trails will do.
  lemma VisitsFrom(w: World, h: Heap, p: Place, n: nat)
    requires Shallow(Edges(w, h), p, n)
    ensures Visits(w, h, p) == VisitsWithin(w, h, p, n)
  {
    var m: nat :| Shallow(Edges(w, h), p, m) && Visits(w, h, p) == VisitsWithin(w, h, p, m);
    if m <= n { VisitsStable(w, h, p, m, n); } else { VisitsStable(w, h, p, n, m); }
  }

  // A place without edges is its own only visit.
  lemma VisitsLeaf(w: World, h: Heap, p: Place)
    requires forall q :: !Edge(w, h, p, q)
    ensures Bounded(w, h, p) && Visits(w, h, p) == multiset{p}
  {
    ShallowFrom(Edges(w, h), p, 0);
    VisitsFrom(w, h, p, 0);
  }

  lemma VisitsReference(w: World, h: Heap, p: Place, q: Place)
    requires ShapeAt(w, p) == Followed && Referent(h, p) == Some(q) && Bounded(w, h, q)
    ensures Bounded(w, h, p) && Visits(w, h, p) == multiset{p} + Visits(w, h, q)
  {
    var n: nat :| Shallow(Edges(w, h), q, n);
    ShallowFrom(Edges(w, h), p, n + 1);
    VisitsFrom(w, h, p, n + 1);
    VisitsFrom(w, h, q, n);
  }

  // The visits of some fields of the record at p.
  ghost function FieldVisits(w: World, h: Heap, p: Place, fields: seq<Field>): multiset<Place> {
    if fields == [] then multiset{}
    else
      (if fields[0].name == "_" then multiset{} else Visits(w, h, Sub(p, fields[0].name)))
      + FieldVisits(w, h, p, fields[1..])
  }

  ghost predicate FieldsBounded(w: World, h: Heap, p: Place, fields: seq<Field>) {
    forall f :: f in fields && f.name != "_" ==> Bounded(w, h, Sub(p, f.name))
  }

  ghost predicate FieldsShallow(w: World, h: Heap, p: Place, fields: seq<Field>, n: int) {
    forall f :: f in fields && f.name != "_" ==> Shallow(Edges(w, h), Sub(p, f.name), n)
  }

  lemma {:induction false} FieldVisitsFrom(w: World, h: Heap, p: Place, fields: seq<Field>, n: nat)
    requires FieldsShallow(w, h, p, fields, n)
    ensures FieldVisits(w, h, p, fields) == FieldVisitsWithin(w, h, p, fields, n)
    decreases fields
  {
    if fields != [] {
      assert fields[0] in fields;
      if fields[0].name != "_" { VisitsFrom(w, h, Sub(p, fields[0].name), n); }
      FieldVisitsFrom(w, h, p, fields[1..], n);
    }
  }

  lemma {:induction false} ShallowRecord(w: World, h: Heap, p: Place, n: nat)
    requires ShapeAt(w, p).Record? && FieldsShallow(w, h, p, ShapeAt(w, p).fields, n)
    ensures Shallow(Edges(w, h), p, n + 1)
  {
    var fields := ShapeAt(w, p).fields;
    forall q | Edge(w, h, p, q) ensures Shallow(Edges(w, h), q, n) {
      var i :| 0 <= i < |fields| && fields[i].name != "_" && q == Sub(p, fields[i].name);
      assert fields[i] in fields;
    }
    ShallowFrom(Edges(w, h), p, n + 1);
  }

  lemma {:induction false} RecordVisitsWithin(w: World, h: Heap, p: Place, n: nat)
    requires ShapeAt(w, p).Record? && FieldsShallow(w, h, p, ShapeAt(w, p).fields, n)
    ensures Bounded(w, h, p)
    ensures Visits(w, h, p) == multiset{p} + FieldVisitsWithin(w, h, p, ShapeAt(w, p).fields, n)
  {
    ShallowRecord(w, h, p, n);
    VisitsFrom(w, h, p, n + 1);
    assert VisitsWithin(w, h, p, n + 1) == multiset{p} + Onward(w, h, p, n);
  }

  lemma {:induction false} VisitsRecord(w: World, h: Heap, p: Place)
    requires ShapeAt(w, p).Record? && FieldsBounded(w, h, p, ShapeAt(w, p).fields)
    ensures Bounded(w, h, p)
    ensures Visits(w, h, p) == multiset{p} + FieldVisits(w, h, p, ShapeAt(w, p).fields)
  {
    var fields := ShapeAt(w, p).fields;
    var n := CommonBound(w, h, p, fields);
    RecordVisitsWithin(w, h, p, n);
    FieldVisitsFrom(w, h, p, fields, n);
  }

  // ---- The effect of one more visit ----

  // No other treated place zeroes a variable that itself has a treatment.
  lemma NotZeroedFromAbove(w: World, h: Heap, visits: multiset<Place>, p: Place)
    requires AllLegit(w, h, visits) && Legit(w, h, p) && ShapeAt(w, p) != Zeroed
    ensures forall z :: z in visits && Above(z, p) ==> ShapeAt(w, z) != Zeroed
  {
    forall z | z in visits && Above(z, p) ensures ShapeAt(w, z) != Zeroed {
      assert z == Var(p.addr, p.path[..|z.path|]);
      if |z.path| == |p.path| { assert z == p; }
    }
  }

  lemma KeepsReferences(w: World, h: Heap, visits: multiset<Place>, p: Place)
    requires AllLegit(w, h, visits) && Legit(w, h, p) && p in h
    requires ShapeAt(w, p) == Followed
    ensures Apply(w, h, visits)[p] == h[p]
  {
    NotZeroedFromAbove(w, h, visits, p);
  }

  lemma ClearedMore(w: World, q: Place, visits: multiset<Place>, p: Place)
    ensures Cleared(w, q, visits + multiset{p}) <==> Cleared(w, q, visits) || (Above(p, q) && ShapeAt(w, p) == Zeroed)
  {
    assert p in visits + multiset{p};
    if Cleared(w, q, visits) {
      var z :| z in visits && Above(z, q) && ShapeAt(w, z) == Zeroed;
      assert z in visits + multiset{p};
    }
  }

  // A visit of a place that does not become zero changes no other leaf.
  lemma AddElsewhere(w: World, v: Leaf, q: Place, visits: multiset<Place>, p: Place)
    requires ShapeAt(w, p) != Zeroed && q != p
    ensures After(w, v, q, visits + multiset{p}) == After(w, v, q, visits)
  {
    ClearedMore(w, q, visits, p);
    assert (visits + multiset{p})[q] == visits[q];
  }

  lemma AddNothing(w: World, h: Heap, visits: multiset<Place>, p: Place)
    requires ShapeAt(w, p).Followed? || ShapeAt(w, p).Record? || ShapeAt(w, p).Untouched?
    ensures Apply(w, h, visits + multiset{p}) == Apply(w, h, visits)
  {
    forall q | q in h ensures After(w, h[q], q, visits + multiset{p}) == After(w, h[q], q, visits) {
      if q == p { ClearedMore(w, q, visits, p); } else { AddElsewhere(w, h[q], q, visits, p); }
    }
  }

  lemma AddZeroedAt(w: World, v: Leaf, q: Place, visits: multiset<Place>, p: Place)
    requires ShapeAt(w, p) == Zeroed
    ensures After(w, v, q, visits + multiset{p})
         == if Above(p, q) then ZeroLeaf(After(w, v, q, visits)) else After(w, v, q, visits)
  {
    ClearedMore(w, q, visits, p);
  }

  lemma AddZeroed(w: World, h: Heap, visits: multiset<Place>, p: Place)
    requires ShapeAt(w, p) == Zeroed
    ensures ZeroUnder(Apply(w, h, visits), p) == Apply(w, h, visits + multiset{p})
  {
    forall q | q in h
      ensures After(w, h[q], q, visits + multiset{p})
           == if Above(p, q) then ZeroLeaf(After(w, h[q], q, visits)) else After(w, h[q], q, visits) {
      AddZeroedAt(w, h[q], q, visits, p);
    }
  }

  // Storing the zero value in a leaf zeroes all there is under it.
  lemma ZeroUnderLeaf(h: Heap, p: Place)
    requires p.Var? && p in h && Childless(h, p)
    ensures h[p := ZeroLeaf(h[p])] == ZeroUnder(h, p)
  {
  }

  // Such a visit replaces the value of its own leaf.
  lemma AddReplaces(w: World, h: Heap, visits: multiset<Place>, p: Place, v: Leaf)
    requires p in h && ShapeAt(w, p) != Zeroed && v == After(w, h[p], p, visits + multiset{p})
    ensures Apply(w, h, visits)[p := v] == Apply(w, h, visits + multiset{p})
  {
    forall q | q in h && q != p ensures After(w, h[q], q, visits + multiset{p}) == After(w, h[q], q, visits) {
      AddElsewhere(w, h[q], q, visits, p);
    }
  }

  lemma AddTruncated(w: World, h: Heap, visits: multiset<Place>, p: Place)
    requires AllLegit(w, h, visits) && Legit(w, h, p) && p in h
    requires ShapeAt(w, p) == Truncated && h[p].SliceOf?
    ensures Apply(w, h, visits)[p].SliceOf?
    ensures Apply(w, h, visits)[p := Truncate(Apply(w, h, visits)[p])] == Apply(w, h, visits + multiset{p})
  {
    NotZeroedFromAbove(w, h, visits, p);
    ClearedMore(w, p, visits, p);
    AddReplaces(w, h, visits, p, Truncate(After(w, h[p], p, visits)));
  }

  // One more call of a hand-written Reset.
  lemma AddCall(w: World, v: Leaf, visits: multiset<Place>, p: Place)
    requires ShapeAt(w, p) == Delegated && v.Opaque? && !Cleared(w, p, visits)
    requires Called(w, w.types[p], p, v.state, visits[p]).Some?
    ensures var u, more := After(w, v, p, visits), Called(w, w.types[p], p, v.state, visits[p] + 1);
            && u.Opaque? && more == ByHand(w, w.types[p], p, u.state)
            && (more.Some? ==> After(w, v, p, visits + multiset{p}) == Opaque(more.value))
  {
    ClearedMore(w, p, visits, p);
    assert (visits + multiset{p})[p] == visits[p] + 1;
  }

  lemma AddDelegated(w: World, h: Heap, visits: multiset<Place>, p: Place)
    requires AllLegit(w, h, visits) && Legit(w, h, p) && p in h && Passable(w, h, visits)
    requires ShapeAt(w, p) == Delegated && h[p].Opaque?
    ensures Apply(w, h, visits)[p].Opaque?
    ensures match ByHand(w, w.types[p], p, Apply(w, h, visits)[p].state)
            case None => CallTrap(w, h, p, visits[p] + 1)
            case Some(s) =>
              && !CallTrap(w, h, p, visits[p] + 1)
              && Apply(w, h, visits)[p := Opaque(s)] == Apply(w, h, visits + multiset{p})
  {
    NotZeroedFromAbove(w, h, visits, p);
    assert Called(w, w.types[p], p, h[p].state, visits[p]).Some?;
    AddCall(w, h[p], visits, p);
    var more := Called(w, w.types[p], p, h[p].state, visits[p] + 1);
    if more.Some? { AddReplaces(w, h, visits, p, Opaque(more.value)); }
  }

  lemma AddEmptied(w: World, h: Heap, visits: multiset<Place>, p: Place)
    requires p in h && p.Table?
    ensures Apply(w, h, visits)[p := Entries(map[])] == Apply(w, h, visits + multiset{p})
  {
    AddReplaces(w, h, visits, p, Entries(map[]));
  }

  // ---- What keeps a Reset from going on ----

  lemma {:induction false} CalledMore(w: World, t: GoType, q: Place, state: int, m: nat, n: nat)
    requires m <= n && Called(w, t, q, state, m).None?
    ensures Called(w, t, q, state, n).None?
    decreases n
  {
    if m < n { CalledMore(w, t, q, state, m, n - 1); }
  }

  lemma PassableLess(w: World, h: Heap, fewer: multiset<Place>, visits: multiset<Place>)
    requires fewer <= visits && Passable(w, h, visits)
    ensures Passable(w, h, fewer)
  {
    forall p | p in fewer ensures !NilTrap(w, h, p) && !CallTrap(w, h, p, fewer[p]) {
      assert p in visits && fewer[p] <= visits[p];
      if CallTrap(w, h, p, fewer[p]) { CalledMore(w, w.types[p], p, h[p].state, fewer[p], visits[p]); }
    }
  }

  lemma PassableMore(w: World, h: Heap, visits: multiset<Place>, p: Place)
    requires Passable(w, h, visits)
    ensures Passable(w, h, visits + multiset{p}) <==> !NilTrap(w, h, p) && !CallTrap(w, h, p, visits[p] + 1)
  {
    var more := visits + multiset{p};
    assert p in more && more[p] == visits[p] + 1;
    assert forall q :: q in more && q != p ==> q in visits && more[q] == visits[q];
  }

  // Looking further finds more.
  lemma {:induction false} VisitsGrow(w: World, h: Heap, p: Place, n: nat, m: nat)
    requires n <= m
    ensures VisitsWithin(w, h, p, n) <= VisitsWithin(w, h, p, m)
    decreases n, 0
  {
    if n > 0 { OnwardGrow(w, h, p, n - 1, m - 1); }
  }

  lemma {:induction false} OnwardGrow(w: World, h: Heap, p: Place, n: nat, m: nat)
    requires n <= m
    ensures Onward(w, h, p, n) <= Onward(w, h, p, m)
    decreases n, 2
  {
    if ShapeAt(w, p).Record? {
      FieldVisitsGrow(w, h, p, ShapeAt(w, p).fields, n, m);
    } else if ShapeAt(w, p).Followed? && Referent(h, p).Some? {
      VisitsGrow(w, h, Referent(h, p).value, n, m);
    }
  }

  lemma {:induction false} FieldVisitsGrow(w: World, h: Heap, p: Place, fields: seq<Field>, n: nat, m: nat)
    requires n <= m
    ensures FieldVisitsWithin(w, h, p, fields, n) <= FieldVisitsWithin(w, h, p, fields, m)
    decreases n, 1, fields
  {
    if fields != [] {
      if fields[0].name != "_" { VisitsGrow(w, h, Sub(p, fields[0].name), n, m); }
      FieldVisitsGrow(w, h, p, fields[1..], n, m);
    }
  }

  // All that is found at any distance is among the visits.
  lemma VisitsAreAll(w: World, h: Heap, p: Place, n: nat)
    requires Bounded(w, h, p)
    ensures VisitsWithin(w, h, p, n) <= Visits(w, h, p)
  {
    var m: nat :| Shallow(Edges(w, h), p, m);
    var far := if n < m then m else n;
    VisitsGrow(w, h, p, n, far);
    VisitsFrom(w, h, p, far);
  }

  /** A nil trap anywhere on the way is reached. */
  lemma TrapReached(w: World, h: Heap, p: Place, q: Place)
    requires Reaches(Edges(w, h), p, q) && NilTrap(w, h, q)
    ensures ReachesTrap(w, h, p)
  {
    var trail :| Leads(Edges(w, h), p, trail, q);
    ReachedIsVisited(w, h, p, trail, q, |trail|);
    assert q in multiset{} + VisitsWithin(w, h, p, |trail|);
  }

  /** Without nil traps and hand-written Reset methods on the way, none is. */
  lemma NoTrapReached(w: World, h: Heap, p: Place)
    requires forall q :: Reaches(Edges(w, h), p, q) ==> !NilTrap(w, h, q) && ShapeAt(w, q) != Delegated
    ensures !ReachesTrap(w, h, p)
  {
    forall n: nat ensures Passable(w, h, multiset{} + VisitsWithin(w, h, p, n)) {
      forall q | q in VisitsWithin(w, h, p, n) ensures !NilTrap(w, h, q) && ShapeAt(w, q) != Delegated {
        VisitsWithinReach(w, h, p, n, q);
      }
    }
  }

  // ---- Depth ----

  // Some one bound serves all the fields.
  lemma {:induction false} CommonBound(w: World, h: Heap, p: Place, fields: seq<Field>) returns (n: nat)
    requires FieldsBounded(w, h, p, fields)
    ensures FieldsShallow(w, h, p, fields, n)
  {
    n := 0;
    if fields != [] {
      assert fields[0] in fields;
      var m: nat := 0;
      if fields[0].name != "_" { m :| Shallow(Edges(w, h), Sub(p, fields[0].name), m); }
      n := CommonBound(w, h, p, fields[1..]);
      n := if n < m then m else n;
    }
  }
}
