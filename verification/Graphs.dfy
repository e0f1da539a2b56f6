/** Trails in a directed graph, and why a finite graph without cycles has only short ones. */
module Graphs {

  type Graph<!T> = (T, T) -> bool

  // The nodes of `trail` lead from p to q, one edge at a time.
  ghost predicate Leads<T>(edge: Graph<T>, p: T, trail: seq<T>, q: T)
    decreases trail
  {
    if trail == [] then p == q
    else edge(p, trail[0]) && Leads(edge, trail[0], trail[1..], q)
  }

  ghost predicate Reaches<T(!new)>(edge: Graph<T>, p: T, q: T) {
    exists trail :: Leads(edge, p, trail, q)
  }

  // No trail from p has more than n edges.
  ghost predicate Shallow<T(!new)>(edge: Graph<T>, p: T, n: int) {
    forall trail, q :: Leads(edge, p, trail, q) ==> |trail| <= n
  }

  // Somewhere below p a trail comes back to where it started.
  ghost predicate ReachesCycle<T(!new)>(edge: Graph<T>, p: T) {
    exists c, n :: Reaches(edge, p, c) && edge(c, n) && Reaches(edge, n, c)
  }

  lemma ReachesSelf<T(!new)>(edge: Graph<T>, p: T)
    ensures Reaches(edge, p, p)
  {
    assert Leads(edge, p, [], p);
  }

  lemma ReachesFirst<T(!new)>(edge: Graph<T>, p: T, q: T)
    ensures Reaches(edge, p, q) <==> p == q || exists n :: edge(p, n) && Reaches(edge, n, q)
  {
    if Reaches(edge, p, q) && p != q {
      var trail :| Leads(edge, p, trail, q);
      assert Leads(edge, trail[0], trail[1..], q);
    }
    if p == q { ReachesSelf(edge, p); }
    if n :| edge(p, n) && Reaches(edge, n, q) {
      var rest :| Leads(edge, n, rest, q);
      assert ([n] + rest)[1..] == rest;
      assert Leads(edge, p, [n] + rest, q);
    }
  }

  lemma {:induction false} LeadsOnward<T(!new)>(edge: Graph<T>, p: T, trail: seq<T>, q: T, r: T)
    requires Leads(edge, p, trail, q) && edge(q, r)
    ensures Leads(edge, p, trail + [r], r)
    decreases trail
  {
    if trail == [] {
      assert Leads(edge, r, [], r);
      assert ([] + [r])[1..] == [];
    } else {
      LeadsOnward(edge, trail[0], trail[1..], q, r);
      assert (trail + [r])[1..] == trail[1..] + [r];
    }
  }

  lemma ShallowStep<T(!new)>(edge: Graph<T>, p: T, q: T, n: int)
    requires Shallow(edge, p, n) && edge(p, q)
    ensures Shallow(edge, q, n - 1)
  {
    forall trail, r | Leads(edge, q, trail, r) ensures |trail| <= n - 1 {
      assert ([q] + trail)[1..] == trail;
      assert Leads(edge, p, [q] + trail, r);
    }
  }

  lemma ShallowFrom<T(!new)>(edge: Graph<T>, p: T, n: int)
    requires n >= 0 && forall q :: edge(p, q) ==> Shallow(edge, q, n - 1)
    ensures Shallow(edge, p, n)
  {
    forall trail, q | Leads(edge, p, trail, q) ensures |trail| <= n {
      if trail != [] { assert Leads(edge, trail[0], trail[1..], q); }
    }
  }

  lemma ShallowNat<T(!new)>(edge: Graph<T>, p: T, n: int)
    requires Shallow(edge, p, n)
    ensures n >= 0
  {
    assert Leads(edge, p, [], p);
  }

  lemma {:induction false} ShallowAlong<T(!new)>(edge: Graph<T>, p: T, trail: seq<T>, q: T, n: int)
    requires Shallow(edge, p, n) && Leads(edge, p, trail, q)
    ensures Shallow(edge, q, n - |trail|)
    decreases trail
  {
    if trail != [] {
      ShallowStep(edge, p, trail[0], n);
      ShallowAlong(edge, trail[0], trail[1..], q, n - 1);
    }
  }

  lemma {:induction false} CycleIsDeep<T(!new)>(edge: Graph<T>, c: T, next: T, n: int)
    requires edge(c, next) && Reaches(edge, next, c)
    ensures !Shallow(edge, c, n)
    decreases n
  {
    if Shallow(edge, c, n) {
      ShallowNat(edge, c, n);
      ShallowStep(edge, c, next, n);
      var trail :| Leads(edge, next, trail, c);
      ShallowAlong(edge, next, trail, c, n - 1);
      CycleIsDeep(edge, c, next, n - 1 - |trail|);
    }
  }

  /** Where a cycle is reached, trails have no bound. */
  lemma CycleUnbounded<T(!new)>(edge: Graph<T>, p: T, n: int)
    requires ReachesCycle(edge, p)
    ensures !Shallow(edge, p, n)
  {
    var c, next :| Reaches(edge, p, c) && edge(c, next) && Reaches(edge, next, c);
    if Shallow(edge, p, n) {
      var trail :| Leads(edge, p, trail, c);
      ShallowAlong(edge, p, trail, c, n);
      CycleIsDeep(edge, c, next, n - |trail|);
    }
  }

  // A list without repetitions is no longer than a set that holds its elements.
  lemma {:induction false} DistinctBounded<T>(s: seq<T>, u: set<T>)
    requires forall i :: 0 <= i < |s| ==> s[i] in u
    requires forall i, j :: 0 <= i < j < |s| ==> s[i] != s[j]
    ensures |s| <= |u|
  {
    if s != [] { DistinctBounded(s[1..], u - {s[0]}); }
  }

  lemma {:induction false} LeadsSplit<T(!new)>(edge: Graph<T>, p: T, trail: seq<T>, q: T, i: nat)
    requires Leads(edge, p, trail, q) && i < |trail|
    ensures Leads(edge, p, trail[..i + 1], trail[i]) && Leads(edge, trail[i], trail[i + 1..], q)
    decreases i
  {
    if i == 0 {
      assert trail[..1] == [trail[0]];
      assert Leads(edge, trail[0], [], trail[0]);
      assert trail[..1][1..] == [];
    } else {
      LeadsSplit(edge, trail[0], trail[1..], q, i - 1);
      assert trail[..i + 1][1..] == trail[1..][..i];
      assert trail[1..][i..] == trail[i + 1..];
    }
  }

  lemma {:induction false} LoopBack<T(!new)>(edge: Graph<T>, p: T, c: T, trail: seq<T>, q: T, i: nat)
    requires Reaches(edge, p, c) && Leads(edge, c, trail, q) && i < |trail| && trail[i] == c
    ensures ReachesCycle(edge, p)
  {
    LeadsSplit(edge, c, trail, q, i);
    var loop := trail[..i + 1];
    assert Leads(edge, loop[0], loop[1..], c);
  }

  lemma {:induction false} RepeatIsCycle<T(!new)>(edge: Graph<T>, p: T, trail: seq<T>, q: T, i: nat, j: nat)
    requires Leads(edge, p, trail, q)
    requires i < j < |trail| && trail[i] == trail[j]
    ensures ReachesCycle(edge, p)
  {
    LeadsSplit(edge, p, trail, q, i);
    LoopBack(edge, p, trail[i], trail[i + 1..], q, j - i - 1);
  }

  /** Where no cycle is reached, no trail is longer than there are nodes. */
  lemma BoundedWithoutCycle<T(!new)>(edge: Graph<T>, p: T, nodes: set<T>)
    requires !ReachesCycle(edge, p)
    requires forall q :: Reaches(edge, p, q) ==> q in nodes
    ensures Shallow(edge, p, |nodes|)
  {
    forall trail, q | Leads(edge, p, trail, q) ensures |trail| <= |nodes| {
      forall i | 0 <= i < |trail| ensures trail[i] in nodes {
        LeadsSplit(edge, p, trail, q, i);
      }
      forall i, j | 0 <= i < j < |trail| ensures trail[i] != trail[j] {
        if trail[i] == trail[j] { RepeatIsCycle(edge, p, trail, q, i, j); }
      }
      DistinctBounded(trail, nodes);
    }
  }

  /** A set that holds p and with every node its successors holds all that is reached. */
  lemma {:induction false} ReachesWithin<T(!new)>(edge: Graph<T>, p: T, trail: seq<T>, q: T, nodes: set<T>)
    requires p in nodes && forall a, b :: a in nodes && edge(a, b) ==> b in nodes
    requires Leads(edge, p, trail, q)
    ensures q in nodes
    decreases trail
  {
    if trail != [] { ReachesWithin(edge, trail[0], trail[1..], q, nodes); }
  }
}
