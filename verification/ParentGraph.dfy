/** Finite graphs in which every node has at most one parent: what counting heads and bases says
    about their shape. */
module ParentGraph {
  import opened Prelude

  /** `parent` is defined on the nodes that have one; the others are bases. */
  datatype Graph<T(!new,==)> = Graph(nodes: set<T>, parent: map<T, T>) {
    ghost predicate Valid() {
      parent.Keys <= nodes
    }

    /** Every parent is a node. */
    ghost predicate Resolved() {
      parent.Values <= nodes
    }

    function Bases(): set<T> {
      nodes - parent.Keys
    }

    /** Nobody's parent. */
    function Heads(): set<T> {
      nodes - parent.Values
    }

    /** `p` follows parents. */
    ghost predicate Climbs(p: seq<T>) {
      && |p| > 0 && (forall i :: 0 <= i < |p| ==> p[i] in nodes)
      && (forall i :: 0 <= i < |p| - 1 ==> p[i] in parent && parent[p[i]] == p[i + 1])
    }

    ghost predicate Cycle(q: seq<T>) {
      && Climbs(q) && Distinct(q)
      && q[|q| - 1] in parent && parent[q[|q| - 1]] == q[0]
    }

    ghost predicate Acyclic() {
      forall q :: !Cycle(q)
    }

    ghost predicate OnCycle(x: T) {
      exists q :: Cycle(q) && q[0] == x
    }

    /** A path from a head up to a base. */
    ghost predicate Trunk(p: seq<T>) {
      Climbs(p) && Distinct(p) && p[0] in Heads() && p[|p| - 1] in Bases()
    }

    ghost predicate Injective() {
      forall x, y :: x in parent && y in parent && parent[x] == parent[y] ==> x == y
    }
  }

  // -------------------------------------------------------------------------------------------
  // Counting
  // -------------------------------------------------------------------------------------------

  lemma ValuesWithout<T>(m: map<T, T>, x: T)
    requires x in m
    ensures m.Values == (m - {x}).Values + {m[x]}
    ensures (m - {x}).Keys == m.Keys - {x}
  {
    forall v | v in m.Values
      ensures v in (m - {x}).Values + {m[x]}
    {
      var y :| y in m && m[y] == v;
      if y != x {
        assert y in m - {x} && (m - {x})[y] == v;
      }
    }
    forall v | v in (m - {x}).Values
      ensures v in m.Values
    {
      var y :| y in m - {x} && (m - {x})[y] == v;
      assert y in m && m[y] == v;
    }
  }

  /** A finite map has at most as many values as keys, and as many only if no value repeats. */
  lemma {:induction false} ValuesAtMostKeys<T>(m: map<T, T>)
    ensures |m.Values| <= |m.Keys|
    ensures |m.Values| == |m.Keys| ==>
      forall x, y :: x in m && y in m && m[x] == m[y] ==> x == y
    decreases |m.Keys|
  {
    if m.Keys != {} {
      var x :| x in m.Keys;
      ValuesWithout(m, x);
      var less := m - {x};
      assert |less.Keys| == |m.Keys| - 1;
      ValuesAtMostKeys(less);
      if |m.Values| == |m.Keys| {
        NoRepeat(m, x);
      }
    } else {
      assert m.Values == {};
    }
  }

  lemma NoRepeat<T>(m: map<T, T>, x: T)
    requires x in m && |m.Values| == |m.Keys|
    requires var less := m - {x};
      |less.Values| <= |less.Keys| &&
      (|less.Values| == |less.Keys| ==>
         forall y, z :: y in less && z in less && less[y] == less[z] ==> y == z)
    ensures forall y, z :: y in m && z in m && m[y] == m[z] ==> y == z
  {
    var less := m - {x};
    ValuesWithout(m, x);
    assert |less.Keys| == |m.Keys| - 1;
    assert m[x] in less.Values ==> m.Values == less.Values;
    assert m[x] !in less.Values;
    assert |less.Values| == |m.Values| - 1;
    forall y | y in m && y != x
      ensures m[y] == less[y] && m[y] in less.Values
    {
    }
  }

  /** One head and a base: then exactly one base, and no node is the parent of two. */
  lemma OneHeadOneBase<T(!new)>(g: Graph<T>)
    requires g.Valid() && g.Resolved() && |g.Heads()| == 1 && g.Bases() != {}
    ensures |g.Bases()| == 1 && g.Injective()
  {
    assert g.nodes == g.Heads() + g.parent.Values;
    assert |g.nodes| == 1 + |g.parent.Values|;
    assert g.nodes == g.Bases() + g.parent.Keys;
    assert |g.nodes| == |g.Bases()| + |g.parent.Keys|;
    ValuesAtMostKeys(g.parent);
    assert |g.Bases()| > 0;
  }

  lemma NoHeadAllParents<T(!new)>(g: Graph<T>)
    requires g.Valid() && g.Heads() == {}
    ensures g.nodes <= g.parent.Values
  {
    forall x | x in g.nodes
      ensures x in g.parent.Values
    {
      assert x !in g.Heads();
    }
  }

  lemma SameSizes<T>(nodes: set<T>, keys: set<T>, values: set<T>)
    requires nodes <= values && keys <= nodes && |values| <= |keys|
    ensures nodes == keys == values
  {
    SubsetSize(nodes, values);
    SubsetSize(keys, nodes);
  }

  lemma ValueCount<T>(m: map<T, T>)
    ensures |m.Values| <= |m.Keys|
  {
    ValuesAtMostKeys(m);
  }

  /** Without a head the nodes, those with a parent and the parents are the same. */
  lemma NoHeadAllSame<T(!new)>(g: Graph<T>)
    requires g.Valid() && g.Heads() == {}
    ensures g.nodes == g.parent.Keys == g.parent.Values
  {
    NoHeadAllParents(g);
    ValueCount(g.parent);
    SameSizes(g.nodes, g.parent.Keys, g.parent.Values);
  }

  lemma InjectiveBySize<T(!new)>(g: Graph<T>)
    requires |g.parent.Values| == |g.parent.Keys|
    ensures g.Injective()
  {
    ValuesAtMostKeys(g.parent);
  }

  /** No head: then no base either, and no node is the parent of two. */
  lemma NoHeadNoBase<T(!new)>(g: Graph<T>)
    requires g.Valid() && g.Heads() == {}
    ensures g.Bases() == {} && g.Injective() && g.Resolved()
  {
    NoHeadAllSame(g);
    InjectiveBySize(g);
  }

  // -------------------------------------------------------------------------------------------
  // Following parents
  // -------------------------------------------------------------------------------------------

  lemma {:induction false} DistinctSize<T>(p: seq<T>, nodes: set<T>)
    requires Distinct(p) && forall i :: 0 <= i < |p| ==> p[i] in nodes
    ensures |p| <= |nodes|
  {
    if p != [] {
      var n := |p| - 1;
      assert p[..n] + [p[n]] == p;
      DistinctSnoc(p[..n], p[n]);
      DistinctSize(p[..n], nodes - {p[n]});
    }
  }

  /** A distinct climb in an injective graph can go on only to a new node or back to its start. */
  lemma NextIsNewOrStart<T(!new)>(g: Graph<T>, p: seq<T>)
    requires g.Valid() && g.Injective() && g.Climbs(p) && Distinct(p)
    requires p[|p| - 1] in g.parent
    ensures forall i :: 0 < i < |p| ==> p[i] != g.parent[p[|p| - 1]]
  {
    forall i | 0 < i < |p|
      ensures p[i] != g.parent[p[|p| - 1]]
    {
      assert g.parent[p[i - 1]] == p[i] && p[i - 1] != p[|p| - 1];
    }
  }

  lemma ClimbOn<T(!new)>(g: Graph<T>, p: seq<T>)
    requires g.Valid() && g.Resolved() && g.Injective() && g.Climbs(p) && Distinct(p)
    requires p[|p| - 1] in g.parent && g.parent[p[|p| - 1]] != p[0]
    ensures g.Climbs(p + [g.parent[p[|p| - 1]]]) && Distinct(p + [g.parent[p[|p| - 1]]])
  {
    var next := g.parent[p[|p| - 1]];
    NextIsNewOrStart(g, p);
    assert next in g.parent.Values;
    DistinctSnoc(p, next);
  }

  /** From a head the climb ends at a base. */
  lemma {:induction false} ClimbToBase<T(!new)>(g: Graph<T>, p: seq<T>) returns (trunk: seq<T>)
    requires g.Valid() && g.Resolved() && g.Injective() && g.Climbs(p) && Distinct(p)
    requires p[0] in g.Heads()
    ensures g.Trunk(trunk) && trunk[0] == p[0]
    decreases |g.nodes| - |p|
  {
    DistinctSize(p, g.nodes);
    var last := p[|p| - 1];
    if last in g.parent {
      assert g.parent[last] in g.parent.Values;
      ClimbOn(g, p);
      DistinctSize(p + [g.parent[last]], g.nodes);
      trunk := ClimbToBase(g, p + [g.parent[last]]);
    } else {
      trunk := p;
    }
  }

  /** Inside a set of nodes that parents never leave, the climb returns to where it started. */
  lemma {:induction false} ClimbRound<T(!new)>(g: Graph<T>, inside: set<T>, p: seq<T>) returns (q: seq<T>)
    requires g.Valid() && g.Resolved() && g.Injective() && g.Climbs(p) && Distinct(p)
    requires forall x :: x in inside ==> x in g.parent && g.parent[x] in inside
    requires p[|p| - 1] in inside
    ensures g.Cycle(q) && q[0] == p[0]
    decreases |g.nodes| - |p|
  {
    var next := g.parent[p[|p| - 1]];
    if next == p[0] {
      q := p;
    } else {
      ClimbOn(g, p);
      DistinctSize(p + [next], g.nodes);
      q := ClimbRound(g, inside, p + [next]);
    }
  }

  lemma AllOnCycles<T(!new)>(g: Graph<T>, inside: set<T>)
    requires g.Valid() && g.Resolved() && g.Injective() && inside <= g.nodes
    requires forall x :: x in inside ==> x in g.parent && g.parent[x] in inside
    ensures forall x :: x in inside ==> g.OnCycle(x)
  {
    forall x | x in inside
      ensures g.OnCycle(x)
    {
      var q := ClimbRound(g, inside, [x]);
    }
  }

  // -------------------------------------------------------------------------------------------
  // The shape theorems
  // -------------------------------------------------------------------------------------------

  /** One head and a base: a trunk from the head to the base, and every other node on a cycle. */
  lemma TrunkAndCycles<T(!new)>(g: Graph<T>) returns (trunk: seq<T>)
    requires g.Valid() && g.Resolved() && |g.Heads()| == 1 && g.Bases() != {}
    ensures |g.Bases()| == 1 && g.Injective() && g.Trunk(trunk)
    ensures forall x :: x in g.nodes && x !in trunk ==> g.OnCycle(x)
  {
    OneHeadOneBase(g);
    var head :| head in g.Heads();
    trunk := ClimbToBase(g, [head]);
    var rest := set x | x in g.nodes && x !in trunk;
    forall x | x in rest
      ensures x in g.parent && g.parent[x] in rest
    {
      OffTrunk(g, trunk, x);
    }
    AllOnCycles(g, rest);
  }

  lemma OneElement<T>(s: set<T>, a: T, b: T)
    requires |s| == 1 && a in s && b in s
    ensures a == b
  {
    if a != b {
      SubsetSize({a, b}, s);
    }
  }

  lemma OffTrunk<T(!new)>(g: Graph<T>, trunk: seq<T>, x: T)
    requires g.Valid() && g.Resolved() && g.Injective() && |g.Bases()| == 1 && g.Trunk(trunk)
    requires x in g.nodes && x !in trunk
    ensures x in g.parent && g.parent[x] in g.nodes && g.parent[x] !in trunk
  {
    if x !in g.parent {
      OneElement(g.Bases(), x, trunk[|trunk| - 1]);
    }
    assert g.parent[x] in g.parent.Values;
    forall i | 0 <= i < |trunk|
      ensures trunk[i] != g.parent[x]
    {
      if i > 0 {
        assert g.parent[trunk[i - 1]] == trunk[i] && trunk[i - 1] in trunk;
      }
    }
  }

  /** A node of the trunk is on no cycle: a cycle would have to come back through the head. */
  lemma {:induction false} TrunkOffCycles<T(!new)>(g: Graph<T>, trunk: seq<T>, q: seq<T>, i: nat)
    requires g.Valid() && g.Injective() && g.Trunk(trunk) && g.Cycle(q) && i < |trunk|
    ensures trunk[i] !in q
  {
    if i > 0 {
      TrunkOffCycles(g, trunk, q, i - 1);
    }
    forall j | 0 <= j < |q|
      ensures q[j] != trunk[i]
    {
      var before := if j == 0 then q[|q| - 1] else q[j - 1];
      assert before in q && before in g.parent && g.parent[before] == q[j];
      assert q[j] in g.parent.Values;
      if i > 0 {
        assert g.parent[trunk[i - 1]] == trunk[i];
      }
    }
  }

  /** Under the same hypotheses the trunk covers every node exactly when the graph is acyclic. */
  lemma CoveredIffAcyclic<T(!new)>(g: Graph<T>, trunk: seq<T>)
    requires g.Valid() && g.Resolved() && |g.Heads()| == 1 && g.Trunk(trunk)
    ensures (forall x :: x in g.nodes ==> x in trunk) <==> g.Acyclic()
  {
    var trunk' := TrunkAndCycles(g);
    OneElement(g.Heads(), trunk[0], trunk'[0]);
    if forall x :: x in g.nodes ==> x in trunk {
      forall q
        ensures !g.Cycle(q)
      {
        if g.Cycle(q) {
          assert q[0] in trunk;
          var i: nat :| i < |trunk| && trunk[i] == q[0];
          TrunkOffCycles(g, trunk, q, i);
          assert false;
        }
      }
    } else {
      SameTrunk(g, trunk, trunk');
      var x :| x in g.nodes && x !in trunk;
      assert g.OnCycle(x);
    }
  }

  lemma {:induction false} SameClimb<T(!new)>(g: Graph<T>, p: seq<T>, q: seq<T>, n: nat)
    requires g.Climbs(p) && g.Climbs(q) && p[0] == q[0] && n < |p| && n < |q|
    ensures p[n] == q[n]
  {
    if n > 0 {
      SameClimb(g, p, q, n - 1);
    }
  }

  lemma SameTrunk<T(!new)>(g: Graph<T>, p: seq<T>, q: seq<T>)
    requires g.Trunk(p) && g.Trunk(q) && p[0] == q[0]
    ensures p == q
  {
    var n := if |p| < |q| then |p| - 1 else |q| - 1;
    SameClimb(g, p, q, n);
    forall i | 0 <= i <= n
      ensures p[i] == q[i]
    {
      SameClimb(g, p, q, i);
    }
  }

  /** No head means that following parents from any node comes back to it. */
  lemma NoHeadAllCycles<T(!new)>(g: Graph<T>)
    requires g.Valid() && g.Heads() == {}
    ensures forall x :: x in g.nodes ==> g.OnCycle(x)
  {
    NoHeadNoBase(g);
    forall x | x in g.nodes
      ensures x in g.parent && g.parent[x] in g.nodes
    {
      assert x !in g.Bases();
      assert g.parent[x] in g.parent.Values;
    }
    AllOnCycles(g, g.nodes);
  }

  /** So a nonempty acyclic graph has a head. */
  lemma AcyclicHasHead<T(!new)>(g: Graph<T>)
    requires g.Valid() && g.nodes != {} && g.Acyclic()
    ensures g.Heads() != {}
  {
    var x :| x in g.nodes;
    assert !g.OnCycle(x);
    if g.Heads() == {} {
      NoHeadAllCycles(g);
    }
  }
}
