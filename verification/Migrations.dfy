/** The migration-graph check: unique revision ids and a single head, both decided by set
    arithmetic, and what passing them means for the chain that has to be applied. */
module Migrations {
  import opened Prelude
  import opened ParentGraph

  datatype Migration = Migration(file: string, revision: string, down: Option<string>)

  ghost predicate UniqueRevisions(ms: seq<Migration>) {
    forall i, j :: 0 <= i < j < |ms| ==> ms[i].revision != ms[j].revision
  }

  /** The migrations that declare `revision`, in file order. */
  function Declaring(ms: seq<Migration>, revision: string): (group: seq<Migration>)
    ensures forall m :: m in group <==> m in ms && m.revision == revision
  {
    if ms == [] then []
    else
      var n := |ms| - 1;
      Declaring(ms[..n], revision) + if ms[n].revision == revision then [ms[n]] else []
  }

  lemma {:induction false} TwoDeclare(ms: seq<Migration>, i: nat, j: nat)
    requires i < j < |ms| && ms[i].revision == ms[j].revision
    ensures |Declaring(ms, ms[i].revision)| > 1
  {
    var n := |ms| - 1;
    if j < n {
      TwoDeclare(ms[..n], i, j);
    } else {
      assert ms[..n][i] in Declaring(ms[..n], ms[i].revision);
    }
  }

  lemma {:induction false} NoneDeclares(ms: seq<Migration>, revision: string)
    requires forall m :: m in ms ==> m.revision != revision
    ensures Declaring(ms, revision) == []
  {
    if ms != [] {
      assert ms[|ms| - 1] in ms;
      NoneDeclares(ms[..|ms| - 1], revision);
    }
  }

  lemma UniqueFront(ms: seq<Migration>)
    requires ms != [] && UniqueRevisions(ms)
    ensures UniqueRevisions(ms[..|ms| - 1])
    ensures forall m :: m in ms[..|ms| - 1] ==> m.revision != ms[|ms| - 1].revision
  {
  }

  lemma {:induction false} OneDeclares(ms: seq<Migration>, revision: string)
    requires UniqueRevisions(ms)
    ensures |Declaring(ms, revision)| <= 1
  {
    if ms != [] {
      var n := |ms| - 1;
      UniqueFront(ms);
      OneDeclares(ms[..n], revision);
      if ms[n].revision == revision {
        NoneDeclares(ms[..n], revision);
      }
    }
  }

  /** Every declared revision is mapped to the files that declare it. */
  ghost predicate Grouped(ms: seq<Migration>, byRevision: map<string, seq<Migration>>) {
    && (forall r :: r in byRevision <==> Declaring(ms, r) != [])
    && (forall r :: r in byRevision ==> byRevision[r] == Declaring(ms, r))
  }

  /** Group the files by revision, then report the groups with more than one. */
  method CheckUniqueRevisions(ms: seq<Migration>) returns (failures: map<string, seq<Migration>>)
    ensures forall r :: r in failures <==> |Declaring(ms, r)| > 1
    ensures forall r :: r in failures ==> failures[r] == Declaring(ms, r)
    ensures failures == map[] <==> UniqueRevisions(ms)
  {
    var byRevision: map<string, seq<Migration>> := map[];
    assert ms[..0] == [];
    for n := 0 to |ms|
      invariant Grouped(ms[..n], byRevision)
    {
      assert ms[..n + 1][..n] == ms[..n];
      var m := ms[n];
      var group := if m.revision in byRevision then byRevision[m.revision] else [];
      byRevision := byRevision[m.revision := group + [m]];
      assert Grouped(ms[..n + 1], byRevision);
    }
    assert ms[..|ms|] == ms;
    failures := map r | r in byRevision && |byRevision[r]| > 1 :: byRevision[r];
    DuplicatesIff(ms);
  }

  lemma DuplicatesIff(ms: seq<Migration>)
    ensures UniqueRevisions(ms) <==> forall r :: |Declaring(ms, r)| <= 1
  {
    if UniqueRevisions(ms) {
      forall r
        ensures |Declaring(ms, r)| <= 1
      {
        OneDeclares(ms, r);
      }
    }
    if !UniqueRevisions(ms) {
      var i, j :| 0 <= i < j < |ms| && ms[i].revision == ms[j].revision;
      TwoDeclare(ms, i, j);
    }
  }

  function DownRevisions(ms: seq<Migration>): set<string> {
    set m | m in ms && m.down.Some? :: m.down.value
  }

  function Outside(ms: seq<Migration>, downs: set<string>): seq<Migration> {
    if ms == [] then []
    else
      var n := |ms| - 1;
      Outside(ms[..n], downs) + if ms[n].revision !in downs then [ms[n]] else []
  }

  function FindHeads(ms: seq<Migration>): seq<Migration> {
    Outside(ms, DownRevisions(ms))
  }

  datatype HeadCheck = NoHead | ManyHeads(heads: seq<Migration>) | OneHead

  function CheckSingleHead(ms: seq<Migration>): HeadCheck {
    var heads := FindHeads(ms);
    if |heads| == 0 then NoHead else if |heads| > 1 then ManyHeads(heads) else OneHead
  }

  /** Check A passes. */
  ghost predicate Passes(ms: seq<Migration>) {
    UniqueRevisions(ms) && CheckSingleHead(ms).OneHead?
  }

  lemma {:induction false} OutsideIs(ms: seq<Migration>, downs: set<string>, m: Migration)
    ensures m in Outside(ms, downs) <==> m in ms && m.revision !in downs
  {
    if ms != [] {
      var n := |ms| - 1;
      OutsideIs(ms[..n], downs, m);
      assert m in ms <==> m in ms[..n] || m == ms[n];
    }
  }

  lemma DownIff(ms: seq<Migration>, r: string)
    ensures r in DownRevisions(ms) <==> exists m :: m in ms && m.down == Some(r)
  {
  }

  /** A file is a head exactly when no file revises it. */
  lemma HeadIff(ms: seq<Migration>, m: Migration)
    ensures m in FindHeads(ms) <==> m in ms && !exists m' :: m' in ms && m'.down == Some(m.revision)
  {
    OutsideIs(ms, DownRevisions(ms), m);
    DownIff(ms, m.revision);
  }

  /** The verdict is by how many heads there are, and several are all reported. */
  lemma SingleHeadIs(ms: seq<Migration>)
    ensures CheckSingleHead(ms) ==
            if |FindHeads(ms)| == 0 then NoHead else if |FindHeads(ms)| == 1 then OneHead
            else ManyHeads(FindHeads(ms))
    ensures CheckSingleHead(ms).NoHead? <==> forall m :: m !in FindHeads(ms)
  {
    if FindHeads(ms) != [] {
      assert FindHeads(ms)[0] in FindHeads(ms);
    }
  }

  /** Heads are reported in file order. */
  lemma HeadsInOrder(ms: seq<Migration>, m: Migration, downs: set<string>)
    ensures Outside([], downs) == []
    ensures Outside(ms + [m], downs) == Outside(ms, downs) + if m.revision in downs then [] else [m]
  {
    assert (ms + [m])[..|ms|] == ms;
  }

  /** The files that declare a revision, in file order. */
  lemma DeclaringIs(ms: seq<Migration>, m: Migration, revision: string)
    ensures Declaring([], revision) == []
    ensures Declaring(ms + [m], revision) == Declaring(ms, revision) + if m.revision == revision then [m] else []
  {
    assert (ms + [m])[..|ms|] == ms;
  }

  // -------------------------------------------------------------------------------------------
  // The graph behind the files
  // -------------------------------------------------------------------------------------------

  function Revisions(ms: seq<Migration>): set<string> {
    if ms == [] then {} else Revisions(ms[..|ms| - 1]) + {ms[|ms| - 1].revision}
  }

  lemma {:induction false} RevisionIn(ms: seq<Migration>, m: Migration)
    requires m in ms
    ensures m.revision in Revisions(ms)
  {
    var n := |ms| - 1;
    if m != ms[n] {
      assert m in ms[..n];
      RevisionIn(ms[..n], m);
    }
  }

  lemma {:induction false} RevisionFrom(ms: seq<Migration>, r: string) returns (m: Migration)
    requires r in Revisions(ms)
    ensures m in ms && m.revision == r
  {
    var n := |ms| - 1;
    if r == ms[n].revision {
      m := ms[n];
    } else {
      m := RevisionFrom(ms[..n], r);
    }
  }

  lemma {:induction false} RevisionsMean(ms: seq<Migration>)
    ensures forall m :: m in ms ==> m.revision in Revisions(ms)
    ensures forall r :: r in Revisions(ms) ==> exists m :: m in ms && m.revision == r
  {
    forall m | m in ms
      ensures m.revision in Revisions(ms)
    {
      RevisionIn(ms, m);
    }
    forall r | r in Revisions(ms)
      ensures exists m :: m in ms && m.revision == r
    {
      var m := RevisionFrom(ms, r);
    }
  }

  function Parents(ms: seq<Migration>): map<string, string> {
    if ms == [] then map[]
    else
      var m := ms[|ms| - 1];
      var rest := Parents(ms[..|ms| - 1]);
      if m.down.Some? then rest[m.revision := m.down.value] else rest
  }

  function GraphOf(ms: seq<Migration>): Graph<string> {
    Graph(Revisions(ms), Parents(ms))
  }

  lemma {:induction false} ParentsAre(ms: seq<Migration>)
    requires UniqueRevisions(ms)
    ensures forall m :: m in ms ==>
      (m.revision in Parents(ms) <==> m.down.Some?) &&
      (m.down.Some? ==> Parents(ms)[m.revision] == m.down.value)
    ensures Parents(ms).Keys <= Revisions(ms)
  {
    if ms != [] {
      var n := |ms| - 1;
      UniqueFront(ms);
      ParentsAre(ms[..n]);
      FreshRevision(ms);
      assert ms == ms[..n] + [ms[n]];
    }
  }

  lemma FreshRevision(ms: seq<Migration>)
    requires ms != [] && UniqueRevisions(ms)
    ensures ms[|ms| - 1].revision !in Revisions(ms[..|ms| - 1])
  {
    UniqueFront(ms);
    RevisionsMean(ms[..|ms| - 1]);
  }

  lemma {:induction false} OutsideRevisions(ms: seq<Migration>, downs: set<string>)
    ensures Revisions(Outside(ms, downs)) == Revisions(ms) - downs
  {
    if ms != [] {
      var n := |ms| - 1;
      OutsideRevisions(ms[..n], downs);
      RevisionsSnoc(Outside(ms[..n], downs), ms[n]);
    }
  }

  lemma RevisionsSnoc(front: seq<Migration>, m: Migration)
    ensures Revisions(front + [m]) == Revisions(front) + {m.revision}
    ensures Revisions(front + []) == Revisions(front)
  {
    assert (front + [m])[..|front|] == front;
    assert front + [] == front;
  }

  lemma {:induction false} OutsideSize(ms: seq<Migration>, downs: set<string>)
    requires UniqueRevisions(ms)
    ensures |Revisions(Outside(ms, downs))| == |Outside(ms, downs)|
  {
    if ms != [] {
      var n := |ms| - 1;
      UniqueFront(ms);
      OutsideSize(ms[..n], downs);
      OutsideRevisions(ms[..n], downs);
      FreshRevision(ms);
      RevisionsSnoc(Outside(ms[..n], downs), ms[n]);
    }
  }

  lemma ValuesAreDowns(ms: seq<Migration>)
    requires UniqueRevisions(ms)
    ensures Parents(ms).Values == DownRevisions(ms)
  {
    ParentsAre(ms);
    forall v | v in Parents(ms).Values
      ensures v in DownRevisions(ms)
    {
      var r :| r in Parents(ms) && Parents(ms)[r] == v;
      var m := RevisionFrom(ms, r);
      assert m in ms && m.down == Some(v);
    }
    forall v | v in DownRevisions(ms)
      ensures v in Parents(ms).Values
    {
      var m :| m in ms && m.down == Some(v);
      assert Parents(ms)[m.revision] == v;
    }
  }

  /** The graph's nodes, edges and heads in terms of the files. */
  lemma GraphMeans(ms: seq<Migration>)
    requires UniqueRevisions(ms)
    ensures GraphOf(ms).Valid()
    ensures GraphOf(ms).parent.Values == DownRevisions(ms)
    ensures GraphOf(ms).Heads() == Revisions(FindHeads(ms))
    ensures |GraphOf(ms).Heads()| == |FindHeads(ms)|
  {
    ParentsAre(ms);
    ValuesAreDowns(ms);
    OutsideRevisions(ms, DownRevisions(ms));
    OutsideSize(ms, DownRevisions(ms));
  }

  // -------------------------------------------------------------------------------------------
  // What passing means
  // -------------------------------------------------------------------------------------------

  ghost predicate ParentsResolve(ms: seq<Migration>) {
    forall m :: m in ms && m.down.Some? ==> m.down.value in Revisions(ms)
  }

  ghost predicate HasBase(ms: seq<Migration>) {
    exists m :: m in ms && m.down.None?
  }

  lemma BaseAndParents(ms: seq<Migration>)
    requires UniqueRevisions(ms)
    ensures GraphOf(ms).Valid()
    ensures HasBase(ms) <==> GraphOf(ms).Bases() != {}
    ensures ParentsResolve(ms) <==> GraphOf(ms).Resolved()
    ensures |GraphOf(ms).Heads()| == |FindHeads(ms)|
  {
    GraphMeans(ms);
    ParentsAre(ms);
    RevisionsMean(ms);
    if HasBase(ms) {
      var m :| m in ms && m.down.None?;
      assert m.revision in GraphOf(ms).Bases();
    }
    if GraphOf(ms).Bases() != {} {
      var r :| r in GraphOf(ms).Bases();
      var m := RevisionFrom(ms, r);
    }
    forall m | m in ms && m.down.Some?
      ensures m.down.value in DownRevisions(ms)
    {
    }
  }

  /** If Check A passes, every parent resolves and some migration is a base, then one path leads
      from the head to the base, and whatever is not on it lies on cycles. */
  lemma PassingMeans(ms: seq<Migration>) returns (trunk: seq<string>)
    requires Passes(ms) && ParentsResolve(ms) && HasBase(ms)
    ensures GraphOf(ms).Valid() && GraphOf(ms).Trunk(trunk)
    ensures forall m :: m in ms ==> m.revision in trunk || GraphOf(ms).OnCycle(m.revision)
  {
    BaseAndParents(ms);
    trunk := TrunkAndCycles(GraphOf(ms));
    forall m | m in ms
      ensures m.revision in trunk || GraphOf(ms).OnCycle(m.revision)
    {
      RevisionIn(ms, m);
    }
  }

  /** Under the same hypotheses exactly one migration is a base and no revision is revised twice. */
  lemma OneBaseNoBranch(ms: seq<Migration>, m: Migration, m': Migration)
    requires Passes(ms) && ParentsResolve(ms) && HasBase(ms) && m in ms && m' in ms
    requires m.down == m'.down
    ensures m.revision == m'.revision
  {
    BaseAndParents(ms);
    ParentsAre(ms);
    RevisionsMean(ms);
    OneHeadOneBase(GraphOf(ms));
    if m.down.None? {
      OneElement(GraphOf(ms).Bases(), m.revision, m'.revision);
    }
  }

  /** `order` applies the files one after the other, starting from a base. */
  ghost predicate Chain(order: seq<Migration>) {
    && |order| > 0 && order[0].down.None?
    && forall i :: 0 <= i < |order| - 1 ==> order[i + 1].down == Some(order[i].revision)
  }

  ghost predicate Reorders(order: seq<Migration>, ms: seq<Migration>) {
    |order| == |ms| && forall m :: m in order <==> m in ms
  }

  /** The files form one linear history. */
  ghost predicate Linear(ms: seq<Migration>) {
    UniqueRevisions(ms) && exists order :: Chain(order) && Reorders(order, ms)
  }

  // Not linear unless acyclic -----------------------------------------------------------------

  lemma {:induction false} UniqueSize(ms: seq<Migration>)
    requires UniqueRevisions(ms)
    ensures |Revisions(ms)| == |ms|
  {
    if ms != [] {
      UniqueFront(ms);
      UniqueSize(ms[..|ms| - 1]);
      FreshRevision(ms);
    }
  }

  lemma {:induction false} FewRevisions(ms: seq<Migration>)
    ensures |Revisions(ms)| <= |ms|
    ensures |Revisions(ms)| == |ms| ==> UniqueRevisions(ms)
  {
    if ms != [] {
      var n := |ms| - 1;
      FewRevisions(ms[..n]);
      forall i | 0 <= i < n
        ensures ms[i].revision in Revisions(ms[..n]) && ms[..n][i] == ms[i]
      {
        RevisionIn(ms[..n], ms[..n][i]);
      }
      assert ms[n].revision in Revisions(ms[..n]) ==> Revisions(ms) == Revisions(ms[..n]);
    }
  }

  lemma SameRevisions(order: seq<Migration>, ms: seq<Migration>)
    requires forall m :: m in order ==> m in ms
    ensures Revisions(order) <= Revisions(ms)
  {
    RevisionsMean(order);
    RevisionsMean(ms);
  }

  lemma ReorderUnique(order: seq<Migration>, ms: seq<Migration>)
    requires UniqueRevisions(ms) && Reorders(order, ms)
    ensures UniqueRevisions(order) && Revisions(order) == Revisions(ms)
    ensures DownRevisions(order) == DownRevisions(ms)
  {
    SameRevisions(order, ms);
    SameRevisions(ms, order);
    assert Revisions(order) == Revisions(ms);
    UniqueSize(ms);
    FewRevisions(order);
  }

  /** Climbing from position `i` of the chain goes down its positions one by one. */
  lemma {:induction false} ClimbDownChain(ms: seq<Migration>, order: seq<Migration>, q: seq<string>, i: nat, k: nat)
    requires UniqueRevisions(ms) && Reorders(order, ms) && Chain(order)
    requires GraphOf(ms).Climbs(q) && i < |order| && q[0] == order[i].revision && k < |q|
    ensures k <= i && q[k] == order[i - k].revision
  {
    if k > 0 {
      ClimbDownChain(ms, order, q, i, k - 1);
      StepDownChain(ms, order, i - (k - 1));
    }
  }

  lemma StepDownChain(ms: seq<Migration>, order: seq<Migration>, i: nat)
    requires UniqueRevisions(ms) && Reorders(order, ms) && Chain(order) && i < |order|
    ensures order[i].revision in Parents(ms) <==> i > 0
    ensures i > 0 ==> Parents(ms)[order[i].revision] == order[i - 1].revision
  {
    ParentsAre(ms);
    assert order[i] in order;
    if i > 0 {
      assert order[(i - 1) + 1].down == Some(order[i - 1].revision);
    }
  }

  lemma LinearIsAcyclic(ms: seq<Migration>, order: seq<Migration>)
    requires UniqueRevisions(ms) && Reorders(order, ms) && Chain(order)
    ensures GraphOf(ms).Acyclic()
  {
    forall q
      ensures !GraphOf(ms).Cycle(q)
    {
      if GraphOf(ms).Cycle(q) {
        CycleInChain(ms, order, q);
      }
    }
  }

  lemma CycleInChain(ms: seq<Migration>, order: seq<Migration>, q: seq<string>)
    requires UniqueRevisions(ms) && Reorders(order, ms) && Chain(order)
    ensures !GraphOf(ms).Cycle(q)
  {
    if GraphOf(ms).Climbs(q) {
      var m := RevisionFrom(ms, q[0]);
      assert m in order;
      var i: nat :| i < |order| && order[i] == m;
      var n := |q| - 1;
      ClimbDownChain(ms, order, q, i, n);
      StepDownChain(ms, order, i - n);
      ReorderUnique(order, ms);
      assert i - n > 0 ==> order[i - n - 1].revision != order[i].revision;
    }
  }

  /** The parents of a chain are all its revisions but the last. */
  lemma ChainParents(order: seq<Migration>)
    requires Chain(order)
    ensures DownRevisions(order) == Revisions(order[..|order| - 1])
  {
    var front := order[..|order| - 1];
    RevisionsMean(front);
    forall r | r in DownRevisions(order)
      ensures r in Revisions(front)
    {
      var m :| m in order && m.down == Some(r);
      var i: nat :| i < |order| && order[i] == m;
      assert order[(i - 1) + 1].down == Some(order[i - 1].revision);
      assert front[i - 1] in front;
    }
    forall r | r in Revisions(front)
      ensures r in DownRevisions(order)
    {
      var m := RevisionFrom(front, r);
      var i: nat :| i < |front| && front[i] == m;
      assert order[i + 1] in order && order[i + 1].down == Some(r);
    }
  }

  lemma LinearOneHead(ms: seq<Migration>, order: seq<Migration>)
    requires UniqueRevisions(ms) && Reorders(order, ms) && Chain(order)
    ensures |FindHeads(ms)| == 1
  {
    var front, last := Revisions(order[..|order| - 1]), order[|order| - 1].revision;
    ReorderUnique(order, ms);
    ChainParents(order);
    FreshRevision(order);
    assert Revisions(order) == front + {last};
    OutsideRevisions(ms, front);
    OutsideSize(ms, front);
    assert Revisions(FindHeads(ms)) == {last};
  }

  lemma LinearPasses(ms: seq<Migration>, order: seq<Migration>)
    requires UniqueRevisions(ms) && Reorders(order, ms) && Chain(order)
    ensures Passes(ms) && ParentsResolve(ms) && HasBase(ms)
  {
    LinearOneHead(ms, order);
    ReorderUnique(order, ms);
    ChainParents(order);
    assert order[0] in order;
    forall m | m in ms && m.down.Some?
      ensures m.down.value in Revisions(ms)
    {
      assert m.down.value in DownRevisions(ms);
      SubRevisions(order);
    }
  }

  lemma SubRevisions(order: seq<Migration>)
    requires order != []
    ensures Revisions(order[..|order| - 1]) <= Revisions(order)
  {
  }

  // Linear if acyclic -------------------------------------------------------------------------

  /** The migration that declares a revision. */
  function ByRevision(ms: seq<Migration>, r: string): (m: Migration)
    requires r in Revisions(ms)
    ensures m in ms && m.revision == r
  {
    var n := |ms| - 1;
    if ms[n].revision == r then ms[n] else ByRevision(ms[..n], r)
  }

  lemma {:induction false} DistinctCovers(p: seq<string>, s: set<string>)
    requires Distinct(p) && forall x :: x in p <==> x in s
    ensures |p| == |s|
  {
    if p == [] {
      assert s == {};
    } else {
      var n := |p| - 1;
      assert p[..n] + [p[n]] == p;
      DistinctSnoc(p[..n], p[n]);
      DistinctCovers(p[..n], s - {p[n]});
    }
  }

  function FromTheBase(ms: seq<Migration>, trunk: seq<string>): (order: seq<Migration>)
    requires forall i :: 0 <= i < |trunk| ==> trunk[i] in Revisions(ms)
    ensures |order| == |trunk|
    ensures forall i :: 0 <= i < |order| ==>
              order[i] in ms && order[i].revision == trunk[|trunk| - 1 - i]
  {
    var n := |trunk|;
    seq(n, i requires 0 <= i < n => ByRevision(ms, trunk[n - 1 - i]))
  }

  lemma TrunkClimbsBack(ms: seq<Migration>, trunk: seq<string>)
    requires UniqueRevisions(ms) && GraphOf(ms).Valid() && GraphOf(ms).Trunk(trunk)
    ensures Chain(FromTheBase(ms, trunk))
  {
    var n, order := |trunk|, FromTheBase(ms, trunk);
    ParentsAre(ms);
    forall i | 0 <= i < n - 1
      ensures order[i + 1].down == Some(order[i].revision)
    {
      var k := n - 2 - i;
      assert GraphOf(ms).parent[trunk[k]] == trunk[k + 1];
    }
    assert trunk[n - 1] !in GraphOf(ms).parent;
  }

  /** A trunk that covers every revision, read from the base, is the linear history. */
  lemma TrunkIsChain(ms: seq<Migration>, trunk: seq<string>)
    requires UniqueRevisions(ms) && GraphOf(ms).Valid() && GraphOf(ms).Trunk(trunk)
    requires forall x :: x in Revisions(ms) ==> x in trunk
    ensures Linear(ms)
  {
    var n, order := |trunk|, FromTheBase(ms, trunk);
    TrunkClimbsBack(ms, trunk);
    forall m | m in ms
      ensures m in order
    {
      RevisionIn(ms, m);
      var k: nat :| k < n && trunk[k] == m.revision;
      assert order[n - 1 - k].revision == trunk[n - 1 - (n - 1 - k)];
      SameRevision(ms, m, order[n - 1 - k]);
    }
    DistinctCovers(trunk, Revisions(ms));
    UniqueSize(ms);
    assert Reorders(order, ms);
  }

  lemma SameRevision(ms: seq<Migration>, m: Migration, m': Migration)
    requires UniqueRevisions(ms) && m in ms && m' in ms && m.revision == m'.revision
    ensures m == m'
  {
  }

  /** The files form one linear history if and only if Check A passes, every parent resolves, there
      is a base and the graph is acyclic. Check A decides only the first of these. */
  lemma LinearIff(ms: seq<Migration>)
    ensures Linear(ms) <==>
      Passes(ms) && ParentsResolve(ms) && HasBase(ms) && GraphOf(ms).Acyclic()
  {
    if Linear(ms) {
      var order :| Chain(order) && Reorders(order, ms);
      LinearPasses(ms, order);
      LinearIsAcyclic(ms, order);
    }
    if Passes(ms) && ParentsResolve(ms) && HasBase(ms) && GraphOf(ms).Acyclic() {
      BaseAndParents(ms);
      var trunk := PassingMeans(ms);
      CoveredIffAcyclic(GraphOf(ms), trunk);
      TrunkIsChain(ms, trunk);
    }
  }

  lemma NoHeadsInGraph(ms: seq<Migration>)
    requires UniqueRevisions(ms)
    ensures GraphOf(ms).Valid()
    ensures CheckSingleHead(ms).NoHead? <==> GraphOf(ms).Heads() == {}
  {
    GraphMeans(ms);
  }

  /** When no head is found, following parents from any file comes back to it. */
  lemma NoHeadMeansCycles(ms: seq<Migration>, m: Migration)
    requires UniqueRevisions(ms) && CheckSingleHead(ms).NoHead? && m in ms
    ensures GraphOf(ms).OnCycle(m.revision)
  {
    NoHeadsInGraph(ms);
    NoHeadAllCycles(GraphOf(ms));
    RevisionIn(ms, m);
  }

  /** Conversely a nonempty acyclic set of files always has a head. */
  lemma AcyclicFilesHaveAHead(ms: seq<Migration>)
    requires UniqueRevisions(ms) && ms != [] && GraphOf(ms).Acyclic()
    ensures !CheckSingleHead(ms).NoHead?
  {
    NoHeadsInGraph(ms);
    RevisionIn(ms, ms[0]);
    AcyclicHasHead(GraphOf(ms));
  }

  /** But with no files at all the check also reports a cycle. */
  lemma NoFilesNoHead()
    ensures CheckSingleHead([]).NoHead?
  {
  }

  /** A file whose parent does not exist passes. */
  lemma PassesDangling(d: Migration)
    requires d.down.Some? && d.down.value != d.revision
    ensures Passes([d]) && !ParentsResolve([d]) && !Linear([d])
  {
    assert [d][..0] == [] && d in [d];
    assert DownRevisions([d]) == {d.down.value};
    assert Outside([d][..0], {d.down.value}) == [] && [] + [d] == [d];
    assert FindHeads([d]) == [d];
    assert Revisions([d]) == {d.revision};
    LinearIff([d]);
  }

  lemma HeadBesideCycle(a: Migration, b: Migration, c: Migration)
    requires a.down.None? && b.down == Some(c.revision) && c.down == Some(b.revision)
    requires a.revision != b.revision && a.revision != c.revision
    ensures FindHeads([a, b, c]) == [a]
  {
    var ms := [a, b, c];
    assert a in ms && b in ms && c in ms;
    assert DownRevisions(ms) == {b.revision, c.revision};
    assert ms[..2] == [a, b] && [a, b][..1] == [a] && [a][..0] == [];
    assert Outside([a], DownRevisions(ms)) == [a];
    assert Outside([a, b], DownRevisions(ms)) == [a];
  }

  /** A base beside a cycle of two passes. */
  lemma PassesCycle(a: Migration, b: Migration, c: Migration)
    requires a.down.None? && b.down == Some(c.revision) && c.down == Some(b.revision)
    requires a.revision != b.revision && a.revision != c.revision && b.revision != c.revision
    ensures var ms := [a, b, c];
      Passes(ms) && ParentsResolve(ms) && HasBase(ms) && !Linear(ms)
  {
    var ms := [a, b, c];
    assert a in ms && b in ms && c in ms;
    HeadBesideCycle(a, b, c);
    RevisionsMean(ms);
    CycleOfTwo(ms, b, c);
    LinearIff(ms);
  }

  lemma CycleOfTwo(ms: seq<Migration>, b: Migration, c: Migration)
    requires UniqueRevisions(ms) && b in ms && c in ms && b.revision != c.revision
    requires b.down == Some(c.revision) && c.down == Some(b.revision)
    ensures GraphOf(ms).Cycle([b.revision, c.revision])
  {
    ParentsAre(ms);
    RevisionsMean(ms);
  }
}
