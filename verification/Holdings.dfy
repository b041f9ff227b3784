/** Holdings part of the folio backfill: delete all but the best row of each canonical group, then
    rewrite the survivors' folios one row at a time under the unique key. The canonicalization is a
    parameter `f` here, so the results hold for the SQL expression and for the Python function
    whatever they do; what is needed of it, and exactly when `Canon` provides it, comes last. */
module Holdings {
  import opened Prelude
  import opened Folios

  datatype Holding = Holding(portfolio: nat, isin: string, folio: string, updatedAt: int)

  type Table = map<nat, Holding>

  type Canonizer = string -> string

  datatype Key = Key(portfolio: nat, isin: string, folio: string)

  function KeyOf(h: Holding): Key {
    Key(h.portfolio, h.isin, h.folio)
  }

  /** The key that the row will have once its folio is canonical. */
  function GroupOf(f: Canonizer, h: Holding): Key {
    Key(h.portfolio, h.isin, f(h.folio))
  }

  predicate Canonical(f: Canonizer, h: Holding) {
    f(h.folio) == h.folio
  }

  ghost predicate Unique(t: Table) {
    forall a, b :: a in t && b in t && KeyOf(t[a]) == KeyOf(t[b]) ==> a == b
  }

  // -------------------------------------------------------------------------------------------
  // Deduplication
  // -------------------------------------------------------------------------------------------

  /** The ranking inside a group: the canonical row, else the most recent, else the smaller id. */
  predicate Precedes(f: Canonizer, t: Table, a: nat, b: nat)
    requires a in t && b in t
  {
    if Canonical(f, t[a]) != Canonical(f, t[b]) then Canonical(f, t[a])
    else if t[a].updatedAt != t[b].updatedAt then t[a].updatedAt > t[b].updatedAt
    else a < b
  }

  /** Row number 1 of its group. */
  predicate Best(f: Canonizer, t: Table, a: nat)
    requires a in t
  {
    forall b :: b in t && b != a && GroupOf(f, t[b]) == GroupOf(f, t[a]) ==> Precedes(f, t, a, b)
  }

  /** The rows that are left when each group keeps only its best. */
  function Deduped(f: Canonizer, t: Table): Table {
    map a | a in t && Best(f, t, a) :: t[a]
  }

  ghost predicate OnePerGroup(f: Canonizer, t: Table) {
    forall a, b :: a in t && b in t && GroupOf(f, t[a]) == GroupOf(f, t[b]) ==> a == b
  }

  lemma PrecedesTransitive(f: Canonizer, t: Table, a: nat, b: nat, c: nat)
    requires a in t && b in t && c in t && Precedes(f, t, a, b) && Precedes(f, t, b, c)
    ensures Precedes(f, t, a, c)
  {
  }

  lemma {:induction false} BestOf(f: Canonizer, t: Table, ids: set<nat>) returns (best: nat)
    requires ids != {} && forall a :: a in ids ==> a in t
    ensures best in ids && forall b :: b in ids && b != best ==> Precedes(f, t, best, b)
    decreases |ids|
  {
    var a :| a in ids;
    if ids == {a} {
      best := a;
    } else {
      best := BestOf(f, t, ids - {a});
      if Precedes(f, t, a, best) {
        forall b | b in ids && b != a && b != best
          ensures Precedes(f, t, a, b)
        {
          PrecedesTransitive(f, t, a, best, b);
        }
        best := a;
      }
    }
  }

  /** Every canonical group of the table keeps exactly one row, and it is the one that precedes
      every other: the canonical one if there is one, else the newest. */
  lemma DedupeKeepsTheBest(f: Canonizer, t: Table, a: nat)
    requires a in t
    ensures exists best :: best in Deduped(f, t) && GroupOf(f, t[best]) == GroupOf(f, t[a]) &&
              forall b :: b in t && b != best && GroupOf(f, t[b]) == GroupOf(f, t[a]) ==> Precedes(f, t, best, b)
    ensures OnePerGroup(f, Deduped(f, t))
    ensures Canonical(f, t[a]) ==>
              exists best :: best in Deduped(f, t) && GroupOf(f, t[best]) == GroupOf(f, t[a]) && Canonical(f, t[best])
  {
    var group := set b | b in t && GroupOf(f, t[b]) == GroupOf(f, t[a]);
    assert a in group;
    var best := BestOf(f, t, group);
    assert best in group && Best(f, t, best) && best in Deduped(f, t);
    if Canonical(f, t[a]) && best != a {
      assert Precedes(f, t, best, a);
    }
  }

  /** Among `kept` is the row of the group that precedes every other row of the group. */
  ghost predicate HasBest(f: Canonizer, t: Table, kept: set<nat>, group: Key) {
    exists best :: best in kept && best in t && GroupOf(f, t[best]) == group && Best(f, t, best)
  }

  lemma DedupedHasBest(f: Canonizer, t: Table)
    ensures OnePerGroup(f, Deduped(f, t))
    ensures forall a :: a in t ==> HasBest(f, t, Deduped(f, t).Keys, GroupOf(f, t[a]))
  {
    forall a | a in t
      ensures HasBest(f, t, Deduped(f, t).Keys, GroupOf(f, t[a]))
    {
      DedupeKeepsTheBest(f, t, a);
    }
  }

  /** Which rows stay, column by column. In its portfolio and isin, among the rows with the same canonical
      folio, a kept row is canonical if any is; among those alike in that none was updated later; and
      among those updated at the same time it has the smallest id. */
  lemma KeptIff(f: Canonizer, t: Table, a: nat)
    requires a in t
    ensures a in Deduped(f, t) <==>
      forall b :: b in t && b != a && t[b].portfolio == t[a].portfolio && t[b].isin == t[a].isin
                  && f(t[b].folio) == f(t[a].folio) ==>
        && (f(t[b].folio) == t[b].folio ==> f(t[a].folio) == t[a].folio)
        && ((f(t[b].folio) == t[b].folio <==> f(t[a].folio) == t[a].folio) ==>
              && t[b].updatedAt <= t[a].updatedAt
              && (t[b].updatedAt == t[a].updatedAt ==> a < b))
  {
    assert a in Deduped(f, t) <==> Best(f, t, a);
    forall b | b in t && b != a && t[b].portfolio == t[a].portfolio && t[b].isin == t[a].isin
               && f(t[b].folio) == f(t[a].folio)
      ensures GroupOf(f, t[b]) == GroupOf(f, t[a])
      ensures Precedes(f, t, a, b) <==>
        && (f(t[b].folio) == t[b].folio ==> f(t[a].folio) == t[a].folio)
        && ((f(t[b].folio) == t[b].folio <==> f(t[a].folio) == t[a].folio) ==>
              && t[b].updatedAt <= t[a].updatedAt
              && (t[b].updatedAt == t[a].updatedAt ==> a < b))
    {
    }
    assert forall b :: b in t && GroupOf(f, t[b]) == GroupOf(f, t[a]) ==>
      t[b].portfolio == t[a].portfolio && t[b].isin == t[a].isin && f(t[b].folio) == f(t[a].folio);
  }

  lemma KeptAreNewest(f: Canonizer, t: Table)
    ensures forall a, b ::
              a in Deduped(f, t) && b in t && a in t && b != a
              && t[b].portfolio == t[a].portfolio && t[b].isin == t[a].isin && f(t[b].folio) == f(t[a].folio)
              && (f(t[b].folio) == t[b].folio <==> f(t[a].folio) == t[a].folio)
              ==> t[b].updatedAt <= t[a].updatedAt
  {
    forall a | a in Deduped(f, t)
      ensures a in t && forall b ::
                b in t && b != a && t[b].portfolio == t[a].portfolio && t[b].isin == t[a].isin
                && f(t[b].folio) == f(t[a].folio)
                && (f(t[b].folio) == t[b].folio <==> f(t[a].folio) == t[a].folio)
                ==> t[b].updatedAt <= t[a].updatedAt
    {
      KeptIff(f, t, a);
    }
  }

  /** Every group keeps a row, in the same terms, and only one. */
  lemma GroupKept(f: Canonizer, t: Table, a: nat) returns (kept: nat)
    requires a in t
    ensures kept in t && kept in Deduped(f, t) && Deduped(f, t)[kept] == t[kept]
    ensures t[kept].portfolio == t[a].portfolio && t[kept].isin == t[a].isin
    ensures f(t[kept].folio) == f(t[a].folio)
    ensures forall b ::
              (b in Deduped(f, t) && b in t && t[b].portfolio == t[a].portfolio && t[b].isin == t[a].isin &&
               f(t[b].folio) == f(t[a].folio)) ==> b == kept
  {
    DedupeKeepsTheBest(f, t, a);
    kept :| kept in Deduped(f, t) && GroupOf(f, t[kept]) == GroupOf(f, t[a]);
    forall b | b in Deduped(f, t) && b in t && t[b].portfolio == t[a].portfolio
               && t[b].isin == t[a].isin && f(t[b].folio) == f(t[a].folio)
      ensures b == kept
    {
      assert GroupOf(f, Deduped(f, t)[b]) == GroupOf(f, Deduped(f, t)[kept]);
    }
  }

  // -------------------------------------------------------------------------------------------
  // The row-by-row update
  // -------------------------------------------------------------------------------------------

  /** One row of the UPDATE: rows that are canonical already do not match, and the unique key is
      checked at once. */
  function UpdateOne(f: Canonizer, t: Table, a: nat): Option<Table>
    requires a in t
  {
    if Canonical(f, t[a]) then Some(t)
    else if exists b :: b in t && b != a && KeyOf(t[b]) == GroupOf(f, t[a]) then None
    else Some(t[a := t[a].(folio := f(t[a].folio))])
  }

  /** The same on columns: another row of the portfolio and isin with the new folio is in the way, or the
      folio is rewritten and nothing else. */
  lemma UpdateOneIs(f: Canonizer, t: Table, a: nat)
    requires a in t
    ensures UpdateOne(f, t, a).None? <==>
      && f(t[a].folio) != t[a].folio
      && exists b :: b in t && b != a && t[b].portfolio == t[a].portfolio && t[b].isin == t[a].isin
                     && t[b].folio == f(t[a].folio)
    ensures UpdateOne(f, t, a).Some? ==>
              UpdateOne(f, t, a).value == t[a := t[a].(folio := f(t[a].folio))]
  {
    if exists b :: b in t && b != a && KeyOf(t[b]) == GroupOf(f, t[a]) {
      var b :| b in t && b != a && KeyOf(t[b]) == GroupOf(f, t[a]);
      assert t[b].portfolio == t[a].portfolio && t[b].isin == t[a].isin && t[b].folio == f(t[a].folio);
    }
    forall b | b in t && b != a && t[b].portfolio == t[a].portfolio && t[b].isin == t[a].isin
               && t[b].folio == f(t[a].folio)
      ensures KeyOf(t[b]) == GroupOf(f, t[a])
    {
    }
    if Canonical(f, t[a]) {
      assert t == t[a := t[a].(folio := f(t[a].folio))];
    }
  }

  /** The UPDATE in a given order of rows; `None` is the unique violation that aborts it. */
  function UpdateAll(f: Canonizer, t: Table, order: seq<nat>): (r: Option<Table>)
    requires forall a :: a in order ==> a in t
    ensures r.Some? ==> r.value.Keys == t.Keys
    decreases |order|
  {
    if order == [] then Some(t)
    else
      var next := UpdateOne(f, t, order[0]);
      if next.None? then None else UpdateAll(f, next.value, order[1..])
  }

  lemma UpdateAllCons(f: Canonizer, t: Table, order: seq<nat>)
    requires order != [] && forall a :: a in order ==> a in t
    ensures UpdateOne(f, t, order[0]).None? ==> UpdateAll(f, t, order).None?
    ensures UpdateOne(f, t, order[0]).Some? ==>
      UpdateAll(f, t, order) == UpdateAll(f, UpdateOne(f, t, order[0]).value, order[1..])
  {
  }

  /** `t` with the folios of the rows in `done` canonicalized. */
  function Partly(f: Canonizer, t: Table, done: set<nat>): Table {
    map a | a in t :: if a in done then t[a].(folio := f(t[a].folio)) else t[a]
  }

  /** Rewriting row `a` would give it the folio that row `b` still has, and `b` is not canonical. */
  predicate Blocks(f: Canonizer, t: Table, a: nat, b: nat)
    requires a in t && b in t
  {
    && a != b && !Canonical(f, t[a]) && !Canonical(f, t[b]) && KeyOf(t[b]) == GroupOf(f, t[a])
  }

  ghost predicate NoneBlocks(f: Canonizer, t: Table) {
    forall a, b :: a in t && b in t ==> !Blocks(f, t, a, b)
  }

  ghost predicate IsOrder(t: Table, order: seq<nat>) {
    && (forall a :: a in order <==> a in t)
    && Distinct(order)
  }

  lemma PartlyUnique(f: Canonizer, t: Table, done: set<nat>)
    requires Unique(t) && OnePerGroup(f, t) && NoneBlocks(f, t)
    ensures Unique(Partly(f, t, done))
  {
    var p := Partly(f, t, done);
    forall a, b | a in p && b in p && KeyOf(p[a]) == KeyOf(p[b])
      ensures a == b
    {
      assert !Blocks(f, t, a, b) && !Blocks(f, t, b, a);
    }
  }

  lemma UpdateNext(f: Canonizer, t: Table, done: set<nat>, a: nat)
    requires Unique(t) && OnePerGroup(f, t) && NoneBlocks(f, t) && a in t && a !in done
    ensures UpdateOne(f, Partly(f, t, done), a) == Some(Partly(f, t, done + {a}))
  {
    PartlyUnique(f, t, done + {a});
    var p, p' := Partly(f, t, done), Partly(f, t, done + {a});
    assert p' == p[a := p'[a]];
    if Canonical(f, p[a]) {
      assert p' == p;
    } else {
      forall b | b in p && b != a
        ensures KeyOf(p[b]) != GroupOf(f, p[a])
      {
        assert p'[b] == p[b] && KeyOf(p'[a]) == GroupOf(f, p[a]);
      }
    }
  }

  function Rows(order: seq<nat>): set<nat> {
    set a | a in order
  }

  lemma RowsCons(done: set<nat>, order: seq<nat>)
    requires order != []
    ensures (done + {order[0]}) + Rows(order[1..]) == done + Rows(order)
  {
    assert order == [order[0]] + order[1..];
  }

  lemma {:induction false} UpdateFrom(f: Canonizer, t: Table, done: set<nat>, order: seq<nat>)
    requires Unique(t) && OnePerGroup(f, t) && NoneBlocks(f, t)
    requires Rows(order) <= t.Keys && Rows(order) !! done && Distinct(order)
    ensures UpdateAll(f, Partly(f, t, done), order) == Some(Partly(f, t, done + Rows(order)))
    decreases |order|
  {
    if order == [] {
      assert done + Rows(order) == done;
    } else {
      assert order[0] in Rows(order) && order[0] !in Rows(order[1..]);
      assert Rows(order[1..]) <= Rows(order);
      UpdateNext(f, t, done, order[0]);
      UpdateFrom(f, t, done + {order[0]}, order[1..]);
      RowsCons(done, order);
    }
  }

  /** When no survivor blocks another, the update succeeds in every order and rewrites every folio
      once. */
  lemma {:induction false} UpdateSucceeds(f: Canonizer, t: Table, order: seq<nat>)
    requires Unique(t) && OnePerGroup(f, t) && NoneBlocks(f, t) && IsOrder(t, order)
    ensures UpdateAll(f, t, order) == Some(Partly(f, t, t.Keys))
  {
    assert Partly(f, t, {}) == t;
    UpdateFrom(f, t, {}, order);
    assert {} + Rows(order) == t.Keys;
  }

  /** The unique key holds after every single row of it. */
  lemma UniqueAtEveryRow(f: Canonizer, t: Table, order: seq<nat>, n: nat)
    requires Unique(t) && OnePerGroup(f, t) && NoneBlocks(f, t) && IsOrder(t, order) && n <= |order|
    ensures var part := UpdateAll(f, t, order[..n]);
      part == Some(Partly(f, t, Rows(order[..n]))) && Unique(part.value)
  {
    assert Partly(f, t, {}) == t;
    assert Rows(order[..n]) <= t.Keys;
    UpdateFrom(f, t, {}, order[..n]);
    assert {} + Rows(order[..n]) == Rows(order[..n]);
    PartlyUnique(f, t, Rows(order[..n]));
  }

  /** The update succeeds in every order if and only if no survivor blocks another. */
  lemma UpdateSucceedsIff(f: Canonizer, t: Table)
    requires Unique(t) && OnePerGroup(f, t)
    ensures (forall order :: IsOrder(t, order) ==> UpdateAll(f, t, order).Some?) <==> NoneBlocks(f, t)
  {
    if NoneBlocks(f, t) {
      forall order | IsOrder(t, order)
        ensures UpdateAll(f, t, order).Some?
      {
        UpdateSucceeds(f, t, order);
      }
    } else {
      var a, b :| a in t && b in t && Blocks(f, t, a, b);
      var order := BlockedFirst(f, t, a, b);
      assert UpdateAll(f, t, order).None?;
    }
  }

  /** An order that starts with a blocked row fails at once. */
  lemma {:induction false} BlockedFirst(f: Canonizer, t: Table, a: nat, b: nat) returns (order: seq<nat>)
    requires a in t && b in t && Blocks(f, t, a, b)
    ensures IsOrder(t, order) && UpdateAll(f, t, order).None?
  {
    var rest := Enumerate(t.Keys - {a});
    DistinctCons(a, rest);
    order := [a] + rest;
    assert order[0] == a;
    assert UpdateOne(f, t, a).None?;
  }

  ghost predicate IdempotentOn(f: Canonizer, t: Table) {
    forall a :: a in t ==> f(f(t[a].folio)) == f(t[a].folio)
  }

  /** Idempotence of canonicalization on the folios of the table is enough. */
  lemma IdempotentNoneBlocks(f: Canonizer, t: Table)
    requires OnePerGroup(f, t)
    requires IdempotentOn(f, t)
    ensures NoneBlocks(f, t)
  {
  }

  /** For `Canon` that means: no folio of the table ends in two zero suffixes. */
  lemma NoDoubleSuffixNoneBlocks(t: Table)
    requires OnePerGroup(Canon, t)
    requires forall a :: a in t ==> !DoubleSuffix(t[a].folio)
    ensures NoneBlocks(Canon, t)
  {
    forall a | a in t
      ensures Canon(Canon(t[a].folio)) == Canon(t[a].folio)
    {
      IdempotentIff(t[a].folio);
    }
    IdempotentNoneBlocks(Canon, t);
  }

  // -------------------------------------------------------------------------------------------
  // The whole step
  // -------------------------------------------------------------------------------------------

  ghost predicate AllCanonical(f: Canonizer, t: Table) {
    forall a :: a in t ==> Canonical(f, t[a])
  }

  /** Row `a` after the step: the best row of its group, with its folio canonical. */
  ghost predicate IsSurvivor(f: Canonizer, t: Table, a: nat, h: Holding) {
    a in t && Best(f, t, a) && h == t[a].(folio := f(t[a].folio))
  }

  lemma DedupedIsFine(f: Canonizer, t: Table)
    requires Unique(t)
    ensures Unique(Deduped(f, t)) && OnePerGroup(f, Deduped(f, t))
  {
  }

  lemma GroupSurvives(f: Canonizer, t: Table, a: nat) returns (best: nat)
    requires a in t
    ensures best in Deduped(f, t) && GroupOf(f, t[best]) == GroupOf(f, t[a])
  {
    DedupeKeepsTheBest(f, t, a);
    best :| best in Deduped(f, t) && GroupOf(f, t[best]) == GroupOf(f, t[a]);
  }

  /** If canonicalization is idempotent on the folios present, dedupe and update together succeed in
      every order, and leave exactly the best row of every group, canonical, under the unique key. */
  lemma BackfillSucceeds(f: Canonizer, t: Table, order: seq<nat>)
    requires Unique(t) && IdempotentOn(f, t) && IsOrder(Deduped(f, t), order)
    ensures var u := UpdateAll(f, Deduped(f, t), order);
      && u.Some? && AllCanonical(f, u.value) && Unique(u.value)
      && (forall a :: a in u.value ==> IsSurvivor(f, t, a, u.value[a]))
      && (forall a :: a in t ==> exists b :: b in u.value && KeyOf(u.value[b]) == GroupOf(f, t[a]))
  {
    var d := Deduped(f, t);
    DedupedIsFine(f, t);
    IdempotentNoneBlocks(f, d);
    UpdateSucceeds(f, d, order);
    PartlyUnique(f, d, d.Keys);
    var u := Partly(f, d, d.Keys);
    forall a | a in t
      ensures exists b :: b in u && KeyOf(u[b]) == GroupOf(f, t[a])
    {
      var best := GroupSurvives(f, t, a);
      assert KeyOf(u[best]) == GroupOf(f, t[a]);
    }
  }

  /** The unique key, on columns. */
  lemma UniqueIff(t: Table)
    ensures Unique(t) <==>
      forall a, b :: a in t && b in t && a != b ==>
        t[a].portfolio != t[b].portfolio || t[a].isin != t[b].isin || t[a].folio != t[b].folio
  {
    if Unique(t) {
      forall a, b | a in t && b in t && a != b
        ensures t[a].portfolio != t[b].portfolio || t[a].isin != t[b].isin || t[a].folio != t[b].folio
      {
        assert KeyOf(t[a]) != KeyOf(t[b]);
      }
    }
  }

  lemma SurvivorColumns(f: Canonizer, t: Table, a: nat, h: Holding)
    requires IsSurvivor(f, t, a, h)
    ensures a in Deduped(f, t) && h.portfolio == t[a].portfolio && h.isin == t[a].isin
    ensures h.updatedAt == t[a].updatedAt && h.folio == f(t[a].folio)
  {
  }

  /** Row `a` as the step leaves it: its own portfolio, isin and time, and its folio canonical. */
  ghost predicate LeftAs(f: Canonizer, t: Table, a: nat, h: Holding) {
    && a in t && a in Deduped(f, t)
    && h.portfolio == t[a].portfolio && h.isin == t[a].isin && h.updatedAt == t[a].updatedAt
    && h.folio == f(t[a].folio)
  }

  lemma AllLeft(f: Canonizer, t: Table, u: Table)
    requires forall a :: a in u ==> IsSurvivor(f, t, a, u[a])
    ensures forall a :: a in u ==> LeftAs(f, t, a, u[a])
  {
    forall a | a in u
      ensures LeftAs(f, t, a, u[a])
    {
      SurvivorColumns(f, t, a, u[a]);
    }
  }

  /** The whole step on columns, when canonicalization is idempotent on the folios present: exactly the
      kept rows are left, each with its own portfolio, isin and time and with its folio canonical, under the
      unique key. */
  lemma BackfillOnColumns(f: Canonizer, t: Table, order: seq<nat>)
    requires Unique(t) && IdempotentOn(f, t) && IsOrder(Deduped(f, t), order)
    ensures UpdateAll(f, Deduped(f, t), order).Some?
    ensures var u := UpdateAll(f, Deduped(f, t), order).value;
      u.Keys == Deduped(f, t).Keys && Unique(u) && forall a :: a in u ==> LeftAs(f, t, a, u[a])
  {
    BackfillSucceeds(f, t, order);
    AllLeft(f, t, UpdateAll(f, Deduped(f, t), order).value);
  }

  /** After a successful update every folio is canonical if and only if canonicalization is idempotent
      on the folios that were updated. */
  lemma CanonicalAfterUpdateIff(f: Canonizer, t: Table, order: seq<nat>)
    requires Unique(t) && OnePerGroup(f, t) && NoneBlocks(f, t) && IsOrder(t, order)
    ensures UpdateAll(f, t, order).Some?
    ensures AllCanonical(f, UpdateAll(f, t, order).value) <==> IdempotentOn(f, t)
  {
    UpdateSucceeds(f, t, order);
    var u := Partly(f, t, t.Keys);
    assert forall a :: a in t ==> (Canonical(f, u[a]) <==> f(f(t[a].folio)) == f(t[a].folio));
  }

  /** Idempotence on the survivors is idempotence on all rows: a group shares its canonical folio. */
  lemma IdempotentOnSurvivors(f: Canonizer, t: Table)
    ensures IdempotentOn(f, Deduped(f, t)) <==> IdempotentOn(f, t)
  {
    if IdempotentOn(f, Deduped(f, t)) {
      forall a | a in t
        ensures f(f(t[a].folio)) == f(t[a].folio)
      {
        var best := GroupSurvives(f, t, a);
        assert Deduped(f, t)[best] == t[best];
      }
    }
  }

  /** In the given order the update gets through and leaves only canonical folios. */
  ghost predicate EndsCanonical(f: Canonizer, t: Table, order: seq<nat>)
    requires forall a :: a in order ==> a in t
  {
    UpdateAll(f, t, order).Some? && AllCanonical(f, UpdateAll(f, t, order).value)
  }

  /** Dedupe and update together end canonical in every order if and only if canonicalization is
      idempotent on the folios present. */
  lemma BackfillCanonicalIff(f: Canonizer, t: Table)
    requires Unique(t)
    ensures (forall order :: IsOrder(Deduped(f, t), order) ==> EndsCanonical(f, Deduped(f, t), order))
            <==> IdempotentOn(f, t)
  {
    var d := Deduped(f, t);
    DedupedIsFine(f, t);
    IdempotentOnSurvivors(f, t);
    if IdempotentOn(f, t) {
      forall order | IsOrder(d, order)
        ensures EndsCanonical(f, d, order)
      {
        BackfillSucceeds(f, t, order);
      }
    }
    if forall order :: IsOrder(d, order) ==> EndsCanonical(f, d, order) {
      UpdateSucceedsIff(f, d);
      var order := Enumerate(d.Keys);
      assert IsOrder(d, order) && EndsCanonical(f, d, order);
      CanonicalAfterUpdateIff(f, d, order);
    }
  }

  /** For `Canon`: exactly when no folio present ends in two zero suffixes. */
  lemma CanonBackfillIff(f: Canonizer, t: Table)
    requires f == Canon && Unique(t)
    ensures (forall order :: IsOrder(Deduped(f, t), order) ==> EndsCanonical(f, Deduped(f, t), order))
            <==> forall a :: a in t ==> !DoubleSuffix(t[a].folio)
  {
    BackfillCanonicalIff(f, t);
    forall a | a in t
      ensures f(f(t[a].folio)) == f(t[a].folio) <==> !DoubleSuffix(t[a].folio)
    {
      IdempotentIff(t[a].folio);
    }
  }

  lemma {:induction false} UpdateNothing(f: Canonizer, t: Table, order: seq<nat>)
    requires AllCanonical(f, t) && forall a :: a in order ==> a in t
    ensures UpdateAll(f, t, order) == Some(t)
    decreases |order|
  {
    if order != [] {
      assert order[0] in order;
      UpdateNothing(f, t, order[1..]);
    }
  }

  /** Once the folios are canonical a second run deletes nothing and changes nothing. */
  lemma SecondRunIsNoOp(f: Canonizer, t: Table, order: seq<nat>)
    requires Unique(t) && AllCanonical(f, t) && IsOrder(Deduped(f, t), order)
    ensures Deduped(f, t) == t && UpdateAll(f, Deduped(f, t), order) == Some(t)
  {
    forall a | a in t
      ensures Best(f, t, a)
    {
      assert forall b :: b in t && GroupOf(f, t[b]) == GroupOf(f, t[a]) ==> KeyOf(t[b]) == KeyOf(t[a]);
    }
    assert Deduped(f, t) == t;
    UpdateNothing(f, t, order);
  }

  /** Without it the migration can abort: "A/0/0" is rewritten to the folio that "A/0" still has. */
  lemma UpdateCanAbort()
    ensures var t: Table := map[1 := Holding(7, "INF", "A/0/0", 5), 2 := Holding(7, "INF", "A/0", 5)];
      Deduped(Canon, t) == t && Unique(t) && UpdateAll(Canon, t, [1, 2]) == None
  {
    NotIdempotentExample();
    AbortOf(Canon);
  }

  lemma AbortOf(f: Canonizer)
    requires f("A/0/0") == "A/0" && f("A/0") == "A"
    ensures var t: Table := map[1 := Holding(7, "INF", "A/0/0", 5), 2 := Holding(7, "INF", "A/0", 5)];
      Deduped(f, t) == t && Unique(t) && UpdateAll(f, t, [1, 2]) == None
  {
    var t: Table := map[1 := Holding(7, "INF", "A/0/0", 5), 2 := Holding(7, "INF", "A/0", 5)];
    assert GroupOf(f, t[1]).folio != GroupOf(f, t[2]).folio;
    assert Best(f, t, 1) && Best(f, t, 2);
    assert KeyOf(t[2]) == GroupOf(f, t[1]);
    assert UpdateOne(f, t, 1).None?;
  }

  // -------------------------------------------------------------------------------------------
  // The migration step as code
  // -------------------------------------------------------------------------------------------

  class HoldingsTable {
    const f: Canonizer
    var rows: Table

    /** The update of one row; false is the unique violation. */
    method UpdateRow(a: nat) returns (ok: bool)
      requires a in rows
      modifies this`rows
      ensures UpdateOne(f, old(rows), a) == if ok then Some(rows) else None
      ensures !ok <==>
                && f(old(rows)[a].folio) != old(rows)[a].folio
                && exists b :: b in old(rows) && b != a && old(rows)[b].portfolio == old(rows)[a].portfolio
                     && old(rows)[b].isin == old(rows)[a].isin && old(rows)[b].folio == f(old(rows)[a].folio)
      ensures ok ==> rows == old(rows)[a := old(rows)[a].(folio := f(old(rows)[a].folio))]
    {
      UpdateOneIs(f, rows, a);
      if !Canonical(f, rows[a]) {
        var row := rows[a].(folio := f(rows[a].folio));
        if exists b :: b in rows && b != a && KeyOf(rows[b]) == KeyOf(row) {
          return false;
        }
        rows := rows[a := row];
      }
      return true;
    }

    /** DELETE the rows that are not first in their group: no row is changed, no two of a group stay,
        and each group keeps the row that precedes all its others. */
    method Dedupe()
      modifies this`rows
      ensures rows == Deduped(f, old(rows))
      ensures forall a :: a in rows ==> a in old(rows) && rows[a] == old(rows)[a]
      ensures OnePerGroup(f, rows)
      ensures forall a :: a in old(rows) ==> HasBest(f, old(rows), rows.Keys, GroupOf(f, old(rows)[a]))
      ensures forall a, b ::
                a in rows && b in old(rows) && a in old(rows) && b != a
                && old(rows)[b].portfolio == old(rows)[a].portfolio && old(rows)[b].isin == old(rows)[a].isin
                && f(old(rows)[b].folio) == f(old(rows)[a].folio)
                && (f(old(rows)[b].folio) == old(rows)[b].folio <==> f(old(rows)[a].folio) == old(rows)[a].folio)
                ==> old(rows)[b].updatedAt <= old(rows)[a].updatedAt
    {
      DedupedHasBest(f, rows);
      KeptAreNewest(f, rows);
      rows := map a | a in rows && Best(f, rows, a) :: rows[a];
    }

    /** The UPDATE, row by row; false is the unique violation, which aborts it. */
    method UpdateRows(order: seq<nat>) returns (ok: bool)
      requires forall a :: a in order ==> a in rows
      modifies this`rows
      ensures ok == UpdateAll(f, old(rows), order).Some?
      ensures ok ==> UpdateAll(f, old(rows), order) == Some(rows)
    {
      ghost var before := rows;
      var n := 0;
      while n < |order|
        invariant n <= |order|
        invariant rows.Keys == before.Keys
        invariant UpdateAll(f, before, order) == UpdateAll(f, rows, order[n..])
      {
        UpdateAllCons(f, rows, order[n..]);
        assert order[n..][1..] == order[n + 1..] && order[n..][0] == order[n];
        ok := UpdateRow(order[n]);
        if !ok {
          return false;
        }
        n := n + 1;
      }
      ok := true;
    }

    /** DELETE the duplicates, then UPDATE the rows that are left. */
    method Backfill(order: seq<nat>) returns (ok: bool)
      requires IsOrder(Deduped(f, rows), order)
      modifies this`rows
      ensures ok == UpdateAll(f, Deduped(f, old(rows)), order).Some?
      ensures ok ==> UpdateAll(f, Deduped(f, old(rows)), order) == Some(rows)
    {
      Dedupe();
      ok := UpdateRows(order);
    }
  }
}
