/** The gateway's free-pool metering put together with the budget protocol. One `complete` call
    reserves one unit but may record one unit per model of its pool, so the free cap can be
    overshot by more than a reserve; this is by how much. */
module GatewayBudget {
  import P = BudgetProtocol
  import opened BudgetProofs
  import opened BudgetExact
  import opened BudgetGuards
  import opened Gateways
  import opened GatewayProofs

  /** `actual` is what some `complete` call over a pool of at most `pool` models leaves on its free
      meter when its guard exits cleanly. */
  ghost predicate FreeMeter(actual: real, pool: nat) {
    exists t: Task, w: World, per1M: real, sonnet: string, strikes: nat ::
      MetersFree(t, w, per1M, sonnet, strikes, actual) && |t.models| <= pool
  }

  predicate MetersFree(t: Task, w: World, per1M: real, sonnet: string, strikes: nat, actual: real) {
    && FitsTask(w, t)
    && GuardUse(Free, Settled(actual)) in Complete(t, w, per1M, sonnet, strikes).uses
  }

  /** What the free guard of one `complete` call sees: it settles one unit for every response that
      came back, never more than one per model; a 402 rolls everything back, also the units of
      responses that had already come back. */
  lemma FreeGuardUse(t: Task, w: World, per1M: real, sonnet: string, strikes: nat)
    requires FitsTask(w, t) && t.consent
    ensures var r := Complete(t, w, per1M, sonnet, strikes);
      && |r.uses| > 0
      && (forall n :: 1 <= n < |r.uses| ==> r.uses[n].kind.Premium?)
      && r.uses[0] == GuardUse(Free,
           if !w.freeAdmitted then NotAdmitted
           else if exists i: nat :: CreditFirst(w.free, i) then RolledBack
           else Settled(Units(w.free[..Asked(w.free)]) as real))
      && Units(w.free[..Asked(w.free)]) ==
         |set i: nat | i < Asked(w.free) && (w.free[i].NonJson? || w.free[i].Served?)|
  {
    WalkMeans(w.free);
    UnitsAre(w.free, Asked(w.free));
  }

  lemma MeterWithinModels(t: Task, w: World, per1M: real, sonnet: string, strikes: nat, actual: real)
    requires MetersFree(t, w, per1M, sonnet, strikes, actual)
    ensures 0.0 <= actual <= |t.models| as real
  {
    var uses := Complete(t, w, per1M, sonnet, strikes).uses;
    if t.consent {
      FreeGuardUse(t, w, per1M, sonnet, strikes);
      assert uses[0] == GuardUse(Free, Settled(actual));
    }
  }

  lemma FreeMeterWithinPool(actual: real, pool: nat)
    requires FreeMeter(actual, pool)
    ensures 0.0 <= actual <= pool as real
  {
    var t: Task, w: World, per1M: real, sonnet: string, strikes: nat :|
      MetersFree(t, w, per1M, sonnet, strikes, actual) && |t.models| <= pool;
    MeterWithinModels(t, w, per1M, sonnet, strikes, actual);
  }

  /** The free counter: unit reserves, caps at most `cap`, clean exits metered by the gateway over
      pools of at most `pool` models, and never more than `inFlight` calls at once. */
  ghost function FreeTerms(cap: real, pool: nat, inFlight: nat): Terms {
    Terms(cap, 1.0, (x: real) => FreeMeter(x, pool), inFlight)
  }

  ghost predicate FreeRun(run: seq<P.Action>, cap: real, pool: nat, inFlight: nat) {
    MeteredRun(run, FreeTerms(cap, pool, inFlight))
  }

  /** A free run in which no midnight falls inside a call and every reconciliation gets through. */
  ghost predicate CleanFreeRun(run: seq<P.Action>, cap: real, pool: nat, inFlight: nat) {
    CleanRun(run, FreeTerms(cap, pool, inFlight))
  }

  lemma FreeCovered(cap: real, pool: nat, inFlight: nat)
    requires pool >= 1
    ensures Covers(FreeTerms(cap, pool, inFlight), (pool - 1) as real)
  {
    forall x | FreeMeter(x, pool)
      ensures x <= 1.0 + (pool - 1) as real
    {
      FreeMeterWithinPool(x, pool);
    }
  }

  lemma {:induction false} UnitReserves(run: seq<P.Action>, cap: real, pool: nat, inFlight: nat)
    requires FreeRun(run, cap, pool, inFlight) && pool >= 1
    ensures RunWithin(run, Limits(cap, 1.0, (pool - 1) as real, inFlight))
    ensures forall c :: c in P.After(run).calls ==> c.reserve == 1.0
  {
    FreeCovered(cap, pool, inFlight);
    MeteredWithin(run, FreeTerms(cap, pool, inFlight), (pool - 1) as real);
    ReservesAre(run, FreeTerms(cap, pool, inFlight));
  }

  lemma PoolExcess(pool: nat, inFlight: nat)
    requires pool >= 1
    ensures Sum((pool - 1) as real, inFlight) == (pool - 1) as real * (inFlight as real)
  {
    SumIs((pool - 1) as real, inFlight);
  }

  /** The free cap under concurrency: with at most `inFlight` calls at a time, over pools of at most
      `pool` models, the recorded units, counting every call in flight at its full pool, stay
      strictly below cap + (pool - 1) * inFlight + 1, up to what a mid-flight midnight or a failed
      reconciliation hides. */
  lemma {:induction false} FreeUnitsBound(run: seq<P.Action>, cap: real, pool: nat, inFlight: nat)
    requires cap > 0.0 && pool >= 1 && FreeRun(run, cap, pool, inFlight)
    ensures var s := P.After(run);
      s.settled + P.Total(P.Exposure((pool - 1) as real), s.calls) <
      cap + (pool - 1) as real * (inFlight as real) + 1.0 + s.carry + s.lost
  {
    FreeCovered(cap, pool, inFlight);
    PoolExcess(pool, inFlight);
    MeteredBound(run, FreeTerms(cap, pool, inFlight), (pool - 1) as real);
  }

  /** The same with reconciliations that reach the counter and no midnight inside a call: the
      recorded units alone. */
  lemma {:induction false} FreeUnitsStayBelow(run: seq<P.Action>, cap: real, pool: nat, inFlight: nat)
    requires cap > 0.0 && pool >= 1 && FreeRun(run, cap, pool, inFlight)
    requires QuietMidnights(run) && NoFailedSettle(run)
    ensures P.After(run).settled < cap + (pool - 1) as real * (inFlight as real) + 1.0
  {
    FreeCovered(cap, pool, inFlight);
    PoolExcess(pool, inFlight);
    CleanBound(run, FreeTerms(cap, pool, inFlight), (pool - 1) as real);
  }

  // -------------------------------------------------------------------------------------------
  // The bound is reached
  // -------------------------------------------------------------------------------------------

  /** Each of `n` free models answers with something that fails validation. */
  lemma FreeMeterReaches(n: nat, pool: nat)
    requires n <= pool
    ensures FreeMeter(n as real, pool)
  {
    var os := seq(n, i => Served(false, 0));
    var t := Task(seq(n, i => ""), [], false, false, "", true);
    var w := World(true, os, false, [], false, Unreachable);
    AllUnusable(os);
    FreeGuardUse(t, w, 0.0, "", 0);
    assert os[..n] == os;
    assert !exists i: nat :: CreditFirst(os, i);
    assert MetersFree(t, w, 0.0, "", 0, n as real);
  }

  lemma {:induction false} AllUnusable(os: seq<Outcome>)
    requires forall o :: o in os ==> o == Served(false, 0)
    ensures Asked(os) == |os| && Units(os) == |os|
  {
    if os != [] {
      assert os[0] in os && forall o :: o in os[1..] ==> o in os;
      AllUnusable(os[1..]);
    }
  }

  /** `n` calls one after the other, one unit each, then `k` that are all admitted before any of them
      settles, and then settle their full pools. */
  lemma UnitsThenPools(cap: real, pool: nat, inFlight: nat, n: nat, k: nat) returns (run: seq<P.Action>)
    requires pool >= 1 && 1 <= k <= inFlight && (n + k - 1) as real < cap
    ensures CleanFreeRun(run, cap, pool, inFlight)
    ensures P.After(run).settled == n as real + Sum(pool as real, k)
  {
    var m, b := FreeTerms(cap, pool, inFlight), Books(0.0, 0.0, 0, 0.0);
    FreeMeterReaches(1, pool);
    FreeMeterReaches(pool, pool);
    NothingYet(m);
    WholeUnits(n);
    WholeUnits(k);
    run := Repeat([], m, 0, b, 1.0, n);
    b := b.(settled := n as real);
    run := AdmitAll(run, m, 0, b, k);
    b := Books(n as real, k as real, k, 0.0);
    run := SettleAll(run, m, 0, b, pool as real);
    AllSettledIs(b, pool as real, 1.0);
    CalmIsClean(run, m);
  }

  lemma WholeUnits(n: nat)
    ensures Sum(1.0, n) == n as real
    ensures n > 0 ==> Sum(1.0, n - 1) == (n - 1) as real
  {
    SumIs(1.0, n);
    if n > 0 {
      SumIs(1.0, n - 1);
    }
  }

  lemma PoolTotal(cap: nat, pool: nat, inFlight: nat)
    requires cap >= inFlight && pool >= 1
    ensures (cap - inFlight) as real + Sum(pool as real, inFlight) == (cap + (pool - 1) * inFlight) as real
  {
    SumIs(pool as real, inFlight);
    assert inFlight as real * pool as real == (inFlight * pool) as real;
    assert inFlight * pool == (pool - 1) * inFlight + inFlight;
  }

  /** The bound of `FreeUnitsStayBelow` is exact: for every pool and every whole cap that admits
      `inFlight` calls at once, a clean run records cap + (pool - 1) * inFlight units. */
  lemma {:induction false} FreeUnitsBoundReached(cap: nat, pool: nat, inFlight: nat) returns (run: seq<P.Action>)
    requires cap >= inFlight >= 1 && pool >= 1
    ensures CleanFreeRun(run, cap as real, pool, inFlight)
    ensures P.After(run).settled == (cap + (pool - 1) * inFlight) as real
  {
    run := UnitsThenPools(cap as real, pool, inFlight, cap - inFlight, inFlight);
    PoolTotal(cap, pool, inFlight);
  }

  /** A call over a pool of two or more can record a unit more than the bound allows. */
  lemma PoolOvershoots(cap: real, pool: nat, inFlight: nat) returns (run: seq<P.Action>)
    requires cap > 0.0 && inFlight >= 1 && pool >= 2
    ensures CleanFreeRun(run, cap, pool, inFlight) && P.After(run).settled >= cap + 1.0
  {
    var n := LastBelow(cap, 1.0);
    WholeUnits(n + 1);
    run := UnitsThenPools(cap, pool, inFlight, n, 1);
    assert Sum(pool as real, 1) == Sum(pool as real, 0) + pool as real;
  }

  /** The documented overshoot of at most one reserve holds in every clean run if and only if the
      pools have a single model: with two, even calls that never overlap exceed it. */
  lemma FreeCapHoldsIff(cap: real, pool: nat, inFlight: nat)
    requires cap > 0.0 && inFlight >= 1 && pool >= 1
    ensures (forall run :: CleanFreeRun(run, cap, pool, inFlight) ==> P.After(run).settled < cap + 1.0)
            <==> pool == 1
  {
    if pool == 1 {
      FreeCovered(cap, pool, inFlight);
      forall run | CleanFreeRun(run, cap, pool, inFlight)
        ensures P.After(run).settled < cap + 1.0
      {
        CleanWithinReserve(run, FreeTerms(cap, pool, inFlight));
      }
    } else {
      var run := PoolOvershoots(cap, pool, inFlight);
    }
  }
}
