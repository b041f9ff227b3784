/** The gateway's premium metering put together with the budget protocol: when the premium dollar cap
    is kept, given the token limit of a response and the prices. */
module PremiumBudget {
  import P = BudgetProtocol
  import opened BudgetExact
  import opened BudgetGuards
  import opened Gateways

  /** The number of configured fallback models, the most tokens of any response, and the price of a
      million fallback tokens. */
  datatype Prices = Prices(paid: nat, maxTokens: nat, per1M: real)

  predicate TokensWithin(w: World, max: nat) {
    && (forall o :: o in w.fallback && o.Served? ==> o.tokens <= max)
    && (w.sonnet.Served? ==> w.sonnet.tokens <= max)
  }

  /** One response of every fallback model, each at its longest. */
  function WalkPrice(p: Prices): real {
    Sum(Usd(p.maxTokens, p.per1M), p.paid)
  }

  /** One Sonnet response at its longest. */
  function SonnetPrice(p: Prices): real {
    Usd(p.maxTokens, SONNET_USD_PER_1M)
  }

  predicate MetersPremium(t: Task, w: World, p: Prices, sonnet: string, strikes: nat, actual: real) {
    && FitsTask(w, t) && |t.paid| <= p.paid && TokensWithin(w, p.maxTokens)
    && GuardUse(Premium, Settled(actual)) in Complete(t, w, p.per1M, sonnet, strikes).uses
  }

  /** `actual` is what some `complete` call leaves on a premium meter when that guard exits cleanly. */
  ghost predicate PremiumMeter(actual: real, p: Prices) {
    exists t: Task, w: World, sonnet: string, strikes: nat ::
      MetersPremium(t, w, p, sonnet, strikes, actual)
  }

  // -------------------------------------------------------------------------------------------
  // What a premium guard settles
  // -------------------------------------------------------------------------------------------

  /** A clean premium guard was a fallback walk or a Sonnet response, and settles its cost. */
  lemma PremiumGuardUse(t: Task, w: World, per1M: real, sonnet: string, strikes: nat, actual: real)
    requires FitsTask(w, t)
    requires GuardUse(Premium, Settled(actual)) in Complete(t, w, per1M, sonnet, strikes).uses
    ensures actual == Cost(w.fallback[..Asked(w.fallback)], per1M) ||
            (w.sonnet.Served? && actual == Usd(w.sonnet.tokens, SONNET_USD_PER_1M))
  {
  }

  lemma UsdAtMost(tokens: nat, max: nat, per1M: real)
    requires tokens <= max && per1M >= 0.0
    ensures 0.0 <= Usd(tokens, per1M) <= Usd(max, per1M)
  {
    var a, b := tokens as real / 1000000.0, max as real / 1000000.0;
    assert 0.0 <= a <= b;
    assert (b - a) * per1M >= 0.0 && a * per1M >= 0.0;
    assert b * per1M == a * per1M + (b - a) * per1M;
  }

  lemma {:induction false} CostAtMost(os: seq<Outcome>, max: nat, per1M: real, n: nat)
    requires per1M >= 0.0 && |os| <= n && forall o :: o in os && o.Served? ==> o.tokens <= max
    ensures 0.0 <= Cost(os, per1M) <= Sum(Usd(max, per1M), n)
  {
    UsdAtMost(0, max, per1M);
    if n > 0 {
      var rest := if os == [] then [] else os[1..];
      CostAtMost(rest, max, per1M, n - 1);
      if os != [] && os[0].Served? {
        assert os[0] in os;
        UsdAtMost(os[0].tokens, max, per1M);
      }
    }
  }

  lemma PremiumMeterWithin(actual: real, p: Prices)
    requires PremiumMeter(actual, p) && p.per1M >= 0.0
    ensures 0.0 <= actual && (actual <= WalkPrice(p) || actual <= SonnetPrice(p))
  {
    var t: Task, w: World, sonnet: string, strikes: nat :| MetersPremium(t, w, p, sonnet, strikes, actual);
    PremiumGuardUse(t, w, p.per1M, sonnet, strikes, actual);
    var asked := w.fallback[..Asked(w.fallback)];
    assert forall o :: o in asked ==> o in w.fallback;
    CostAtMost(asked, p.maxTokens, p.per1M, p.paid);
    if w.sonnet.Served? {
      UsdAtMost(w.sonnet.tokens, p.maxTokens, SONNET_USD_PER_1M);
    }
  }

  // -------------------------------------------------------------------------------------------
  // The bound
  // -------------------------------------------------------------------------------------------

  /** The premium counter: default reserves, caps at most `cap`, clean exits metered by the gateway at
      these prices, and never more than `inFlight` guards at once. */
  ghost function PremiumTerms(cap: real, p: Prices, inFlight: nat): Terms {
    Terms(cap, DefaultReserve(Premium), (x: real) => PremiumMeter(x, p), inFlight)
  }

  ghost predicate PremiumRun(run: seq<P.Action>, cap: real, p: Prices, inFlight: nat) {
    MeteredRun(run, PremiumTerms(cap, p, inFlight))
  }

  ghost predicate CleanPremiumRun(run: seq<P.Action>, cap: real, p: Prices, inFlight: nat) {
    CleanRun(run, PremiumTerms(cap, p, inFlight))
  }

  /** How much a guard can exceed the reserve. */
  function PremiumSlack(p: Prices): real {
    P.Max(0.0, P.Max(WalkPrice(p), SonnetPrice(p)) - DefaultReserve(Premium))
  }

  lemma PremiumCovered(cap: real, p: Prices, inFlight: nat)
    requires p.per1M >= 0.0
    ensures Covers(PremiumTerms(cap, p, inFlight), PremiumSlack(p))
  {
    forall x | PremiumMeter(x, p)
      ensures x <= DefaultReserve(Premium) + PremiumSlack(p)
    {
      PremiumMeterWithin(x, p);
    }
  }

  /** The premium cap under concurrency: settled spend, counting every guard in flight at its dearest,
      stays below cap + reserve plus the slack of each guard in flight, up to what a mid-flight
      midnight or a failed reconciliation hides. */
  lemma {:induction false} PremiumBound(run: seq<P.Action>, cap: real, p: Prices, inFlight: nat)
    requires cap > 0.0 && p.per1M >= 0.0 && PremiumRun(run, cap, p, inFlight)
    ensures var s := P.After(run);
      s.settled + P.Total(P.Exposure(PremiumSlack(p)), s.calls) <
      cap + DefaultReserve(Premium) + Sum(PremiumSlack(p), inFlight) + s.carry + s.lost
  {
    PremiumCovered(cap, p, inFlight);
    MeteredBound(run, PremiumTerms(cap, p, inFlight), PremiumSlack(p));
  }

  // -------------------------------------------------------------------------------------------
  // When the documented bound holds
  // -------------------------------------------------------------------------------------------

  lemma SonnetMeters(tokens: nat, p: Prices)
    requires tokens <= p.maxTokens
    ensures PremiumMeter(Usd(tokens, SONNET_USD_PER_1M), p)
  {
    var t := Task([""], [], false, true, "", true);
    var w := World(true, [Served(false, 0)], false, [], true, Served(true, tokens));
    assert Asked(w.free) == 1 by { assert w.free[1..] == []; }
    assert w.free[0] in w.free && QualityFailure(w.free[0]);
    var uses := Complete(t, w, p.per1M, "", 0).uses;
    assert uses[1] == GuardUse(Premium, Settled(Usd(tokens, SONNET_USD_PER_1M)));
    assert MetersPremium(t, w, p, "", 0, Usd(tokens, SONNET_USD_PER_1M));
  }

  /** Every fallback model answers at full length with something that fails validation. */
  function LongBad(n: nat, tokens: nat): (os: seq<Outcome>)
    ensures |os| == n && forall o :: o in os ==> o == Served(false, tokens)
  {
    if n == 0 then [] else [Served(false, tokens)] + LongBad(n - 1, tokens)
  }

  lemma {:induction false} LongBadCosts(n: nat, tokens: nat, per1M: real)
    ensures Asked(LongBad(n, tokens)) == n
    ensures Cost(LongBad(n, tokens), per1M) == Sum(Usd(tokens, per1M), n)
  {
    if n > 0 {
      LongBadCosts(n - 1, tokens, per1M);
      assert LongBad(n, tokens)[1..] == LongBad(n - 1, tokens);
    }
  }

  lemma WalkMeters(p: Prices)
    requires p.paid > 0
    ensures PremiumMeter(WalkPrice(p), p)
  {
    var os := LongBad(p.paid, p.maxTokens);
    var t := Task([], seq(p.paid, i => ""), true, false, "", true);
    var w := World(true, [], true, os, false, Unreachable);
    LongBadCosts(p.paid, p.maxTokens, p.per1M);
    assert os[..p.paid] == os && os[p.paid - 1] in os;
    assert WalkEnd(os) == Dry;
    var uses := Complete(t, w, p.per1M, "", 0).uses;
    assert uses[1] == GuardUse(Premium, Settled(WalkPrice(p)));
    assert MetersPremium(t, w, p, "", 0, WalkPrice(p));
  }

  /** The dearer of the two is settled by some guard, unless both are free. */
  lemma DearestMeters(p: Prices)
    requires p.per1M >= 0.0
    ensures PremiumMeter(P.Max(WalkPrice(p), SonnetPrice(p)), p)
  {
    SonnetMeters(p.maxTokens, p);
    if p.paid > 0 {
      WalkMeters(p);
    } else {
      UsdAtMost(0, p.maxTokens, SONNET_USD_PER_1M);
    }
  }

  predicate WithinReserve(p: Prices) {
    WalkPrice(p) <= DefaultReserve(Premium) && SonnetPrice(p) <= DefaultReserve(Premium)
  }

  /** The reserve covers a Sonnet response of up to 33333 tokens. */
  lemma SonnetReserveIff(p: Prices)
    ensures SonnetPrice(p) <= DefaultReserve(Premium) <==> p.maxTokens <= 33333
  {
    var millions := p.maxTokens as real / 1000000.0;
    assert millions * 1000000.0 == p.maxTokens as real;
  }

  /** When a single guard can exceed the reserve, one call on an untouched counter passes a small cap
      by more than a reserve. */
  lemma SmallCapOvershoots(p: Prices, inFlight: nat) returns (cap: real, run: seq<P.Action>)
    requires p.per1M >= 0.0 && inFlight >= 1 && !WithinReserve(p)
    ensures cap > 0.0 && CleanPremiumRun(run, cap, p, inFlight)
    ensures P.After(run).settled >= cap + DefaultReserve(Premium)
  {
    var worst := P.Max(WalkPrice(p), SonnetPrice(p));
    cap := worst - DefaultReserve(Premium);
    var m := PremiumTerms(cap, p, inFlight);
    DearestMeters(p);
    NothingYet(m);
    run := OneCall([], m, 0, Books(0.0, 0.0, 0, 0.0), worst);
    CalmIsClean(run, m);
  }

  /** The documented bound of cap + reserve holds for every cap, in every clean run, if and only if one
      Sonnet response and one full fallback walk each cost at most the reserve. */
  lemma PremiumCapHoldsIff(p: Prices, inFlight: nat)
    requires p.per1M >= 0.0 && inFlight >= 1
    ensures (forall cap, run :: cap > 0.0 && CleanPremiumRun(run, cap, p, inFlight) ==>
               P.After(run).settled < cap + DefaultReserve(Premium))
            <==> WithinReserve(p)
  {
    if WithinReserve(p) {
      forall cap, run | cap > 0.0 && CleanPremiumRun(run, cap, p, inFlight)
        ensures P.After(run).settled < cap + DefaultReserve(Premium)
      {
        PremiumCovered(cap, p, inFlight);
        CleanWithinReserve(run, PremiumTerms(cap, p, inFlight));
      }
    } else {
      var cap, run := SmallCapOvershoots(p, inFlight);
    }
  }

  /** As soon as a guard can exceed the reserve by the price of one Sonnet token, no cap at all is kept:
      calls of one token bring the counter up to it, and the dearest call passes it. */
  lemma {:induction false} EveryCapOvershoots(cap: real, p: Prices, inFlight: nat) returns (run: seq<P.Action>)
    requires cap > 0.0 && p.per1M >= 0.0 && inFlight >= 1 && p.maxTokens >= 1
    requires PremiumSlack(p) >= Usd(1, SONNET_USD_PER_1M)
    ensures CleanPremiumRun(run, cap, p, inFlight)
    ensures P.After(run).settled >= cap + DefaultReserve(Premium)
  {
    var m, b := PremiumTerms(cap, p, inFlight), Books(0.0, 0.0, 0, 0.0);
    var token := Usd(1, SONNET_USD_PER_1M);
    var n := LastBelow(cap, token);
    SonnetMeters(1, p);
    DearestMeters(p);
    NothingYet(m);
    run := Repeat([], m, 0, b, token, n);
    b := b.(settled := Sum(token, n));
    run := OneCall(run, m, 0, b, P.Max(WalkPrice(p), SonnetPrice(p)));
    CalmIsClean(run, m);
  }
}
