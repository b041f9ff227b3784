/** What `complete` guarantees: who answers, how many calls are made, what is metered, and what
    the strike counter does over a day of interleaved calls. */
module GatewayProofs {
  import opened BudgetGuards
  import opened Gateways

  // -------------------------------------------------------------------------------------------
  // Who answers
  // -------------------------------------------------------------------------------------------

  /** The first usable response of a pool, with no 402 before it. */
  predicate FirstUsable(os: seq<Outcome>, i: nat) {
    && i < |os| && os[i].Served? && os[i].valid
    && forall j :: 0 <= j < i ==> !os[j].CreditOut? && !(os[j].Served? && os[j].valid)
  }

  /** A 402 with no usable response before it. */
  predicate CreditFirst(os: seq<Outcome>, i: nat) {
    && i < |os| && os[i].CreditOut?
    && forall j :: 0 <= j < i ==> !os[j].CreditOut? && !(os[j].Served? && os[j].valid)
  }

  predicate NothingDecisive(os: seq<Outcome>) {
    forall o :: o in os ==> !o.CreditOut? && !(o.Served? && o.valid)
  }

  lemma WalkMeans(os: seq<Outcome>)
    ensures forall i: nat :: WalkEnd(os) == Found(i) <==> FirstUsable(os, i)
    ensures WalkEnd(os).Credit? <==> exists i: nat :: CreditFirst(os, i)
    ensures WalkEnd(os).Dry? <==> NothingDecisive(os)
  {
    var n := Asked(os);
    match WalkEnd(os)
    case Found(i) => assert FirstUsable(os, i) && os[i] in os;
    case Credit => assert CreditFirst(os, n - 1) && os[n - 1] in os;
    case Dry =>
  }

  /** `complete` returns model `m` exactly in these three cases: the first usable free model not
      preceded by a 402; with nothing decisive in the free pool the first such paid model; and Sonnet,
      for a high-stakes task outside the fallback set some free model of which answered with something
      that is no JSON or fails validation. */
  lemma AnswerIff(t: Task, w: World, per1M: real, sonnet: string, strikes: nat, m: string)
    requires FitsTask(w, t)
    ensures Complete(t, w, per1M, sonnet, strikes).ending == Answer(m) <==>
      && t.consent && w.freeAdmitted
      && (|| (exists i: nat ::
                && i < |w.free| && w.free[i].Served? && w.free[i].valid && t.models[i] == m
                && forall j :: 0 <= j < i ==> !w.free[j].CreditOut? && !(w.free[j].Served? && w.free[j].valid))
          || (&& (forall o :: o in w.free ==> !o.CreditOut? && !(o.Served? && o.valid))
              && t.paidTask && w.fallbackAdmitted
              && exists i: nat ::
                   && i < |w.fallback| && w.fallback[i].Served? && w.fallback[i].valid && t.paid[i] == m
                   && forall j :: 0 <= j < i ==>
                        !w.fallback[j].CreditOut? && !(w.fallback[j].Served? && w.fallback[j].valid))
          || (&& (forall o :: o in w.free ==> !o.CreditOut? && !(o.Served? && o.valid))
              && (exists o :: o in w.free && (o.NonJson? || (o.Served? && !o.valid)))
              && t.highStakes && !t.paidTask && w.sonnetAdmitted
              && w.sonnet.Served? && w.sonnet.valid && sonnet == m))
  {
    WalkMeans(w.free);
    WalkMeans(w.fallback);
    if WalkEnd(w.free).Found? {
      assert FirstUsable(w.free, WalkEnd(w.free).i);
    } else if WalkEnd(w.free).Dry? && t.paidTask && w.fallbackAdmitted && WalkEnd(w.fallback).Found? {
      assert FirstUsable(w.fallback, WalkEnd(w.fallback).i);
    }
    assert forall i: nat :: FirstUsable(w.free, i) ==> WalkEnd(w.free) == Found(i);
    assert forall i: nat :: FirstUsable(w.fallback, i) ==> WalkEnd(w.fallback) == Found(i);
  }

  /** Every call but the last was neither usable nor a 402; the credit error is raised exactly when
      some call was a 402, and an answer given exactly when some call was usable. */
  ghost predicate StopsInTime(r: Report) {
    && (forall k :: 0 <= k < |r.asked| - 1 ==>
          !r.asked[k].CreditOut? && !(r.asked[k].Served? && r.asked[k].valid))
    && (r.ending.CreditExhausted? <==> exists o :: o in r.asked && o.CreditOut?)
    && (r.ending.Answer? <==> exists o :: o in r.asked && o.Served? && o.valid)
  }

  lemma WalkStops(before: seq<Outcome>, os: seq<Outcome>)
    requires NothingDecisive(before)
    ensures var asked := before + os[..Asked(os)];
      && (forall k :: 0 <= k < |asked| - 1 ==> !Decisive(asked[k]))
      && (WalkEnd(os).Dry? ==> NothingDecisive(asked))
      && (WalkEnd(os).Credit? <==> exists o :: o in asked && o.CreditOut?)
      && (WalkEnd(os).Found? <==> exists o :: o in asked && o.Served? && o.valid)
  {
    var n := Asked(os);
    if n > 0 && Decisive(os[n - 1]) {
      assert os[n - 1] in before + os[..n];
    }
  }

  lemma EscalateStops(t: Task, w: World, sonnet: string, strikes: nat, r: Report)
    requires NothingDecisive(r.asked)
    ensures var end := Escalate(t, w, sonnet, strikes, r);
      StopsInTime(end) && |end.asked| <= |r.asked| + 1
  {
    var end := Escalate(t, w, sonnet, strikes, r);
    if end.asked != r.asked {
      assert w.sonnet in end.asked;
    }
  }

  lemma AfterFreePoolStops(t: Task, w: World, per1M: real, sonnet: string, strikes: nat, r: Report)
    requires FitsTask(w, t) && NothingDecisive(r.asked)
    ensures var end := AfterFreePool(t, w, per1M, sonnet, strikes, r);
      StopsInTime(end) && |end.asked| <= |r.asked| + |t.paid| + 1
  {
    WalkStops(r.asked, w.fallback);
    if !t.paidTask || t.paid == [] {
      EscalateStops(t, w, sonnet, strikes, r);
    } else if w.fallbackAdmitted && WalkEnd(w.fallback).Dry? {
      var asked := w.fallback[..Asked(w.fallback)];
      var r' := r.(asked := r.asked + asked,
                   uses := r.uses + [GuardUse(Premium, Settled(Cost(asked, per1M)))],
                   charges := r.charges + Charges(t.paid, asked, per1M));
      EscalateStops(t, w, sonnet, strikes, r');
    }
  }

  /** At most one call per pool entry plus Sonnet, none after a usable response or a 402. */
  lemma CallsBounded(t: Task, w: World, per1M: real, sonnet: string, strikes: nat)
    requires FitsTask(w, t)
    ensures var r := Complete(t, w, per1M, sonnet, strikes);
      StopsInTime(r) && |r.asked| <= |t.models| + |t.paid| + 1
  {
    WalkStops([], w.free);
    var asked := w.free[..Asked(w.free)];
    assert [] + asked == asked;
    if WalkEnd(w.free).Dry? {
      var r := Report(AllFailed, asked, [GuardUse(Free, Settled(Units(asked) as real))], []);
      AfterFreePoolStops(t, w, per1M, sonnet, strikes, r);
    }
  }

  /** The strike counter is not read before models are called: it changes neither the calls nor
      the spend, only which of the two quality errors is raised. */
  lemma StrikesDoNotGate(t: Task, w: World, per1M: real, sonnet: string, some: nat, other: nat)
    requires FitsTask(w, t)
    ensures var r, r' := Complete(t, w, per1M, sonnet, some), Complete(t, w, per1M, sonnet, other);
      r.asked == r'.asked && r.uses == r'.uses && r.charges == r'.charges &&
      (r.ending == r'.ending || (r.ending == Struck(some) && r'.ending == Struck(other)))
  {
  }

  // -------------------------------------------------------------------------------------------
  // Premium accounting
  // -------------------------------------------------------------------------------------------

  function Metered(charges: seq<Charge>): real {
    if charges == [] then 0.0 else charges[0].usd + Metered(charges[1..])
  }

  function SettledPremium(uses: seq<GuardUse>): real {
    if uses == [] then 0.0
    else (if uses[0].kind.Premium? && uses[0].left.Settled? then uses[0].left.actual else 0.0)
         + SettledPremium(uses[1..])
  }

  lemma {:induction false} MeteredJoin(a: seq<Charge>, b: seq<Charge>)
    ensures Metered(a + b) == Metered(a) + Metered(b)
  {
    if a == [] {
      assert a + b == b;
    } else {
      assert (a + b)[1..] == a[1..] + b;
      MeteredJoin(a[1..], b);
    }
  }

  lemma {:induction false} SettledJoin(a: seq<GuardUse>, b: seq<GuardUse>)
    ensures SettledPremium(a + b) == SettledPremium(a) + SettledPremium(b)
  {
    if a == [] {
      assert a + b == b;
    } else {
      assert (a + b)[1..] == a[1..] + b;
      SettledJoin(a[1..], b);
    }
  }

  /** The metric entries of a walk add up to its cost. */
  lemma {:induction false} ChargesAreCost(models: seq<string>, os: seq<Outcome>, per1M: real)
    requires |os| <= |models|
    ensures Metered(Charges(models, os, per1M)) == Cost(os, per1M)
  {
    if os != [] {
      ChargesAreCost(models[1..], os[1..], per1M);
      MeteredJoin(ChargeFor(models[0], os[0], per1M), Charges(models[1..], os[1..], per1M));
    }
  }

  predicate Priced(o: Outcome) {
    o.Served? && o.tokens > 0
  }

  lemma {:induction false} CostPositiveIff(os: seq<Outcome>, per1M: real)
    requires per1M > 0.0
    ensures Cost(os, per1M) >= 0.0
    ensures Cost(os, per1M) > 0.0 <==> exists o :: o in os && Priced(o)
  {
    if os != [] {
      CostPositiveIff(os[1..], per1M);
      assert forall o :: o in os <==> o == os[0] || o in os[1..];
      if os[0].Served? {
        UsdPositiveIff(os[0], per1M);
      }
    }
  }

  lemma UsdPositiveIff(o: Outcome, per1M: real)
    requires per1M > 0.0 && o.Served?
    ensures Usd(o.tokens, per1M) >= 0.0 && (Usd(o.tokens, per1M) > 0.0 <==> Priced(o))
  {
    var millions := o.tokens as real / 1000000.0;
    assert millions > 0.0 <==> o.tokens > 0;
  }

  /** Some priced response and, after it, the 402 that ends the walk. */
  ghost predicate PricedThenCredit(os: seq<Outcome>) {
    exists i: nat :: CreditFirst(os, i) && exists o :: o in os[..i] && Priced(o)
  }

  /** The fallback ran, was billed for some response, and then met a 402. */
  ghost predicate PaidThenCreditOut(t: Task, w: World)
    requires FitsTask(w, t)
  {
    && t.consent && w.freeAdmitted && NothingDecisive(w.free)
    && t.paidTask && w.fallbackAdmitted && PricedThenCredit(w.fallback)
  }

  /** What the USD metric shows above what the premium budget settled. */
  function Gap(r: Report): real {
    Metered(r.charges) - SettledPremium(r.uses)
  }

  lemma WalkCost(os: seq<Outcome>, per1M: real)
    requires per1M > 0.0 && WalkEnd(os).Credit?
    ensures Cost(os[..Asked(os)], per1M) >= 0.0
    ensures Cost(os[..Asked(os)], per1M) > 0.0 <==> PricedThenCredit(os)
  {
    var n := Asked(os);
    CostPositiveIff(os[..n], per1M);
    assert CreditFirst(os, n - 1);
    assert os[..n] == os[..n - 1] + [os[n - 1]];
    forall i: nat | CreditFirst(os, i)
      ensures i == n - 1
    {
    }
  }

  lemma FreeIsNotPremium(left: Left)
    ensures SettledPremium([GuardUse(Free, left)]) == 0.0
  {
    assert [GuardUse(Free, left)][1..] == [];
  }

  lemma EscalateGap(t: Task, w: World, sonnet: string, strikes: nat, r: Report)
    ensures Gap(Escalate(t, w, sonnet, strikes, r)) == Gap(r)
  {
    var end := Escalate(t, w, sonnet, strikes, r);
    if end.uses != r.uses {
      assert end.uses == r.uses + [end.uses[|r.uses|]];
      SettledJoin(r.uses, [end.uses[|r.uses|]]);
      MeteredJoin(r.charges, ChargeFor(sonnet, w.sonnet, SONNET_USD_PER_1M));
      assert r.charges + [] == r.charges;
    }
  }

  lemma FallbackGap(t: Task, w: World, per1M: real, sonnet: string, strikes: nat, r: Report)
    requires FitsTask(w, t) && per1M > 0.0
    ensures var end := AfterFreePool(t, w, per1M, sonnet, strikes, r);
      && Gap(end) >= Gap(r)
      && (Gap(end) == Gap(r) <==>
          !(t.paidTask && w.fallbackAdmitted && PricedThenCredit(w.fallback)))
  {
    if !t.paidTask || t.paid == [] {
      EscalateGap(t, w, sonnet, strikes, r);
    } else if !w.fallbackAdmitted {
      SettledJoin(r.uses, [GuardUse(Premium, NotAdmitted)]);
    } else {
      var asked := w.fallback[..Asked(w.fallback)];
      var left := if WalkEnd(w.fallback).Credit? then RolledBack else Settled(Cost(asked, per1M));
      SettledJoin(r.uses, [GuardUse(Premium, left)]);
      MeteredJoin(r.charges, Charges(t.paid, asked, per1M));
      ChargesAreCost(t.paid, asked, per1M);
      WalkMeans(w.fallback);
      if WalkEnd(w.fallback).Credit? {
        WalkCost(w.fallback, per1M);
      }
      var r' := r.(asked := r.asked + asked,
                   uses := r.uses + [GuardUse(Premium, left)],
                   charges := r.charges + Charges(t.paid, asked, per1M));
      EscalateGap(t, w, sonnet, strikes, r');
    }
  }

  /** For one call the metric is never below what the budget settled, and it is above it exactly
      when a billed fallback response was followed by a 402 in the same guard. */
  lemma MetricCoversSettled(t: Task, w: World, per1M: real, sonnet: string, strikes: nat)
    requires FitsTask(w, t) && per1M > 0.0
    ensures var r := Complete(t, w, per1M, sonnet, strikes);
      Gap(r) >= 0.0 && (Gap(r) == 0.0 <==> !PaidThenCreditOut(t, w))
  {
    WalkMeans(w.free);
    FreeIsNotPremium(NotAdmitted);
    FreeIsNotPremium(RolledBack);
    FreeIsNotPremium(Settled(Units(w.free[..Asked(w.free)]) as real));
    if t.consent && w.freeAdmitted && WalkEnd(w.free).Dry? {
      var asked := w.free[..Asked(w.free)];
      var r := Report(AllFailed, asked, [GuardUse(Free, Settled(Units(asked) as real))], []);
      FallbackGap(t, w, per1M, sonnet, strikes, r);
    }
  }

  // What is billed ----------------------------------------------------------------------------

  /** What a response is billed for, JSON or not. */
  function Tokens(o: Outcome): nat {
    if o.Served? || o.NonJson? then o.tokens else 0
  }

  function Bill(os: seq<Outcome>, per1M: real): real {
    if os == [] then 0.0 else Usd(Tokens(os[0]), per1M) + Bill(os[1..], per1M)
  }

  /** The serving calls of a report that went to paid models: those after the free pool's. */
  function PremiumCalls(w: World, r: Report): seq<Outcome> {
    if |r.asked| < Asked(w.free) then [] else r.asked[Asked(w.free)..]
  }

  /** A call's paid models are the fallback's for a fallback task, else Sonnet. */
  function Rate(t: Task, per1M: real): real {
    if t.paidTask then per1M else SONNET_USD_PER_1M
  }

  /** Some response was no JSON, or a 402 came beside some response. */
  ghost predicate LosesBill(calls: seq<Outcome>) {
    || (exists o :: o in calls && o.NonJson? && o.tokens > 0)
    || ((exists o :: o in calls && o.CreditOut?) && exists o :: o in calls && Tokens(o) > 0)
  }

  lemma UsdOfTokens(tokens: nat, per1M: real)
    requires per1M > 0.0
    ensures Usd(tokens, per1M) >= 0.0 && (Usd(tokens, per1M) > 0.0 <==> tokens > 0)
  {
    var millions := tokens as real / 1000000.0;
    assert millions > 0.0 <==> tokens > 0;
  }

  lemma {:induction false} BillAndCost(os: seq<Outcome>, per1M: real)
    requires per1M > 0.0
    ensures 0.0 <= Cost(os, per1M) <= Bill(os, per1M)
    ensures Cost(os, per1M) == Bill(os, per1M) <==> !exists o :: o in os && o.NonJson? && o.tokens > 0
    ensures Bill(os, per1M) > 0.0 <==> exists o :: o in os && Tokens(o) > 0
  {
    if os != [] {
      BillAndCost(os[1..], per1M);
      assert forall o :: o in os <==> o == os[0] || o in os[1..];
      UsdOfTokens(Tokens(os[0]), per1M);
    }
  }

  /** What a guard over these calls settles: their cost, or nothing after a 402. */
  lemma GuardBill(calls: seq<Outcome>, per1M: real, settled: real)
    requires per1M > 0.0
    requires settled == if exists o :: o in calls && o.CreditOut? then 0.0 else Cost(calls, per1M)
    ensures settled <= Bill(calls, per1M)
    ensures settled == Bill(calls, per1M) <==> !LosesBill(calls)
  {
    BillAndCost(calls, per1M);
  }

  ghost predicate SettlesCalls(t: Task, w: World, per1M: real, r: Report) {
    var calls := PremiumCalls(w, r);
    SettledPremium(r.uses) ==
    if exists o :: o in calls && o.CreditOut? then 0.0 else Cost(calls, Rate(t, per1M))
  }

  lemma EscalateSettlesCalls(t: Task, w: World, per1M: real, sonnet: string, strikes: nat, r: Report)
    requires |r.asked| >= Asked(w.free) && SettlesCalls(t, w, per1M, r)
    requires t.paidTask || (|r.asked| == Asked(w.free) && SettledPremium(r.uses) == 0.0)
    ensures SettlesCalls(t, w, per1M, Escalate(t, w, sonnet, strikes, r))
  {
    var end, n := Escalate(t, w, sonnet, strikes, r), Asked(w.free);
    if end.uses != r.uses {
      assert end.uses == r.uses + [end.uses[|r.uses|]];
      SettledJoin(r.uses, [end.uses[|r.uses|]]);
    }
    if end.asked != r.asked {
      assert end.asked[n..] == [w.sonnet];
      assert [w.sonnet][1..] == [] && w.sonnet in [w.sonnet];
    }
  }

  /** The report after a fallback walk. */
  function Walked(t: Task, w: World, per1M: real, r: Report): Report
    requires FitsTask(w, t)
  {
    var asked := w.fallback[..Asked(w.fallback)];
    var left := if WalkEnd(w.fallback).Credit? then RolledBack else Settled(Cost(asked, per1M));
    r.(asked := r.asked + asked,
       uses := r.uses + [GuardUse(Premium, left)],
       charges := r.charges + Charges(t.paid, asked, per1M))
  }

  /** What the fallback's guard settles for the calls of its walk. */
  lemma WalkSettles(os: seq<Outcome>, per1M: real)
    ensures var asked := os[..Asked(os)];
      (if WalkEnd(os).Credit? then 0.0 else Cost(asked, per1M)) ==
      if exists o :: o in asked && o.CreditOut? then 0.0 else Cost(asked, per1M)
  {
    WalkStops([], os);
    assert [] + os[..Asked(os)] == os[..Asked(os)];
  }

  lemma SettledSnoc(uses: seq<GuardUse>, left: Left)
    ensures SettledPremium(uses + [GuardUse(Premium, left)]) ==
            SettledPremium(uses) + if left.Settled? then left.actual else 0.0
  {
    SettledJoin(uses, [GuardUse(Premium, left)]);
    assert [GuardUse(Premium, left)][1..] == [];
  }

  lemma SettlesThese(t: Task, w: World, per1M: real, r: Report, calls: seq<Outcome>, settled: real)
    requires PremiumCalls(w, r) == calls && SettledPremium(r.uses) == settled
    requires settled == if exists o :: o in calls && o.CreditOut? then 0.0 else Cost(calls, Rate(t, per1M))
    ensures SettlesCalls(t, w, per1M, r)
  {
  }

  lemma WalkSettlesCalls(t: Task, w: World, per1M: real, r: Report)
    requires FitsTask(w, t) && |r.asked| == Asked(w.free) && SettledPremium(r.uses) == 0.0 && t.paidTask
    ensures SettlesCalls(t, w, per1M, Walked(t, w, per1M, r))
  {
    var walk := WalkEnd(w.fallback);
    var asked := w.fallback[..Asked(w.fallback)];
    WalkSettles(w.fallback, per1M);
    SettledSnoc(r.uses, if walk.Credit? then RolledBack else Settled(Cost(asked, per1M)));
    assert (r.asked + asked)[|r.asked|..] == asked;
    SettlesThese(t, w, per1M, Walked(t, w, per1M, r), asked, if walk.Credit? then 0.0 else Cost(asked, per1M));
  }

  lemma SameCalls(t: Task, w: World, per1M: real, r: Report, end: Report)
    requires SettlesCalls(t, w, per1M, r) && end.asked == r.asked && end.uses == r.uses
    ensures SettlesCalls(t, w, per1M, end)
  {
  }

  lemma FallbackSettlesCalls(t: Task, w: World, per1M: real, sonnet: string, strikes: nat, r: Report)
    requires FitsTask(w, t) && |r.asked| == Asked(w.free) && SettledPremium(r.uses) == 0.0
    ensures SettlesCalls(t, w, per1M, AfterFreePool(t, w, per1M, sonnet, strikes, r))
  {
    var end := AfterFreePool(t, w, per1M, sonnet, strikes, r);
    assert r.asked[Asked(w.free)..] == [];
    if !t.paidTask || t.paid == [] {
      EscalateSettlesCalls(t, w, per1M, sonnet, strikes, r);
    } else if !w.fallbackAdmitted {
      SettledJoin(r.uses, [GuardUse(Premium, NotAdmitted)]);
    } else {
      var r' := Walked(t, w, per1M, r);
      WalkSettlesCalls(t, w, per1M, r);
      if WalkEnd(w.fallback).Dry? {
        EscalateSettlesCalls(t, w, per1M, sonnet, strikes, r');
      } else {
        SameCalls(t, w, per1M, r', end);
      }
    }
  }

  lemma CompleteSettlesCalls(t: Task, w: World, per1M: real, sonnet: string, strikes: nat)
    requires FitsTask(w, t)
    ensures SettlesCalls(t, w, per1M, Complete(t, w, per1M, sonnet, strikes))
  {
    FreeIsNotPremium(NotAdmitted);
    FreeIsNotPremium(RolledBack);
    var asked := w.free[..Asked(w.free)];
    FreeIsNotPremium(Settled(Units(asked) as real));
    assert asked[Asked(w.free)..] == [];
    if t.consent && w.freeAdmitted && WalkEnd(w.free).Dry? {
      var r := Report(AllFailed, asked, [GuardUse(Free, Settled(Units(asked) as real))], []);
      FallbackSettlesCalls(t, w, per1M, sonnet, strikes, r);
    }
  }

  /** The premium budget never settles more than the paid models bill, and settles exactly that if and
      only if none of them answered with a billed body that is no JSON and no 402 came after a billed
      response. */
  lemma {:induction false} BillCoversSettled(t: Task, w: World, per1M: real, sonnet: string, strikes: nat)
    requires FitsTask(w, t) && per1M > 0.0
    ensures var r := Complete(t, w, per1M, sonnet, strikes);
      var bill := Bill(PremiumCalls(w, r), Rate(t, per1M));
      && SettledPremium(r.uses) <= bill
      && (SettledPremium(r.uses) == bill <==> !LosesBill(PremiumCalls(w, r)))
  {
    var r := Complete(t, w, per1M, sonnet, strikes);
    CompleteSettlesCalls(t, w, per1M, sonnet, strikes);
    GuardBill(PremiumCalls(w, r), Rate(t, per1M), SettledPremium(r.uses));
  }

  /** A Sonnet response is settled at its cost whether or not it then passes validation. */
  lemma SonnetSettlesEitherWay(t: Task, w: World, per1M: real, sonnet: string, strikes: nat)
    requires FitsTask(w, t) && t.consent && w.freeAdmitted && NothingDecisive(w.free)
    requires exists o :: o in w.free && (o.NonJson? || (o.Served? && !o.valid))
    requires t.highStakes && !t.paidTask && w.sonnetAdmitted && w.sonnet.Served?
    ensures SettledPremium(Complete(t, w, per1M, sonnet, strikes).uses) ==
            Usd(w.sonnet.tokens, SONNET_USD_PER_1M)
  {
    WalkMeans(w.free);
    var settled := GuardUse(Free, Settled(Units(w.free[..Asked(w.free)]) as real));
    var spent := GuardUse(Premium, Settled(Usd(w.sonnet.tokens, SONNET_USD_PER_1M)));
    assert Complete(t, w, per1M, sonnet, strikes).uses == [settled] + [spent];
    SettledJoin([settled], [spent]);
  }

  // -------------------------------------------------------------------------------------------
  // A day of calls: their strike INCRs happen in some order, which is the order used here
  // -------------------------------------------------------------------------------------------

  datatype Request = Request(task: Task, world: World)

  predicate AllFit(requests: seq<Request>) {
    forall q :: q in requests ==> FitsTask(q.world, q.task)
  }

  datatype Day = Day(strikes: map<string, nat>, reports: seq<Report>)

  predicate QualityExit(r: Report) {
    r.ending.QualityError? || r.ending.ThreeStrikes?
  }

  function RunDay(requests: seq<Request>, per1M: real, sonnet: string): (d: Day)
    requires AllFit(requests)
    ensures |d.reports| == |requests|
  {
    if requests == [] then Day(map[], [])
    else
      var d := RunDay(requests[..|requests| - 1], per1M, sonnet);
      var q := requests[|requests| - 1];
      var key := q.task.strikeKey;
      assert q in requests;
      var r := Complete(q.task, q.world, per1M, sonnet, StrikesOf(d.strikes, key));
      Day(StrikesAfter(d.strikes, key, r.ending), d.reports + [r])
  }

  /** How many of the requests for `key` ended in a quality failure, and how many of those raised
      the plain error. */
  function QualityExits(requests: seq<Request>, reports: seq<Report>, key: string): nat
    requires |reports| == |requests|
  {
    if requests == [] then 0
    else
      var n := |requests| - 1;
      QualityExits(requests[..n], reports[..n], key) +
      if requests[n].task.strikeKey == key && QualityExit(reports[n]) then 1 else 0
  }

  function PlainExits(requests: seq<Request>, reports: seq<Report>, key: string): nat
    requires |reports| == |requests|
  {
    if requests == [] then 0
    else
      var n := |requests| - 1;
      PlainExits(requests[..n], reports[..n], key) +
      if requests[n].task.strikeKey == key && reports[n].ending.QualityError? then 1 else 0
  }

  /** Three strikes: with `n` quality exits the counter is `n`, the first two raise the plain error
      and every later one the skip error. No other exit touches the counter. */
  lemma {:induction false} ThreeStrikeRule(requests: seq<Request>, per1M: real, sonnet: string, key: string)
    requires AllFit(requests)
    ensures var d := RunDay(requests, per1M, sonnet);
      var n := QualityExits(requests, d.reports, key);
      && StrikesOf(d.strikes, key) == n
      && PlainExits(requests, d.reports, key) == if n < 2 then n else 2
  {
    if requests != [] {
      var front := requests[..|requests| - 1];
      ThreeStrikeRule(front, per1M, sonnet, key);
      var d, d' := RunDay(front, per1M, sonnet), RunDay(requests, per1M, sonnet);
      assert d'.reports[..|front|] == d.reports;
      var q := requests[|front|];
      StrikeEnding(q.task, q.world, per1M, sonnet, StrikesOf(d.strikes, q.task.strikeKey));
    }
  }

  lemma StrikeEnding(t: Task, w: World, per1M: real, sonnet: string, strikes: nat)
    requires FitsTask(w, t)
    ensures var r := Complete(t, w, per1M, sonnet, strikes);
      && (QualityExit(r) ==> r.ending == Struck(strikes))
      && (QualityExit(r) ==> r.ending == if strikes >= 2 then ThreeStrikes(strikes + 1) else QualityError)
  {
  }

  /** Exactly which calls end in a quality failure: the free pool gave nothing usable and some
      unusable response, no 402 came first, the paid fallback did not help, and Sonnet, where it
      applies, answered with something that fails validation. */
  lemma QualityExitIff(t: Task, w: World, per1M: real, sonnet: string, strikes: nat)
    requires FitsTask(w, t)
    ensures var end := Complete(t, w, per1M, sonnet, strikes).ending;
      (end.QualityError? || end.ThreeStrikes?) <==>
      && t.consent && w.freeAdmitted
      && (forall o :: o in w.free ==> !o.CreditOut? && !(o.Served? && o.valid))
      && (exists o :: o in w.free && (o.NonJson? || (o.Served? && !o.valid)))
      && (t.paidTask && t.paid != [] ==>
            w.fallbackAdmitted && forall o :: o in w.fallback ==> !o.CreditOut? && !(o.Served? && o.valid))
      && (t.highStakes && !t.paidTask ==> w.sonnetAdmitted && w.sonnet.Served? && !w.sonnet.valid)
  {
    WalkMeans(w.free);
    WalkMeans(w.fallback);
  }

  /** Exactly which calls end in an error from outside the gateway's own classes: those that reach
      Sonnet and get a non-JSON body, a 429 or a status other than 402 from it. */
  lemma RawErrorIff(t: Task, w: World, per1M: real, sonnet: string, strikes: nat)
    requires FitsTask(w, t)
    ensures Complete(t, w, per1M, sonnet, strikes).ending.RawError? <==>
      && t.consent && w.freeAdmitted
      && (forall o :: o in w.free ==> !o.CreditOut? && !(o.Served? && o.valid))
      && (exists o :: o in w.free && (o.NonJson? || (o.Served? && !o.valid)))
      && t.highStakes && !t.paidTask && w.sonnetAdmitted
      && (w.sonnet.NonJson? || w.sonnet.RateLimited? || w.sonnet.OtherStatus?)
  {
    WalkMeans(w.free);
    WalkMeans(w.fallback);
  }

  // -------------------------------------------------------------------------------------------
  // The day's premium accounts
  // -------------------------------------------------------------------------------------------

  function DayGap(reports: seq<Report>): real {
    if reports == [] then 0.0 else DayGap(reports[..|reports| - 1]) + Gap(reports[|reports| - 1])
  }

  lemma DayGapSnoc(reports: seq<Report>, r: Report)
    ensures DayGap(reports + [r]) == DayGap(reports) + Gap(r)
  {
    assert (reports + [r])[..|reports|] == reports;
  }

  /** Over any day the USD metrics sum to at least the settled premium spend, with equality exactly
      when no request met a 402 after a billed fallback response. */
  lemma {:induction false} PremiumAccounts(requests: seq<Request>, per1M: real, sonnet: string)
    requires AllFit(requests) && per1M > 0.0
    ensures var gap := DayGap(RunDay(requests, per1M, sonnet).reports);
      && gap >= 0.0
      && (gap == 0.0 <==> forall q :: q in requests ==> !PaidThenCreditOut(q.task, q.world))
  {
    if requests != [] {
      var front, q := requests[..|requests| - 1], requests[|requests| - 1];
      assert requests == front + [q];
      PremiumAccounts(front, per1M, sonnet);
      var d := RunDay(front, per1M, sonnet);
      var strikes := StrikesOf(d.strikes, q.task.strikeKey);
      var r := Complete(q.task, q.world, per1M, sonnet, strikes);
      MetricCoversSettled(q.task, q.world, per1M, sonnet, strikes);
      DayGapSnoc(d.reports, r);
      assert RunDay(requests, per1M, sonnet).reports == d.reports + [r];
    }
  }

  function DaySettled(reports: seq<Report>): real {
    if reports == [] then 0.0
    else DaySettled(reports[..|reports| - 1]) + SettledPremium(reports[|reports| - 1].uses)
  }

  /** What Sonnet bills for the requests. */
  function SonnetCosts(requests: seq<Request>): real {
    if requests == [] then 0.0
    else SonnetCosts(requests[..|requests| - 1]) + SonnetCost(requests[|requests| - 1])
  }

  function SonnetCost(q: Request): real {
    if q.world.sonnet.Served? then Usd(q.world.sonnet.tokens, SONNET_USD_PER_1M) else 0.0
  }

  lemma DaySettledSnoc(reports: seq<Report>, r: Report)
    ensures DaySettled(reports + [r]) == DaySettled(reports) + SettledPremium(r.uses)
  {
    assert (reports + [r])[..|reports|] == reports;
  }

  lemma RunDaySnoc(requests: seq<Request>, q: Request, per1M: real, sonnet: string)
    requires AllFit(requests) && FitsTask(q.world, q.task)
    ensures AllFit(requests + [q])
    ensures var d := RunDay(requests, per1M, sonnet);
      RunDay(requests + [q], per1M, sonnet).reports == d.reports +
      [Complete(q.task, q.world, per1M, sonnet, StrikesOf(d.strikes, q.task.strikeKey))]
  {
    assert (requests + [q])[..|requests|] == requests;
  }

  /** A high-stakes request that reaches Sonnet and always gets a bad response from it. */
  ghost predicate AlwaysBad(q: Request) {
    && FitsTask(q.world, q.task) && q.task.consent && q.world.freeAdmitted
    && NothingDecisive(q.world.free)
    && (exists o :: o in q.world.free && (o.NonJson? || (o.Served? && !o.valid)))
    && q.task.highStakes && !q.task.paidTask && q.world.sonnetAdmitted
    && q.world.sonnet.Served? && !q.world.sonnet.valid
  }

  lemma AlwaysBadSpends(q: Request, per1M: real, sonnet: string, strikes: nat)
    requires AlwaysBad(q)
    ensures SettledPremium(Complete(q.task, q.world, per1M, sonnet, strikes).uses) == SonnetCost(q)
  {
    SonnetSettlesEitherWay(q.task, q.world, per1M, sonnet, strikes);
  }

  /** Three strikes do not bound premium spend: on a day of such requests, however many there are for
      one ticker, every single one settles its full cost. */
  lemma {:induction false} StrikesDoNotBoundSpend(requests: seq<Request>, per1M: real, sonnet: string)
    requires AllFit(requests) && forall q :: q in requests ==> AlwaysBad(q)
    ensures DaySettled(RunDay(requests, per1M, sonnet).reports) == SonnetCosts(requests)
  {
    if requests != [] {
      var front, q := requests[..|requests| - 1], requests[|requests| - 1];
      assert requests == front + [q];
      StrikesDoNotBoundSpend(front, per1M, sonnet);
      RunDaySnoc(front, q, per1M, sonnet);
      var d := RunDay(front, per1M, sonnet);
      var strikes := StrikesOf(d.strikes, q.task.strikeKey);
      AlwaysBadSpends(q, per1M, sonnet, strikes);
      DaySettledSnoc(d.reports, Complete(q.task, q.world, per1M, sonnet, strikes));
    }
  }
}
