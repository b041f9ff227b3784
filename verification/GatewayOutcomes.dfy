/** The rest of what one `complete` call does, written out over the answers of the models: its other
    endings, the calls it makes, the guards it uses and the metric entries it leaves. */
module GatewayOutcomes {
  import opened BudgetGuards
  import opened Gateways
  import opened GatewayProofs

  // -------------------------------------------------------------------------------------------
  // Endings
  // -------------------------------------------------------------------------------------------

  lemma ConsentRefusedIff(t: Task, w: World, per1M: real, sonnet: string, strikes: nat)
    requires FitsTask(w, t)
    ensures var r := Complete(t, w, per1M, sonnet, strikes);
      && (r.ending.ConsentRefused? <==> !t.consent)
      && (!t.consent ==> r.asked == [] && r.uses == [] && r.charges == [])
  {
  }

  /** The budget error: at the free cap, at the fallback's, or at Sonnet's. */
  lemma BudgetExhaustedIff(t: Task, w: World, per1M: real, sonnet: string, strikes: nat)
    requires FitsTask(w, t)
    ensures Complete(t, w, per1M, sonnet, strikes).ending.BudgetExhausted? <==>
      && t.consent
      && (|| !w.freeAdmitted
          || (&& (forall o :: o in w.free ==> !o.CreditOut? && !(o.Served? && o.valid))
              && t.paidTask && t.paid != [] && !w.fallbackAdmitted)
          || (&& (forall o :: o in w.free ==> !o.CreditOut? && !(o.Served? && o.valid))
              && (exists o :: o in w.free && (o.NonJson? || (o.Served? && !o.valid)))
              && t.highStakes && !t.paidTask && !w.sonnetAdmitted))
  {
    WalkMeans(w.free);
    WalkMeans(w.fallback);
  }

  /** The credit error: a 402 before anything usable in the free pool, else in the fallback, else from
      Sonnet. */
  lemma CreditExhaustedIff(t: Task, w: World, per1M: real, sonnet: string, strikes: nat)
    requires FitsTask(w, t)
    ensures Complete(t, w, per1M, sonnet, strikes).ending.CreditExhausted? <==>
      && t.consent && w.freeAdmitted
      && (|| (exists i: nat ::
                && i < |w.free| && w.free[i].CreditOut?
                && forall j :: 0 <= j < i ==> !w.free[j].CreditOut? && !(w.free[j].Served? && w.free[j].valid))
          || (&& (forall o :: o in w.free ==> !o.CreditOut? && !(o.Served? && o.valid))
              && t.paidTask && w.fallbackAdmitted
              && exists i: nat ::
                   && i < |w.fallback| && w.fallback[i].CreditOut?
                   && forall j :: 0 <= j < i ==>
                        !w.fallback[j].CreditOut? && !(w.fallback[j].Served? && w.fallback[j].valid))
          || (&& (forall o :: o in w.free ==> !o.CreditOut? && !(o.Served? && o.valid))
              && (exists o :: o in w.free && (o.NonJson? || (o.Served? && !o.valid)))
              && t.highStakes && !t.paidTask && w.sonnetAdmitted && w.sonnet.CreditOut?))
  {
    WalkMeans(w.free);
    WalkMeans(w.fallback);
    assert forall i: nat :: CreditFirst(w.free, i) ==> WalkEnd(w.free).Credit?;
    assert forall i: nat :: CreditFirst(w.fallback, i) ==> WalkEnd(w.fallback).Credit?;
  }

  /** The error that no model produced output: nothing came back at all, or Sonnet could not be
      reached. */
  lemma AllFailedIff(t: Task, w: World, per1M: real, sonnet: string, strikes: nat)
    requires FitsTask(w, t)
    ensures Complete(t, w, per1M, sonnet, strikes).ending.AllFailed? <==>
      && t.consent && w.freeAdmitted
      && (forall o :: o in w.free ==> !o.CreditOut? && !(o.Served? && o.valid))
      && (t.paidTask && t.paid != [] ==>
            w.fallbackAdmitted && forall o :: o in w.fallback ==> !o.CreditOut? && !(o.Served? && o.valid))
      && (|| (forall o :: o in w.free ==> o.RateLimited? || o.Unreachable? || o.OtherStatus?)
          || (t.highStakes && !t.paidTask && w.sonnetAdmitted && w.sonnet.Unreachable?))
  {
    WalkMeans(w.free);
    WalkMeans(w.fallback);
    if NothingDecisive(w.free) {
      BadOrSilent(w.free);
    }
  }

  /** With nothing decisive in the pool either some body came back or every model was silent. */
  lemma BadOrSilent(os: seq<Outcome>)
    requires forall o :: o in os ==> !o.CreditOut? && !(o.Served? && o.valid)
    ensures AnyQualityFailure(os) <==> !forall o :: o in os ==> o.RateLimited? || o.Unreachable? || o.OtherStatus?
  {
    if AnyQualityFailure(os) {
      var o :| o in os && QualityFailure(o);
      assert !(o.RateLimited? || o.Unreachable? || o.OtherStatus?);
    }
  }

  /** Without a paid fallback a free pool with nothing decisive ends the call there and then, Sonnet
      not asked, exactly when every free model was rate-limited, unreachable or answered with some
      other status. */
  lemma SilentPoolIff(t: Task, w: World, per1M: real, sonnet: string, strikes: nat)
    requires FitsTask(w, t) && t.consent && w.freeAdmitted && !(t.paidTask && t.paid != [])
    requires forall o :: o in w.free ==> !o.CreditOut? && !(o.Served? && o.valid)
    ensures var r := Complete(t, w, per1M, sonnet, strikes);
      (r.ending.AllFailed? && r.asked == w.free) <==>
      forall o :: o in w.free ==> o.RateLimited? || o.Unreachable? || o.OtherStatus?
  {
    WalkMeans(w.free);
    BadOrSilent(w.free);
    DryAsksAll(w.free);
    assert |w.free + [w.sonnet]| > |w.free|;
  }

  lemma {:induction false} DryAsksAll(os: seq<Outcome>)
    requires forall o :: o in os ==> !o.CreditOut? && !(o.Served? && o.valid)
    ensures Asked(os) == |os| && os[..Asked(os)] == os
  {
    if os != [] {
      assert os[0] in os && forall o :: o in os[1..] ==> o in os;
      DryAsksAll(os[1..]);
    }
  }

  // -------------------------------------------------------------------------------------------
  // Calls
  // -------------------------------------------------------------------------------------------

  /** How far a walk goes: to its first usable response or 402, that one included, else to the end. */
  lemma WalkLength(os: seq<Outcome>)
    ensures forall k :: 0 <= k < Asked(os) - 1 ==> !os[k].CreditOut? && !(os[k].Served? && os[k].valid)
    ensures Asked(os) < |os| ==>
              Asked(os) > 0 && (os[Asked(os) - 1].CreditOut? ||
                                (os[Asked(os) - 1].Served? && os[Asked(os) - 1].valid))
  {
  }

  /** Whether the call gets to Sonnet. */
  ghost predicate AsksSonnet(t: Task, w: World) {
    && t.consent && w.freeAdmitted
    && (forall o :: o in w.free ==> !o.CreditOut? && !(o.Served? && o.valid))
    && (exists o :: o in w.free && (o.NonJson? || (o.Served? && !o.valid)))
    && t.highStakes && !t.paidTask && w.sonnetAdmitted
  }

  /** Whether the call gets to the paid fallback. */
  ghost predicate AsksFallback(t: Task, w: World) {
    && t.consent && w.freeAdmitted
    && (forall o :: o in w.free ==> !o.CreditOut? && !(o.Served? && o.valid))
    && t.paidTask && t.paid != [] && w.fallbackAdmitted
  }

  /** Which serving calls are made, in order. */
  lemma CallsAre(t: Task, w: World, per1M: real, sonnet: string, strikes: nat)
    requires FitsTask(w, t)
    ensures Complete(t, w, per1M, sonnet, strikes).asked ==
            (if t.consent && w.freeAdmitted then w.free[..Asked(w.free)] else []) +
            (if AsksFallback(t, w) then w.fallback[..Asked(w.fallback)] else []) +
            (if AsksSonnet(t, w) then [w.sonnet] else [])
  {
    WalkMeans(w.free);
    WalkMeans(w.fallback);
  }

  /** Which premium guard is entered, at most one, and how it is left: a 402 or an error that leaves its
      block rolls it back, else the responses' cost is settled. */
  lemma GuardsAre(t: Task, w: World, per1M: real, sonnet: string, strikes: nat)
    requires FitsTask(w, t) && t.consent
    ensures var uses := Complete(t, w, per1M, sonnet, strikes).uses;
      uses[1..] ==
      if AsksFallback(t, w) then
        [GuardUse(Premium,
          if exists o :: o in w.fallback[..Asked(w.fallback)] && o.CreditOut? then RolledBack
          else Settled(Cost(w.fallback[..Asked(w.fallback)], per1M)))]
      else if AsksSonnet(t, w) then
        [GuardUse(Premium,
          if w.sonnet.Served? then Settled(w.sonnet.tokens as real / 1000000.0 * 6.0) else RolledBack)]
      else if Complete(t, w, per1M, sonnet, strikes).ending.BudgetExhausted? && w.freeAdmitted then
        [GuardUse(Premium, NotAdmitted)]
      else []
  {
    WalkMeans(w.free);
    WalkMeans(w.fallback);
    WalkStops([], w.fallback);
    assert [] + w.fallback[..Asked(w.fallback)] == w.fallback[..Asked(w.fallback)];
  }

  // -------------------------------------------------------------------------------------------
  // Money
  // -------------------------------------------------------------------------------------------

  /** A million tokens cost the price of a million, and prices add up. */
  lemma UsdIs(a: nat, b: nat, per1M: real)
    ensures Usd(1000000, per1M) == per1M
    ensures Usd(a + b, per1M) == Usd(a, per1M) + Usd(b, per1M)
    ensures Usd(1000000, SONNET_USD_PER_1M) == 6.0
  {
    var x, y := a as real / 1000000.0, b as real / 1000000.0;
    assert (a + b) as real / 1000000.0 == x + y;
    assert (x + y) * per1M == x * per1M + y * per1M;
  }

  /** Every JSON response adds the price of its tokens, nothing else adds anything. */
  lemma CostIs(os: seq<Outcome>, o: Outcome, per1M: real)
    ensures Cost([], per1M) == 0.0
    ensures Cost(os + [o], per1M) ==
            Cost(os, per1M) + if o.Served? then o.tokens as real / 1000000.0 * per1M else 0.0
  {
    CostSnoc(os, o, per1M);
  }

  /** What a response costs `model`, which has nothing to do with another model's. */
  function CostTo(model: string, from: string, o: Outcome, per1M: real): real {
    if from == model && o.Served? then o.tokens as real / 1000000.0 * per1M else 0.0
  }

  /** What a model's own responses among the calls cost. */
  function CostOf(models: seq<string>, os: seq<Outcome>, per1M: real, model: string): real
    requires |os| <= |models|
  {
    if os == [] then 0.0
    else
      var n := |os| - 1;
      CostOf(models, os[..n], per1M, model) + CostTo(model, models[n], os[n], per1M)
  }

  lemma {:induction false} SpentJoin(a: seq<Charge>, b: seq<Charge>, model: string)
    ensures Spent(a + b, model) == Spent(a, model) + Spent(b, model)
    decreases |b|
  {
    if b == [] {
      assert a + b == a;
    } else {
      var n := |b| - 1;
      assert a + b == (a + b[..n]) + [b[n]] && b == b[..n] + [b[n]];
      SpentJoin(a, b[..n], model);
      SpentSnoc(a + b[..n], b[n], model);
      SpentSnoc(b[..n], b[n], model);
    }
  }

  lemma OneCharge(charges: seq<Charge>, model: string, usd: real, m: string)
    requires charges == if usd != 0.0 then [Charge(model, usd)] else []
    ensures Spent(charges, m) == if model == m then usd else 0.0
  {
    if usd != 0.0 {
      SpentSnoc([], Charge(model, usd), m);
      assert [] + [Charge(model, usd)] == charges;
    }
  }

  lemma ChargeToModel(from: string, o: Outcome, per1M: real, model: string, usd: real)
    requires usd == CostTo(model, from, o, per1M)
    ensures Spent(ChargeFor(from, o, per1M), model) == usd
  {
    if o.Served? {
      OneCharge(ChargeFor(from, o, per1M), from, Usd(o.tokens, per1M), model);
    }
  }

  lemma OneMoreCharge(models: seq<string>, os: seq<Outcome>, o: Outcome, per1M: real, model: string, usd: real)
    requires |os| < |models| && Spent(ChargeFor(models[|os|], o, per1M), model) == usd
    ensures Spent(Charges(models, os + [o], per1M), model) == Spent(Charges(models, os, per1M), model) + usd
  {
    ChargesSnoc(models, os, o, per1M);
    SpentJoin(Charges(models, os, per1M), ChargeFor(models[|os|], o, per1M), model);
  }

  /** The metric shows for every model what its own responses cost. */
  lemma {:induction false} ChargesByModel(models: seq<string>, os: seq<Outcome>, per1M: real, model: string)
    requires |os| <= |models|
    ensures Spent(Charges(models, os, per1M), model) == CostOf(models, os, per1M, model)
    decreases |os|
  {
    if os != [] {
      var n := |os| - 1;
      var usd := CostTo(model, models[n], os[n], per1M);
      ChargesByModel(models, os[..n], per1M, model);
      assert os == os[..n] + [os[n]];
      ChargeToModel(models[n], os[n], per1M, model, usd);
      OneMoreCharge(models, os[..n], os[n], per1M, model, usd);
    }
  }

  /** After a call the metric of every model has gone up by what its own responses cost, whether or not
      its guard was rolled back. */
  lemma MetricAfterCall(t: Task, w: World, per1M: real, sonnet: string, strikes: nat, model: string)
    requires FitsTask(w, t)
    ensures Spent(Complete(t, w, per1M, sonnet, strikes).charges, model) ==
            if AsksFallback(t, w) then CostOf(t.paid, w.fallback[..Asked(w.fallback)], per1M, model)
            else if AsksSonnet(t, w) && w.sonnet.Served? && sonnet == model
            then w.sonnet.tokens as real / 1000000.0 * 6.0 else 0.0
  {
    WalkMeans(w.free);
    WalkMeans(w.fallback);
    var asked := w.fallback[..Asked(w.fallback)];
    var charges := Complete(t, w, per1M, sonnet, strikes).charges;
    if AsksFallback(t, w) {
      assert charges == [] + Charges(t.paid, asked, per1M);
      assert charges == Charges(t.paid, asked, per1M);
      ChargesByModel(t.paid, asked, per1M, model);
    } else if AsksSonnet(t, w) {
      assert charges == [] + ChargeFor(sonnet, w.sonnet, SONNET_USD_PER_1M);
      assert charges == ChargeFor(sonnet, w.sonnet, SONNET_USD_PER_1M);
      if w.sonnet.Served? {
        OneCharge(charges, sonnet, Usd(w.sonnet.tokens, SONNET_USD_PER_1M), model);
      }
    }
  }
}
