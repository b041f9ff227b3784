/** The LLM gateway's control flow: free pool, cheap paid fallback, Sonnet spillover, three-strike
    counter. A model call is the outcome it ends with; budget admission is an input here and is
    put together with the budget protocol in `GatewayBudget`. */
module Gateways {
  import opened BudgetGuards

  /** How one model call ends. `Served` is a JSON response; `valid` says that it passes the schema
      and the advisory screen. A response that is no JSON is billed for its tokens all the same. */
  datatype Outcome =
    | Served(valid: bool, tokens: nat)
    | NonJson(tokens: nat)
    | RateLimited
    | Unreachable
    | CreditOut
    | OtherStatus

  datatype Task = Task(
    models: seq<string>,     // the free models of the task type, in order
    paid: seq<string>,       // the configured fallback models
    paidTask: bool,          // listed as a paid-fallback task
    highStakes: bool,
    strikeKey: string,       // the ticker, or the task type without one
    consent: bool)           // no personal data, or cross-border consent verified

  /** What the environment answers: admission by the three budget guards and every call's outcome. */
  datatype World = World(
    freeAdmitted: bool, free: seq<Outcome>,
    fallbackAdmitted: bool, fallback: seq<Outcome>,
    sonnetAdmitted: bool, sonnet: Outcome)

  datatype Ending =
    | Answer(model: string)
    | ConsentRefused
    | CreditExhausted
    | BudgetExhausted
    | QualityError
    | ThreeStrikes(count: nat)
    | AllFailed
    | RawError     // an exception from outside the gateway's own taxonomy

  /** How a budget guard was left. */
  datatype GuardUse = GuardUse(kind: Kind, left: Left)
  datatype Left = NotAdmitted | RolledBack | Settled(actual: real)

  /** One entry of the per-model USD metric. */
  datatype Charge = Charge(model: string, usd: real)

  datatype Report = Report(
    ending: Ending,
    asked: seq<Outcome>,       // the serving calls, in order
    uses: seq<GuardUse>,
    charges: seq<Charge>)

  const SONNET_USD_PER_1M := 6.0
  const STRIKE_LIMIT: nat := 3

  function Usd(tokens: nat, per1M: real): real {
    tokens as real / 1000000.0 * per1M
  }

  // -------------------------------------------------------------------------------------------
  // Walking a pool
  // -------------------------------------------------------------------------------------------

  predicate Usable(o: Outcome) { o.Served? && o.valid }

  /** A walk over a pool stops at a usable response or at a 402. */
  predicate Decisive(o: Outcome) { Usable(o) || o.CreditOut? }

  /** A response that came back but cannot be used. */
  predicate QualityFailure(o: Outcome) { o.NonJson? || (o.Served? && !o.valid) }

  predicate Billed(o: Outcome) { o.NonJson? || o.Served? }

  /** How many models a walk asks. */
  function Asked(os: seq<Outcome>): (n: nat)
    ensures n <= |os|
    ensures forall k :: 0 <= k < n - 1 ==> !Decisive(os[k])
    ensures n < |os| ==> n > 0 && Decisive(os[n - 1])
  {
    if os == [] then 0 else if Decisive(os[0]) then 1 else 1 + Asked(os[1..])
  }

  datatype Walk = Found(i: nat) | Credit | Dry

  function WalkEnd(os: seq<Outcome>): Walk {
    var n := Asked(os);
    if n == 0 || !Decisive(os[n - 1]) then Dry
    else if os[n - 1].CreditOut? then Credit
    else Found(n - 1)
  }

  function Units(os: seq<Outcome>): (n: nat)
    ensures n <= |os|
  {
    if os == [] then 0 else (if Billed(os[0]) then 1 else 0) + Units(os[1..])
  }

  function Cost(os: seq<Outcome>, per1M: real): real {
    if os == [] then 0.0
    else (if os[0].Served? then Usd(os[0].tokens, per1M) else 0.0) + Cost(os[1..], per1M)
  }

  /** The metric entries of the priced responses; a zero amount is not written. */
  function Charges(models: seq<string>, os: seq<Outcome>, per1M: real): seq<Charge>
    requires |os| <= |models|
  {
    if os == [] then []
    else ChargeFor(models[0], os[0], per1M) + Charges(models[1..], os[1..], per1M)
  }

  function ChargeFor(model: string, o: Outcome, per1M: real): seq<Charge> {
    if o.Served? && Usd(o.tokens, per1M) != 0.0 then [Charge(model, Usd(o.tokens, per1M))] else []
  }

  /** What the metric shows for a model: the sum of its entries. */
  function Spent(metric: seq<Charge>, model: string): real {
    if metric == [] then 0.0
    else
      var last := metric[|metric| - 1];
      Spent(metric[..|metric| - 1], model) + if last.model == model then last.usd else 0.0
  }

  lemma SpentSnoc(metric: seq<Charge>, c: Charge, model: string)
    ensures Spent(metric + [c], model) == Spent(metric, model) + if c.model == model then c.usd else 0.0
  {
    assert (metric + [c])[..|metric|] == metric;
  }

  predicate AnyQualityFailure(os: seq<Outcome>) {
    exists o :: o in os && QualityFailure(o)
  }

  // -------------------------------------------------------------------------------------------
  // What `complete` reports
  // -------------------------------------------------------------------------------------------

  predicate FitsTask(w: World, t: Task) {
    |w.free| == |t.models| && |w.fallback| == |t.paid|
  }

  /** The ending of a quality failure: the strike that it records decides which error it is. */
  function Struck(before: nat): Ending {
    if before + 1 >= STRIKE_LIMIT then ThreeStrikes(before + 1) else QualityError
  }

  function StrikesOf(m: map<string, nat>, key: string): nat {
    if key in m then m[key] else 0
  }

  /** Only the two quality errors have recorded a strike. */
  function StrikesAfter(m: map<string, nat>, key: string, ending: Ending): map<string, nat> {
    if ending.QualityError? || ending.ThreeStrikes? then m[key := StrikesOf(m, key) + 1] else m
  }

  function Complete(t: Task, w: World, per1M: real, sonnet: string, strikes: nat): Report
    requires FitsTask(w, t)
  {
    if !t.consent then Report(ConsentRefused, [], [], [])
    else if !w.freeAdmitted then Report(BudgetExhausted, [], [GuardUse(Free, NotAdmitted)], [])
    else
      var asked := w.free[..Asked(w.free)];
      var settled := GuardUse(Free, Settled(Units(asked) as real));
      match WalkEnd(w.free)
      case Credit => Report(CreditExhausted, asked, [GuardUse(Free, RolledBack)], [])
      case Found(i) => Report(Answer(t.models[i]), asked, [settled], [])
      case Dry => AfterFreePool(t, w, per1M, sonnet, strikes, Report(AllFailed, asked, [settled], []))
  }

  function AfterFreePool(t: Task, w: World, per1M: real, sonnet: string, strikes: nat, r: Report): Report
    requires FitsTask(w, t)
  {
    if !t.paidTask || t.paid == [] then Escalate(t, w, sonnet, strikes, r)
    else if !w.fallbackAdmitted then
      r.(ending := BudgetExhausted, uses := r.uses + [GuardUse(Premium, NotAdmitted)])
    else
      var asked := w.fallback[..Asked(w.fallback)];
      var left := if WalkEnd(w.fallback).Credit? then RolledBack else Settled(Cost(asked, per1M));
      var r' := r.(asked := r.asked + asked,
                   uses := r.uses + [GuardUse(Premium, left)],
                   charges := r.charges + Charges(t.paid, asked, per1M));
      match WalkEnd(w.fallback)
      case Credit => r'.(ending := CreditExhausted)
      case Found(i) => r'.(ending := Answer(t.paid[i]))
      case Dry => Escalate(t, w, sonnet, strikes, r')
  }

  function Escalate(t: Task, w: World, sonnet: string, strikes: nat, r: Report): Report {
    if !AnyQualityFailure(w.free) then r.(ending := AllFailed)
    else if !t.highStakes || t.paidTask then r.(ending := Struck(strikes))
    else if !w.sonnetAdmitted then
      r.(ending := BudgetExhausted, uses := r.uses + [GuardUse(Premium, NotAdmitted)])
    else Spillover(w.sonnet, sonnet, strikes, r)
  }

  function Spillover(o: Outcome, sonnet: string, strikes: nat, r: Report): Report {
    var r' := r.(asked := r.asked + [o],
                 uses := r.uses +
                   [GuardUse(Premium, if o.Served? then Settled(Usd(o.tokens, SONNET_USD_PER_1M)) else RolledBack)],
                 charges := r.charges + ChargeFor(sonnet, o, SONNET_USD_PER_1M));
    match o
    case Served(valid, _) => r'.(ending := if valid then Answer(sonnet) else Struck(strikes))
    case Unreachable => r'.(ending := AllFailed)
    case CreditOut => r'.(ending := CreditExhausted)
    case _ => r'.(ending := RawError)
  }

  // -------------------------------------------------------------------------------------------
  // The gateway as code
  // -------------------------------------------------------------------------------------------

  lemma {:induction false} UnitsSnoc(os: seq<Outcome>, o: Outcome)
    ensures Units(os + [o]) == Units(os) + (if Billed(o) then 1 else 0)
  {
    if os == [] {
      assert os + [o] == [o];
    } else {
      assert (os + [o])[1..] == os[1..] + [o];
      UnitsSnoc(os[1..], o);
    }
  }

  /** Units count the calls that came back with a body, JSON or not. */
  lemma {:induction false} UnitsAre(os: seq<Outcome>, n: nat)
    requires n <= |os|
    ensures Units(os[..n]) == |set i: nat | i < n && (os[i].NonJson? || os[i].Served?)|
  {
    var counted := set i: nat | i < n && (os[i].NonJson? || os[i].Served?);
    if n == 0 {
      assert counted == {};
    } else {
      UnitsAre(os, n - 1);
      assert os[..n] == os[..n - 1] + [os[n - 1]];
      UnitsSnoc(os[..n - 1], os[n - 1]);
      var before := set i: nat | i < n - 1 && (os[i].NonJson? || os[i].Served?);
      assert counted == if os[n - 1].NonJson? || os[n - 1].Served? then before + {n - 1} else before;
    }
  }

  lemma {:induction false} CostSnoc(os: seq<Outcome>, o: Outcome, per1M: real)
    ensures Cost(os + [o], per1M) ==
            Cost(os, per1M) + (if o.Served? then Usd(o.tokens, per1M) else 0.0)
  {
    if os == [] {
      assert os + [o] == [o];
    } else {
      assert (os + [o])[1..] == os[1..] + [o];
      CostSnoc(os[1..], o, per1M);
    }
  }

  lemma {:induction false} ChargesSnoc(models: seq<string>, os: seq<Outcome>, o: Outcome, per1M: real)
    requires |os| < |models|
    ensures Charges(models, os + [o], per1M) ==
            Charges(models, os, per1M) + ChargeFor(models[|os|], o, per1M)
  {
    if os == [] {
      assert os + [o] == [o];
      assert Charges(models[1..], [o][1..], per1M) == [];
    } else {
      assert (os + [o])[1..] == os[1..] + [o];
      ChargesSnoc(models[1..], os[1..], o, per1M);
    }
  }

  /** A walk whose first `n` calls are not decisive has asked at least those, and asks one more
      exactly if there is one. */
  lemma {:induction false} AskedSoFar(os: seq<Outcome>, n: nat)
    requires n <= |os| && forall k :: 0 <= k < n ==> !Decisive(os[k])
    ensures n == |os| ==> Asked(os) == n
    ensures n < |os| && Decisive(os[n]) ==> Asked(os) == n + 1
  {
    if n > 0 {
      AskedSoFar(os[1..], n - 1);
    }
  }

  lemma QualitySnoc(os: seq<Outcome>, n: nat)
    requires n < |os|
    ensures os[..n + 1] == os[..n] + [os[n]]
    ensures AnyQualityFailure(os[..n + 1]) == (AnyQualityFailure(os[..n]) || QualityFailure(os[n]))
  {
    assert os[..n + 1] == os[..n] + [os[n]];
    assert os[n] in os[..n + 1];
  }

  class Gateway {
    const sonnet: string
    const per1M: real
    var strikes: map<string, nat>   // today's strike counters
    var metric: seq<Charge>         // today's USD metric writes

    constructor (sonnet: string, per1M: real)
      ensures this.sonnet == sonnet && this.per1M == per1M
      ensures strikes == map[] && metric == []
    {
      this.sonnet, this.per1M := sonnet, per1M;
      strikes, metric := map[], [];
    }

    function Strikes(key: string): nat
      reads this`strikes
    {
      StrikesOf(strikes, key)
    }

    /** INCR on the strike key; the ending follows from the value that comes back. */
    method RecordStrike(key: string) returns (ending: Ending)
      modifies this`strikes
      ensures ending == Struck(old(Strikes(key)))
      ensures strikes == old(strikes)[key := old(Strikes(key)) + 1]
    {
      strikes := strikes[key := Strikes(key) + 1];
      var count := strikes[key];
      if count >= STRIKE_LIMIT {
        return ThreeStrikes(count);
      }
      return QualityError;
    }

    /** The loop over the free pool, inside its guard. */
    method FreePool(meter: BudgetMeter, free: seq<Outcome>)
      returns (end: Walk, asked: nat, quality: bool)
      requires meter.units == 0
      modifies meter`units
      ensures asked == Asked(free) && end == WalkEnd(free)
      ensures meter.units == Units(free[..asked])
      ensures meter.units == |set i: nat | i < asked && (free[i].NonJson? || free[i].Served?)|
      ensures end.Dry? ==> quality == AnyQualityFailure(free)
      ensures end.Dry? ==> (quality <==> exists o :: o in free && (o.NonJson? || (o.Served? && !o.valid)))
    {
      asked, quality := 0, false;
      assert free[..0] == [];
      while asked < |free|
        invariant asked <= |free|
        invariant forall k :: 0 <= k < asked ==> !Decisive(free[k])
        invariant meter.units == Units(free[..asked])
        invariant quality == AnyQualityFailure(free[..asked])
      {
        var o := free[asked];
        AskedSoFar(free, asked);
        QualitySnoc(free, asked);
        UnitsSnoc(free[..asked], o);
        asked := asked + 1;
        match o
        case RateLimited => continue;
        case Unreachable => continue;
        case OtherStatus => continue;
        case CreditOut =>
          UnitsAre(free, asked);
          return Credit, asked, quality;
        case NonJson(_) =>
          meter.units := meter.units + 1;
          quality := true;
        case Served(valid, _) =>
          meter.units := meter.units + 1;
          if valid {
            UnitsAre(free, asked);
            return Found(asked - 1), asked, quality;
          }
          quality := true;
      }
      AskedSoFar(free, asked);
      UnitsAre(free, asked);
      assert free[..asked] == free;
      end := Dry;
    }

    /** The loop over the paid models, inside the premium guard. Costs are recorded on the meter
        and in the metric as each response comes back. */
    method PaidFallback(meter: BudgetMeter, paid: seq<string>, fallback: seq<Outcome>)
      returns (end: Walk, asked: nat)
      requires meter.costUsd == 0.0 && |fallback| == |paid|
      modifies meter`costUsd, this`metric
      ensures asked == Asked(fallback) && end == WalkEnd(fallback)
      ensures meter.costUsd == Cost(fallback[..asked], per1M)
      ensures metric == old(metric) + Charges(paid, fallback[..asked], per1M)
    {
      asked := 0;
      assert fallback[..0] == [];
      while asked < |fallback|
        invariant asked <= |fallback|
        invariant forall k :: 0 <= k < asked ==> !Decisive(fallback[k])
        invariant meter.costUsd == Cost(fallback[..asked], per1M)
        invariant metric == old(metric) + Charges(paid, fallback[..asked], per1M)
      {
        var o := fallback[asked];
        AskedSoFar(fallback, asked);
        QualitySnoc(fallback, asked);
        CostSnoc(fallback[..asked], o, per1M);
        ChargesSnoc(paid, fallback[..asked], o, per1M);
        asked := asked + 1;
        if o.CreditOut? {
          return Credit, asked;
        }
        if o.Served? {
          var callUsd := Usd(o.tokens, per1M);
          meter.costUsd := meter.costUsd + callUsd;
          RecordModelSpend(paid[asked - 1], callUsd);
          if o.valid {
            return Found(asked - 1), asked;
          }
        }
      }
      AskedSoFar(fallback, asked);
      end := Dry;
    }

    /** The model's figure goes up by exactly `usd`, no other model's changes, and a zero amount
        writes nothing. */
    method RecordModelSpend(model: string, usd: real)
      modifies this`metric
      ensures metric == old(metric) + if usd != 0.0 then [Charge(model, usd)] else []
      ensures forall m :: Spent(metric, m) == Spent(old(metric), m) + if m == model then usd else 0.0
    {
      if usd != 0.0 {
        forall m
          ensures Spent(metric + [Charge(model, usd)], m) ==
                  Spent(metric, m) + if m == model then usd else 0.0
        {
          SpentSnoc(metric, Charge(model, usd), m);
        }
        metric := metric + [Charge(model, usd)];
      }
    }

    /** One `complete` call; its strike, if it records one, is counted on the value found then. */
    method Run(t: Task, w: World) returns (r: Report)
      requires FitsTask(w, t)
      modifies this`strikes, this`metric
      ensures r == Complete(t, w, per1M, sonnet, old(Strikes(t.strikeKey)))
      ensures metric == old(metric) + r.charges
      ensures strikes == StrikesAfter(old(strikes), t.strikeKey, r.ending)
    {
      if !t.consent {
        return Report(ConsentRefused, [], [], []);
      }
      if !w.freeAdmitted {
        return Report(BudgetExhausted, [], [GuardUse(Free, NotAdmitted)], []);
      }
      var meter := new BudgetMeter();
      var end, asked, quality := FreePool(meter, w.free);
      if end.Credit? {
        return Report(CreditExhausted, w.free[..asked], [GuardUse(Free, RolledBack)], []);
      }
      r := Report(AllFailed, w.free[..asked], [GuardUse(Free, Settled(meter.units as real))], []);
      if end.Found? {
        return r.(ending := Answer(t.models[end.i]));
      }
      r := Fallback(t, w, quality, r);
    }

    /** After a free pool that gave nothing usable: the paid fallback, where one is configured, and
        then the rest. */
    method Fallback(t: Task, w: World, quality: bool, before: Report) returns (r: Report)
      requires FitsTask(w, t) && quality == AnyQualityFailure(w.free)
      modifies this`strikes, this`metric
      ensures r == AfterFreePool(t, w, per1M, sonnet, old(Strikes(t.strikeKey)), before)
      ensures before.charges <= r.charges
      ensures metric == old(metric) + r.charges[|before.charges|..]
      ensures strikes == StrikesAfter(old(strikes), t.strikeKey, r.ending)
    {
      r := before;
      if t.paidTask && t.paid != [] {
        if !w.fallbackAdmitted {
          return r.(ending := BudgetExhausted, uses := r.uses + [GuardUse(Premium, NotAdmitted)]);
        }
        var meter := new BudgetMeter();
        var end, asked := PaidFallback(meter, t.paid, w.fallback);
        ghost var charges := Charges(t.paid, w.fallback[..asked], per1M);
        var left := if end.Credit? then RolledBack else Settled(meter.costUsd);
        r := r.(asked := r.asked + w.fallback[..asked],
                uses := r.uses + [GuardUse(Premium, left)],
                charges := r.charges + Charges(t.paid, w.fallback[..asked], per1M));
        assert r.charges[|before.charges|..] == charges;
        if end.Credit? {
          return r.(ending := CreditExhausted);
        }
        if end.Found? {
          return r.(ending := Answer(t.paid[end.i]));
        }
      }
      ghost var mid := r.charges;
      r := Finish(t, w, quality, r);
      assert r.charges[|before.charges|..] == mid[|before.charges|..] + r.charges[|mid|..];
    }

    /** From the end of the pools to the error or the Sonnet answer. */
    method Finish(t: Task, w: World, quality: bool, before: Report) returns (r: Report)
      requires quality == AnyQualityFailure(w.free)
      modifies this`strikes, this`metric
      ensures r == Escalate(t, w, sonnet, old(Strikes(t.strikeKey)), before)
      ensures before.charges <= r.charges
      ensures metric == old(metric) + r.charges[|before.charges|..]
      ensures strikes == StrikesAfter(old(strikes), t.strikeKey, r.ending)
    {
      r := before;
      if quality && t.highStakes && !t.paidTask {
        if !w.sonnetAdmitted {
          return r.(ending := BudgetExhausted, uses := r.uses + [GuardUse(Premium, NotAdmitted)]);
        }
        r := r.(asked := r.asked + [w.sonnet]);
        match w.sonnet
        case Unreachable =>
          return r.(ending := AllFailed, uses := r.uses + [GuardUse(Premium, RolledBack)]);
        case CreditOut =>
          return r.(ending := CreditExhausted, uses := r.uses + [GuardUse(Premium, RolledBack)]);
        case RateLimited =>
          return r.(ending := RawError, uses := r.uses + [GuardUse(Premium, RolledBack)]);
        case OtherStatus =>
          return r.(ending := RawError, uses := r.uses + [GuardUse(Premium, RolledBack)]);
        case NonJson(_) =>
          return r.(ending := RawError, uses := r.uses + [GuardUse(Premium, RolledBack)]);
        case Served(valid, tokens) =>
          var costUsd := Usd(tokens, SONNET_USD_PER_1M);
          RecordModelSpend(sonnet, costUsd);
          r := r.(uses := r.uses + [GuardUse(Premium, Settled(costUsd))],
                  charges := r.charges + ChargeFor(sonnet, w.sonnet, SONNET_USD_PER_1M));
          if valid {
            return r.(ending := Answer(sonnet));
          }
          var ending := RecordStrike(t.strikeKey);
          return r.(ending := ending);
      }
      if quality {
        var ending := RecordStrike(t.strikeKey);
        return r.(ending := ending);
      }
      r := r.(ending := AllFailed);
    }
  }
}
