/** The budget guard as code: a Redis server holding the shared counter, the meter the guarded
    block fills in, and one `budget_guard` call whose methods are the stretches between two
    suspension points. Each method does to the server and the call exactly what the same action
    does in `BudgetProtocol`, so everything proved about runs there is about these methods. */
module BudgetGuards {
  import opened Prelude
  import opened BudgetProtocol

  datatype Kind = Free | Premium

  /** What a cap-override key holds, once read: nothing, something unusable (or a failed read), or
      a number. */
  datatype Override = Absent | Unreadable | Number(value: real)

  function CapNames(): seq<string> {
    ["free", "premium_soft", "premium_hard"]
  }

  function DefaultCaps(): (caps: map<string, real>)
    ensures forall name :: name in caps <==> name in CapNames()
  {
    assert CapNames()[0] == "free" && CapNames()[1] == "premium_soft" && CapNames()[2] == "premium_hard";
    map["free" := 1000.0, "premium_soft" := 0.50, "premium_hard" := 9.50]
  }

  function DefaultReserve(kind: Kind): real {
    if kind.Free? then 1.0 else 0.20
  }

  /** int(x): truncation toward zero. */
  function Truncate(x: real): real {
    if x >= 0.0 then x.Floor as real else -((-x).Floor as real)
  }

  function Parsed(name: string, x: real): real {
    if name == "free" then Truncate(x) else x
  }

  /** An override counts only if it can be read and is still positive after parsing. */
  predicate Honoured(name: string, overrides: map<string, Override>) {
    name in overrides && overrides[name].Number? && Parsed(name, overrides[name].value) > 0.0
  }

  /** The loop over the override keys; whatever cannot be honoured keeps its default. */
  method ApplyOverrides(names: seq<string>, defaults: map<string, real>, overrides: map<string, Override>)
    returns (caps: map<string, real>)
    requires forall name :: name in names ==> name in defaults
    ensures caps.Keys == defaults.Keys
    ensures forall name :: name in caps ==>
              caps[name] == if name in names && Honoured(name, overrides)
                            then Parsed(name, overrides[name].value) else defaults[name]
  {
    caps := defaults;
    for n := 0 to |names|
      invariant caps.Keys == defaults.Keys
      invariant forall name :: name in caps ==>
                  caps[name] == if name in names[..n] && Honoured(name, overrides)
                                then Parsed(name, overrides[name].value) else defaults[name]
    {
      assert names[..n + 1] == names[..n] + [names[n]];
      var name := names[n];
      var raw := if name in overrides then overrides[name] else Absent;
      if raw.Number? {
        var parsed := Parsed(name, raw.value);
        if parsed > 0.0 {
          caps := caps[name := parsed];
        }
      }
    }
    assert names[..|names|] == names;
  }

  function CapName(kind: Kind): (name: string)
    ensures name in DefaultCaps()
  {
    if kind.Free? then "free" else "premium_hard"
  }

  /** The cap that a guard of this kind has to compare with. */
  function EffectiveCap(kind: Kind, overrides: map<string, Override>): real {
    var name := CapName(kind);
    if Honoured(name, overrides) then Parsed(name, overrides[name].value) else DefaultCaps()[name]
  }

  /** The free guard compares with the whole part of the "free" override if that is positive, else with
      1000; the premium guard with the "premium_hard" override if that is positive, else with 9.50. */
  lemma CapInFigures(overrides: map<string, Override>)
    ensures EffectiveCap(Free, overrides) ==
            if "free" in overrides && overrides["free"].Number? && overrides["free"].value >= 1.0
            then overrides["free"].value.Floor as real else 1000.0
    ensures EffectiveCap(Premium, overrides) ==
            if "premium_hard" in overrides && overrides["premium_hard"].Number? &&
               overrides["premium_hard"].value > 0.0
            then overrides["premium_hard"].value else 9.50
  {
  }

  /** No other override matters, the soft cap's least of all. */
  lemma OneOverrideMatters(kind: Kind, some: map<string, Override>, other: map<string, Override>)
    requires var name := if kind.Free? then "free" else "premium_hard";
      (name in some <==> name in other) && (name in some ==> some[name] == other[name])
    ensures EffectiveCap(kind, some) == EffectiveCap(kind, other)
  {
  }

  method GetEffectiveCaps(overrides: map<string, Override>) returns (caps: map<string, real>)
    ensures caps.Keys == DefaultCaps().Keys
    ensures forall name :: name in caps ==> caps[name] > 0.0
    ensures forall name :: name in caps && Honoured(name, overrides) ==>
              caps[name] == Parsed(name, overrides[name].value)
    ensures forall name :: name in caps && !Honoured(name, overrides) ==>
              caps[name] == DefaultCaps()[name]
    ensures "free" in caps && caps["free"] ==
              if "free" in overrides && overrides["free"].Number? && overrides["free"].value >= 1.0
              then overrides["free"].value.Floor as real else 1000.0
    ensures "premium_soft" in caps && caps["premium_soft"] ==
              if "premium_soft" in overrides && overrides["premium_soft"].Number? &&
                 overrides["premium_soft"].value > 0.0
              then overrides["premium_soft"].value else 0.50
    ensures "premium_hard" in caps && caps["premium_hard"] ==
              if "premium_hard" in overrides && overrides["premium_hard"].Number? &&
                 overrides["premium_hard"].value > 0.0
              then overrides["premium_hard"].value else 9.50
  {
    caps := ApplyOverrides(CapNames(), DefaultCaps(), overrides);
  }

  class BudgetMeter {
    var units: int
    var costUsd: real

    constructor ()
      ensures units == 0 && costUsd == 0.0
    {
      units, costUsd := 0, 0.0;
    }
  }

  /** The server side of one budget counter. */
  class Redis {
    var day: nat
    var key: Key

    method SetNxExat(initial: real, midnight: nat)
      modifies this`key
      ensures key == SetNx(old(key), initial, midnight, day)
    {
      if key.Missing? && day < midnight {
        key := Live(initial, Some(midnight));
      }
    }

    method IncrByFloat(amount: real) returns (reply: real)
      modifies this`key
      ensures key == Incr(old(key), amount)
      ensures reply == Reading(key) == Reading(old(key)) + amount
    {
      if key.Missing? {
        key := Live(amount, None);
      } else {
        key := key.(value := key.value + amount);
      }
      reply := key.value;
    }

    /** A failure of the adjustment (`ok` is false) is swallowed. */
    method AdjustQuietly(amount: real, ok: bool)
      modifies this`key
      ensures key == if ok then Incr(old(key), amount) else old(key)
    {
      if ok {
        var _ := IncrByFloat(amount);
      }
    }
  }

  /** One call of `budget_guard`. */
  class BudgetGuard {
    const kind: Kind
    const redis: Redis
    const meter: BudgetMeter
    var call: Call

    constructor (kind: Kind, redis: Redis, caps: map<string, real>, reserve: Option<real>)
      requires caps.Keys == DefaultCaps().Keys
      ensures this.kind == kind && this.redis == redis && fresh(meter)
      ensures meter.units == 0 && meter.costUsd == 0.0
      ensures call.cap == if kind.Free? then caps["free"] else caps["premium_hard"]
      ensures call.reserve == if reserve.Some? then reserve.value else DefaultReserve(kind)
      ensures call.stage == Capped
    {
      this.kind, this.redis := kind, redis;
      meter := new BudgetMeter();
      var cap := if kind.Free? then caps["free"] else caps["premium_hard"];
      call := Call(cap, if reserve.Some? then reserve.value else DefaultReserve(kind), Capped);
    }

    /** What the guarded block recorded, in the unit of this guard's counter. */
    function Actual(): real
      reads this, meter
    {
      if kind.Free? then meter.units as real else meter.costUsd
    }

    method ComputeMidnight()
      requires call.stage.Capped?
      modifies this
      ensures call == old(call).(stage := NextStage(old(call), redis.key, redis.day, Stamp(0)))
    {
      call := call.(stage := Stamped(redis.day + 1));
    }

    method InitKeyIfMissing()
      requires call.stage.Stamped?
      modifies this, redis`key
      ensures redis.key == NextKey(old(call), old(redis.key), redis.day, Init(0))
      ensures call == old(call).(stage := NextStage(old(call), old(redis.key), redis.day, Init(0)))
    {
      redis.SetNxExat(0.0, call.stage.midnight);
      call := call.(stage := Ready);
    }

    /** Reserve first, then compare the value from before the reservation with the cap. */
    method TryReserve() returns (admitted: bool)
      requires call.stage.Ready?
      modifies this, redis`key
      ensures redis.key == NextKey(old(call), old(redis.key), redis.day, BudgetProtocol.Reserve(0))
      ensures call == old(call).(stage := NextStage(old(call), old(redis.key), redis.day, BudgetProtocol.Reserve(0)))
      ensures admitted == call.stage.Admitted? == (Reading(old(redis.key)) < call.cap)
    {
      var valueAfter := redis.IncrByFloat(call.reserve);
      var current := valueAfter - call.reserve;
      admitted := !(current >= call.cap);
      call := call.(stage := if admitted then Admitted else Rejected);
    }

    method ReleaseRejected(ok: bool)
      requires call.stage.Rejected?
      modifies this, redis`key
      ensures redis.key == NextKey(old(call), old(redis.key), redis.day, Release(0, ok))
      ensures call == old(call).(stage := Done)
    {
      redis.AdjustQuietly(-call.reserve, ok);
      call := call.(stage := Done);
    }

    method RollBackFailed(ok: bool)
      requires call.stage.Admitted?
      modifies this, redis`key
      ensures redis.key == NextKey(old(call), old(redis.key), redis.day, RollBack(0, ok))
      ensures call == old(call).(stage := Done)
    {
      redis.AdjustQuietly(-call.reserve, ok);
      call := call.(stage := Done);
    }

    method Reconcile(ok: bool)
      requires call.stage.Admitted?
      modifies this, redis`key
      ensures redis.key == NextKey(old(call), old(redis.key), redis.day, Settle(0, Actual(), ok))
      ensures call == old(call).(stage := Done)
      ensures Actual() == old(Actual())
    {
      var actual := if kind.Free? then meter.units as real else meter.costUsd;
      var delta := actual - call.reserve;
      if delta != 0.0 {
        redis.AdjustQuietly(delta, ok);
      }
      call := call.(stage := Done);
    }
  }

  /** The caps in force and a guard that compares against its own kind's. */
  method OpenGuard(redis: Redis, kind: Kind, overrides: map<string, Override>, reserve: Option<real>)
    returns (guard: BudgetGuard)
    ensures fresh(guard) && fresh(guard.meter)
    ensures guard.kind == kind && guard.redis == redis
    ensures guard.call.stage == Capped
    ensures guard.call.cap == EffectiveCap(kind, overrides) > 0.0
    ensures guard.call.reserve ==
            if reserve.Some? then reserve.value else if kind.Free? then 1.0 else 0.20
  {
    var caps := GetEffectiveCaps(overrides);
    guard := new BudgetGuard(kind, redis, caps, reserve);
  }

  /** What the guarded block does: raise, or finish having recorded its spend. */
  datatype Body = Raises | Finishes(units: int, costUsd: real)

  datatype Result = Exhausted | BodyRaised | Clean

  /** From the reservation to the end of a call, without Redis failures. */
  method RunGuard(guard: BudgetGuard, body: Body) returns (r: Result)
    requires guard.call.stage.Capped?
    modifies guard, guard.meter, guard.redis`key
    ensures r == if Reading(old(guard.redis.key)) >= old(guard.call.cap) then Exhausted
                 else if body.Raises? then BodyRaised else Clean
    ensures Reading(guard.redis.key) ==
            Reading(old(guard.redis.key)) +
            (if !r.Clean? then 0.0 else if guard.kind.Free? then body.units as real else body.costUsd)
    ensures guard.redis.key.Live?
    ensures guard.redis.key.expiry ==
            if old(guard.redis.key).Live? then old(guard.redis.key).expiry else Some(guard.redis.day + 1)
  {
    guard.ComputeMidnight();
    guard.InitKeyIfMissing();
    var admitted := guard.TryReserve();
    if !admitted {
      guard.ReleaseRejected(true);
      return Exhausted;
    }
    match body
    case Raises =>
      guard.RollBackFailed(true);
      return BodyRaised;
    case Finishes(units, costUsd) =>
      guard.meter.units, guard.meter.costUsd := units, costUsd;
      guard.Reconcile(true);
      return Clean;
  }

  /** A whole guarded call with nothing else touching the counter and no Redis failure: a rejected
      or failed call leaves the reading untouched, a clean one adds exactly what it recorded, and
      the key always keeps or gets an expiry. */
  method GuardedCall(redis: Redis, kind: Kind, overrides: map<string, Override>,
                     reserve: Option<real>, body: Body)
    returns (r: Result, cap: real)
    modifies redis`key
    ensures cap == EffectiveCap(kind, overrides) > 0.0
    ensures kind.Free? ==>
              (cap == if "free" in overrides && overrides["free"].Number? && overrides["free"].value >= 1.0
                      then overrides["free"].value.Floor as real else 1000.0)
    ensures kind.Premium? ==>
              (cap == if "premium_hard" in overrides && overrides["premium_hard"].Number? &&
                         overrides["premium_hard"].value > 0.0
                      then overrides["premium_hard"].value else 9.50)
    ensures kind.Premium? && "premium_hard" !in overrides && Reading(old(redis.key)) < 9.50 ==> !r.Exhausted?
    ensures r == if Reading(old(redis.key)) >= cap then Exhausted
                 else if body.Raises? then BodyRaised else Clean
    ensures Reading(redis.key) ==
            Reading(old(redis.key)) +
            (if !r.Clean? then 0.0 else if kind.Free? then body.units as real else body.costUsd)
    ensures redis.key.Live?
    ensures redis.key.expiry ==
            if old(redis.key).Live? then old(redis.key).expiry else Some(redis.day + 1)
  {
    CapInFigures(overrides);
    var guard := OpenGuard(redis, kind, overrides, reserve);
    cap := guard.call.cap;
    r := RunGuard(guard, body);
  }
}
