/** The daily AI budget counter as a protocol over one shared Redis key.

    Every guarded call runs: read the caps, compute the next UTC midnight, `SET NX EXAT`,
    `INCRBYFLOAT +reserve`, then admission or release, then roll-back or reconciliation.
    Each Redis command is one atomic step; the local comparison that follows the reserving
    INCRBYFLOAT has no suspension point before it, so it belongs to the same step. Any number
    of calls interleave, Redis replies may be lost, best-effort adjustments may fail, and
    midnight may strike between any two steps. */
module BudgetProtocol {
  import opened Prelude

  /** The Redis key: absent, or a number with the UTC day at whose start it expires. */
  datatype Key = Missing | Live(value: real, expiry: Option<nat>)

  function Reading(k: Key): real {
    if k.Missing? then 0.0 else k.value
  }

  /** SET key initial EXAT midnight NX. An EXAT that has already passed leaves no key behind. */
  function SetNx(k: Key, initial: real, midnight: nat, day: nat): Key {
    if k.Live? then k
    else if midnight <= day then Missing
    else Live(initial, Some(midnight))
  }

  /** INCRBYFLOAT: keeps the expiry of a live key, creates a missing one without any. */
  function Incr(k: Key, amount: real): Key {
    if k.Missing? then Live(amount, None) else k.(value := k.value + amount)
  }

  function Expire(k: Key, day: nat): Key {
    if k.Live? && k.expiry.Some? && k.expiry.value <= day then Missing else k
  }

  /** Where one `budget_guard` call stands. */
  datatype Stage =
    | Capped                  // effective caps have been read
    | Stamped(midnight: nat)  // the expiry timestamp has been computed
    | Ready                   // SET NX EXAT has run
    | Rejected                // reserved, found at or over the cap, not yet released
    | Admitted                // reserved and inside the guarded block
    | Done

  datatype Call = Call(cap: real, reserve: real, stage: Stage)

  datatype Action =
    | Begin(cap: real, reserve: real)
    | Stamp(i: nat)
    | Init(i: nat)
    | Reserve(i: nat)
    | ReserveReplyLost(i: nat)                    // Redis applied it, the caller saw an error
    | Abort(i: nat)                               // an error before any reservation took effect
    | Release(i: nat, ok: bool)                   // after a rejection
    | RollBack(i: nat, ok: bool)                  // the guarded block raised
    | Settle(i: nat, actual: real, ok: bool)      // clean exit
    | Midnight

  /** `settled` is the spend of clean exits, `leak` what failed adjustments left in the counter
      (negative when a failed one should have raised it), `lost` the part of those failures that
      left the counter too low, and `carry` the reservations that were in flight at the reset;
      all four count from the last midnight at which the key was gone. */
  datatype State = State(
    day: nat, key: Key, calls: seq<Call>,
    settled: real, leak: real, lost: real, carry: real)

  const START := State(0, Missing, [], 0.0, 0.0, 0.0, 0.0)

  function Max(x: real, y: real): real {
    if x < y then y else x
  }

  // -------------------------------------------------------------------------------------------
  // One call's own step: its new stage and the new key
  // -------------------------------------------------------------------------------------------

  predicate CanAct(c: Call, a: Action) {
    match a
    case Stamp(_) => c.stage.Capped?
    case Init(_) => c.stage.Stamped?
    case Reserve(_) => c.stage.Ready?
    case ReserveReplyLost(_) => c.stage.Ready?
    case Abort(_) => c.stage.Capped? || c.stage.Stamped? || c.stage.Ready?
    case Release(_, _) => c.stage.Rejected?
    case RollBack(_, _) => c.stage.Admitted?
    case Settle(_, _, _) => c.stage.Admitted?
    case Begin(_, _) => false
    case Midnight => false
  }

  /** What the call adds to the counter by INCRBYFLOAT in this step, if it issues one that lands. */
  function Increment(c: Call, a: Action): Option<real> {
    match a
    case Reserve(_) => Some(c.reserve)
    case ReserveReplyLost(_) => Some(c.reserve)
    case Release(_, ok) => if ok then Some(-c.reserve) else None
    case RollBack(_, ok) => if ok then Some(-c.reserve) else None
    case Settle(_, actual, ok) =>
      if ok && actual != c.reserve then Some(actual - c.reserve) else None
    case _ => None
  }

  function NextStage(c: Call, k: Key, day: nat, a: Action): Stage {
    match a
    case Stamp(_) => Stamped(day + 1)
    case Init(_) => Ready
    case Reserve(_) => if Reading(k) < c.cap then Admitted else Rejected
    case _ => Done
  }

  function NextKey(c: Call, k: Key, day: nat, a: Action): Key
    requires CanAct(c, a)
  {
    if a.Init? then SetNx(k, 0.0, c.stage.midnight, day)
    else
      var amount := Increment(c, a);
      if amount.Some? then Incr(k, amount.value) else k
  }

  // -------------------------------------------------------------------------------------------
  // The whole system
  // -------------------------------------------------------------------------------------------

  predicate Enabled(s: State, a: Action) {
    match a
    case Begin(_, _) => true
    case Midnight => true
    case _ => a.i < |s.calls| && CanAct(s.calls[a.i], a)
  }

  function Step(s: State, a: Action): State
    requires Enabled(s, a)
  {
    match a
    case Begin(cap, reserve) => s.(calls := s.calls + [Call(cap, reserve, Capped)])
    case Midnight => AtMidnight(s)
    case _ =>
      var c := s.calls[a.i];
      Account(
        s.(key := NextKey(c, s.key, s.day, a),
           calls := s.calls[a.i := c.(stage := NextStage(c, s.key, s.day, a))]),
        c, a)
  }

  function AtMidnight(s: State): State {
    var key := Expire(s.key, s.day + 1);
    if key.Missing? then State(s.day + 1, key, s.calls, 0.0, 0.0, 0.0, Total(Held, s.calls))
    else s.(day := s.day + 1)
  }

  /** The bookkeeping that accompanies one call's step. */
  function Account(s: State, c: Call, a: Action): State {
    match a
    case ReserveReplyLost(_) => s.(leak := s.leak + c.reserve)
    case Release(_, ok) => if ok then s else s.(leak := s.leak + c.reserve)
    case RollBack(_, ok) => if ok then s else s.(leak := s.leak + c.reserve)
    case Settle(_, actual, ok) =>
      if ok then s.(settled := s.settled + actual)
      else s.(settled := s.settled + actual,
              leak := s.leak + c.reserve - actual,
              lost := s.lost + Max(0.0, actual - c.reserve))
    case _ => s
  }

  /** Quantities that are summed over the calls. */
  datatype Weight = Held | InFlight | Exposure(slack: real)

  function WeightOf(w: Weight, c: Call): real {
    match w
    case Held => if c.stage.Admitted? || c.stage.Rejected? then c.reserve else 0.0
    case InFlight => if c.stage.Admitted? then 1.0 else 0.0
    case Exposure(slack) => if c.stage.Admitted? then c.reserve + slack else 0.0
  }

  function Total(w: Weight, calls: seq<Call>): real {
    if calls == [] then 0.0 else WeightOf(w, calls[0]) + Total(w, calls[1..])
  }

  // -------------------------------------------------------------------------------------------
  // Runs
  // -------------------------------------------------------------------------------------------

  function Front(run: seq<Action>): seq<Action>
    requires run != []
  {
    run[..|run| - 1]
  }

  function Last(run: seq<Action>): Action
    requires run != []
  {
    run[|run| - 1]
  }

  /** The state after a run. An action that is not enabled leaves the state as it is, so every
      sequence of actions is a run and every run of the protocol is one of these. */
  function After(run: seq<Action>): State {
    if run == [] then START
    else
      var s := After(Front(run));
      if Enabled(s, Last(run)) then Step(s, Last(run)) else s
  }
}
