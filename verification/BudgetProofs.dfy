/** What the budget protocol guarantees over every run: conservation of the counter, the
    overshoot bound, the exact admission rule, and when the daily reset is lost. */
module BudgetProofs {
  import opened Prelude
  import opened BudgetProtocol

  // -------------------------------------------------------------------------------------------
  // Sums over the calls
  // -------------------------------------------------------------------------------------------

  lemma {:induction false} TotalUpdate(w: Weight, calls: seq<Call>, i: nat, c: Call)
    requires i < |calls|
    ensures Total(w, calls[i := c]) == Total(w, calls) - WeightOf(w, calls[i]) + WeightOf(w, c)
  {
    var updated := calls[i := c];
    if i == 0 {
      assert updated[1..] == calls[1..];
    } else {
      assert updated[1..] == calls[1..][i - 1 := c];
      TotalUpdate(w, calls[1..], i - 1, c);
    }
  }

  lemma {:induction false} TotalAppend(w: Weight, calls: seq<Call>, c: Call)
    ensures Total(w, calls + [c]) == Total(w, calls) + WeightOf(w, c)
  {
    if calls == [] {
      assert calls + [c] == [c];
      assert Total(w, [c][1..]) == 0.0;
    } else {
      assert (calls + [c])[1..] == calls[1..] + [c];
      TotalAppend(w, calls[1..], c);
    }
  }

  /** What is admitted, each call counted at its reserve plus `slack`, is at most what is held
      plus `slack` for each call in flight. */
  lemma {:induction false} ExposureWithinHeld(calls: seq<Call>, slack: real)
    requires forall c :: c in calls ==> c.reserve >= 0.0
    ensures Total(Exposure(slack), calls) <= Total(Held, calls) + slack * Total(InFlight, calls)
    ensures Total(Held, calls) >= 0.0
  {
    if calls != [] {
      assert calls[0] in calls;
      ExposureWithinHeld(calls[1..], slack);
      assert slack * Total(InFlight, calls) ==
             slack * WeightOf(InFlight, calls[0]) + slack * Total(InFlight, calls[1..]);
    }
  }

  lemma {:induction false} ExposureNonNegative(calls: seq<Call>, slack: real)
    requires slack >= 0.0 && forall c :: c in calls ==> c.reserve >= 0.0
    ensures Total(Exposure(slack), calls) >= 0.0
  {
    if calls != [] {
      assert calls[0] in calls;
      ExposureNonNegative(calls[1..], slack);
    }
  }

  /** How one call's step changes each sum. */
  lemma StepTotal(s: State, a: Action, w: Weight)
    requires Enabled(s, a) && !a.Begin? && !a.Midnight?
    ensures Step(s, a).calls == s.calls[a.i := Step(s, a).calls[a.i]]
    ensures Total(w, Step(s, a).calls) ==
            Total(w, s.calls) - WeightOf(w, s.calls[a.i]) + WeightOf(w, Step(s, a).calls[a.i])
  {
    TotalUpdate(w, s.calls, a.i, Step(s, a).calls[a.i]);
  }

  // -------------------------------------------------------------------------------------------
  // Conservation
  // -------------------------------------------------------------------------------------------

  ghost predicate Conserved(s: State) {
    Reading(s.key) == s.settled + Total(Held, s.calls) + s.leak - s.carry
  }

  /** Only INCRBYFLOAT moves the reading. */
  lemma ReadingAfter(c: Call, k: Key, day: nat, a: Action)
    requires CanAct(c, a)
    ensures Reading(NextKey(c, k, day, a)) ==
            Reading(k) + if Increment(c, a).Some? then Increment(c, a).value else 0.0
  {
  }

  lemma CallStepConserves(s: State, a: Action)
    requires Conserved(s) && Enabled(s, a) && !a.Begin? && !a.Midnight?
    ensures Conserved(Step(s, a))
  {
    var c := s.calls[a.i];
    ReadingAfter(c, s.key, s.day, a);
    StepTotal(s, a, Held);
    var t := Step(s, a);
    assert t.calls[a.i] == c.(stage := NextStage(c, s.key, s.day, a));
    assert t.key == NextKey(c, s.key, s.day, a);
  }

  lemma StepConserves(s: State, a: Action)
    requires Conserved(s) && Enabled(s, a)
    ensures Conserved(Step(s, a))
  {
    match a
    case Begin(cap, reserve) => TotalAppend(Held, s.calls, Call(cap, reserve, Capped));
    case Midnight =>
    case _ => CallStepConserves(s, a);
  }

  /** At every reachable state the counter is the settled spend, plus the reservations still
      held, plus what failed adjustments left behind, minus the reservations that were in flight
      when the key last expired. No hypothesis on failures, callers or timing. */
  lemma {:induction false} Conservation(run: seq<Action>)
    ensures Conserved(After(run))
  {
    if run != [] {
      Conservation(Front(run));
      if Enabled(After(Front(run)), Last(run)) {
        StepConserves(After(Front(run)), Last(run));
      }
    }
  }

  /** A midnight at which the key goes. */
  predicate Clears(s: State, a: Action) {
    a.Midnight? && (s.key.Missing? || (s.key.expiry.Some? && s.key.expiry.value <= s.day + 1))
  }

  /** The amounts of the clean exits of a run since the key last went. */
  function CleanExits(run: seq<Action>): real {
    if run == [] then 0.0
    else
      var s, a := After(Front(run)), Last(run);
      if Clears(s, a) then 0.0
      else CleanExits(Front(run)) + if a.Settle? && Enabled(s, a) then a.actual else 0.0
  }

  /** What lost replies and failed adjustments of a run left in the counter since the key last went. */
  function Failures(run: seq<Action>): real {
    if run == [] then 0.0
    else
      var s, a := After(Front(run)), Last(run);
      if Clears(s, a) then 0.0
      else Failures(Front(run)) + if Enabled(s, a) then FailureOf(s, a) else 0.0
  }

  function FailureOf(s: State, a: Action): real
    requires Enabled(s, a)
  {
    match a
    case ReserveReplyLost(i) => s.calls[i].reserve
    case Release(i, ok) => if ok then 0.0 else s.calls[i].reserve
    case RollBack(i, ok) => if ok then 0.0 else s.calls[i].reserve
    case Settle(i, actual, ok) => if ok then 0.0 else s.calls[i].reserve - actual
    case _ => 0.0
  }

  lemma StepBooks(s: State, a: Action)
    requires Enabled(s, a)
    ensures Step(s, a).settled ==
            if Clears(s, a) then 0.0 else s.settled + if a.Settle? then a.actual else 0.0
    ensures Step(s, a).leak == if Clears(s, a) then 0.0 else s.leak + FailureOf(s, a)
  {
  }

  /** The two totals of the conservation equation mean what they are called, in every run: settled is
      what clean exits recorded, leak what lost replies and failed adjustments left behind. */
  lemma {:induction false} BooksAre(run: seq<Action>)
    ensures After(run).settled == CleanExits(run) && After(run).leak == Failures(run)
  {
    if run != [] {
      BooksAre(Front(run));
      if Enabled(After(Front(run)), Last(run)) {
        StepBooks(After(Front(run)), Last(run));
      }
    }
  }

  /** Which steps a call can take where: an error can strike before the reservation, a reply can be
      lost with it, and every later adjustment can fail. */
  lemma StepsOfACall(s: State, i: nat, actual: real, ok: bool)
    requires i < |s.calls|
    ensures var stage := s.calls[i].stage;
      && (Enabled(s, Stamp(i)) <==> stage.Capped?)
      && (Enabled(s, Init(i)) <==> stage.Stamped?)
      && (Enabled(s, Reserve(i)) <==> stage.Ready?)
      && (Enabled(s, ReserveReplyLost(i)) <==> stage.Ready?)
      && (Enabled(s, Abort(i)) <==> stage.Capped? || stage.Stamped? || stage.Ready?)
      && (Enabled(s, Release(i, ok)) <==> stage.Rejected?)
      && (Enabled(s, RollBack(i, ok)) <==> stage.Admitted?)
      && (Enabled(s, Settle(i, actual, ok)) <==> stage.Admitted?)
  {
  }

  /** The exact admission rule, in every reachable state. */
  lemma AdmissionRule(run: seq<Action>, i: nat)
    requires Enabled(After(run), Reserve(i))
    ensures var s := After(run);
      Step(s, Reserve(i)).calls[i].stage ==
      if s.settled + Total(Held, s.calls) + s.leak - s.carry < s.calls[i].cap
      then Admitted else Rejected
  {
    Conservation(run);
  }

  lemma {:induction false} NothingHeld(calls: seq<Call>)
    requires forall c :: c in calls ==> !c.stage.Admitted? && !c.stage.Rejected?
    ensures Total(Held, calls) == 0.0
  {
    if calls != [] {
      assert calls[0] in calls;
      NothingHeld(calls[1..]);
    }
  }

  /** With no failed adjustment, nothing carried over a reset and no call in flight, the counter is
      the settled spend and the next caller is admitted exactly when that is under its cap. */
  lemma QuiescentAdmission(run: seq<Action>, i: nat)
    requires Enabled(After(run), Reserve(i))
    requires After(run).leak == 0.0 == After(run).carry
    requires forall c :: c in After(run).calls ==> !c.stage.Admitted? && !c.stage.Rejected?
    ensures Reading(After(run).key) == After(run).settled
    ensures Step(After(run), Reserve(i)).calls[i].stage.Admitted? <==>
            After(run).settled < After(run).calls[i].cap
  {
    AdmissionRule(run, i);
    Conservation(run);
    NothingHeld(After(run).calls);
  }

  // -------------------------------------------------------------------------------------------
  // The overshoot bound
  // -------------------------------------------------------------------------------------------

  /** Caps at most `cap`, reserves between 0 and `reserve`, no clean exit above its reserve by more
      than `slack`. */
  datatype Limits = Limits(cap: real, reserve: real, slack: real, calls: nat)

  ghost predicate WithinLimits(s: State, a: Action, m: Limits)
    requires Enabled(s, a)
  {
    && (a.Begin? ==> a.cap <= m.cap && 0.0 <= a.reserve <= m.reserve)
    && (a.Settle? ==> a.actual <= s.calls[a.i].reserve + m.slack)
    // at most `calls` callers are inside their guarded blocks (irrelevant without slack)
    && (m.slack == 0.0 || Total(InFlight, Step(s, a).calls) <= m.calls as real)
  }

  ghost predicate RunWithin(run: seq<Action>, m: Limits)
  {
    run == [] ||
    (RunWithin(Front(run), m) &&
     var s := After(Front(run));
     Enabled(s, Last(run)) ==> WithinLimits(s, Last(run), m))
  }

  /** The most that the callers in flight can settle above their reserves. */
  function Spare(m: Limits): real {
    m.slack * (m.calls as real)
  }

  function Overshoot(s: State, m: Limits): real {
    m.cap + m.reserve + Spare(m) + s.carry + s.lost
  }

  ghost predicate BelowOvershoot(s: State, m: Limits) {
    && s.settled + Total(Exposure(m.slack), s.calls) < Overshoot(s, m)
    && (m.slack == 0.0 ==> s.lost == 0.0)
  }

  ghost predicate Bounded(s: State, m: Limits) {
    && (forall c :: c in s.calls ==> c.cap <= m.cap && 0.0 <= c.reserve <= m.reserve)
    && s.leak + s.lost >= 0.0 && s.lost >= 0.0 && s.carry >= 0.0
    && BelowOvershoot(s, m)
    && (m.slack == 0.0 || Total(InFlight, s.calls) <= m.calls as real)
  }

  lemma Scaled(x: real, y: real, z: real)
    requires x >= 0.0 && (x == 0.0 || y <= z)
    ensures x * y <= x * z
  {
    if x > 0.0 {
      var d := z - y;
      assert x * d >= 0.0;
      assert x * z == x * y + x * d;
    }
  }

  lemma BelowScaled(total: real, held: real, slack: real, flight: real, calls: real)
    requires total <= held + slack * flight
    requires slack >= 0.0 && (slack == 0.0 || flight <= calls)
    ensures total <= held + slack * calls
  {
    Scaled(slack, flight, calls);
  }

  lemma ExposureWithinSpare(calls: seq<Call>, m: Limits)
    requires m.slack >= 0.0
    requires m.slack == 0.0 || Total(InFlight, calls) <= m.calls as real
    requires forall c :: c in calls ==> c.reserve >= 0.0
    ensures Total(Exposure(m.slack), calls) <= Total(Held, calls) + Spare(m)
  {
    ExposureWithinHeld(calls, m.slack);
    BelowScaled(Total(Exposure(m.slack), calls), Total(Held, calls), m.slack, Total(InFlight, calls), m.calls as real);
  }

  lemma MidnightBounded(s: State, m: Limits)
    requires Bounded(s, m) && m.cap > 0.0 && m.reserve >= 0.0 && m.slack >= 0.0
    ensures Bounded(AtMidnight(s), m)
  {
    ExposureWithinHeld(s.calls, m.slack);
    ExposureWithinSpare(s.calls, m);
  }

  /** The step that matters: before it everything held is already in the counter, and the counter
      was below the caller's cap. */
  lemma ReserveBounded(s: State, a: Action, m: Limits)
    requires a.Reserve? && Enabled(s, a) && Conserved(s) && Bounded(s, m)
    requires m.slack >= 0.0 && WithinLimits(s, a, m)
    ensures Bounded(Step(s, a), m)
  {
    var t := Step(s, a);
    BoundedCalls(s, a, m);
    StepTotal(s, a, Exposure(m.slack));
    StepTotal(s, a, InFlight);
    StepTotal(s, a, Held);
    if t.calls[a.i].stage.Admitted? {
      assert s.calls[a.i] in s.calls;
      ExposureWithinSpare(t.calls, m);
    }
  }

  lemma BoundedCalls(s: State, a: Action, m: Limits)
    requires Enabled(s, a) && Bounded(s, m) && WithinLimits(s, a, m)
    ensures forall c :: c in Step(s, a).calls ==> c.cap <= m.cap && 0.0 <= c.reserve <= m.reserve
  {
    if !a.Begin? && !a.Midnight? {
      assert s.calls[a.i] in s.calls;
    }
  }

  lemma StepBounded(s: State, a: Action, m: Limits)
    requires Enabled(s, a) && Conserved(s) && Bounded(s, m) && WithinLimits(s, a, m)
    requires m.cap > 0.0 && m.reserve >= 0.0 && m.slack >= 0.0
    ensures Bounded(Step(s, a), m)
  {
    match a
    case Begin(cap, reserve) =>
      TotalAppend(Exposure(m.slack), s.calls, Call(cap, reserve, Capped));
      TotalAppend(InFlight, s.calls, Call(cap, reserve, Capped));
    case Midnight => MidnightBounded(s, m);
    case Reserve(_) => ReserveBounded(s, a, m);
    case _ => LaterStepBounded(s, a, m);
  }

  /** Every other step of a call lowers or keeps what is settled plus what is admitted. */
  lemma LaterStepBounded(s: State, a: Action, m: Limits)
    requires Enabled(s, a) && Bounded(s, m) && WithinLimits(s, a, m) && m.slack >= 0.0
    requires !a.Begin? && !a.Midnight? && !a.Reserve?
    ensures Bounded(Step(s, a), m)
  {
    BoundedCalls(s, a, m);
    assert s.calls[a.i] in s.calls;
    StepTotal(s, a, Exposure(m.slack));
    StepTotal(s, a, InFlight);
  }

  lemma {:induction false} AlwaysBounded(run: seq<Action>, m: Limits)
    requires RunWithin(run, m)
    requires m.cap > 0.0 && m.reserve >= 0.0 && m.slack >= 0.0
    ensures Bounded(After(run), m)
  {
    if run != [] {
      AlwaysBounded(Front(run), m);
      Conservation(Front(run));
      if Enabled(After(Front(run)), Last(run)) {
        StepBounded(After(Front(run)), Last(run), m);
      }
    }
  }

  /** The bound, for any number of callers, any interleaving, any failed adjustment and any
      midnight: settled spend plus what the admitted callers may still settle stays strictly below
      cap + reserve, plus `slack` for each concurrent caller, plus what a mid-flight reset or an
      undercounting failure hid from the counter. */
  lemma OvershootBound(run: seq<Action>, m: Limits)
    requires RunWithin(run, m)
    requires m.cap > 0.0 && m.reserve >= 0.0 && m.slack >= 0.0
    ensures BelowOvershoot(After(run), m)
  {
    AlwaysBounded(run, m);
  }

  // -------------------------------------------------------------------------------------------
  // The daily reset
  // -------------------------------------------------------------------------------------------

  /** No call is between computing its expiry timestamp and its last adjustment. */
  predicate Quiet(s: State) {
    forall c :: c in s.calls ==> c.stage.Capped? || c.stage.Done?
  }

  ghost predicate QuietMidnights(run: seq<Action>) {
    forall n :: 0 <= n < |run| && run[n].Midnight? ==> Quiet(After(run[..n]))
  }

  /** A live key expires at the coming midnight, and a call that may still adjust it finds it. */
  ghost predicate Fresh(s: State) {
    && (s.key.Live? ==> s.key.expiry == Some(s.day + 1))
    && (forall c :: c in s.calls && c.stage.Stamped? ==> c.stage.midnight == s.day + 1)
    && (forall c :: c in s.calls && (c.stage.Ready? || c.stage.Rejected? || c.stage.Admitted?) ==>
          s.key.Live?)
    && s.carry == 0.0
  }

  lemma StepFresh(s: State, a: Action)
    requires Fresh(s) && Enabled(s, a) && (a.Midnight? ==> Quiet(s))
    ensures Fresh(Step(s, a))
    ensures a.Midnight? ==> Step(s, a).key.Missing? && Step(s, a).settled == 0.0
  {
    if a.Midnight? {
      NothingHeld(s.calls);
    } else if !a.Begin? {
      assert s.calls[a.i] in s.calls;
    }
  }

  lemma {:induction false} QuietPrefix(run: seq<Action>)
    requires run != [] && QuietMidnights(run)
    ensures QuietMidnights(Front(run))
    ensures Last(run).Midnight? ==> Quiet(After(Front(run)))
  {
    forall n | 0 <= n < |Front(run)| && Front(run)[n].Midnight?
      ensures Quiet(After(Front(run)[..n]))
    {
      assert Front(run)[..n] == run[..n];
    }
  }

  /** If every midnight finds the counter quiet, a live key always carries the coming midnight as
      its expiry, and each day starts with no key and nothing settled. */
  lemma {:induction false} DailyReset(run: seq<Action>)
    requires QuietMidnights(run)
    ensures Fresh(After(run))
    ensures run != [] && Last(run).Midnight? ==>
            After(run).key.Missing? && After(run).settled == 0.0
  {
    if run != [] {
      QuietPrefix(run);
      DailyReset(Front(run));
      if Enabled(After(Front(run)), Last(run)) {
        StepFresh(After(Front(run)), Last(run));
      }
    }
  }

  /** The bound a caller relies on: when no midnight falls inside a call and no clean exit spends
      more than it reserved, settled spend plus the reserves of the admitted calls stays strictly
      below cap + reserve, whatever else fails. */
  lemma {:induction false} CapHolds(run: seq<Action>, cap: real, reserve: real)
    requires cap > 0.0 && reserve >= 0.0
    requires QuietMidnights(run) && RunWithin(run, Limits(cap, reserve, 0.0, 0))
    ensures After(run).settled + Total(Exposure(0.0), After(run).calls) < cap + reserve
  {
    DailyReset(run);
    OvershootBound(run, Limits(cap, reserve, 0.0, 0));
  }

  /** A key without expiry: the daily reset is gone. */
  predicate Stuck(k: Key) {
    k.Live? && k.expiry.None?
  }

  /** An INCRBYFLOAT that lands on a missing key. */
  predicate HitsMissing(s: State, a: Action) {
    && Enabled(s, a) && !a.Begin? && !a.Midnight?
    && s.key.Missing? && Increment(s.calls[a.i], a).Some?
  }

  lemma StuckStep(s: State, a: Action)
    requires Enabled(s, a)
    ensures Stuck(Step(s, a).key) <==> Stuck(s.key) || HitsMissing(s, a)
    ensures Stuck(s.key) ==> Step(s, a).carry == s.carry
  {
  }

  ghost predicate HitsMissingAt(run: seq<Action>, n: nat)
    requires n < |run|
  {
    HitsMissing(After(run[..n]), run[n])
  }

  lemma HitsMissingAtPrefix(run: seq<Action>, n: nat)
    requires n < |run|
    ensures n < |run| - 1 ==> HitsMissingAt(run, n) == HitsMissingAt(Front(run), n)
    ensures n == |run| - 1 ==> HitsMissingAt(run, n) == HitsMissing(After(Front(run)), Last(run))
  {
    if n < |run| - 1 {
      assert Front(run)[..n] == run[..n];
    }
  }

  /** The reset is lost in a run if and only if some INCRBYFLOAT of that run found no key. */
  lemma {:induction false} ResetLostIff(run: seq<Action>)
    ensures Stuck(After(run).key) <==> exists n: nat :: n < |run| && HitsMissingAt(run, n)
  {
    if run != [] {
      ResetLostIff(Front(run));
      forall n: nat | n < |run|
        ensures n < |run| - 1 ==> HitsMissingAt(run, n) == HitsMissingAt(Front(run), n)
      {
        HitsMissingAtPrefix(run, n);
      }
      HitsMissingAtPrefix(run, |run| - 1);
      ResetLostInLastStep(run);
    }
  }

  lemma ResetLostInLastStep(run: seq<Action>)
    requires run != []
    ensures Stuck(After(run).key) <==>
            Stuck(After(Front(run)).key) || HitsMissing(After(Front(run)), Last(run))
  {
    if Enabled(After(Front(run)), Last(run)) {
      StuckStep(After(Front(run)), Last(run));
    }
  }

  lemma {:induction false} Extend(run: seq<Action>, a: Action)
    ensures Front(run + [a]) == run && Last(run + [a]) == a
    ensures After(run + [a]) ==
            if Enabled(After(run), a) then Step(After(run), a) else After(run)
  {
    assert Front(run + [a]) == run;
  }

  /** Once lost, the reset never comes back: later midnights do not clear the counter. */
  lemma {:induction false} NeverResetsAgain(run: seq<Action>, more: seq<Action>)
    requires Stuck(After(run).key)
    ensures Stuck(After(run + more).key)
    ensures After(run + more).carry == After(run).carry
    decreases |more|
  {
    if more == [] {
      assert run + more == run;
    } else {
      var front := Front(more);
      NeverResetsAgain(run, front);
      assert run + more == (run + front) + [Last(more)];
      Extend(run + front, Last(more));
      if Enabled(After(run + front), Last(more)) {
        StuckStep(After(run + front), Last(more));
      }
    }
  }

  predicate NoMidnight(run: seq<Action>) {
    forall n :: 0 <= n < |run| ==> !run[n].Midnight?
  }

  /** After a midnight that found no call under way nothing can take the expiry away before the next. */
  lemma {:induction false} FreshUntilMidnight(run: seq<Action>, more: seq<Action>)
    requires Fresh(After(run)) && Quiet(After(run)) && NoMidnight(more)
    ensures Fresh(After(run + [Midnight] + more))
    decreases |more|
  {
    if more == [] {
      Extend(run, Midnight);
      StepFresh(After(run), Midnight);
      assert run + [Midnight] + more == run + [Midnight];
    } else {
      var start, front := run + [Midnight], Front(more);
      FreshUntilMidnight(run, front);
      assert start + more == (start + front) + [Last(more)];
      Extend(start + front, Last(more));
      if Enabled(After(start + front), Last(more)) {
        StepFresh(After(start + front), Last(more));
      }
    }
  }

  /** What a call that midnight finds under way can do next to leave the key without an expiry. */
  function Undoing(i: nat, stage: Stage): seq<Action> {
    match stage
    case Stamped(_) => [Init(i), Reserve(i)]
    case Ready => [Reserve(i)]
    case Rejected => [Release(i, true)]
    case _ => [RollBack(i, true)]
  }

  /** Midnight takes the key away, and a call that was waiting finds none. */
  lemma AfterMidnight(run: seq<Action>)
    requires Fresh(After(run))
    ensures After(run + [Midnight]).key.Missing? && After(run + [Midnight]).calls == After(run).calls
    ensures After(run + [Midnight]).day == After(run).day + 1
  {
    Extend(run, Midnight);
  }

  lemma OneStepUndoes(run: seq<Action>, a: Action)
    requires HitsMissing(After(run), a)
    ensures Stuck(After(run + [a]).key)
  {
    Extend(run, a);
    StuckStep(After(run), a);
  }

  /** A timestamp computed before midnight has passed, so SET NX EXAT leaves no key. */
  lemma LateInit(run: seq<Action>, i: nat)
    requires Enabled(After(run), Init(i)) && After(run).key.Missing?
    requires After(run).calls[i].stage.midnight <= After(run).day
    ensures HitsMissing(After(run + [Init(i)]), Reserve(i))
  {
    Extend(run, Init(i));
  }

  lemma BusyCallUndoes(run: seq<Action>, i: nat)
    requires Fresh(After(run)) && i < |After(run).calls|
    requires !After(run).calls[i].stage.Capped? && !After(run).calls[i].stage.Done?
    ensures Stuck(After(run + [Midnight] + Undoing(i, After(run).calls[i].stage)).key)
  {
    var c, start := After(run).calls[i], run + [Midnight];
    AfterMidnight(run);
    match c.stage
    case Stamped(_) =>
      assert c in After(run).calls;
      LateInit(start, i);
      OneStepUndoes(start + [Init(i)], Reserve(i));
      assert start + Undoing(i, c.stage) == start + [Init(i)] + [Reserve(i)];
    case Ready => OneStepUndoes(start, Reserve(i));
    case Rejected => OneStepUndoes(start, Release(i, true));
    case _ => OneStepUndoes(start, RollBack(i, true));
  }

  /** A midnight is safe, in that nothing on the following day can leave the key without an expiry, if
      and only if it finds no call between computing its expiry timestamp and its last adjustment. */
  lemma {:induction false} MidnightSafeIff(run: seq<Action>)
    requires Fresh(After(run))
    ensures (forall more :: NoMidnight(more) ==> !Stuck(After(run + [Midnight] + more).key))
            <==> Quiet(After(run))
  {
    if Quiet(After(run)) {
      forall more | NoMidnight(more)
        ensures !Stuck(After(run + [Midnight] + more).key)
      {
        FreshUntilMidnight(run, more);
      }
    } else {
      var c :| c in After(run).calls && !c.stage.Capped? && !c.stage.Done?;
      var i: nat :| i < |After(run).calls| && After(run).calls[i] == c;
      BusyCallUndoes(run, i);
      assert NoMidnight(Undoing(i, c.stage));
    }
  }

  /** A first call up to its admission. */
  function Opening(): seq<Action> {
    [Begin(9.5, 0.2)] + [Stamp(0)] + [Init(0)] + [Reserve(0)]
  }

  lemma AfterOpening()
    ensures After(Opening()) ==
            State(0, Live(0.2, Some(1)), [Call(9.5, 0.2, Admitted)], 0.0, 0.0, 0.0, 0.0)
  {
    var r1 := [Begin(9.5, 0.2)];
    var r2 := r1 + [Stamp(0)];
    var r3 := r2 + [Init(0)];
    Extend([], Begin(9.5, 0.2));
    assert [] + r1 == r1;
    Extend(r1, Stamp(0));
    Extend(r2, Init(0));
    Extend(r3, Reserve(0));
    assert After(r1).calls == [Call(9.5, 0.2, Capped)];
    assert After(r2).calls == [Call(9.5, 0.2, Stamped(1))];
    assert After(r3).calls == [Call(9.5, 0.2, Ready)] && After(r3).key == Live(0.0, Some(1));
  }

  /** One such run: a call that is admitted before midnight and settles less than its reserve after it
      recreates the key without expiry, and with a negative value at that. */
  lemma MidnightInsideACall()
    ensures var run := [Begin(9.5, 0.2), Stamp(0), Init(0), Reserve(0), Midnight, Settle(0, 0.1, true)];
      After(run).key == Live(0.1 - 0.2, None) && After(run).settled == 0.1
  {
    var open := Opening();
    AfterOpening();
    Extend(open, Midnight);
    Extend(open + [Midnight], Settle(0, 0.1, true));
    assert open + [Midnight] + [Settle(0, 0.1, true)] ==
           [Begin(9.5, 0.2), Stamp(0), Init(0), Reserve(0), Midnight, Settle(0, 0.1, true)];
  }
}
