/** The fixed-window rate limiter as a protocol over one counter key: GET, compare, INCR, and EXPIRE
    by the request whose INCR created the key. Requests interleave at these commands, the window
    can lapse between any two, and a request can die between any two. */
module RateLimiter {

  datatype Key = Missing | Live(count: nat, expires: bool)

  function Count(k: Key): nat {
    if k.Missing? then 0 else k.count
  }

  datatype Stage =
    | Arrived
    | Checked     // passed the comparison, INCR still to come
    | Expiring    // its INCR returned 1, EXPIRE still to come
    | Through
    | Refused
    | Dead

  datatype Action =
    | Arrive
    | Get(i: nat)
    | Incr(i: nat)
    | SetExpire(i: nat)
    | Die(i: nat)
    | Lapse          // the key reaches its expiry

  /** `orphaned`: a request died between creating the key and giving it an expiry. */
  datatype State = State(key: Key, requests: seq<Stage>, orphaned: bool)

  const START := State(Missing, [], false)

  predicate Enabled(s: State, a: Action) {
    match a
    case Arrive => true
    case Get(i) => i < |s.requests| && s.requests[i].Arrived?
    case Incr(i) => i < |s.requests| && s.requests[i].Checked?
    case SetExpire(i) => i < |s.requests| && s.requests[i].Expiring?
    case Die(i) => i < |s.requests| && !s.requests[i].Through? && !s.requests[i].Refused?
    case Lapse => s.key.Live? && s.key.expires
  }

  function AfterGet(k: Key, max: nat): Stage {
    if Count(k) >= max then Refused else Checked
  }

  function AfterIncr(k: Key): (Key, Stage) {
    if k.Missing? then (Live(1, false), Expiring)
    else (k.(count := k.count + 1), if k.count + 1 == 1 then Expiring else Through)
  }

  function AfterExpire(k: Key): Key {
    if k.Missing? then k else k.(expires := true)
  }

  function Step(s: State, a: Action, max: nat): State
    requires Enabled(s, a)
  {
    match a
    case Arrive => s.(requests := s.requests + [Arrived])
    case Get(i) => s.(requests := s.requests[i := AfterGet(s.key, max)])
    case Incr(i) =>
      var (key, stage) := AfterIncr(s.key);
      s.(key := key, requests := s.requests[i := stage])
    case SetExpire(i) => s.(key := AfterExpire(s.key), requests := s.requests[i := Through])
    case Die(i) => s.(requests := s.requests[i := Dead], orphaned := s.orphaned || s.requests[i].Expiring?)
    case Lapse => s.(key := Missing)
  }

  function Front(run: seq<Action>): seq<Action>
    requires run != []
  {
    run[..|run| - 1]
  }

  function Last(run: seq<Action>): Action
    requires run != []
  {
    run[|run| - 1]
  }

  /** The state after a run; an action that is not enabled changes nothing. */
  function After(run: seq<Action>, max: nat): State {
    if run == [] then START
    else
      var s := After(Front(run), max);
      if Enabled(s, Last(run)) then Step(s, Last(run), max) else s
  }

  function Number(stage: Stage, requests: seq<Stage>): nat {
    if requests == [] then 0
    else (if requests[0] == stage then 1 else 0) + Number(stage, requests[1..])
  }

  lemma {:induction false} NumberUpdate(stage: Stage, requests: seq<Stage>, i: nat, to: Stage)
    requires i < |requests|
    ensures Number(stage, requests[i := to]) ==
            Number(stage, requests) - (if requests[i] == stage then 1 else 0) + (if to == stage then 1 else 0)
  {
    if i == 0 {
      assert requests[i := to][1..] == requests[1..];
    } else {
      assert requests[i := to][1..] == requests[1..][i - 1 := to];
      NumberUpdate(stage, requests[1..], i - 1, to);
    }
  }

  lemma {:induction false} NumberArrive(stage: Stage, requests: seq<Stage>)
    requires !stage.Arrived?
    ensures Number(stage, requests + [Arrived]) == Number(stage, requests)
  {
    if requests == [] {
      assert Number(stage, [Arrived][1..]) == 0;
    } else {
      assert (requests + [Arrived])[1..] == requests[1..] + [Arrived];
      NumberArrive(stage, requests[1..]);
    }
  }

  lemma StepNumber(s: State, a: Action, max: nat, stage: Stage)
    requires Enabled(s, a) && !stage.Arrived?
    ensures a.Arrive? || a.Lapse? ==> Number(stage, Step(s, a, max).requests) == Number(stage, s.requests)
    ensures !a.Arrive? && !a.Lapse? ==>
      Number(stage, Step(s, a, max).requests) == Number(stage, s.requests)
        - (if s.requests[a.i] == stage then 1 else 0)
        + (if Step(s, a, max).requests[a.i] == stage then 1 else 0)
  {
    if a.Arrive? {
      NumberArrive(stage, s.requests);
    } else if !a.Lapse? {
      NumberUpdate(stage, s.requests, a.i, Step(s, a, max).requests[a.i]);
    }
  }

  // -------------------------------------------------------------------------------------------
  // How many get through
  // -------------------------------------------------------------------------------------------

  /** At most `width` requests are between their GET and their INCR, at every point of the run. */
  ghost predicate Narrow(run: seq<Action>, max: nat, width: nat) {
    Number(Checked, After(run, max).requests) <= width && (run == [] || Narrow(Front(run), max, width))
  }

  ghost predicate Bounded(s: State, max: nat, width: nat) {
    && Count(s.key) + Number(Checked, s.requests) <= max + width - 1
    && (max == 0 ==> Number(Checked, s.requests) == 0 == Count(s.key))
    && Number(Checked, s.requests) <= width
  }

  lemma StepBounded(s: State, a: Action, max: nat, width: nat)
    requires width >= 1 && Enabled(s, a) && Bounded(s, max, width)
    requires Number(Checked, Step(s, a, max).requests) <= width
    ensures Bounded(Step(s, a, max), max, width)
  {
    StepNumber(s, a, max, Checked);
  }

  /** One lifetime of the key counts at most max + width - 1 requests, in every interleaving: the
      limit itself when requests do not overlap between GET and INCR. */
  lemma {:induction false} WindowBound(run: seq<Action>, max: nat, width: nat)
    requires width >= 1 && Narrow(run, max, width)
    ensures Bounded(After(run, max), max, width)
    ensures Count(After(run, max).key) <= max + width - 1
  {
    if run != [] {
      WindowBound(Front(run), max, width);
      if Enabled(After(Front(run), max), Last(run)) {
        StepBounded(After(Front(run), max), Last(run), max, width);
      }
    }
  }

  // The bound is reached ----------------------------------------------------------------------

  lemma Extend(run: seq<Action>, a: Action, max: nat)
    ensures Front(run + [a]) == run && Last(run + [a]) == a
    ensures After(run + [a], max) ==
            if Enabled(After(run, max), a) then Step(After(run, max), a, max) else After(run, max)
  {
    assert Front(run + [a]) == run;
  }

  /** The run has counted `count` requests and has `checked` more between GET and INCR. */
  ghost predicate Reaches(run: seq<Action>, max: nat, width: nat, count: nat, checked: nat) {
    && Narrow(run, max, width)
    && Count(After(run, max).key) == count && Number(Checked, After(run, max).requests) == checked
  }

  lemma OneMoreChecked(run: seq<Action>, max: nat, width: nat, count: nat, checked: nat)
    returns (longer: seq<Action>)
    requires Reaches(run, max, width, count, checked) && count < max && checked < width
    ensures Reaches(longer, max, width, count, checked + 1) && run <= longer
  {
    var n := |After(run, max).requests|;
    Extend(run, Arrive, max);
    Extend(run + [Arrive], Get(n), max);
    StepNumber(After(run, max), Arrive, max, Checked);
    StepNumber(After(run + [Arrive], max), Get(n), max, Checked);
    longer := run + [Arrive] + [Get(n)];
  }

  lemma {:induction false} FindChecked(requests: seq<Stage>) returns (i: nat)
    requires Number(Checked, requests) > 0
    ensures i < |requests| && requests[i].Checked?
  {
    if requests[0].Checked? {
      i := 0;
    } else {
      i := FindChecked(requests[1..]);
      i := i + 1;
    }
  }

  lemma OneMoreCounted(run: seq<Action>, max: nat, width: nat, count: nat, checked: nat)
    returns (longer: seq<Action>)
    requires Reaches(run, max, width, count, checked) && checked > 0
    ensures Reaches(longer, max, width, count + 1, checked - 1) && run <= longer
  {
    var i := FindChecked(After(run, max).requests);
    Extend(run, Incr(i), max);
    StepNumber(After(run, max), Incr(i), max, Checked);
    longer := run + [Incr(i)];
  }

  /** `count` requests one after the other. */
  lemma {:induction false} OneByOne(max: nat, width: nat, count: nat) returns (run: seq<Action>)
    requires count <= max && width >= 1
    ensures Reaches(run, max, width, count, 0)
  {
    run := [];
    if count > 0 {
      run := OneByOne(max, width, count - 1);
      run := OneMoreChecked(run, max, width, count - 1, 0);
      run := OneMoreCounted(run, max, width, count - 1, 1);
    }
  }

  /** And then `checked` requests that all read the counter before any of them raises it. */
  lemma {:induction false} AllAtOnce(max: nat, width: nat, checked: nat) returns (run: seq<Action>)
    requires max >= 1 && checked <= width && width >= 1
    ensures Reaches(run, max, width, max - 1, checked)
  {
    if checked == 0 {
      run := OneByOne(max, width, max - 1);
    } else {
      run := AllAtOnce(max, width, checked - 1);
      run := OneMoreChecked(run, max, width, max - 1, checked - 1);
    }
  }

  lemma {:induction false} Drain(run: seq<Action>, max: nat, width: nat, count: nat, checked: nat)
    returns (longer: seq<Action>)
    requires Reaches(run, max, width, count, checked)
    ensures Reaches(longer, max, width, count + checked, 0)
    decreases checked
  {
    if checked == 0 {
      longer := run;
    } else {
      longer := OneMoreCounted(run, max, width, count, checked);
      longer := Drain(longer, max, width, count + 1, checked - 1);
    }
  }

  /** The bound of `WindowBound` is exact. */
  lemma WindowBoundReached(max: nat, width: nat) returns (run: seq<Action>)
    requires max >= 1 && width >= 1
    ensures Narrow(run, max, width) && Count(After(run, max).key) == max + width - 1
  {
    run := AllAtOnce(max, width, width);
    run := Drain(run, max, width, max - 1, width);
  }

  /** No key lifetime exceeds the limit if and only if requests never overlap between GET and INCR,
      or nothing is admitted at all. */
  lemma LimitHoldsIff(max: nat, width: nat)
    requires width >= 1
    ensures (forall run :: Narrow(run, max, width) ==> Count(After(run, max).key) <= max)
            <==> max == 0 || width == 1
  {
    if max == 0 || width == 1 {
      forall run | Narrow(run, max, width)
        ensures Count(After(run, max).key) <= max
      {
        WindowBound(run, max, width);
      }
    } else {
      var run := WindowBoundReached(max, width);
    }
  }

  // -------------------------------------------------------------------------------------------
  // The expiry
  // -------------------------------------------------------------------------------------------

  ghost predicate ExpiryInv(s: State) {
    && Number(Expiring, s.requests) + (if s.orphaned then 1 else 0) ==
       (if s.key.Live? && !s.key.expires then 1 else 0)
    && (s.key.Live? ==> s.key.count > 0)
  }

  lemma StepExpiry(s: State, a: Action, max: nat)
    requires Enabled(s, a) && ExpiryInv(s)
    ensures ExpiryInv(Step(s, a, max))
  {
    StepNumber(s, a, max, Expiring);
    if !a.Arrive? && !a.Lapse? && s.requests[a.i].Expiring? {
      SomeStage(s.requests, a.i);
    }
  }

  lemma {:induction false} SomeStage(requests: seq<Stage>, i: nat)
    requires i < |requests|
    ensures Number(requests[i], requests) > 0
  {
    if i > 0 {
      assert requests[1..][i - 1] == requests[i];
      SomeStage(requests[1..], i - 1);
    }
  }

  /** A key without an expiry belongs to exactly one request that is about to run EXPIRE, or to one
      that died before it could. */
  lemma {:induction false} ExpiryOwned(run: seq<Action>, max: nat)
    ensures ExpiryInv(After(run, max))
  {
    if run != [] {
      ExpiryOwned(Front(run), max);
      if Enabled(After(Front(run), max), Last(run)) {
        StepExpiry(After(Front(run), max), Last(run), max);
      }
    }
  }

  lemma StepOrphaned(s: State, a: Action, max: nat)
    requires Enabled(s, a) && ExpiryInv(s) && s.orphaned
    ensures Step(s, a, max).orphaned && Count(Step(s, a, max).key) >= Count(s.key)
  {
    if a.SetExpire? {
      SomeStage(s.requests, a.i);
    }
  }

  /** An orphaned key never lapses again: its count only grows, so once it has reached the limit
      every later request is refused for good. */
  lemma {:induction false} OrphanedForever(run: seq<Action>, more: seq<Action>, max: nat)
    requires After(run, max).orphaned
    ensures After(run + more, max).orphaned
    ensures Count(After(run + more, max).key) >= Count(After(run, max).key)
    ensures Count(After(run, max).key) >= max ==>
              AfterGet(After(run + more, max).key, max) == Refused
    decreases |more|
  {
    if more == [] {
      assert run + more == run;
    } else {
      var front := Front(more);
      OrphanedForever(run, front, max);
      assert Front(run + more) == run + front && Last(run + more) == Last(more);
      ExpiryOwned(run + front, max);
      if Enabled(After(run + front, max), Last(more)) {
        StepOrphaned(After(run + front, max), Last(more), max);
      }
    }
  }

  /** A request that creates the key and dies before its EXPIRE. */
  lemma OneDies(max: nat) returns (run: seq<Action>)
    requires max >= 1
    ensures Reaches(run, max, 1, 1, 0) && After(run, max).orphaned
  {
    var arrived, checked, created := [Arrive], [Arrive] + [Get(0)], [Arrive] + [Get(0)] + [Incr(0)];
    Extend([], Arrive, max);
    assert [] + [Arrive] == arrived;
    Extend(arrived, Get(0), max);
    Extend(checked, Incr(0), max);
    Extend(created, Die(0), max);
    assert After(arrived, max) == State(Missing, [Arrived], false);
    assert After(checked, max) == State(Missing, [Checked], false);
    assert After(created, max) == State(Live(1, false), [Expiring], false);
    assert After(created + [Die(0)], max) == State(Live(1, false), [Dead], true);
    assert Number(Checked, [Checked]) == 1 by { assert [Checked][1..] == []; }
    forall stage: Stage | !stage.Checked?
      ensures Number(Checked, [stage]) == 0
    {
      assert [stage][1..] == [];
    }
    assert Narrow([], max, 1) && Narrow(arrived, max, 1) && Narrow(checked, max, 1) && Narrow(created, max, 1);
    run := created + [Die(0)];
  }

  /** After that death, ordinary requests one after the other up to the limit. */
  lemma {:induction false} OrphanReaches(max: nat, count: nat) returns (run: seq<Action>)
    requires 1 <= count <= max
    ensures Reaches(run, max, 1, count, 0) && After(run, max).orphaned
  {
    if count == 1 {
      run := OneDies(max);
    } else {
      run := OrphanReaches(max, count - 1);
      var checked := OneMoreChecked(run, max, 1, count - 1, 0);
      var counted := OneMoreCounted(checked, max, 1, count - 1, 1);
      assert counted == run + counted[|run|..];
      OrphanedForever(run, counted[|run|..], max);
      run := counted;
    }
  }

  /** For every limit there is a run, with no overlap at all, after which every later request is
      refused whatever happens: one death between INCR and EXPIRE is enough. */
  lemma LockedOutForGood(max: nat) returns (run: seq<Action>)
    requires max >= 1
    ensures Narrow(run, max, 1) && After(run, max).orphaned
    ensures forall more :: AfterGet(After(run + more, max).key, max) == Refused
  {
    run := OrphanReaches(max, max);
    forall more
      ensures AfterGet(After(run + more, max).key, max) == Refused
    {
      OrphanedForever(run, more, max);
    }
  }

  /** A window that lapses starts the count over, and can lapse exactly when the key has an expiry. */
  lemma LapseStartsOver(s: State, max: nat, i: nat)
    ensures Enabled(s, Lapse) <==> s.key.Live? && s.key.expires
    ensures Enabled(s, Lapse) ==> Step(s, Lapse, max).key.Missing? && Count(Step(s, Lapse, max).key) == 0
    ensures Enabled(s, Lapse) && i < |s.requests| && s.requests[i].Arrived? ==>
              Step(Step(s, Lapse, max), Get(i), max).requests[i] == if max == 0 then Refused else Checked
  {
  }

  // -------------------------------------------------------------------------------------------
  // The dependency as code
  // -------------------------------------------------------------------------------------------

  class RateLimit {
    const maxRequests: nat
    var key: Key

    constructor (maxRequests: nat)
      ensures this.maxRequests == maxRequests && key == Missing
    {
      this.maxRequests, key := maxRequests, Missing;
    }

    /** GET and the comparison. */
    method Check() returns (stage: Stage)
      ensures stage == AfterGet(key, maxRequests)
    {
      var count := 0;
      if key.Live? {
        count := key.count;
      }
      return if count >= maxRequests then Refused else Checked;
    }

    method Incr() returns (stage: Stage)
      modifies this
      ensures (key, stage) == AfterIncr(old(key))
    {
      key := if key.Live? then key.(count := key.count + 1) else Live(1, false);
      return if key.count == 1 then Expiring else Through;
    }

    method Expire()
      modifies this
      ensures key == AfterExpire(old(key))
    {
      if key.Live? {
        key := key.(expires := true);
      }
    }

    /** A whole call on its own: refused exactly at the limit, else counted, and the window starts
        with the first. */
    method Call() returns (refused: bool)
      requires key.Live? ==> key.count > 0
      modifies this
      ensures refused <==> Count(old(key)) >= maxRequests
      ensures refused ==> key == old(key)
      ensures !refused ==> key == Live(Count(old(key)) + 1, old(key).Missing? || old(key).expires)
    {
      var stage := Check();
      if stage.Refused? {
        return true;
      }
      stage := Incr();
      if stage.Expiring? {
        Expire();
      }
      return false;
    }
  }
}
