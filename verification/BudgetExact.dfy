/** The bound on the daily budget for runs whose clean exits are metered in a given way, and when the
    documented bound of cap + reserve holds, exactly. With no midnight inside a call every run stays
    below it if and only if no clean exit may spend more than it reserved; a midnight inside a call
    can break it even then. */
module BudgetExact {
  import opened BudgetProtocol
  import opened BudgetProofs

  // -------------------------------------------------------------------------------------------
  // Metered runs
  // -------------------------------------------------------------------------------------------

  /** Calls reserve `reserve` under caps of at most `cap`, their clean exits settle what `meter`
      allows, and at most `inFlight` of them are inside their blocks at once. */
  datatype Terms = Terms(cap: real, reserve: real, meter: real -> bool, inFlight: nat)

  ghost predicate MeteredRun(run: seq<Action>, m: Terms) {
    && (forall n :: 0 <= n < |run| && run[n].Begin? ==> run[n].reserve == m.reserve && run[n].cap <= m.cap)
    && (forall n :: 0 <= n < |run| && run[n].Settle? ==> m.meter(run[n].actual))
    && (forall n :: 0 <= n <= |run| ==> Total(InFlight, After(run[..n]).calls) <= m.inFlight as real)
  }

  predicate NoFailedSettle(run: seq<Action>) {
    forall n :: 0 <= n < |run| && run[n].Settle? ==> run[n].ok
  }

  /** No midnight falls inside a call and every reconciliation gets through. */
  ghost predicate CleanRun(run: seq<Action>, m: Terms) {
    MeteredRun(run, m) && QuietMidnights(run) && NoFailedSettle(run)
  }

  function TermLimits(m: Terms, slack: real): Limits {
    Limits(m.cap, m.reserve, slack, m.inFlight)
  }

  ghost predicate Covers(m: Terms, slack: real) {
    m.reserve >= 0.0 && slack >= 0.0 && forall x :: m.meter(x) ==> x <= m.reserve + slack
  }

  lemma FrontIsMetered(run: seq<Action>, m: Terms)
    requires run != [] && MeteredRun(run, m)
    ensures MeteredRun(Front(run), m)
  {
    var front := Front(run);
    assert forall n :: 0 <= n <= |front| ==> front[..n] == run[..n];
  }

  lemma {:induction false} ReservesAre(run: seq<Action>, m: Terms)
    requires MeteredRun(run, m)
    ensures forall c :: c in After(run).calls ==> c.reserve == m.reserve
  {
    if run != [] {
      FrontIsMetered(run, m);
      ReservesAre(Front(run), m);
      var s, last := After(Front(run)), Last(run);
      if Enabled(s, last) && !last.Begin? && !last.Midnight? {
        assert s.calls[last.i] in s.calls;
      }
    }
  }

  /** Such a run stays within its limits in its last step. */
  lemma LastWithin(run: seq<Action>, m: Terms, slack: real)
    requires run != [] && MeteredRun(run, m) && Covers(m, slack)
    requires Enabled(After(Front(run)), Last(run))
    ensures WithinLimits(After(Front(run)), Last(run), TermLimits(m, slack))
  {
    var s, last := After(Front(run)), Last(run);
    assert run[..|run|] == run;
    FrontIsMetered(run, m);
    ReservesAre(Front(run), m);
    if last.Settle? {
      assert m.meter(last.actual) && s.calls[last.i] in s.calls;
    }
  }

  lemma {:induction false} MeteredWithin(run: seq<Action>, m: Terms, slack: real)
    requires MeteredRun(run, m) && Covers(m, slack)
    ensures RunWithin(run, TermLimits(m, slack))
  {
    if run != [] {
      FrontIsMetered(run, m);
      MeteredWithin(Front(run), m, slack);
      if Enabled(After(Front(run)), Last(run)) {
        LastWithin(run, m, slack);
      }
    }
  }

  lemma {:induction false} NothingLost(run: seq<Action>)
    requires NoFailedSettle(run)
    ensures After(run).lost == 0.0
  {
    if run != [] {
      NothingLost(Front(run));
    }
  }

  function Sum(piece: real, n: nat): real {
    if n == 0 then 0.0 else Sum(piece, n - 1) + piece
  }

  lemma {:induction false} SumIs(piece: real, n: nat)
    ensures Sum(piece, n) == n as real * piece
  {
    if n > 0 {
      SumIs(piece, n - 1);
      assert n as real * piece == (n - 1) as real * piece + piece;
    }
  }

  lemma {:induction false} SumOfNothing(n: nat)
    ensures Sum(0.0, n) == 0.0
  {
    if n > 0 {
      SumOfNothing(n - 1);
    }
  }

  lemma OvershootIs(s: State, m: Terms, slack: real)
    requires BelowOvershoot(s, TermLimits(m, slack))
    ensures s.settled + Total(Exposure(slack), s.calls) <
            m.cap + m.reserve + Sum(slack, m.inFlight) + s.carry + s.lost
  {
    SumIs(slack, m.inFlight);
  }

  /** The bound for metered runs, with every call in flight counted at its worst. */
  lemma MeteredBound(run: seq<Action>, m: Terms, slack: real)
    requires m.cap > 0.0 && MeteredRun(run, m) && Covers(m, slack)
    ensures var s := After(run);
      s.settled + Total(Exposure(slack), s.calls) <
      m.cap + m.reserve + Sum(slack, m.inFlight) + s.carry + s.lost
  {
    MeteredWithin(run, m, slack);
    OvershootBound(run, TermLimits(m, slack));
    OvershootIs(After(run), m, slack);
  }

  lemma CleanBound(run: seq<Action>, m: Terms, slack: real)
    requires m.cap > 0.0 && CleanRun(run, m) && Covers(m, slack)
    ensures After(run).settled < m.cap + m.reserve + Sum(slack, m.inFlight)
  {
    MeteredBound(run, m, slack);
    ReservesAre(run, m);
    ExposureNonNegative(After(run).calls, slack);
    DailyReset(run);
    NothingLost(run);
  }

  /** Without excess: the documented bound. */
  lemma CleanWithinReserve(run: seq<Action>, m: Terms)
    requires m.cap > 0.0 && CleanRun(run, m) && Covers(m, 0.0)
    ensures After(run).settled < m.cap + m.reserve
  {
    CleanBound(run, m, 0.0);
    SumOfNothing(m.inFlight);
  }

  // -------------------------------------------------------------------------------------------
  // Runs that reach an amount
  // -------------------------------------------------------------------------------------------

  /** What a state has settled, holds in reservations of `inside` admitted calls, and carries. */
  datatype Books = Books(settled: real, held: real, inside: nat, carry: real)

  ghost predicate Holds(s: State, b: Books) {
    && s.settled == b.settled && s.leak == 0.0 && s.carry == b.carry
    && Total(Held, s.calls) == b.held && Total(InFlight, s.calls) == b.inside as real
  }

  /** A metered run, without failed reconciliations and without midnights from `from` on, that ends
      with these books. */
  ghost predicate Reaches(run: seq<Action>, m: Terms, from: nat, b: Books) {
    Calm(run, m, from) && Holds(After(run), b)
  }

  ghost predicate Calm(run: seq<Action>, m: Terms, from: nat) {
    && MeteredRun(run, m) && NoFailedSettle(run)
    && from <= |run| && forall n :: from <= n < |run| ==> !run[n].Midnight?
  }

  lemma CalmIsClean(run: seq<Action>, m: Terms)
    requires Calm(run, m, 0)
    ensures CleanRun(run, m)
  {
  }

  lemma NothingYet(m: Terms)
    ensures Reaches([], m, 0, Books(0.0, 0.0, 0, 0.0))
  {
  }

  /** One more action of a run that stays metered. */
  lemma OneMore(run: seq<Action>, m: Terms, from: nat, a: Action)
    requires Calm(run, m, from) && Enabled(After(run), a) && !a.Midnight?
    requires a.Begin? ==> a.reserve == m.reserve && a.cap <= m.cap
    requires a.Settle? ==> m.meter(a.actual) && a.ok
    requires Total(InFlight, Step(After(run), a).calls) <= m.inFlight as real
    ensures Calm(run + [a], m, from) && After(run + [a]) == Step(After(run), a)
  {
    MeteredOneMore(run, m, a);
    Extend(run, a);
  }

  lemma MeteredOneMore(run: seq<Action>, m: Terms, a: Action)
    requires MeteredRun(run, m) && Enabled(After(run), a)
    requires a.Begin? ==> a.reserve == m.reserve && a.cap <= m.cap
    requires a.Settle? ==> m.meter(a.actual)
    requires Total(InFlight, Step(After(run), a).calls) <= m.inFlight as real
    ensures MeteredRun(run + [a], m)
  {
    var longer := run + [a];
    Extend(run, a);
    forall n | 0 <= n <= |longer|
      ensures Total(InFlight, After(longer[..n]).calls) <= m.inFlight as real
    {
      if n <= |run| {
        assert longer[..n] == run[..n];
      } else {
        assert longer[..n] == longer;
      }
    }
  }

  /** A new call arrives. */
  lemma OneMoreBegun(run: seq<Action>, m: Terms, from: nat, b: Books) returns (longer: seq<Action>, i: nat)
    requires Reaches(run, m, from, b) && b.inside <= m.inFlight
    ensures Reaches(longer, m, from, b)
    ensures i < |After(longer).calls| && After(longer).calls[i] == Call(m.cap, m.reserve, Capped)
  {
    var s, c := After(run), Call(m.cap, m.reserve, Capped);
    TotalAppend(Held, s.calls, c);
    TotalAppend(InFlight, s.calls, c);
    OneMore(run, m, from, Begin(m.cap, m.reserve));
    longer, i := run + [Begin(m.cap, m.reserve)], |s.calls|;
  }

  /** The steps before the reservation change no total. */
  lemma Prepared(run: seq<Action>, m: Terms, from: nat, b: Books, a: Action)
    requires Reaches(run, m, from, b) && b.inside <= m.inFlight
    requires (a.Stamp? || a.Init?) && Enabled(After(run), a)
    ensures Reaches(run + [a], m, from, b) && After(run + [a]) == Step(After(run), a)
  {
    StepTotal(After(run), a, Held);
    StepTotal(After(run), a, InFlight);
    OneMore(run, m, from, a);
  }

  /** A new call up to the point before it reserves. */
  lemma OneMoreReady(run: seq<Action>, m: Terms, from: nat, b: Books) returns (longer: seq<Action>, i: nat)
    requires Reaches(run, m, from, b) && b.inside <= m.inFlight
    ensures Reaches(longer, m, from, b)
    ensures i < |After(longer).calls| && After(longer).calls[i] == Call(m.cap, m.reserve, Ready)
  {
    var begun, stamped;
    begun, i := OneMoreBegun(run, m, from, b);
    Prepared(begun, m, from, b, Stamp(i));
    stamped := begun + [Stamp(i)];
    Prepared(stamped, m, from, b, Init(i));
    longer := stamped + [Init(i)];
  }

  /** Below the cap one more call gets into its block. */
  lemma OneMoreAdmitted(run: seq<Action>, m: Terms, from: nat, b: Books) returns (longer: seq<Action>)
    requires Reaches(run, m, from, b)
    requires b.inside < m.inFlight && b.settled + b.held - b.carry < m.cap
    ensures Reaches(longer, m, from, Books(b.settled, b.held + m.reserve, b.inside + 1, b.carry))
  {
    var i;
    longer, i := OneMoreReady(run, m, from, b);
    var s := After(longer);
    AdmissionRule(longer, i);
    StepTotal(s, Reserve(i), Held);
    StepTotal(s, Reserve(i), InFlight);
    OneMore(longer, m, from, Reserve(i));
    longer := longer + [Reserve(i)];
  }

  lemma {:induction false} FindAdmitted(calls: seq<Call>) returns (i: nat)
    requires Total(InFlight, calls) > 0.0
    ensures i < |calls| && calls[i].stage.Admitted?
  {
    if calls[0].stage.Admitted? {
      i := 0;
    } else {
      i := FindAdmitted(calls[1..]);
      i := i + 1;
    }
  }

  /** One of the calls in their blocks settles `actual`. */
  lemma OneMoreSettled(run: seq<Action>, m: Terms, from: nat, b: Books, actual: real) returns (longer: seq<Action>)
    requires Reaches(run, m, from, b) && 0 < b.inside <= m.inFlight && m.meter(actual)
    ensures Reaches(longer, m, from, Books(b.settled + actual, b.held - m.reserve, b.inside - 1, b.carry))
  {
    var s := After(run);
    var i := FindAdmitted(s.calls);
    ReservesAre(run, m);
    assert s.calls[i] in s.calls;
    var a := Settle(i, actual, true);
    StepTotal(s, a, Held);
    StepTotal(s, a, InFlight);
    OneMore(run, m, from, a);
    longer := run + [a];
  }

  /** Below the cap one more call goes through on its own and settles `actual`. */
  lemma OneCall(run: seq<Action>, m: Terms, from: nat, b: Books, actual: real) returns (longer: seq<Action>)
    requires Reaches(run, m, from, b) && m.meter(actual)
    requires b.inside < m.inFlight && b.settled + b.held - b.carry < m.cap
    ensures Reaches(longer, m, from, b.(settled := b.settled + actual))
  {
    var admitted := OneMoreAdmitted(run, m, from, b);
    var b' := Books(b.settled, b.held + m.reserve, b.inside + 1, b.carry);
    longer := OneMoreSettled(admitted, m, from, b', actual);
    assert b'.held - m.reserve == b.held;
  }

  /** `n` calls one after the other, each settling `piece`. */
  lemma {:induction false} Repeat(run: seq<Action>, m: Terms, from: nat, b: Books, piece: real, n: nat)
    returns (longer: seq<Action>)
    requires Reaches(run, m, from, b) && b.inside < m.inFlight && m.meter(piece) && piece >= 0.0
    requires n > 0 ==> b.settled + Sum(piece, n - 1) + b.held - b.carry < m.cap
    ensures Reaches(longer, m, from, b.(settled := b.settled + Sum(piece, n)))
    decreases n
  {
    if n == 0 {
      longer := run;
    } else {
      longer := Repeat(run, m, from, b, piece, n - 1);
      longer := OneCall(longer, m, from, b.(settled := b.settled + Sum(piece, n - 1)), piece);
    }
  }

  /** `k` calls that are all admitted before any of them settles. */
  lemma {:induction false} AdmitAll(run: seq<Action>, m: Terms, from: nat, b: Books, k: nat)
    returns (longer: seq<Action>)
    requires Reaches(run, m, from, b) && b.inside + k <= m.inFlight && m.reserve >= 0.0
    requires k > 0 ==> b.settled + b.held + Sum(m.reserve, k - 1) - b.carry < m.cap
    ensures Reaches(longer, m, from, b.(held := b.held + Sum(m.reserve, k), inside := b.inside + k))
    decreases k
  {
    if k == 0 {
      longer := run;
    } else {
      longer := AdmitAll(run, m, from, b, k - 1);
      var b' := b.(held := b.held + Sum(m.reserve, k - 1), inside := b.inside + k - 1);
      longer := OneMoreAdmitted(longer, m, from, b');
    }
  }

  /** The books after all the calls inside have settled `piece` each. */
  function AllSettled(b: Books, piece: real, reserve: real): Books
    decreases b.inside
  {
    if b.inside == 0 then b
    else AllSettled(Books(b.settled + piece, b.held - reserve, b.inside - 1, b.carry), piece, reserve)
  }

  lemma {:induction false} AllSettledIs(b: Books, piece: real, reserve: real)
    ensures AllSettled(b, piece, reserve) ==
            Books(b.settled + Sum(piece, b.inside), b.held - Sum(reserve, b.inside), 0, b.carry)
    decreases b.inside
  {
    if b.inside > 0 {
      AllSettledIs(Books(b.settled + piece, b.held - reserve, b.inside - 1, b.carry), piece, reserve);
    }
  }

  /** And then each settles `piece`. */
  lemma {:induction false} SettleAll(run: seq<Action>, m: Terms, from: nat, b: Books, piece: real)
    returns (longer: seq<Action>)
    requires Reaches(run, m, from, b) && b.inside <= m.inFlight && m.meter(piece)
    ensures Reaches(longer, m, from, AllSettled(b, piece, m.reserve))
    decreases b.inside
  {
    if b.inside == 0 {
      longer := run;
    } else {
      longer := OneMoreSettled(run, m, from, b, piece);
      longer := SettleAll(longer, m, from,
                          Books(b.settled + piece, b.held - m.reserve, b.inside - 1, b.carry), piece);
    }
  }

  /** How often `piece` fits below an amount. */
  lemma LastBelow(amount: real, piece: real) returns (n: nat)
    requires amount > 0.0 && piece > 0.0
    ensures Sum(piece, n) < amount <= Sum(piece, n + 1)
    ensures n > 0 ==> Sum(piece, n - 1) < amount
  {
    var q := Quotient(amount, piece);
    n := q.Floor;
    if n as real == q {
      n := n - 1;
    }
    Multiple(amount, q, n as real, piece);
    SumIs(piece, n);
  }

  lemma Quotient(amount: real, piece: real) returns (q: real)
    requires amount > 0.0 && piece > 0.0
    ensures q * piece == amount && q > 0.0
  {
    q := amount / piece;
  }

  lemma Multiple(amount: real, q: real, n: real, piece: real)
    requires n < q <= n + 1.0 && piece > 0.0 && q * piece == amount
    ensures n * piece < amount <= n * piece + piece
  {
    var d, e := q - n, n + 1.0 - q;
    assert d * piece > 0.0 && e * piece >= 0.0;
    assert d * piece == q * piece - n * piece;
    assert e * piece == n * piece + piece - q * piece;
  }

  // -------------------------------------------------------------------------------------------
  // When the documented bound holds
  // -------------------------------------------------------------------------------------------

  /** Any amount up to `slack` above the reserve. */
  function UpTo(m: Limits): Terms {
    Terms(m.cap, m.reserve, (x: real) => x <= m.reserve + m.slack, m.calls)
  }

  /** A call that may exceed its reserve can take the settled spend a full reserve above the cap,
      without any overlap. */
  lemma {:induction false} OvershootReached(m: Limits) returns (run: seq<Action>)
    requires m.cap > 0.0 && m.reserve >= 0.0 && m.slack > 0.0 && m.calls >= 1
    ensures QuietMidnights(run) && RunWithin(run, m) && After(run).settled >= m.cap + m.reserve
  {
    var t, b := UpTo(m), Books(0.0, 0.0, 0, 0.0);
    var n := LastBelow(m.cap, m.slack);
    NothingYet(t);
    run := Repeat([], t, 0, b, m.slack, n);
    b := b.(settled := Sum(m.slack, n));
    run := OneCall(run, t, 0, b, m.reserve + m.slack);
    MeteredWithin(run, t, m.slack);
  }

  /** With `calls` callers at a time and no midnight inside a call, whatever adjustments fail: every
      run settles less than cap + reserve if and only if no clean exit may exceed its reserve. */
  lemma CapHoldsIff(m: Limits)
    requires m.cap > 0.0 && m.reserve >= 0.0 && m.slack >= 0.0 && m.calls >= 1
    ensures (forall run :: QuietMidnights(run) && RunWithin(run, m) ==>
               After(run).settled < m.cap + m.reserve)
            <==> m.slack == 0.0
  {
    if m.slack == 0.0 {
      forall run | QuietMidnights(run) && RunWithin(run, m)
        ensures After(run).settled < m.cap + m.reserve
      {
        AlwaysBounded(run, m);
        DailyReset(run);
        ExposureNonNegative(After(run).calls, 0.0);
      }
    } else {
      var run := OvershootReached(m);
    }
  }

  /** A call that midnight finds inside its block: its reservation is carried into the new day. */
  lemma CarriedOver(m: Terms) returns (run: seq<Action>)
    requires m.cap > 0.0 && m.inFlight >= 1
    ensures Reaches(run, m, |run|, Books(0.0, m.reserve, 1, m.reserve))
  {
    NothingYet(m);
    var before := OneMoreAdmitted([], m, 0, Books(0.0, 0.0, 0, 0.0));
    DailyReset(before);
    AfterMidnight(before);
    Extend(before, Midnight);
    MeteredOneMore(before, m, Midnight);
    run := before + [Midnight];
  }

  /** Quiet midnights are needed: for every cap and every reserve one call inside its block at
      midnight is enough for a run to settle a full reserve above the cap, although no clean exit
      exceeds its reserve, calls never overlap and no adjustment fails. */
  lemma {:induction false} MidnightOvershoot(cap: real, reserve: real) returns (run: seq<Action>)
    requires cap > 0.0 && reserve > 0.0
    ensures RunWithin(run, Limits(cap, reserve, 0.0, 1)) && NoFailedSettle(run)
    ensures After(run).settled >= cap + reserve
  {
    var m := UpTo(Limits(cap, reserve, 0.0, 1));
    run := CarriedOver(m);
    var from := |run|;
    run := OneMoreSettled(run, m, from, Books(0.0, reserve, 1, reserve), 0.0);
    var n := LastBelow(cap + reserve, reserve);
    run := Repeat(run, m, from, Books(0.0, 0.0, 0, reserve), reserve, n + 1);
    MeteredWithin(run, m, 0.0);
  }
}
