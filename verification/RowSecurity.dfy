/** Owner-scoped row-level security: a personal table behind a policy that compares each row's
    owner with a transaction-local setting, sessions that set it once, and sessions that set it on
    every transaction begin. */
module RowSecurity {
  import opened Prelude

  type User = nat

  datatype Row = Row(owner: User, data: string)

  type Table = seq<Row>

  /** The setting `app.user_id` as a transaction sees it: never set on this connection, reset to
      the empty string after an earlier SET LOCAL, a user id, or text that is no UUID. */
  datatype Setting = Unset | Empty | Owner(user: User) | Malformed

  /** The policy expression, for reading (USING) and for writing (WITH CHECK): NULLIF turns both
      unset forms into NULL, and a comparison with NULL is not true. */
  predicate OwnerMatches(g: Setting, r: Row) {
    g == Owner(r.owner)
  }

  datatype Statement =
    | Select(where: Row -> bool)
    | Insert(row: Row)
    | Update(where: Row -> bool, change: Row -> Row)
    | Delete(where: Row -> bool)

  datatype Result =
    | Rows(rows: Table)
    | Affected(count: nat)
    | Denied     // a written row violates WITH CHECK
    | Failed     // the setting cannot be cast, or the transaction is already aborted
    | Done

  function Keep(t: Table, p: Row -> bool): Table {
    if t == [] then [] else (if p(t[0]) then [t[0]] else []) + Keep(t[1..], p)
  }

  function Rewrite(t: Table, p: Row -> bool, change: Row -> Row): Table {
    if t == [] then []
    else [if p(t[0]) then change(t[0]) else t[0]] + Rewrite(t[1..], p, change)
  }

  /** The rows that a statement may touch. */
  function Hits(g: Setting, where: Row -> bool): Row -> bool {
    (r: Row) => OwnerMatches(g, r) && where(r)
  }

  function Misses(g: Setting, where: Row -> bool): Row -> bool {
    (r: Row) => !(OwnerMatches(g, r) && where(r))
  }

  /** One statement on one table under the policy. */
  function Exec(g: Setting, t: Table, s: Statement): (Table, Result) {
    if g.Malformed? then (t, Failed)
    else
      match s
      case Select(where) => (t, Rows(Keep(t, Hits(g, where))))
      case Insert(row) => if OwnerMatches(g, row) then (t + [row], Affected(1)) else (t, Denied)
      case Delete(where) => (Keep(t, Misses(g, where)), Affected(|Keep(t, Hits(g, where))|))
      case Update(where, change) =>
        if exists r :: r in t && Hits(g, where)(r) && !OwnerMatches(g, change(r)) then (t, Denied)
        else (Rewrite(t, Hits(g, where), change), Affected(|Keep(t, Hits(g, where))|))
  }

  // -------------------------------------------------------------------------------------------
  // Connections and transactions
  // -------------------------------------------------------------------------------------------

  datatype Work = Work(table: Table, setting: Setting, aborted: bool)

  /** `base` is the connection's setting outside any SET LOCAL. */
  datatype Conn = Conn(committed: Table, work: Option<Work>, base: Setting)

  datatype Action = SetUser(setting: Setting) | Run(statement: Statement) | Commit | Rollback

  /** The open transaction, begun if there is none; `onBegin` is what a begin hook sets. */
  function Begun(c: Conn, onBegin: Option<Setting>): Work {
    if c.work.Some? then c.work.value
    else Work(c.committed, if onBegin.Some? then onBegin.value else c.base, false)
  }

  /** Ending a transaction in which the setting was ever made local leaves the empty string. */
  function Ended(c: Conn, committed: Table): Conn {
    Conn(committed, None,
         if c.work.Some? && !c.work.value.setting.Unset? then Empty else c.base)
  }

  function Step(c: Conn, onBegin: Option<Setting>, a: Action): (Conn, Result) {
    match a
    case SetUser(setting) =>
      var w := Begun(c, onBegin);
      if w.aborted then (c.(work := Some(w)), Failed)
      else (c.(work := Some(w.(setting := setting))), Done)
    case Run(statement) =>
      var w := Begun(c, onBegin);
      if w.aborted then (c.(work := Some(w)), Failed)
      else
        var (table, result) := Exec(w.setting, w.table, statement);
        (c.(work := Some(Work(table, w.setting, result.Denied? || result.Failed?))), result)
    case Commit =>
      (Ended(c, if c.work.Some? && !c.work.value.aborted then c.work.value.table else c.committed), Done)
    case Rollback => (Ended(c, c.committed), Done)
  }

  // -------------------------------------------------------------------------------------------
  // One statement
  // -------------------------------------------------------------------------------------------

  function Mine(u: User): Row -> bool { (r: Row) => r.owner == u }

  function Theirs(u: User): Row -> bool { (r: Row) => r.owner != u }

  lemma {:induction false} KeepJoin(a: Table, b: Table, p: Row -> bool)
    ensures Keep(a + b, p) == Keep(a, p) + Keep(b, p)
  {
    if a == [] {
      assert a + b == b;
    } else {
      assert (a + b)[0] == a[0] && (a + b)[1..] == a[1..] + b;
      KeepJoin(a[1..], b, p);
      var first := if p(a[0]) then [a[0]] else [];
      assert Keep(a + b, p) == first + Keep(a[1..] + b, p);
      assert first + (Keep(a[1..], p) + Keep(b, p)) == (first + Keep(a[1..], p)) + Keep(b, p);
    }
  }

  /** What a statement hits is decided by the user's own rows. */
  lemma {:induction false} HitsAreMine(u: User, t: Table, where: Row -> bool)
    ensures Keep(t, Hits(Owner(u), where)) == Keep(Keep(t, Mine(u)), Hits(Owner(u), where))
  {
    if t != [] {
      HitsAreMine(u, t[1..], where);
      var first := if Mine(u)(t[0]) then [t[0]] else [];
      KeepJoin(first, Keep(t[1..], Mine(u)), Hits(Owner(u), where));
    }
  }

  lemma {:induction false} DeleteSplits(u: User, t: Table, where: Row -> bool)
    ensures Keep(Keep(t, Misses(Owner(u), where)), Theirs(u)) == Keep(t, Theirs(u))
    ensures Keep(Keep(t, Misses(Owner(u), where)), Mine(u)) ==
            Keep(Keep(t, Mine(u)), Misses(Owner(u), where))
  {
    if t != [] {
      DeleteSplits(u, t[1..], where);
      var missed := if Misses(Owner(u), where)(t[0]) then [t[0]] else [];
      var mine := if Mine(u)(t[0]) then [t[0]] else [];
      KeepJoin(missed, Keep(t[1..], Misses(Owner(u), where)), Theirs(u));
      KeepJoin(missed, Keep(t[1..], Misses(Owner(u), where)), Mine(u));
      KeepJoin(mine, Keep(t[1..], Mine(u)), Misses(Owner(u), where));
    }
  }

  ghost predicate ChangeStays(u: User, t: Table, where: Row -> bool, change: Row -> Row) {
    forall r :: r in t && Hits(Owner(u), where)(r) ==> OwnerMatches(Owner(u), change(r))
  }

  lemma {:induction false} UpdateSplits(u: User, t: Table, where: Row -> bool, change: Row -> Row)
    requires ChangeStays(u, t, where, change)
    ensures Keep(Rewrite(t, Hits(Owner(u), where), change), Theirs(u)) == Keep(t, Theirs(u))
    ensures Keep(Rewrite(t, Hits(Owner(u), where), change), Mine(u)) ==
            Rewrite(Keep(t, Mine(u)), Hits(Owner(u), where), change)
  {
    if t != [] {
      assert t[0] in t && forall r :: r in t[1..] ==> r in t;
      UpdateSplits(u, t[1..], where, change);
      var mine := if Mine(u)(t[0]) then [t[0]] else [];
      RewriteJoin(mine, Keep(t[1..], Mine(u)), Hits(Owner(u), where), change);
    }
  }

  lemma {:induction false} RewriteJoin(a: Table, b: Table, p: Row -> bool, change: Row -> Row)
    ensures Rewrite(a + b, p, change) == Rewrite(a, p, change) + Rewrite(b, p, change)
  {
    if a == [] {
      assert a + b == b;
    } else {
      assert (a + b)[1..] == a[1..] + b;
      RewriteJoin(a[1..], b, p, change);
    }
  }

  lemma {:induction false} KeepMembers(t: Table, p: Row -> bool)
    ensures forall r :: r in Keep(t, p) <==> r in t && p(r)
  {
    if t != [] {
      KeepMembers(t[1..], p);
    }
  }

  lemma {:induction false} KeepNothing(t: Table, p: Row -> bool)
    requires forall r :: r in t ==> !p(r)
    ensures Keep(t, p) == []
  {
    if t != [] {
      assert t[0] in t;
      KeepNothing(t[1..], p);
    }
  }

  lemma {:induction false} KeepAll(t: Table, p: Row -> bool)
    requires forall r :: r in t ==> p(r)
    ensures Keep(t, p) == t
  {
    if t != [] {
      assert t[0] in t;
      KeepAll(t[1..], p);
    }
  }

  /** Scoped to `u`, a statement gives what it would give on the table of `u`'s rows alone, changes
      those rows as it would there, and leaves everyone else's rows as they are. */
  lemma ExecOnOwnRows(u: User, t: Table, s: Statement)
    ensures Exec(Owner(u), t, s).1 == Exec(Owner(u), Keep(t, Mine(u)), s).1
    ensures Keep(Exec(Owner(u), t, s).0, Mine(u)) == Exec(Owner(u), Keep(t, Mine(u)), s).0
    ensures Keep(Exec(Owner(u), t, s).0, Theirs(u)) == Keep(t, Theirs(u))
  {
    match s
    case Select(where) => HitsAreMine(u, t, where);
    case Insert(row) =>
      KeepJoin(t, [row], Mine(u));
      KeepJoin(t, [row], Theirs(u));
      assert Keep([row], Mine(u)) == if row.owner == u then [row] else [] by { assert [row][1..] == []; }
      assert Keep([row], Theirs(u)) == if row.owner == u then [] else [row] by { assert [row][1..] == []; }
    case Delete(where) =>
      HitsAreMine(u, t, where);
      DeleteSplits(u, t, where);
    case Update(where, change) =>
      HitsAreMine(u, t, where);
      KeepMembers(t, Mine(u));
      if ChangeStays(u, t, where, change) {
        UpdateSplits(u, t, where, change);
        assert ChangeStays(u, Keep(t, Mine(u)), where, change);
      } else {
        var r :| r in t && Hits(Owner(u), where)(r) && !OwnerMatches(Owner(u), change(r));
        assert r in Keep(t, Mine(u));
      }
  }

  /** Without a user in scope, nothing is seen, nothing is written, and an insert is refused. */
  lemma ExecUnscoped(g: Setting, t: Table, s: Statement)
    requires g.Unset? || g.Empty?
    ensures Exec(g, t, s).0 == t
    ensures s.Select? ==> Exec(g, t, s).1 == Rows([])
    ensures s.Insert? ==> Exec(g, t, s).1 == Denied
    ensures s.Update? || s.Delete? ==> Exec(g, t, s).1 == Affected(0)
  {
    match s
    case Select(where) => KeepNothing(t, Hits(g, where));
    case Insert(row) =>
    case Delete(where) =>
      KeepNothing(t, Hits(g, where));
      KeepAll(t, Misses(g, where));
    case Update(where, change) =>
      KeepNothing(t, Hits(g, where));
      RewriteNothing(t, Hits(g, where), change);
  }

  lemma {:induction false} RewriteNothing(t: Table, p: Row -> bool, change: Row -> Row)
    requires forall r :: r in t ==> !p(r)
    ensures Rewrite(t, p, change) == t
  {
    if t != [] {
      assert t[0] in t;
      RewriteNothing(t[1..], p, change);
    }
  }

  // What an owner can do --------------------------------------------------------------------

  lemma {:induction false} KeepCounts(t: Table, p: Row -> bool, r: Row)
    ensures multiset(Keep(t, p))[r] == if p(r) then multiset(t)[r] else 0
  {
    if t != [] {
      KeepCounts(t[1..], p, r);
      assert t == [t[0]] + t[1..];
    }
  }

  /** Scoped to `u`, a SELECT returns exactly the rows of the table that `u` owns and that satisfy the
      condition, each as often as it is there. */
  lemma SelectIs(u: User, t: Table, where: Row -> bool)
    ensures var (table, result) := Exec(Owner(u), t, Select(where));
      && table == t && result.Rows?
      && forall r :: multiset(result.rows)[r] == if r.owner == u && where(r) then multiset(t)[r] else 0
  {
    forall r
      ensures multiset(Keep(t, Hits(Owner(u), where)))[r] ==
              if r.owner == u && where(r) then multiset(t)[r] else 0
    {
      KeepCounts(t, Hits(Owner(u), where), r);
    }
  }

  /** An INSERT is accepted exactly for a row of one's own. */
  lemma InsertIs(u: User, t: Table, row: Row)
    ensures Exec(Owner(u), t, Insert(row)) == if row.owner == u then (t + [row], Affected(1)) else (t, Denied)
  {
  }

  /** A DELETE removes exactly the rows that `u` owns and that satisfy the condition. */
  lemma DeleteIs(u: User, t: Table, where: Row -> bool)
    ensures var (table, result) := Exec(Owner(u), t, Delete(where));
      && result.Affected? && result.count + |table| == |t|
      && forall r :: multiset(table)[r] == if r.owner == u && where(r) then 0 else multiset(t)[r]
  {
    forall r
      ensures multiset(Keep(t, Misses(Owner(u), where)))[r] ==
              if r.owner == u && where(r) then 0 else multiset(t)[r]
    {
      KeepCounts(t, Misses(Owner(u), where), r);
    }
    HitsAndMisses(u, t, where);
  }

  lemma {:induction false} HitsAndMisses(u: User, t: Table, where: Row -> bool)
    ensures |Keep(t, Hits(Owner(u), where))| + |Keep(t, Misses(Owner(u), where))| == |t|
  {
    if t != [] {
      HitsAndMisses(u, t[1..], where);
    }
  }

  lemma {:induction false} RewriteAt(t: Table, p: Row -> bool, change: Row -> Row)
    ensures |Rewrite(t, p, change)| == |t|
    ensures forall i :: 0 <= i < |t| ==> Rewrite(t, p, change)[i] == if p(t[i]) then change(t[i]) else t[i]
  {
    if t != [] {
      RewriteAt(t[1..], p, change);
    }
  }

  lemma HitsIs(u: User, where: Row -> bool, r: Row)
    ensures Hits(Owner(u), where)(r) == (r.owner == u && where(r))
  {
    assert OwnerMatches(Owner(u), r) == (r.owner == u);
    assert Hits(Owner(u), where)(r) == (OwnerMatches(Owner(u), r) && where(r));
  }

  /** An UPDATE changes exactly the rows that `u` owns and that satisfy the condition, in place, unless
      it would give one of them away; then it is refused and changes nothing. */
  lemma UpdateIs(u: User, t: Table, where: Row -> bool, change: Row -> Row)
    ensures var (table, result) := Exec(Owner(u), t, Update(where, change));
      && (result.Denied? <==> exists r :: r in t && r.owner == u && where(r) && change(r).owner != u)
      && (result.Denied? ==> table == t)
      && (!result.Denied? ==> |table| == |t|)
      && (!result.Denied? ==> result == Affected(|set i | 0 <= i < |t| && t[i].owner == u && where(t[i])|))
      && (!result.Denied? ==> forall i :: 0 <= i < |t| ==>
            table[i] == if t[i].owner == u && where(t[i]) then change(t[i]) else t[i])
  {
    RewriteAt(t, Hits(Owner(u), where), change);
    forall r: Row
      ensures Hits(Owner(u), where)(r) == (r.owner == u && where(r))
      ensures OwnerMatches(Owner(u), r) <==> r.owner == u
    {
      HitsIs(u, where, r);
    }
    HitCount(u, t, where, |t|);
    assert t[..|t|] == t;
  }

  /** The positions of the rows that a statement of `u` hits. */
  function HitPositions(u: User, t: Table, where: Row -> bool, n: nat): set<int>
    requires n <= |t|
  {
    set i | 0 <= i < n && t[i].owner == u && where(t[i])
  }

  lemma HitPositionsSnoc(u: User, t: Table, where: Row -> bool, n: nat)
    requires n < |t|
    ensures |HitPositions(u, t, where, n + 1)| ==
            |HitPositions(u, t, where, n)| + if t[n].owner == u && where(t[n]) then 1 else 0
  {
    assert HitPositions(u, t, where, n + 1) ==
           HitPositions(u, t, where, n) + if t[n].owner == u && where(t[n]) then {n} else {};
  }

  lemma KeepSnoc(front: Table, last: Row, p: Row -> bool)
    ensures |Keep(front + [last], p)| == |Keep(front, p)| + if p(last) then 1 else 0
  {
    KeepJoin(front, [last], p);
    assert [last][1..] == [];
  }

  lemma {:induction false} HitCount(u: User, t: Table, where: Row -> bool, n: nat)
    requires n <= |t|
    ensures |Keep(t[..n], Hits(Owner(u), where))| == |HitPositions(u, t, where, n)|
  {
    if n == 0 {
      assert HitPositions(u, t, where, 0) == {};
    } else {
      HitCount(u, t, where, n - 1);
      assert t[..n] == t[..n - 1] + [t[n - 1]];
      KeepSnoc(t[..n - 1], t[n - 1], Hits(Owner(u), where));
      HitsIs(u, where, t[n - 1]);
      HitPositionsSnoc(u, t, where, n - 1);
    }
  }

  /** A scope that is no user id fails every statement; none is silently unscoped. */
  lemma MalformedFails(t: Table, s: Statement)
    ensures Exec(Malformed, t, s) == (t, Failed)
  {
  }

  /** A refused or failed statement costs the transaction: nothing runs in it any more, and ending it,
      by whatever means, leaves the committed table as it was. */
  lemma FailureCostsTheTransaction(c: Conn, onBegin: Option<Setting>, s: Statement, next: Statement)
    requires var r := Step(c, onBegin, Run(s)).1; r.Denied? || r.Failed?
    ensures var d := Step(c, onBegin, Run(s)).0;
      && Step(d, onBegin, Run(next)) == (d, Failed)
      && Step(d, onBegin, Commit).0.committed == c.committed
      && Step(d, onBegin, Rollback).0.committed == c.committed
  {
  }

  /** Otherwise a commit keeps what the statements did and a rollback does not. */
  lemma SuccessIsKept(c: Conn, onBegin: Option<Setting>, s: Statement)
    requires var r := Step(c, onBegin, Run(s)).1; !r.Denied? && !r.Failed?
    ensures var w, d := Begun(c, onBegin), Step(c, onBegin, Run(s)).0;
      && Step(d, onBegin, Commit).0.committed == Exec(w.setting, w.table, s).0
      && Step(d, onBegin, Rollback).0.committed == c.committed
  {
  }

  // -------------------------------------------------------------------------------------------
  // A session that is scoped on every begin
  // -------------------------------------------------------------------------------------------

  /** A program decides its next action from the results so far. It may scope itself again, but
      only to its own user. */
  type Program = seq<Result> -> Action

  ghost predicate StaysScoped(u: User, program: Program) {
    forall h: seq<Result> :: program(h).SetUser? ==> program(h).setting == Owner(u)
  }

  /** The connection and the results after `n` actions of the program in `rls_user_session(u)`. */
  function Session(u: User, program: Program, c: Conn, n: nat): (Conn, seq<Result>) {
    if n == 0 then (c, [])
    else
      var (d, h) := Session(u, program, c, n - 1);
      var (e, result) := Step(d, Some(Owner(u)), program(h));
      (e, h + [result])
  }

  /** Everything that `u` can tell about two connections is the same. */
  predicate SameTo(u: User, a: Conn, b: Conn) {
    && Keep(a.committed, Mine(u)) == Keep(b.committed, Mine(u))
    && a.work.Some? == b.work.Some?
    && (a.work.Some? ==>
          && a.work.value.setting == b.work.value.setting == Owner(u)
          && a.work.value.aborted == b.work.value.aborted
          && Keep(a.work.value.table, Mine(u)) == Keep(b.work.value.table, Mine(u)))
  }

  lemma StepSameTo(u: User, a: Conn, b: Conn, action: Action)
    requires SameTo(u, a, b) && (action.SetUser? ==> action.setting == Owner(u))
    ensures Step(a, Some(Owner(u)), action).1 == Step(b, Some(Owner(u)), action).1
    ensures SameTo(u, Step(a, Some(Owner(u)), action).0, Step(b, Some(Owner(u)), action).0)
  {
    if action.Run? {
      ExecOnOwnRows(u, Begun(a, Some(Owner(u))).table, action.statement);
      ExecOnOwnRows(u, Begun(b, Some(Owner(u))).table, action.statement);
    }
  }

  /** Non-interference: whatever the program does, on two databases that agree on `u`'s rows it
      sees the same results, step by step, and leaves the same rows of `u`. */
  lemma {:induction false} NonInterference(u: User, program: Program, a: Conn, b: Conn, n: nat)
    requires SameTo(u, a, b) && StaysScoped(u, program)
    ensures Session(u, program, a, n).1 == Session(u, program, b, n).1
    ensures SameTo(u, Session(u, program, a, n).0, Session(u, program, b, n).0)
  {
    if n > 0 {
      NonInterference(u, program, a, b, n - 1);
      StepSameTo(u, Session(u, program, a, n - 1).0, Session(u, program, b, n - 1).0,
                 program(Session(u, program, a, n - 1).1));
    }
  }

  predicate OthersAre(u: User, others: Table, c: Conn) {
    && Keep(c.committed, Theirs(u)) == others
    && (c.work.Some? ==> c.work.value.setting == Owner(u) && Keep(c.work.value.table, Theirs(u)) == others)
  }

  lemma StepLeavesOthers(u: User, others: Table, c: Conn, action: Action)
    requires OthersAre(u, others, c) && (action.SetUser? ==> action.setting == Owner(u))
    ensures OthersAre(u, others, Step(c, Some(Owner(u)), action).0)
  {
    if action.Run? {
      ExecOnOwnRows(u, Begun(c, Some(Owner(u))).table, action.statement);
    }
  }

  /** Integrity: every other owner's rows are the same at every point of every run. */
  lemma {:induction false} OthersUntouched(u: User, program: Program, c: Conn, n: nat)
    requires c.work.None? && StaysScoped(u, program)
    ensures OthersAre(u, Keep(c.committed, Theirs(u)), Session(u, program, c, n).0)
  {
    if n > 0 {
      OthersUntouched(u, program, c, n - 1);
      var (d, h) := Session(u, program, c, n - 1);
      StepLeavesOthers(u, Keep(c.committed, Theirs(u)), d, program(h));
    }
  }

  // -------------------------------------------------------------------------------------------
  // A pooled connection, scoped by hand
  // -------------------------------------------------------------------------------------------

  function Front(run: seq<Action>): seq<Action>
    requires run != []
  {
    run[..|run| - 1]
  }

  function Last(run: seq<Action>): Action
    requires run != []
  {
    run[|run| - 1]
  }

  /** The connection after any requests' actions, one after the other. */
  function Pooled(t: Table, run: seq<Action>): Conn {
    if run == [] then Conn(t, None, Unset) else Step(Pooled(t, Front(run)), None, Last(run)).0
  }

  /** The last scope that was set since the transaction began, as far as it took effect. */
  function LastSet(t: Table, run: seq<Action>): Option<Setting> {
    if run == [] then None
    else
      match Last(run)
      case SetUser(setting) =>
        if Begun(Pooled(t, Front(run)), None).aborted then LastSet(t, Front(run)) else Some(setting)
      case Run(_) => LastSet(t, Front(run))
      case Commit => None
      case Rollback => None
  }

  /** The setting in force is the one that was set last in this transaction, else none. */
  lemma {:induction false} ScopeIsLastSet(t: Table, run: seq<Action>)
    ensures var c := Pooled(t, run);
      && (c.base.Unset? || c.base.Empty?)
      && (c.work.None? ==> LastSet(t, run).None?)
      && match LastSet(t, run)
         case Some(g) => Begun(c, None).setting == g
         case None => Begun(c, None).setting.Unset? || Begun(c, None).setting.Empty?
  {
    if run != [] {
      ScopeIsLastSet(t, Front(run));
    }
  }

  /** No leak across the pool: after a commit or rollback, until a scope is set again, every
      statement of every later request sees no rows and changes none, whoever used the connection
      before; with a scope it sees only rows of that user and leaves the others alone. */
  lemma PoolDoesNotLeak(t: Table, run: seq<Action>, s: Statement)
    ensures var w := Begun(Pooled(t, run), None);
      var (table, result) := Exec(w.setting, w.table, s);
      match LastSet(t, run)
      case None => table == w.table && (result == Rows([]) || result == Affected(0) || result == Denied)
      case Some(Owner(u)) =>
        && Keep(table, Theirs(u)) == Keep(w.table, Theirs(u))
        && (result.Rows? ==> forall r :: r in result.rows ==> r.owner == u)
      case Some(_) =>
        && table == w.table
        && (result == Rows([]) || result == Affected(0) || result == Denied || result == Failed)
  {
    ScopeIsLastSet(t, run);
    var w := Begun(Pooled(t, run), None);
    if w.setting.Owner? {
      ExecOnOwnRows(w.setting.user, w.table, s);
      if s.Select? {
        KeepMembers(w.table, Hits(w.setting, s.where));
      }
    } else if !w.setting.Malformed? {
      ExecUnscoped(w.setting, w.table, s);
    }
  }

  // -------------------------------------------------------------------------------------------
  // The statements that put a table behind the policy
  // -------------------------------------------------------------------------------------------

  datatype TableSecurity = TableSecurity(enabled: bool, forced: bool, policies: set<string>)

  datatype Ddl =
    | Enable | Disable | Force | NoForce
    | DropPolicyIfExists(name: string)
    | CreatePolicy(name: string)

  const POLICY := "owner_isolation"

  function RlsStatements(): seq<Ddl> {
    [Enable, Force, DropPolicyIfExists(POLICY), CreatePolicy(POLICY)]
  }

  function RlsDowngradeStatements(): seq<Ddl> {
    [DropPolicyIfExists(POLICY), NoForce, Disable]
  }

  /** One statement; creating a policy that exists is an error. */
  function Alter(s: TableSecurity, d: Ddl): Option<TableSecurity> {
    match d
    case Enable => Some(s.(enabled := true))
    case Disable => Some(s.(enabled := false))
    case Force => Some(s.(forced := true))
    case NoForce => Some(s.(forced := false))
    case DropPolicyIfExists(name) => Some(s.(policies := s.policies - {name}))
    case CreatePolicy(name) =>
      if name in s.policies then None else Some(s.(policies := s.policies + {name}))
  }

  function AlterAll(s: TableSecurity, ds: seq<Ddl>): Option<TableSecurity>
    decreases |ds|
  {
    if ds == [] then Some(s)
    else
      var next := Alter(s, ds[0]);
      if next.None? then None else AlterAll(next.value, ds[1..])
  }

  /** Whether row filtering applies to a role on a table. */
  predicate Binds(s: TableSecurity, tableOwner: bool, bypassRls: bool) {
    s.enabled && !bypassRls && (s.forced || !tableOwner)
  }

  lemma AlterCons(s: TableSecurity, d: Ddl, rest: seq<Ddl>)
    ensures AlterAll(s, [d] + rest) ==
            var next := Alter(s, d); if next.None? then None else AlterAll(next.value, rest)
  {
    assert ([d] + rest)[1..] == rest;
  }

  lemma UpgradeGives(s: TableSecurity)
    ensures AlterAll(s, RlsStatements()) == Some(TableSecurity(true, true, s.policies + {POLICY}))
  {
    var s1 := s.(enabled := true);
    var s2 := s1.(forced := true);
    var s3 := s2.(policies := s.policies - {POLICY});
    assert RlsStatements() == [Enable] + ([Force] + ([DropPolicyIfExists(POLICY)] + ([CreatePolicy(POLICY)] + [])));
    AlterCons(s, Enable, [Force] + ([DropPolicyIfExists(POLICY)] + ([CreatePolicy(POLICY)] + [])));
    AlterCons(s1, Force, [DropPolicyIfExists(POLICY)] + ([CreatePolicy(POLICY)] + []));
    AlterCons(s2, DropPolicyIfExists(POLICY), [CreatePolicy(POLICY)] + []);
    AlterCons(s3, CreatePolicy(POLICY), []);
    assert s3.policies + {POLICY} == s.policies + {POLICY};
  }

  lemma DowngradeGives(s: TableSecurity)
    ensures AlterAll(s, RlsDowngradeStatements()) == Some(TableSecurity(false, false, s.policies - {POLICY}))
  {
    var s1 := s.(policies := s.policies - {POLICY});
    assert RlsDowngradeStatements() == [DropPolicyIfExists(POLICY)] + ([NoForce] + ([Disable] + []));
    AlterCons(s, DropPolicyIfExists(POLICY), [NoForce] + ([Disable] + []));
    AlterCons(s1, NoForce, [Disable] + []);
    AlterCons(s1.(forced := false), Disable, []);
  }

  /** The upgrade never fails, whatever the table had before, running it again changes nothing, and
      afterwards the policy binds the table's own owner too; only BYPASSRLS roles escape it. */
  lemma UpgradeBindsEveryone(s: TableSecurity, tableOwner: bool, bypassRls: bool)
    ensures var up := AlterAll(s, RlsStatements());
      && up.Some? && POLICY in up.value.policies
      && AlterAll(up.value, RlsStatements()) == up
      && (Binds(up.value, tableOwner, bypassRls) <==> !bypassRls)
  {
    UpgradeGives(s);
    UpgradeGives(AlterAll(s, RlsStatements()).value);
    assert s.policies + {POLICY} + {POLICY} == s.policies + {POLICY};
  }

  /** The downgrade takes an upgraded table back to exactly what it was, if it had no row security
      and no policy of that name before. */
  lemma DowngradeRestores(s: TableSecurity)
    requires !s.enabled && !s.forced && POLICY !in s.policies
    ensures var up := AlterAll(s, RlsStatements());
      up.Some? && AlterAll(up.value, RlsDowngradeStatements()) == Some(s)
  {
    UpgradeGives(s);
    DowngradeGives(AlterAll(s, RlsStatements()).value);
    assert s.policies + {POLICY} - {POLICY} == s.policies;
  }

  // -------------------------------------------------------------------------------------------
  // The same as code
  // -------------------------------------------------------------------------------------------

  /** A database connection as a session uses it; `onBegin` is the after_begin hook. */
  class Connection {
    const onBegin: Option<Setting>
    var state: Conn

    /** A connection of the shared pool. */
    constructor FromPool(t: Table)
      ensures onBegin == None && state == Pooled(t, [])
    {
      onBegin, state := None, Conn(t, None, Unset);
    }

    /** `rls_user_session`: a fresh connection whose hook scopes every transaction. */
    constructor ForUser(u: User, t: Table)
      ensures onBegin == Some(Owner(u)) && state == Conn(t, None, Unset)
    {
      onBegin, state := Some(Owner(u)), Conn(t, None, Unset);
    }

    method Begin()
      modifies this
      ensures state == old(state).(work := Some(Begun(old(state), onBegin)))
    {
      if state.work.None? {
        var setting := state.base;
        if onBegin.Some? {
          setting := onBegin.value;
        }
        state := state.(work := Some(Work(state.committed, setting, false)));
      }
    }

    method SetRlsUser(setting: Setting) returns (r: Result)
      modifies this
      ensures (state, r) == Step(old(state), onBegin, SetUser(setting))
    {
      Begin();
      if state.work.value.aborted {
        return Failed;
      }
      state := state.(work := Some(state.work.value.(setting := setting)));
      return Done;
    }

    method Execute(s: Statement) returns (r: Result)
      modifies this
      ensures (state, r) == Step(old(state), onBegin, Run(s))
      ensures var w := Begun(old(state), onBegin);
        !w.aborted && w.setting.Owner? ==>
          && (s.Select? ==> r.Rows? && forall row ::
                multiset(r.rows)[row] == if row.owner == w.setting.user && s.where(row)
                                         then multiset(w.table)[row] else 0)
          && (s.Insert? ==> r == if s.row.owner == w.setting.user then Affected(1) else Denied)
    {
      ghost var open := Begun(state, onBegin);
      if open.setting.Owner? && s.Select? {
        SelectIs(open.setting.user, open.table, s.where);
      }
      Begin();
      var w := state.work.value;
      if w.aborted {
        return Failed;
      }
      var (table, result) := Exec(w.setting, w.table, s);
      state := state.(work := Some(Work(table, w.setting, result.Denied? || result.Failed?)));
      return result;
    }

    method End(commit: bool) returns (r: Result)
      modifies this
      ensures (state, r) == Step(old(state), onBegin, if commit then Commit else Rollback)
      ensures state.work.None?
      ensures old(state).work.Some? && commit && !old(state).work.value.aborted ==>
                state.committed == old(state).work.value.table
      ensures old(state).work.None? || !commit || old(state).work.value.aborted ==>
                state.committed == old(state).committed
    {
      r := Done;
      if state.work.Some? {
        var w := state.work.value;
        state := Conn(if commit && !w.aborted then w.table else state.committed, None,
                      if w.setting.Unset? then state.base else Empty);
      }
    }
  }
}
