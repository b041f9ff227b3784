/** Ledger part of the folio backfill. The ledger is append-only, so a row with an old-form folio
    is replaced: insert a canonical copy, with the source reference recomputed for CAS rows, unless
    its unique key exists already, then delete the old row; over a snapshot of the table, in
    whatever order the SELECT returned it. The canonicalization and the fingerprint are parameters. */
module Ledger {
  import opened Prelude
  import opened Folios

  datatype Txn = Txn(
    portfolio: nat, source: string, instrument: string, folio: string,
    date: nat, kind: string, amount: int, sourceRef: string,      // the columns of uq_portfolio_txn
    units: int, user: nat, assetClass: string, nav: Option<int>,
    parserVersion: Option<string>, ingestedAt: int)

  datatype Key = Key(
    portfolio: nat, source: string, instrument: string, folio: string,
    date: nat, kind: string, amount: int, sourceRef: string)

  function KeyOf(t: Txn): Key {
    Key(t.portfolio, t.source, t.instrument, t.folio, t.date, t.kind, t.amount, t.sourceRef)
  }

  datatype Rules = Rules(
    canon: string -> string,
    fingerprint: (string, string, nat, string, int, int) -> string)
  {
    predicate Old(t: Txn) {
      canon(t.folio) != t.folio
    }

    /** The row that replaces `t`. */
    function Replacement(t: Txn): Txn {
      if !Old(t) then t
      else
        var folio := canon(t.folio);
        var ref := if t.source == "cas"
                   then fingerprint(t.instrument, folio, t.date, t.kind, t.amount, t.units)
                   else t.sourceRef;
        t.(folio := folio, sourceRef := ref)
    }

    /** Canonicalizing twice is canonicalizing once, on the folio of this row. */
    predicate Idempotent(t: Txn) {
      canon(canon(t.folio)) == canon(t.folio)
    }
  }

  type Table = map<nat, Txn>

  ghost predicate Unique(rows: Table) {
    forall a, b :: a in rows && b in rows && KeyOf(rows[a]) == KeyOf(rows[b]) ==> a == b
  }

  predicate HasKey(rows: Table, key: Key) {
    exists a :: a in rows && KeyOf(rows[a]) == key
  }

  /** On columns. */
  lemma HasKeyIff(rows: Table, t: Txn)
    ensures HasKey(rows, KeyOf(t)) <==>
      exists a :: a in rows && rows[a].portfolio == t.portfolio && rows[a].source == t.source
        && rows[a].instrument == t.instrument && rows[a].folio == t.folio && rows[a].date == t.date
        && rows[a].kind == t.kind && rows[a].amount == t.amount && rows[a].sourceRef == t.sourceRef
  {
    forall a | a in rows
      ensures KeyOf(rows[a]) == KeyOf(t) <==>
        && rows[a].portfolio == t.portfolio && rows[a].source == t.source
        && rows[a].instrument == t.instrument && rows[a].folio == t.folio && rows[a].date == t.date
        && rows[a].kind == t.kind && rows[a].amount == t.amount && rows[a].sourceRef == t.sourceRef
    {
    }
  }

  /** The table during the loop. `nextId` is a row id that was never used. */
  datatype State = State(rows: Table, nextId: nat, migrated: nat, merged: nat)

  predicate IdsBelow(rows: Table, n: nat) {
    forall a :: a in rows ==> a < n
  }

  /** INSERT ... ON CONFLICT DO NOTHING. */
  function Inserted(s: State, t: Txn): State {
    if HasKey(s.rows, KeyOf(t)) then s.(merged := s.merged + 1)
    else s.(rows := s.rows[s.nextId := t], nextId := s.nextId + 1)
  }

  /** One round of the loop, for the snapshot row `t` with id `a`. */
  function Step(r: Rules, s: State, a: nat, t: Txn): State {
    if !r.Old(t) then s
    else
      var i := Inserted(s, r.Replacement(t));
      i.(rows := i.rows - {a}, migrated := i.migrated + 1)
  }

  /** The loop over the snapshot `before`, in the order `order`. */
  function Loop(r: Rules, before: Table, nextId: nat, order: seq<nat>): State
    requires forall a :: a in order ==> a in before
  {
    if order == [] then State(before, nextId, 0, 0)
    else
      var n := |order| - 1;
      assert order[n] in order;
      Step(r, Loop(r, before, nextId, order[..n]), order[n], before[order[n]])
  }

  ghost predicate Snapshot(before: Table, order: seq<nat>) {
    && (forall a :: a in order ==> a in before)
    && Distinct(order)
  }

  ghost predicate FullSnapshot(before: Table, order: seq<nat>) {
    Snapshot(before, order) && forall a :: a in before ==> a in order
  }

  // -------------------------------------------------------------------------------------------
  // The loop invariant
  // -------------------------------------------------------------------------------------------

  /** Row `a` of the snapshot has its canonical key in the table: it is canonical, or done. */
  predicate Arrived(r: Rules, before: Table, done: seq<nat>, a: nat)
    requires a in before
  {
    !r.Old(before[a]) || a in done
  }

  /** Rows of the snapshot are in place, untouched, unless they were old and are done. */
  ghost predicate OriginalsInPlace(r: Rules, before: Table, done: seq<nat>, s: State) {
    forall a :: a in before ==>
      (a in s.rows <==> !(r.Old(before[a]) && a in done)) && (a in s.rows ==> s.rows[a] == before[a])
  }

  ghost predicate IsReplacement(r: Rules, before: Table, done: seq<nat>, t: Txn) {
    exists a :: a in done && a in before && r.Old(before[a]) && t == r.Replacement(before[a])
  }

  /** Every other row replaces some old row that is done. */
  ghost predicate OthersReplace(r: Rules, before: Table, done: seq<nat>, s: State) {
    forall b :: b in s.rows && b !in before ==> IsReplacement(r, before, done, s.rows[b])
  }

  ghost predicate ReplacementsPresent(r: Rules, before: Table, done: seq<nat>, s: State) {
    forall a :: a in before && Arrived(r, before, done, a) ==>
      HasKey(s.rows, KeyOf(r.Replacement(before[a])))
  }

  /** What every round keeps, whatever the canonicalization does. */
  ghost predicate Kept(r: Rules, before: Table, done: seq<nat>, s: State) {
    && Unique(s.rows) && IdsBelow(s.rows, s.nextId) && IdsBelow(before, s.nextId)
    && OriginalsInPlace(r, before, done, s)
    && OthersReplace(r, before, done, s)
    && |s.rows| + s.merged == |before|
  }

  ghost predicate Inv(r: Rules, before: Table, done: seq<nat>, s: State) {
    Kept(r, before, done, s) && ReplacementsPresent(r, before, done, s)
  }

  ghost predicate AllIdempotent(r: Rules, before: Table) {
    forall a :: a in before ==> r.Idempotent(before[a])
  }

  lemma InsertedKeepsUnique(s: State, t: Txn)
    requires Unique(s.rows) && IdsBelow(s.rows, s.nextId)
    ensures Unique(Inserted(s, t).rows) && IdsBelow(Inserted(s, t).rows, Inserted(s, t).nextId)
  {
  }

  lemma InsertedHasKey(s: State, t: Txn)
    ensures HasKey(Inserted(s, t).rows, KeyOf(t))
  {
    if !HasKey(s.rows, KeyOf(t)) {
      assert KeyOf(Inserted(s, t).rows[s.nextId]) == KeyOf(t);
    }
  }

  lemma KeyKept(rows: Table, key: Key, a: nat)
    requires HasKey(rows, key) && (a in rows ==> KeyOf(rows[a]) != key)
    ensures HasKey(rows - {a}, key)
  {
    var b :| b in rows && KeyOf(rows[b]) == key;
    assert b in rows - {a};
  }

  lemma KeyStays(s: State, t: Txn, key: Key)
    requires IdsBelow(s.rows, s.nextId) && HasKey(s.rows, key)
    ensures HasKey(Inserted(s, t).rows, key)
  {
    var b :| b in s.rows && KeyOf(s.rows[b]) == key;
    assert b in Inserted(s, t).rows && Inserted(s, t).rows[b] == s.rows[b];
  }

  /** One round keeps the unique key also between its INSERT and its DELETE, and the rest. */
  lemma StepKept(r: Rules, before: Table, done: seq<nat>, s: State, a: nat)
    requires Kept(r, before, done, s) && a in before && a !in done
    ensures Unique(Inserted(s, r.Replacement(before[a])).rows)
    ensures Kept(r, before, done + [a], Step(r, s, a, before[a]))
  {
    InsertedKeepsUnique(s, r.Replacement(before[a]));
    if r.Old(before[a]) {
      StepSize(r, before, s, a);
      StepOriginals(r, before, done, s, a);
      StepOthers(r, before, done, s, a);
    } else {
      SkipKept(r, before, done, s, a);
    }
  }

  /** A canonical row of the snapshot is passed over. */
  lemma SkipKept(r: Rules, before: Table, done: seq<nat>, s: State, a: nat)
    requires Kept(r, before, done, s) && a in before && !r.Old(before[a])
    ensures Kept(r, before, done + [a], s)
  {
    forall b | b in s.rows && b !in before
      ensures IsReplacement(r, before, done + [a], s.rows[b])
    {
      ReplacementStays(r, before, done, a, s.rows[b]);
    }
  }

  lemma StepSize(r: Rules, before: Table, s: State, a: nat)
    requires IdsBelow(s.rows, s.nextId) && a in before && r.Old(before[a])
    requires a in s.rows && |s.rows| + s.merged == |before|
    ensures var s' := Step(r, s, a, before[a]); |s'.rows| + s'.merged == |before|
  {
    var i := Inserted(s, r.Replacement(before[a]));
    RemoveSize(i.rows, a);
    InsertSize(s, r.Replacement(before[a]));
  }

  lemma RemoveSize(rows: Table, a: nat)
    requires a in rows
    ensures |rows - {a}| == |rows| - 1
  {
    assert (rows - {a}).Keys == rows.Keys - {a};
    assert |rows.Keys - {a}| == |rows.Keys| - 1;
  }

  lemma InsertSize(s: State, t: Txn)
    requires IdsBelow(s.rows, s.nextId)
    ensures |Inserted(s, t).rows| + Inserted(s, t).merged == |s.rows| + s.merged + 1
  {
    if !HasKey(s.rows, KeyOf(t)) {
      assert s.nextId !in s.rows;
      assert s.rows[s.nextId := t].Keys == s.rows.Keys + {s.nextId};
    }
  }

  lemma StepPresent(r: Rules, before: Table, done: seq<nat>, s: State, a: nat)
    requires IdsBelow(s.rows, s.nextId) && OriginalsInPlace(r, before, done, s)
    requires ReplacementsPresent(r, before, done, s) && AllIdempotent(r, before)
    requires a in before && a !in done && r.Old(before[a])
    ensures ReplacementsPresent(r, before, done + [a], Step(r, s, a, before[a]))
  {
    forall b | b in before && Arrived(r, before, done + [a], b)
      ensures HasKey(Inserted(s, r.Replacement(before[a])).rows - {a}, KeyOf(r.Replacement(before[b])))
    {
      assert b == a || Arrived(r, before, done, b);
      KeyAfterRound(r, s, a, before[a], before[b]);
    }
  }

  /** The key of a replacement has a canonical folio, the deleted row `t` has not, so the DELETE
      does not take it away. */
  lemma KeyAfterRound(r: Rules, s: State, a: nat, t: Txn, other: Txn)
    requires IdsBelow(s.rows, s.nextId) && a in s.rows && s.rows[a] == t && r.Old(t)
    requires r.Idempotent(other) && (other == t || HasKey(s.rows, KeyOf(r.Replacement(other))))
    ensures HasKey(Inserted(s, r.Replacement(t)).rows - {a}, KeyOf(r.Replacement(other)))
  {
    var i, key := Inserted(s, r.Replacement(t)), KeyOf(r.Replacement(other));
    InsertedHasKey(s, r.Replacement(t));
    if other != t {
      KeyStays(s, r.Replacement(t), key);
    }
    assert r.canon(key.folio) == key.folio;
    assert KeyOf(t).folio != key.folio;
    KeyKept(i.rows, key, a);
  }

  lemma StepOriginals(r: Rules, before: Table, done: seq<nat>, s: State, a: nat)
    requires OriginalsInPlace(r, before, done, s) && IdsBelow(before, s.nextId)
    requires a in before && r.Old(before[a])
    ensures OriginalsInPlace(r, before, done + [a], Step(r, s, a, before[a]))
  {
    var i := Inserted(s, r.Replacement(before[a]));
    assert forall b :: b in before ==> (b in i.rows <==> b in s.rows);
  }

  lemma StepOthers(r: Rules, before: Table, done: seq<nat>, s: State, a: nat)
    requires OthersReplace(r, before, done, s) && IdsBelow(s.rows, s.nextId)
    requires a in before && r.Old(before[a])
    ensures OthersReplace(r, before, done + [a], Step(r, s, a, before[a]))
  {
    var s' := Step(r, s, a, before[a]);
    forall b | b in s'.rows && b !in before
      ensures IsReplacement(r, before, done + [a], s'.rows[b])
    {
      if b in s.rows {
        assert s'.rows[b] == s.rows[b];
        ReplacementStays(r, before, done, a, s.rows[b]);
      } else {
        assert s'.rows[b] == r.Replacement(before[a]);
        assert a in done + [a];
      }
    }
  }

  lemma ReplacementStays(r: Rules, before: Table, done: seq<nat>, a: nat, t: Txn)
    requires IsReplacement(r, before, done, t)
    ensures IsReplacement(r, before, done + [a], t)
  {
    var c :| c in done && c in before && r.Old(before[c]) && t == r.Replacement(before[c]);
    assert c in done + [a];
  }

  lemma SnapshotFront(before: Table, order: seq<nat>)
    requires Snapshot(before, order) && order != []
    ensures var n := |order| - 1;
      && Snapshot(before, order[..n]) && order[n] in before && order[n] !in order[..n]
      && order[..n] + [order[n]] == order
  {
    var n := |order| - 1;
    assert order[..n] + [order[n]] == order;
    DistinctSnoc(order[..n], order[n]);
    assert order[n] in order;
  }

  /** After every round, in every order of the snapshot and whatever the canonicalization does: the
      unique key holds, rows that are not replaced yet are untouched, every other row is a
      replacement, and rows and merges add up. */
  lemma {:induction false} LoopKept(r: Rules, before: Table, nextId: nat, order: seq<nat>)
    requires Unique(before) && IdsBelow(before, nextId) && Snapshot(before, order)
    ensures Kept(r, before, order, Loop(r, before, nextId, order))
  {
    if order != [] {
      var n := |order| - 1;
      SnapshotFront(before, order);
      LoopKept(r, before, nextId, order[..n]);
      StepKept(r, before, order[..n], Loop(r, before, nextId, order[..n]), order[n]);
    }
  }

  /** With idempotent canonicalization, the canonical key of every row that is canonical or done is
      in the table as well. */
  lemma {:induction false} LoopInv(r: Rules, before: Table, nextId: nat, order: seq<nat>)
    requires Unique(before) && IdsBelow(before, nextId) && AllIdempotent(r, before)
    requires Snapshot(before, order)
    ensures Inv(r, before, order, Loop(r, before, nextId, order))
  {
    LoopKept(r, before, nextId, order);
    if order == [] {
      PresentAtStart(r, before, nextId);
    } else {
      var n := |order| - 1;
      SnapshotFront(before, order);
      LoopInv(r, before, nextId, order[..n]);
      var s := Loop(r, before, nextId, order[..n]);
      if r.Old(before[order[n]]) {
        StepPresent(r, before, order[..n], s, order[n]);
      } else {
        SkipPresent(r, before, order[..n], s, order[n]);
      }
    }
  }

  lemma SkipPresent(r: Rules, before: Table, done: seq<nat>, s: State, a: nat)
    requires ReplacementsPresent(r, before, done, s) && a in before && !r.Old(before[a])
    ensures ReplacementsPresent(r, before, done + [a], s)
  {
    assert forall b :: b in before && Arrived(r, before, done + [a], b) ==> Arrived(r, before, done, b);
  }

  lemma PresentAtStart(r: Rules, before: Table, nextId: nat)
    ensures ReplacementsPresent(r, before, [], State(before, nextId, 0, 0))
  {
    forall a | a in before && Arrived(r, before, [], a)
      ensures HasKey(before, KeyOf(r.Replacement(before[a])))
    {
      assert r.Replacement(before[a]) == before[a];
    }
  }

  // -------------------------------------------------------------------------------------------
  // The results
  // -------------------------------------------------------------------------------------------

  /** The unique key holds before every round and between its INSERT and its DELETE, whatever the
      canonicalization does. */
  lemma {:induction false} UniqueThroughout(r: Rules, before: Table, nextId: nat, order: seq<nat>, a: nat)
    requires Unique(before) && IdsBelow(before, nextId)
    requires (forall b :: b in order ==> b in before) && a in before
    ensures var s := Loop(r, before, nextId, order);
      Unique(s.rows) && IdsBelow(s.rows, s.nextId) &&
      Unique(Inserted(s, r.Replacement(before[a])).rows)
  {
    if order != [] {
      var n := |order| - 1;
      assert order[n] in order;
      UniqueThroughout(r, before, nextId, order[..n], order[n]);
      var s := Loop(r, before, nextId, order[..n]);
      InsertedKeepsUnique(s, r.Replacement(before[order[n]]));
    }
    InsertedKeepsUnique(Loop(r, before, nextId, order), r.Replacement(before[a]));
  }

  ghost predicate AllCanonical(r: Rules, rows: Table) {
    forall a :: a in rows ==> !r.Old(rows[a])
  }

  function Keys(rows: Table): set<Key> {
    set a | a in rows :: KeyOf(rows[a])
  }

  function CanonicalKeys(r: Rules, before: Table): set<Key> {
    set a | a in before :: KeyOf(r.Replacement(before[a]))
  }

  lemma RowsEndCanonical(r: Rules, before: Table, order: seq<nat>, s: State, b: nat)
    requires OriginalsInPlace(r, before, order, s) && OthersReplace(r, before, order, s)
    requires AllIdempotent(r, before) && (forall a :: a in before ==> a in order) && b in s.rows
    ensures !r.Old(s.rows[b]) && KeyOf(s.rows[b]) in CanonicalKeys(r, before)
  {
    if b in before {
      assert r.Replacement(before[b]) == before[b];
    } else {
      assert IsReplacement(r, before, order, s.rows[b]);
      var a :| a in order && a in before && r.Old(before[a]) && s.rows[b] == r.Replacement(before[a]);
      assert r.Idempotent(before[a]);
    }
  }

  /** What the loop leaves behind, for every order of a full snapshot: only canonical rows, exactly
      the canonical keys, `merged` rows fewer, the canonical rows untouched. */
  lemma {:induction false} Backfilled(r: Rules, before: Table, nextId: nat, order: seq<nat>)
    requires Unique(before) && IdsBelow(before, nextId) && AllIdempotent(r, before)
    requires FullSnapshot(before, order)
    ensures var s := Loop(r, before, nextId, order);
      && AllCanonical(r, s.rows)
      && Keys(s.rows) == CanonicalKeys(r, before)
      && |s.rows| == |before| - s.merged
      && (forall a :: a in before && !r.Old(before[a]) ==> a in s.rows && s.rows[a] == before[a])
  {
    LoopInv(r, before, nextId, order);
    InvMeans(r, before, order, Loop(r, before, nextId, order));
  }

  lemma InvMeans(r: Rules, before: Table, order: seq<nat>, s: State)
    requires Inv(r, before, order, s) && AllIdempotent(r, before)
    requires forall a :: a in before ==> a in order
    ensures AllCanonical(r, s.rows)
    ensures Keys(s.rows) == CanonicalKeys(r, before)
    ensures |s.rows| == |before| - s.merged
    ensures forall a :: a in before && !r.Old(before[a]) ==> a in s.rows && s.rows[a] == before[a]
  {
    forall b | b in s.rows
      ensures !r.Old(s.rows[b]) && KeyOf(s.rows[b]) in CanonicalKeys(r, before)
    {
      RowsEndCanonical(r, before, order, s, b);
    }
    NoKeyIsMissing(r, before, order, s);
  }

  lemma NoKeyIsMissing(r: Rules, before: Table, order: seq<nat>, s: State)
    requires ReplacementsPresent(r, before, order, s) && forall a :: a in before ==> a in order
    ensures CanonicalKeys(r, before) <= Keys(s.rows)
  {
    forall key | key in CanonicalKeys(r, before)
      ensures key in Keys(s.rows)
    {
      var a :| a in before && key == KeyOf(r.Replacement(before[a]));
      assert Arrived(r, before, order, a);
    }
  }

  ghost function AmountTotal(rows: Table): int {
    if rows == map[] then 0
    else
      var a :| a in rows;
      rows[a].amount + AmountTotal(rows - {a})
  }

  ghost function AmountsOf(keys: set<Key>): int {
    if keys == {} then 0
    else
      var key :| key in keys;
      key.amount + AmountsOf(keys - {key})
  }

  lemma {:induction false} AmountsPick(keys: set<Key>, key: Key)
    requires key in keys
    ensures AmountsOf(keys) == key.amount + AmountsOf(keys - {key})
    decreases |keys|
  {
    var other :| other in keys && AmountsOf(keys) == other.amount + AmountsOf(keys - {other});
    if other != key {
      AmountsPick(keys - {other}, key);
      AmountsPick(keys - {key}, other);
      assert keys - {other} - {key} == keys - {key} - {other};
    }
  }

  lemma KeysWithout(rows: Table, a: nat)
    requires Unique(rows) && a in rows
    ensures Keys(rows - {a}) == Keys(rows) - {KeyOf(rows[a])}
    ensures KeyOf(rows[a]) in Keys(rows)
  {
    var less, key := rows - {a}, KeyOf(rows[a]);
    forall k | k in Keys(rows) && k != key
      ensures k in Keys(less)
    {
      var b :| b in rows && KeyOf(rows[b]) == k;
      assert b in less;
    }
    forall k | k in Keys(less)
      ensures k in Keys(rows) && k != key
    {
      var b :| b in less && KeyOf(less[b]) == k;
      assert b in rows && b != a;
    }
  }

  /** Under the unique key a table's amounts add up to those of its set of keys. */
  lemma {:induction false} AmountsByKey(rows: Table)
    requires Unique(rows)
    ensures AmountTotal(rows) == AmountsOf(Keys(rows))
    decreases |rows|
  {
    if rows != map[] {
      var a :| a in rows && AmountTotal(rows) == rows[a].amount + AmountTotal(rows - {a});
      RemoveSize(rows, a);
      AmountsByKey(rows - {a});
      var key := KeyOf(rows[a]);
      KeysWithout(rows, a);
      AmountsPick(Keys(rows), key);
    } else {
      assert Keys(rows) == {};
    }
  }

  /** The amount total after the backfill is that of the distinct canonical keys: a merged variant
      counts once, and nothing else changes. */
  lemma AmountsAfterBackfill(r: Rules, before: Table, nextId: nat, order: seq<nat>)
    requires Unique(before) && IdsBelow(before, nextId) && AllIdempotent(r, before)
    requires FullSnapshot(before, order)
    ensures AmountTotal(Loop(r, before, nextId, order).rows) == AmountsOf(CanonicalKeys(r, before))
  {
    LoopInv(r, before, nextId, order);
    Backfilled(r, before, nextId, order);
    AmountsByKey(Loop(r, before, nextId, order).rows);
  }

  // -------------------------------------------------------------------------------------------
  // The same on columns
  // -------------------------------------------------------------------------------------------

  /** What the replacement of an old row is, column by column. */
  lemma ReplacementColumns(r: Rules, t: Txn)
    requires r.canon(t.folio) != t.folio
    ensures var c := r.Replacement(t);
      && c.portfolio == t.portfolio && c.source == t.source && c.instrument == t.instrument
      && c.date == t.date && c.kind == t.kind && c.amount == t.amount && c.units == t.units
      && c.user == t.user && c.assetClass == t.assetClass && c.nav == t.nav
      && c.parserVersion == t.parserVersion && c.ingestedAt == t.ingestedAt
      && c.folio == r.canon(t.folio)
      && c.sourceRef ==
         if t.source == "cas"
         then r.fingerprint(t.instrument, r.canon(t.folio), t.date, t.kind, t.amount, t.units)
         else t.sourceRef
  {
  }

  /** A row that is left is untouched if it was there before, and not replaced. */
  lemma OldRowsUntouched(r: Rules, before: Table, nextId: nat, order: seq<nat>, a: nat)
    requires Unique(before) && IdsBelow(before, nextId) && FullSnapshot(before, order) && a in before
    ensures var rows := Loop(r, before, nextId, order).rows;
      && (a in rows <==> r.canon(before[a].folio) == before[a].folio)
      && (a in rows ==> rows[a] == before[a])
  {
    LoopKept(r, before, nextId, order);
  }

  /** A row that was not there before is a copy of some old row of the snapshot in all columns but two:
      its folio is the canonical one, and its source reference is the old one, or for a CAS row the
      fingerprint over the canonical folio. */
  lemma NewRowsAreCopies(r: Rules, before: Table, nextId: nat, order: seq<nat>, b: nat) returns (a: nat)
    requires Unique(before) && IdsBelow(before, nextId) && FullSnapshot(before, order)
    requires b in Loop(r, before, nextId, order).rows && b !in before
    ensures a in before && r.canon(before[a].folio) != before[a].folio
    ensures var t, c := before[a], Loop(r, before, nextId, order).rows[b];
      && c.portfolio == t.portfolio && c.source == t.source && c.instrument == t.instrument
      && c.date == t.date && c.kind == t.kind && c.amount == t.amount && c.units == t.units
      && c.user == t.user && c.assetClass == t.assetClass && c.nav == t.nav
      && c.parserVersion == t.parserVersion && c.ingestedAt == t.ingestedAt
      && c.folio == r.canon(t.folio)
      && c.sourceRef ==
         if t.source == "cas"
         then r.fingerprint(t.instrument, r.canon(t.folio), t.date, t.kind, t.amount, t.units)
         else t.sourceRef
  {
    LoopKept(r, before, nextId, order);
    var c := Loop(r, before, nextId, order).rows[b];
    assert IsReplacement(r, before, order, c);
    a :| a in order && a in before && r.Old(before[a]) && c == r.Replacement(before[a]);
    ReplacementColumns(r, before[a]);
  }

  /** Nothing is lost: for every row of the snapshot there is a row with its portfolio, source,
      instrument, date, kind and amount, its canonical folio and the source reference that goes with
      it. */
  lemma EveryRowArrives(r: Rules, before: Table, nextId: nat, order: seq<nat>, a: nat) returns (b: nat)
    requires Unique(before) && IdsBelow(before, nextId) && AllIdempotent(r, before)
    requires FullSnapshot(before, order) && a in before
    ensures b in Loop(r, before, nextId, order).rows
    ensures var t, c := before[a], Loop(r, before, nextId, order).rows[b];
      && c.portfolio == t.portfolio && c.source == t.source && c.instrument == t.instrument
      && c.date == t.date && c.kind == t.kind && c.amount == t.amount
      && c.folio == r.canon(t.folio)
      && c.sourceRef ==
         if t.source == "cas" && r.canon(t.folio) != t.folio
         then r.fingerprint(t.instrument, r.canon(t.folio), t.date, t.kind, t.amount, t.units)
         else t.sourceRef
  {
    LoopInv(r, before, nextId, order);
    var rows := Loop(r, before, nextId, order).rows;
    assert Arrived(r, before, order, a);
    b :| b in rows && KeyOf(rows[b]) == KeyOf(r.Replacement(before[a]));
    if r.Old(before[a]) {
      ReplacementColumns(r, before[a]);
    }
  }

  /** The unique key, on columns. */
  lemma UniqueIff(rows: Table)
    ensures Unique(rows) <==>
      forall a, b :: a in rows && b in rows && a != b ==>
        || rows[a].portfolio != rows[b].portfolio || rows[a].source != rows[b].source
        || rows[a].instrument != rows[b].instrument || rows[a].folio != rows[b].folio
        || rows[a].date != rows[b].date || rows[a].kind != rows[b].kind
        || rows[a].amount != rows[b].amount || rows[a].sourceRef != rows[b].sourceRef
  {
    if Unique(rows) {
      forall a, b | a in rows && b in rows && a != b
        ensures
          || rows[a].portfolio != rows[b].portfolio || rows[a].source != rows[b].source
          || rows[a].instrument != rows[b].instrument || rows[a].folio != rows[b].folio
          || rows[a].date != rows[b].date || rows[a].kind != rows[b].kind
          || rows[a].amount != rows[b].amount || rows[a].sourceRef != rows[b].sourceRef
      {
        assert KeyOf(rows[a]) != KeyOf(rows[b]);
      }
    }
  }

  /** The key of a row in canonical form, every column written out. */
  function KeyInFull(r: Rules, t: Txn): (key: Key)
    ensures key.amount == t.amount && key.folio == r.canon(t.folio)
  {
    Key(t.portfolio, t.source, t.instrument, r.canon(t.folio), t.date, t.kind, t.amount,
        if t.source == "cas" && r.canon(t.folio) != t.folio
        then r.fingerprint(t.instrument, r.canon(t.folio), t.date, t.kind, t.amount, t.units)
        else t.sourceRef)
  }

  function KeyColumns(r: Rules, before: Table): set<Key> {
    set a | a in before :: KeyInFull(r, before[a])
  }

  lemma KeyIsFull(r: Rules, t: Txn)
    ensures KeyOf(r.Replacement(t)) == KeyInFull(r, t)
  {
  }

  lemma KeysInColumns(r: Rules, before: Table)
    ensures CanonicalKeys(r, before) == KeyColumns(r, before)
  {
    forall a | a in before
      ensures KeyOf(r.Replacement(before[a])) == KeyInFull(r, before[a])
    {
      KeyIsFull(r, before[a]);
    }
    SameImage(before, (t: Txn) => KeyOf(r.Replacement(t)), (t: Txn) => KeyInFull(r, t));
  }

  lemma SameImage(rows: Table, some: Txn -> Key, other: Txn -> Key)
    requires forall a :: a in rows ==> some(rows[a]) == other(rows[a])
    ensures (set a | a in rows :: some(rows[a])) == set a | a in rows :: other(rows[a])
  {
  }

  /** The amounts afterwards sum to the original amounts, each distinct canonical key counted once. */
  lemma AmountsOnColumns(r: Rules, before: Table, nextId: nat, order: seq<nat>)
    requires Unique(before) && IdsBelow(before, nextId) && AllIdempotent(r, before)
    requires FullSnapshot(before, order)
    ensures AmountTotal(Loop(r, before, nextId, order).rows) == AmountsOf(KeyColumns(r, before))
  {
    AmountsAfterBackfill(r, before, nextId, order);
    KeysInColumns(r, before);
  }

  /** The amount total of a table is what one row adds, row by row. */
  lemma {:induction false} AmountTotalPick(rows: Table, a: nat)
    requires a in rows
    ensures AmountTotal(rows) == rows[a].amount + AmountTotal(rows - {a})
    ensures AmountTotal(map[]) == 0
    decreases |rows|
  {
    var b :| b in rows && AmountTotal(rows) == rows[b].amount + AmountTotal(rows - {b});
    if b != a {
      RemoveSize(rows, b);
      RemoveSize(rows, a);
      AmountTotalPick(rows - {b}, a);
      AmountTotalPick(rows - {a}, b);
      assert rows - {b} - {a} == rows - {a} - {b};
    }
  }

  /** The rows of the snapshot that are in old form. */
  function OldRows(r: Rules, before: Table, order: seq<nat>): set<nat> {
    set a | a in order && a in before && r.canon(before[a].folio) != before[a].folio
  }

  lemma OldRowsSnoc(r: Rules, before: Table, front: seq<nat>, a: nat)
    requires a in before && a !in front
    ensures |OldRows(r, before, front + [a])| ==
            |OldRows(r, before, front)| + if r.canon(before[a].folio) != before[a].folio then 1 else 0
  {
    assert OldRows(r, before, front + [a]) ==
           OldRows(r, before, front) + if r.canon(before[a].folio) != before[a].folio then {a} else {};
  }

  /** The counter `migrated` is the number of old rows. */
  lemma {:induction false} MigratedIs(r: Rules, before: Table, nextId: nat, order: seq<nat>)
    requires Snapshot(before, order)
    ensures Loop(r, before, nextId, order).migrated == |OldRows(r, before, order)|
  {
    if order == [] {
      assert OldRows(r, before, order) == {};
    } else {
      var n := |order| - 1;
      SnapshotFront(before, order);
      MigratedIs(r, before, nextId, order[..n]);
      OldRowsSnoc(r, before, order[..n], order[n]);
    }
  }

  /** On a canonical table the loop does nothing, so a second run is a no-op. */
  lemma {:induction false} SecondRunIsNoOp(r: Rules, rows: Table, nextId: nat, order: seq<nat>)
    requires AllCanonical(r, rows) && forall a :: a in order ==> a in rows
    ensures Loop(r, rows, nextId, order) == State(rows, nextId, 0, 0)
  {
    if order != [] {
      assert order[|order| - 1] in order;
      SecondRunIsNoOp(r, rows, nextId, order[..|order| - 1]);
    }
  }

  /** Running the backfill again, in whatever order, does nothing. */
  lemma RunTwice(r: Rules, before: Table, nextId: nat, order: seq<nat>, again: seq<nat>)
    requires Unique(before) && IdsBelow(before, nextId) && AllIdempotent(r, before)
    requires FullSnapshot(before, order)
    requires forall a :: a in again ==> a in Loop(r, before, nextId, order).rows
    ensures var s := Loop(r, before, nextId, order);
      Loop(r, s.rows, s.nextId, again) == State(s.rows, s.nextId, 0, 0)
  {
    Backfilled(r, before, nextId, order);
    var s := Loop(r, before, nextId, order);
    SecondRunIsNoOp(r, s.rows, s.nextId, again);
  }

  /** A row whose folio canonicalizes to something that is itself old leaves an old row behind. */
  lemma OldAfterRound(r: Rules, s: State, a: nat, t: Txn)
    requires a in s.rows && s.rows[a] == t && IdsBelow(s.rows, s.nextId) && !r.Idempotent(t)
    ensures !AllCanonical(r, Step(r, s, a, t).rows)
  {
    var i, copy := Inserted(s, r.Replacement(t)), r.Replacement(t);
    InsertedHasKey(s, copy);
    KeyKept(i.rows, KeyOf(copy), a);
    var b :| b in i.rows - {a} && KeyOf((i.rows - {a})[b]) == KeyOf(copy);
    assert r.Old((i.rows - {a})[b]);
  }

  /** So it does when it comes last. */
  lemma LastOneStaysOld(r: Rules, before: Table, nextId: nat, front: seq<nat>, a: nat)
    requires Unique(before) && IdsBelow(before, nextId)
    requires Snapshot(before, front + [a]) && !r.Idempotent(before[a])
    ensures !AllCanonical(r, Loop(r, before, nextId, front + [a]).rows)
  {
    var order := front + [a];
    SnapshotFront(before, order);
    assert order[..|front|] == front && order[|front|] == a;
    UniqueThroughout(r, before, nextId, front, a);
    LoopKept(r, before, nextId, front);
    OldAfterRound(r, Loop(r, before, nextId, front), a, before[a]);
  }

  /** The backfill makes every row canonical in every snapshot order if and only if
      canonicalization is idempotent on the folios of the table. */
  lemma CanonicalInEveryOrderIff(r: Rules, before: Table, nextId: nat)
    requires Unique(before) && IdsBelow(before, nextId)
    ensures (forall order :: FullSnapshot(before, order) ==>
               AllCanonical(r, Loop(r, before, nextId, order).rows))
            <==> AllIdempotent(r, before)
  {
    if AllIdempotent(r, before) {
      forall order | FullSnapshot(before, order)
        ensures AllCanonical(r, Loop(r, before, nextId, order).rows)
      {
        Backfilled(r, before, nextId, order);
      }
    } else {
      var a :| a in before && !r.Idempotent(before[a]);
      var front := Enumerate(before.Keys - {a});
      DistinctSnoc(front, a);
      LastOneStaysOld(r, before, nextId, front, a);
      assert FullSnapshot(before, front + [a]);
    }
  }

  /** For the actual `Canon`: exactly the folios that do not end in two zero suffixes. */
  lemma CanonIdempotentIff(r: Rules, before: Table)
    requires r.canon == Canon
    ensures AllIdempotent(r, before) <==> forall a :: a in before ==> !DoubleSuffix(before[a].folio)
  {
    forall a | a in before
      ensures r.Idempotent(before[a]) <==> !DoubleSuffix(before[a].folio)
    {
      IdempotentIff(before[a].folio);
    }
  }

  // -------------------------------------------------------------------------------------------
  // The migration step as code
  // -------------------------------------------------------------------------------------------

  class LedgerTable {
    const rules: Rules
    var rows: Table
    var nextId: nat

    constructor (rules: Rules, rows: Table, nextId: nat)
      ensures this.rules == rules && this.rows == rows && this.nextId == nextId
    {
      this.rules, this.rows, this.nextId := rules, rows, nextId;
    }

    /** Returns the row count of the INSERT. */
    method InsertOnConflictDoNothing(t: Txn) returns (rowcount: nat)
      modifies this`rows, this`nextId
      ensures var i := Inserted(State(old(rows), old(nextId), 0, 0), t);
        rows == i.rows && nextId == i.nextId && rowcount == 1 - i.merged
      ensures rowcount == 0 <==>
              exists a :: a in old(rows) && old(rows)[a].portfolio == t.portfolio
                && old(rows)[a].source == t.source && old(rows)[a].instrument == t.instrument
                && old(rows)[a].folio == t.folio && old(rows)[a].date == t.date && old(rows)[a].kind == t.kind
                && old(rows)[a].amount == t.amount && old(rows)[a].sourceRef == t.sourceRef
      ensures rows == if rowcount == 0 then old(rows) else old(rows)[old(nextId) := t]
    {
      HasKeyIff(rows, t);
      if HasKey(rows, KeyOf(t)) {
        return 0;
      }
      rows, nextId := rows[nextId := t], nextId + 1;
      return 1;
    }

    /** Under the unique key the row takes exactly its own key with it. */
    method Delete(a: nat)
      modifies this`rows
      ensures rows == old(rows) - {a}
      ensures a in old(rows) && Unique(old(rows)) ==>
                Unique(rows) && Keys(rows) == Keys(old(rows)) - {KeyOf(old(rows)[a])}
    {
      if a in rows && Unique(rows) {
        KeysWithout(rows, a);
      }
      rows := rows - {a};
    }

    method Backfill(order: seq<nat>) returns (migrated: nat, merged: nat)
      requires FullSnapshot(rows, order)
      modifies this`rows, this`nextId
      ensures State(rows, nextId, migrated, merged) == Loop(rules, old(rows), old(nextId), order)
    {
      migrated, merged := 0, 0;
      var snapshot := rows;
      assert order[..0] == [];
      for n := 0 to |order|
        invariant forall a :: a in order[..n] ==> a in snapshot
        invariant State(rows, nextId, migrated, merged) ==
                  Loop(rules, snapshot, old(nextId), order[..n])
      {
        assert order[..n + 1][..n] == order[..n];
        assert order[n] in order;
        var t := snapshot[order[n]];
        var canon := rules.canon(t.folio);
        if canon != t.folio {
          var ref := t.sourceRef;
          if t.source == "cas" {
            ref := rules.fingerprint(t.instrument, canon, t.date, t.kind, t.amount, t.units);
          }
          var rowcount := InsertOnConflictDoNothing(t.(folio := canon, sourceRef := ref));
          if rowcount == 0 {
            merged := merged + 1;
          }
          Delete(order[n]);
          migrated := migrated + 1;
        }
      }
      assert order[..|order|] == order;
    }
  }
}
