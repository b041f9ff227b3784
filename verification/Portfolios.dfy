/** The portfolio re-keying migration: one default portfolio per user, every row of five tables
    pointed at its user's portfolio, and the user-keyed unique constraints of four of them replaced
    by portfolio-keyed ones; and the way back. */
module Portfolios {
  import opened Prelude

  type User = nat
  type PortfolioId = nat

  datatype TableName = Holdings | Snapshots | ScoreHistory | FundScores | CasJobs

  function AllTables(): seq<TableName> {
    [Holdings, Snapshots, ScoreHistory, FundScores, CasJobs]
  }

  lemma TableListed(name: TableName)
    ensures name in AllTables() && Distinct(AllTables())
  {
    var names := AllTables();
    match name
    case Holdings => assert names[0] == name;
    case Snapshots => assert names[1] == name;
    case ScoreHistory => assert names[2] == name;
    case FundScores => assert names[3] == name;
    case CasJobs => assert names[4] == name;
  }

  lemma AllListed()
    ensures Distinct(AllTables()) && forall name :: name in AllTables()
  {
    forall name
      ensures name in AllTables()
    {
      TableListed(name);
    }
    TableListed(Holdings);
  }

  /** The four tables with a unique constraint and, after the migration, a NOT NULL column. */
  predicate Keyed(name: TableName) {
    !name.CasJobs?
  }

  /** `key` stands for the columns that the unique constraint has beside the owner. */
  datatype Row = Row(user: User, key: string, data: string, portfolio: Option<PortfolioId>)

  datatype Database = Database(
    tables: map<TableName, seq<Row>>,
    portfolios: map<PortfolioId, User>)

  ghost predicate Complete(db: Database) {
    forall name :: name in db.tables
  }

  predicate UniqueByUser(rows: seq<Row>) {
    forall i, j :: 0 <= i < j < |rows| ==> rows[i].user != rows[j].user || rows[i].key != rows[j].key
  }

  /** A unique constraint that involves a NULL portfolio never conflicts. */
  predicate UniqueByPortfolio(rows: seq<Row>) {
    forall i, j :: 0 <= i < j < |rows| && rows[i].portfolio.Some? ==>
      rows[i].portfolio != rows[j].portfolio || rows[i].key != rows[j].key
  }

  predicate NoNulls(rows: seq<Row>) {
    forall i :: 0 <= i < |rows| ==> rows[i].portfolio.Some?
  }

  /** The database as it is before the migration: no portfolios, the column does not exist (all
      NULL once added), user-keyed uniqueness in force. */
  ghost predicate BeforeUpgrade(db: Database) {
    && Complete(db) && db.portfolios == map[]
    && (forall name :: name in db.tables && Keyed(name) ==> UniqueByUser(db.tables[name]))
    && (forall name, i :: name in db.tables && 0 <= i < |db.tables[name]| ==>
          db.tables[name][i].portfolio.None?)
  }

  /** SELECT DISTINCT user_id over all five tables. */
  function Users(db: Database): set<User> {
    set name, i | name in db.tables && 0 <= i < |db.tables[name]| :: db.tables[name][i].user
  }

  /** Fresh ids: one per user, never the same for two. */
  predicate Injective(idOf: map<User, PortfolioId>) {
    forall u, v :: u in idOf && v in idOf && idOf[u] == idOf[v] ==> u == v
  }

  function Inverse(idOf: map<User, PortfolioId>): map<PortfolioId, User>
    requires Injective(idOf)
  {
    map u | u in idOf :: idOf[u] := u
  }

  /** UPDATE ... SET portfolio_id FROM mf_portfolios WHERE the user matches. */
  function Pointed(rows: seq<Row>, idOf: map<User, PortfolioId>): (r: seq<Row>)
    ensures |r| == |rows|
    ensures forall i :: 0 <= i < |rows| ==>
              r[i] == if rows[i].user in idOf then rows[i].(portfolio := Some(idOf[rows[i].user])) else rows[i]
  {
    if rows == [] then []
    else
      var first := rows[0];
      [if first.user in idOf then first.(portfolio := Some(idOf[first.user])) else first]
      + Pointed(rows[1..], idOf)
  }

  function Cleared(rows: seq<Row>): (r: seq<Row>)
    ensures |r| == |rows|
    ensures forall i :: 0 <= i < |rows| ==> r[i] == rows[i].(portfolio := None)
  {
    if rows == [] then [] else [rows[0].(portfolio := None)] + Cleared(rows[1..])
  }

  /** The data after the backfill, before any constraint. */
  function Repointed(db: Database, idOf: map<User, PortfolioId>): Database
    requires Injective(idOf)
  {
    Database(map name | name in db.tables :: Pointed(db.tables[name], idOf), Inverse(idOf))
  }

  lemma RepointedIs(db: Database, idOf: map<User, PortfolioId>, tables: map<TableName, seq<Row>>)
    requires Injective(idOf) && tables.Keys == db.tables.Keys
    requires forall name :: name in tables ==> tables[name] == Pointed(db.tables[name], idOf)
    ensures Database(tables, Inverse(idOf)) == Repointed(db, idOf)
  {
    assert tables == Repointed(db, idOf).tables;
  }

  /** NOT NULL and the new unique constraint can be put in place. */
  predicate Fits(rows: seq<Row>) {
    NoNulls(rows) && UniqueByPortfolio(rows)
  }

  /** The upgrade; `None` when a constraint cannot be put in place. */
  function Upgrade(db: Database, idOf: map<User, PortfolioId>): Option<Database>
    requires Injective(idOf)
  {
    var up := Repointed(db, idOf);
    if forall name :: name in up.tables && Keyed(name) ==> Fits(up.tables[name]) then Some(up) else None
  }

  /** The downgrade; `None` when a user-keyed unique constraint cannot be put back. */
  function Downgrade(db: Database): Option<Database> {
    if forall name :: name in db.tables && Keyed(name) ==> UniqueByUser(db.tables[name])
    then Some(Database(map name | name in db.tables :: Cleared(db.tables[name]), map[])) else None
  }

  // -------------------------------------------------------------------------------------------
  // What the migration guarantees
  // -------------------------------------------------------------------------------------------

  /** Every row of a table points at a portfolio that belongs to its own user. */
  ghost predicate OwnPortfolio(db: Database, name: TableName)
    requires name in db.tables
  {
    forall i :: 0 <= i < |db.tables[name]| ==>
      var row := db.tables[name][i];
      row.portfolio.Some? && row.portfolio.value in db.portfolios &&
      db.portfolios[row.portfolio.value] == row.user
  }

  /** Re-keying by portfolio is as strict as keying by user: the new uniqueness holds if and only if
      the old one does. */
  lemma RekeyingIff(rows: seq<Row>, idOf: map<User, PortfolioId>)
    requires Injective(idOf) && forall i :: 0 <= i < |rows| ==> rows[i].user in idOf
    ensures UniqueByPortfolio(Pointed(rows, idOf)) <==> UniqueByUser(rows)
  {
    var pointed := Pointed(rows, idOf);
    forall i, j | 0 <= i < j < |rows|
      ensures pointed[i].portfolio == pointed[j].portfolio <==> rows[i].user == rows[j].user
    {
    }
    if UniqueByPortfolio(pointed) {
      forall i, j | 0 <= i < j < |rows|
        ensures rows[i].user != rows[j].user || rows[i].key != rows[j].key
      {
        assert pointed[i].portfolio.Some?;
      }
    }
  }

  lemma UsersCover(db: Database, name: TableName, i: nat)
    requires name in db.tables && i < |db.tables[name]|
    ensures db.tables[name][i].user in Users(db)
  {
  }

  lemma PointedIsFine(rows: seq<Row>, idOf: map<User, PortfolioId>)
    requires Injective(idOf) && forall i :: 0 <= i < |rows| ==> rows[i].user in idOf
    ensures NoNulls(Pointed(rows, idOf))
    ensures UniqueByUser(rows) ==> UniqueByPortfolio(Pointed(rows, idOf))
    ensures forall i :: 0 <= i < |rows| ==> Pointed(rows, idOf)[i].portfolio == Some(idOf[rows[i].user])
  {
    RekeyingIff(rows, idOf);
  }

  /** The upgrade succeeds on every database that satisfies the old constraints, and puts every row,
      also of the table whose column stays nullable, in a portfolio of its own user. */
  lemma UpgradeSucceeds(db: Database, idOf: map<User, PortfolioId>)
    requires BeforeUpgrade(db) && Injective(idOf) && idOf.Keys == Users(db)
    ensures var up := Upgrade(db, idOf);
      && up.Some? && up.value.tables.Keys == db.tables.Keys
      && forall name :: name in up.value.tables ==>
           OwnPortfolio(up.value, name) && (Keyed(name) ==> UniqueByPortfolio(up.value.tables[name]))
  {
    forall name | name in db.tables
      ensures OwnPortfolio(Repointed(db, idOf), name)
      ensures Keyed(name) ==> Fits(Repointed(db, idOf).tables[name])
    {
      TableFits(db, idOf, name);
    }
  }

  /** A pointed row on columns. */
  lemma PointedColumns(rows: seq<Row>, idOf: map<User, PortfolioId>, i: nat)
    requires i < |rows| && rows[i].user in idOf
    ensures var row := Pointed(rows, idOf)[i];
      && row.user == rows[i].user && row.key == rows[i].key && row.data == rows[i].data
      && row.portfolio == Some(idOf[rows[i].user])
  {
  }

  /** The upgrade on columns: every row of every table keeps its user, key and data and gets a portfolio
      of its own user. */
  lemma UpgradedRow(db: Database, idOf: map<User, PortfolioId>, name: TableName, i: nat)
    requires BeforeUpgrade(db) && Injective(idOf) && idOf.Keys == Users(db)
    requires name in db.tables && i < |db.tables[name]|
    ensures Upgrade(db, idOf).Some? && name in Upgrade(db, idOf).value.tables
    ensures var up := Upgrade(db, idOf).value;
      |up.tables[name]| == |db.tables[name]| && (
      var before, row := db.tables[name][i], up.tables[name][i];
      && row.user == before.user && row.key == before.key && row.data == before.data
      && row.portfolio.Some? && row.portfolio.value in up.portfolios
      && up.portfolios[row.portfolio.value] == before.user)
  {
    UpgradeSucceeds(db, idOf);
    UsersCover(db, name, i);
    PointedColumns(db.tables[name], idOf, i);
    assert OwnPortfolio(Upgrade(db, idOf).value, name);
  }

  /** And in the four keyed tables no two rows share portfolio and key. */
  lemma UpgradedPair(db: Database, idOf: map<User, PortfolioId>, name: TableName, i: nat, j: nat)
    requires BeforeUpgrade(db) && Injective(idOf) && idOf.Keys == Users(db)
    requires name in db.tables && name in {Holdings, Snapshots, ScoreHistory, FundScores}
    requires i < j < |db.tables[name]|
    ensures Upgrade(db, idOf).Some? && name in Upgrade(db, idOf).value.tables
    ensures j < |Upgrade(db, idOf).value.tables[name]|
    ensures var rows := Upgrade(db, idOf).value.tables[name];
      rows[i].portfolio != rows[j].portfolio || rows[i].key != rows[j].key
  {
    UpgradeSucceeds(db, idOf);
    UpgradedRow(db, idOf, name, i);
    assert UniqueByPortfolio(Upgrade(db, idOf).value.tables[name]);
  }

  lemma TwoAlikeDoNotFit(rows: seq<Row>, idOf: map<User, PortfolioId>, i: nat, j: nat)
    requires Injective(idOf) && forall k :: 0 <= k < |rows| ==> rows[k].user in idOf
    requires i < j < |rows| && rows[i].user == rows[j].user && rows[i].key == rows[j].key
    ensures !Fits(Pointed(rows, idOf))
  {
    assert !UniqueByUser(rows);
    RekeyingIff(rows, idOf);
  }

  /** The upgrade fails when one of the four tables has two rows with the same user and key. */
  lemma UpgradeFails(db: Database, idOf: map<User, PortfolioId>, name: TableName, i: nat, j: nat)
    requires Injective(idOf) && name in db.tables && name in {Holdings, Snapshots, ScoreHistory, FundScores}
    requires forall k :: 0 <= k < |db.tables[name]| ==> db.tables[name][k].user in idOf
    requires i < j < |db.tables[name]|
    requires db.tables[name][i].user == db.tables[name][j].user && db.tables[name][i].key == db.tables[name][j].key
    ensures Upgrade(db, idOf).None?
  {
    TwoAlikeDoNotFit(db.tables[name], idOf, i, j);
    assert name in Repointed(db, idOf).tables && !Fits(Repointed(db, idOf).tables[name]);
  }

  lemma TableFits(db: Database, idOf: map<User, PortfolioId>, name: TableName)
    requires BeforeUpgrade(db) && Injective(idOf) && idOf.Keys == Users(db) && name in db.tables
    ensures OwnPortfolio(Repointed(db, idOf), name)
    ensures Keyed(name) ==> Fits(Repointed(db, idOf).tables[name])
  {
    forall i | 0 <= i < |db.tables[name]|
      ensures db.tables[name][i].user in idOf
    {
      UsersCover(db, name, i);
    }
    PointedIsFine(db.tables[name], idOf);
    assert forall u :: u in idOf ==> Inverse(idOf)[idOf[u]] == u;
  }

  /** Exactly one portfolio per user of the five tables. */
  lemma OnePortfolioPerUser(db: Database, idOf: map<User, PortfolioId>)
    requires BeforeUpgrade(db) && Injective(idOf) && idOf.Keys == Users(db)
    ensures Upgrade(db, idOf).Some?
    ensures var ps := Upgrade(db, idOf).value.portfolios;
      && (forall u :: u in Users(db) ==> exists p :: p in ps && ps[p] == u)
      && (forall p, q :: p in ps && q in ps && ps[p] == ps[q] ==> p == q)
      && (forall p :: p in ps ==> ps[p] in Users(db))
  {
    UpgradeSucceeds(db, idOf);
    forall u | u in Users(db)
      ensures exists p :: p in Inverse(idOf) && Inverse(idOf)[p] == u
    {
      assert Inverse(idOf)[idOf[u]] == u;
    }
  }

  /** Straight after the upgrade the downgrade succeeds and gives back the original database. */
  lemma RoundTrip(db: Database, idOf: map<User, PortfolioId>)
    requires BeforeUpgrade(db) && Injective(idOf) && idOf.Keys == Users(db)
    ensures Upgrade(db, idOf).Some?
    ensures Downgrade(Upgrade(db, idOf).value) == Some(db)
  {
    UpgradeSucceeds(db, idOf);
    var up := Upgrade(db, idOf).value;
    forall name | name in db.tables
      ensures Cleared(up.tables[name]) == db.tables[name]
      ensures Keyed(name) ==> UniqueByUser(up.tables[name])
    {
      SameUsers(db.tables[name], idOf);
    }
    assert Downgrade(up).value.tables == db.tables;
  }

  lemma SameUsers(rows: seq<Row>, idOf: map<User, PortfolioId>)
    ensures UniqueByUser(Pointed(rows, idOf)) <==> UniqueByUser(rows)
    ensures (forall i :: 0 <= i < |rows| ==> rows[i].portfolio.None?) ==>
              Cleared(Pointed(rows, idOf)) == rows
  {
    var pointed := Pointed(rows, idOf);
    assert forall i :: 0 <= i < |rows| ==>
      pointed[i].user == rows[i].user && pointed[i].key == rows[i].key;
    if forall i :: 0 <= i < |rows| ==> rows[i].portfolio.None? {
      assert forall i :: 0 <= i < |rows| ==> Cleared(pointed)[i] == rows[i];
    }
  }

  /** A user has two rows of the table with the same key, in different portfolios. */
  ghost predicate HeldTwice(rows: seq<Row>) {
    exists i, j :: 0 <= i < j < |rows| && SameForUser(rows[i], rows[j]) && rows[i].portfolio != rows[j].portfolio
  }

  predicate SameForUser(a: Row, b: Row) {
    a.user == b.user && a.key == b.key
  }

  lemma HeldTwiceIff(rows: seq<Row>)
    requires Fits(rows)
    ensures HeldTwice(rows) <==> !UniqueByUser(rows)
  {
    if !UniqueByUser(rows) {
      var i, j :| 0 <= i < j < |rows| && rows[i].user == rows[j].user && rows[i].key == rows[j].key;
      assert SameForUser(rows[i], rows[j]) && rows[i].portfolio.Some?;
    }
  }

  /** While the constraints of the upgrade are in force the downgrade fails if and only if some user
      has the same key in two portfolios, in one of the four keyed tables. */
  lemma DowngradeFailsIff(db: Database)
    requires forall name :: name in db.tables && Keyed(name) ==> Fits(db.tables[name])
    ensures Downgrade(db).None? <==>
            exists name :: name in db.tables && Keyed(name) && HeldTwice(db.tables[name])
    ensures Downgrade(db).None? <==>
            exists name, i, j ::
              && name in db.tables && name in {Holdings, Snapshots, ScoreHistory, FundScores}
              && 0 <= i < j < |db.tables[name]|
              && db.tables[name][i].user == db.tables[name][j].user
              && db.tables[name][i].key == db.tables[name][j].key
              && db.tables[name][i].portfolio != db.tables[name][j].portfolio
  {
    forall name | name in db.tables && Keyed(name)
      ensures HeldTwice(db.tables[name]) <==> !UniqueByUser(db.tables[name])
    {
      HeldTwiceIff(db.tables[name]);
    }
  }

  /** Later it need not succeed: a user who holds the same fund in two portfolios satisfies the new
      constraint but not the old one. */
  lemma SecondPortfolioBlocksDowngrade(db: Database, u: User, p: PortfolioId, q: PortfolioId, key: string)
    requires p != q && Holdings in db.tables
    requires db.tables[Holdings] == [Row(u, key, "", Some(p)), Row(u, key, "", Some(q))]
    ensures UniqueByPortfolio(db.tables[Holdings]) && Downgrade(db).None?
  {
    var rows := db.tables[Holdings];
    assert rows[0].user == rows[1].user && rows[0].key == rows[1].key;
    assert !UniqueByUser(rows);
  }

  // -------------------------------------------------------------------------------------------
  // The migration as code
  // -------------------------------------------------------------------------------------------

  class Schema {
    var tables: map<TableName, seq<Row>>
    var portfolios: map<PortfolioId, User>

    constructor (db: Database)
      ensures tables == db.tables && portfolios == db.portfolios
    {
      tables, portfolios := db.tables, db.portfolios;
    }

    function Db(): Database
      reads this
    {
      Database(tables, portfolios)
    }

    /** The updates, table by table. */
    method PointTables(names: seq<TableName>, idOf: map<User, PortfolioId>)
      requires Distinct(names) && forall name :: name in names ==> name in tables
      modifies this`tables
      ensures tables.Keys == old(tables).Keys
      ensures forall name :: name in tables ==>
                tables[name] == if name in names then Pointed(old(tables)[name], idOf) else old(tables)[name]
    {
      ghost var before := tables;
      for n := 0 to |names|
        invariant tables.Keys == before.Keys
        invariant forall name :: name in tables ==>
                    tables[name] == if name in names[..n] then Pointed(before[name], idOf) else before[name]
      {
        assert names[..n + 1] == names[..n] + [names[n]];
        assert names[n] !in names[..n];
        tables := tables[names[n] := Pointed(tables[names[n]], idOf)];
      }
      assert names[..|names|] == names;
    }

    /** Insert the default portfolios, update the tables, then put the constraints in place. An
        error leaves the transaction to be rolled back. */
    method RunUpgrade(idOf: map<User, PortfolioId>) returns (ok: bool)
      requires Complete(Db()) && Injective(idOf)
      modifies this
      ensures Upgrade(old(Db()), idOf) == if ok then Some(Db()) else None
    {
      portfolios := Inverse(idOf);
      AllListed();
      PointTables(AllTables(), idOf);
      RepointedIs(old(Db()), idOf, tables);
      ok := forall name :: name in tables && Keyed(name) ==> Fits(tables[name]);
    }

    method RunDowngrade() returns (ok: bool)
      modifies this
      ensures Downgrade(old(Db())) == if ok then Some(Db()) else None
    {
      ok := forall name :: name in tables && Keyed(name) ==> UniqueByUser(tables[name]);
      tables := map name | name in tables :: Cleared(tables[name]);
      portfolios := map[];
    }
  }
}
