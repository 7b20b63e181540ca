/**
 * The read-only ledger queries the ledger reader polls
 * (`LedgerReaderTransactionRepository` in package `common`), over an
 * in-memory table of ledger rows.
 */
module LedgerRepo {
  import opened Wrappers
  import opened Model
  import opened Sorting

  /**
   * The ledger database: its rows in the order they were appended, and a
   * fault that, when present, makes every query fail with that error.
   */
  datatype Db = Db(rows: seq<TransactionWithID>, fault: Option<string>)

  /** The ledger after the ledger writer appends row `x`. */
  function Append(db: Db, x: TransactionWithID): (r: Db)
    ensures r.rows == db.rows + [x] && r.fault == db.fault
  {
    Db(db.rows + [x], db.fault)
  }

  /** The credit side of `t` is (acct, route): `to_acct = acct AND to_route = route`. */
  function CreditsTo(acct: string, route: string): (r: Transaction -> bool) {
    (t: Transaction) => t.toAccountNum == acct && t.toRoutingNum == route
  }

  /** The debit side of `t` is (acct, route): `from_acct = acct AND from_route = route`. */
  function DebitsFrom(acct: string, route: string): (r: Transaction -> bool) {
    (t: Transaction) => t.fromAccountNum == acct && t.fromRoutingNum == route
  }

  /**
   * The tail of the error `Row().Scan` returns for a NULL scanned into an
   * `int64`; the prefix naming the column is not modelled.
   */
  const NullScanError := "converting NULL to int64 is unsupported"

  /** The table's primary key: no two rows share a transaction id. */
  ghost predicate UniqueIds(db: Db) {
    DistinctKeys(db.rows, Id)
  }

  function Id(x: TransactionWithID): (r: int) {
    x.transactionID
  }

  /** `WHERE transaction_id > start`. */
  function After(start: int): (r: TransactionWithID -> bool) {
    (x: TransactionWithID) => x.transactionID > start
  }

  /** `MAX(transaction_id)` over a non-empty table. */
  function MaxId(rows: seq<TransactionWithID>): (m: int)
    requires rows != []
    ensures exists i :: 0 <= i < |rows| && rows[i].transactionID == m
    ensures forall i :: 0 <= i < |rows| ==> rows[i].transactionID <= m
  {
    if |rows| == 1 then rows[0].transactionID
    else
      var m := MaxId(rows[1..]);
      assert forall i :: 1 <= i < |rows| ==> rows[i] == rows[1..][i - 1];
      if rows[0].transactionID > m then rows[0].transactionID else m
  }

  /**
   * `SELECT MAX(transaction_id)`: `Err` stands for the `(0, err)` return. An
   * empty table yields NULL, which fails the scan into an `int64`.
   */
  function LatestTransactionID(db: Db): (r: Result<int, string>)
    ensures db.fault.Some? ==> r == Err(db.fault.value)
    ensures db.fault.None? && db.rows == [] ==> r == Err(NullScanError)
    ensures r.Ok? <==> db.fault.None? && db.rows != []
    ensures r.Ok? ==> exists i :: 0 <= i < |db.rows| && db.rows[i].transactionID == r.value
    ensures r.Ok? ==> forall i :: 0 <= i < |db.rows| ==> db.rows[i].transactionID <= r.value
  {
    if db.fault.Some? then Err(db.fault.value)
    else if db.rows == [] then Err(NullScanError)
    else Ok(MaxId(db.rows))
  }

  /** `WHERE transaction_id > start ORDER BY transaction_id ASC`; a query error gives `(nil, err)`. */
  function FindLatest(db: Db, start: int): (r: Result<seq<TransactionWithID>, string>)
    ensures r.Err? <==> db.fault.Some?
    ensures r.Err? ==> r.error == db.fault.value
  {
    if db.fault.Some? then Err(db.fault.value)
    else Ok(SortBy(Filter(db.rows, After(start)), Id))
  }

  /** `FindLatest(start)` returns exactly the rows with an id above `start`, each as often as stored. */
  lemma FindLatestExactly(db: Db, start: int)
    requires db.fault.None?
    ensures forall x :: multiset(FindLatest(db, start).value)[x]
                     == if x.transactionID > start then multiset(db.rows)[x] else 0
    ensures forall x :: x in FindLatest(db, start).value <==> x in db.rows && x.transactionID > start
  {
    var f := Filter(db.rows, After(start));
    FilterMultiset(db.rows, After(start));
    FilterMembers(db.rows, After(start));
    SameMembers(SortBy(f, Id), f);
  }

  /** The rows come back in strictly ascending id order (ids are the primary key). */
  lemma FindLatestAscending(db: Db, start: int)
    requires db.fault.None? && UniqueIds(db)
    ensures forall i, j :: 0 <= i < j < |FindLatest(db, start).value| ==>
              FindLatest(db, start).value[i].transactionID < FindLatest(db, start).value[j].transactionID
  {
    var f := Filter(db.rows, After(start));
    FilterSubMultiset(db.rows, After(start));
    DistinctKeysSub(SortBy(f, Id), db.rows, Id);
    StrictlySorted(SortBy(f, Id), Id);
  }

  /** Polling from the latest id finds nothing: no row exceeds the maximum. */
  lemma NothingAfterLatest(db: Db)
    requires LatestTransactionID(db).Ok?
    ensures FindLatest(db, LatestTransactionID(db).value) == Ok([])
  {
    var m := LatestTransactionID(db).value;
    FindLatestExactly(db, m);
  }

  /** A later starting id returns a suffix of what an earlier one returns. */
  lemma FindLatestSuffix(db: Db, s1: int, s2: int)
    requires db.fault.None? && s1 <= s2
    ensures IsSuffix(FindLatest(db, s2).value, FindLatest(db, s1).value)
  {
    var f1 := Filter(db.rows, After(s1));
    FilterImplied(db.rows, After(s1), After(s2));
    SortFilter(f1, After(s2), Id);
    FilterAboveIsSuffix(SortBy(f1, Id), After(s2), Id, s2);
  }
}
