/**
 * The authoritative balance query of the balance reader (`findBalance`):
 * the sum of the amounts credited to (account, routing number) minus the
 * sum debited from it, evaluated with SQL's NULL rules. Only the debit sum
 * is COALESCEd, so an account without credits has a NULL balance; the
 * scan of that NULL fails, the error is dropped, and the result is 0.
 */
module BalanceRepo {
  import opened Wrappers
  import opened Model
  import opened LedgerRepo

  /** SQL `SUM(AMOUNT) ... WHERE p`: NULL (`None`) when no row matches. */
  function SqlSum(rows: seq<TransactionWithID>, p: Transaction -> bool): (r: Option<int>) {
    if rows == [] then None
    else
      var prev := SqlSum(rows[..|rows| - 1], p);
      var last := rows[|rows| - 1].transaction;
      if p(last) then Some(Coalesce(prev, 0) + last.amount) else prev
  }

  /** SQL `COALESCE(v, d)`. */
  function Coalesce(v: Option<int>, d: int): (r: int) {
    if v.Some? then v.value else d
  }

  /** The arithmetic sum of the amounts of the rows satisfying `p` (0 for none). */
  function Total(rows: seq<TransactionWithID>, p: Transaction -> bool): (r: int) {
    if rows == [] then 0
    else Total(rows[..|rows| - 1], p) + (if p(rows[|rows| - 1].transaction) then rows[|rows| - 1].transaction.amount else 0)
  }

  ghost predicate Any(rows: seq<TransactionWithID>, p: Transaction -> bool) {
    exists i :: 0 <= i < |rows| && p(rows[i].transaction)
  }

  /** The account has at least one credit row, so its credit SUM is not NULL. */
  ghost predicate HasCredit(db: Db, acct: string, route: string) {
    Any(db.rows, CreditsTo(acct, route))
  }

  /**
   * `findBalance(acct, route)`. The error is always nil: a failing query only
   * makes `row.Scan` fail, and that error is discarded, leaving `balance` 0.
   */
  function FindBalance(db: Db, acct: string, route: string): (r: Result<int, string>)
    ensures r.Ok?
  {
    if db.fault.Some? then Ok(0)
    else
      var credits := SqlSum(db.rows, CreditsTo(acct, route));
      var debits := Coalesce(SqlSum(db.rows, DebitsFrom(acct, route)), 0);
      match credits
      case None => Ok(0)
      case Some(c) => Ok(c - debits)
  }

  /** A SQL SUM is NULL exactly when no row matches, and the arithmetic sum otherwise. */
  lemma {:induction false} SqlSumMeaning(rows: seq<TransactionWithID>, p: Transaction -> bool)
    ensures SqlSum(rows, p) == if Any(rows, p) then Some(Total(rows, p)) else None
  {
    if rows != [] {
      var n := |rows| - 1;
      SqlSumMeaning(rows[..n], p);
      assert forall i :: 0 <= i < n ==> rows[..n][i] == rows[i];
      if Any(rows[..n], p) {
        var i :| 0 <= i < n && p(rows[..n][i].transaction);
        assert p(rows[i].transaction);
      } else {
        NoneTotalZero(rows[..n], p);
      }
      if Any(rows, p) && !p(rows[n].transaction) {
        var i :| 0 <= i < |rows| && p(rows[i].transaction);
        assert i < n && rows[..n][i] == rows[i];
        assert Any(rows[..n], p);
      }
    }
  }

  /** The balance is credits minus debits, and 0 when the account has no credit or the query fails. */
  lemma FindBalanceIsNet(db: Db, acct: string, route: string)
    ensures db.fault.None? && HasCredit(db, acct, route) ==>
              FindBalance(db, acct, route).value
                == Total(db.rows, CreditsTo(acct, route)) - Total(db.rows, DebitsFrom(acct, route))
    ensures db.fault.None? && !HasCredit(db, acct, route) ==> FindBalance(db, acct, route).value == 0
    ensures db.fault.Some? ==> FindBalance(db, acct, route).value == 0
  {
    SqlSumMeaning(db.rows, CreditsTo(acct, route));
    SqlSumMeaning(db.rows, DebitsFrom(acct, route));
    if !Any(db.rows, DebitsFrom(acct, route)) {
      NoneTotalZero(db.rows, DebitsFrom(acct, route));
    }
  }

  /** With credits but no debits, the COALESCEd debit term is 0 and the balance is the credit sum. */
  lemma NoDebitsMeansCreditSum(db: Db, acct: string, route: string)
    requires db.fault.None? && HasCredit(db, acct, route) && !Any(db.rows, DebitsFrom(acct, route))
    ensures FindBalance(db, acct, route).value == Total(db.rows, CreditsTo(acct, route))
  {
    FindBalanceIsNet(db, acct, route);
    NoneTotalZero(db.rows, DebitsFrom(acct, route));
  }

  /** With no matching row, the arithmetic sum is 0. */
  lemma {:induction false} NoneTotalZero(rows: seq<TransactionWithID>, p: Transaction -> bool)
    requires !Any(rows, p)
    ensures Total(rows, p) == 0
  {
    if rows != [] {
      var n := |rows| - 1;
      assert forall i :: 0 <= i < n ==> rows[..n][i] == rows[i];
      NoneTotalZero(rows[..n], p);
    }
  }

  /**
   * Appending `x` moves the balance of a credited account by `-amount` if `x`
   * debits it, by `+amount` if `x` credits it, by both for a self-transfer,
   * and not at all otherwise.
   */
  lemma AppendMovesBalance(db: Db, x: TransactionWithID, acct: string, route: string)
    requires db.fault.None? && HasCredit(db, acct, route)
    ensures FindBalance(Append(db, x), acct, route).value
         == FindBalance(db, acct, route).value
            - (if DebitsFrom(acct, route)(x.transaction) then x.transaction.amount else 0)
            + (if CreditsTo(acct, route)(x.transaction) then x.transaction.amount else 0)
  {
    var db' := Append(db, x);
    assert db'.rows[..|db.rows|] == db.rows;
    var i :| 0 <= i < |db.rows| && CreditsTo(acct, route)(db.rows[i].transaction);
    assert db'.rows[i] == db.rows[i];
    assert HasCredit(db', acct, route);
    FindBalanceIsNet(db, acct, route);
    FindBalanceIsNet(db', acct, route);
  }

  /** Without a prior credit the NULL credit sum breaks the delta rule: a debit leaves the balance at 0. */
  lemma UncreditedDebitIsInvisible()
    ensures var x := TransactionWithID(Transaction("1011226111", "883745000", "X", "other", 30, 0), 1);
            FindBalance(Db([], None), "1011226111", "883745000").value == 0
            && FindBalance(Append(Db([], None), x), "1011226111", "883745000").value == 0
  {
    var x := TransactionWithID(Transaction("1011226111", "883745000", "X", "other", 30, 0), 1);
    assert [x][..0] == [];
  }
}
