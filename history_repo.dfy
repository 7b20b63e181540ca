/**
 * The transaction history's authoritative query (`findForAccount` in package
 * `transactionhistory`): every ledger transaction with the account on either
 * side at the given routing number, newest first.
 */
module HistoryRepo {
  import opened Wrappers
  import opened Model
  import opened LedgerRepo
  import opened Sorting

  /** The query's filter: `t` debits or credits (acct, route). */
  function Involves(acct: string, route: string): (r: Transaction -> bool) {
    (t: Transaction) => DebitsFrom(acct, route)(t) || CreditsTo(acct, route)(t)
  }

  /** The sort key of `ORDER BY timestamp DESC`: ascending in it is newest first. */
  function Newest(t: Transaction): (r: int) {
    -t.timestamp
  }

  /** The `transactions` table read into `[]model.Transaction`: the ids are not selected. */
  function Transactions(rows: seq<TransactionWithID>): (r: seq<Transaction>)
    ensures |r| == |rows|
    ensures forall i :: 0 <= i < |rows| ==> r[i] == rows[i].transaction
  {
    seq(|rows|, i requires 0 <= i < |rows| => rows[i].transaction)
  }

  /** `findForAccount(acct, route, limit)`; `limit` is accepted and not used. */
  function FindForAccount(db: Db, acct: string, route: string, limit: int): (r: Result<seq<Transaction>, string>)
    ensures r.Err? <==> db.fault.Some?
    ensures r.Err? ==> r.error == db.fault.value
  {
    if db.fault.Some? then Err(db.fault.value)
    else Ok(SortBy(Filter(Transactions(db.rows), Involves(acct, route)), Newest))
  }

  /**
   * Exactly the transactions involving the account come back, each as often
   * as the ledger holds it: a transaction matching on both sides (a
   * self-transfer) is listed once, as the filter is a disjunction.
   */
  lemma FindForAccountExactly(db: Db, acct: string, route: string, limit: int)
    requires db.fault.None?
    ensures forall t :: multiset(FindForAccount(db, acct, route, limit).value)[t]
                     == if Involves(acct, route)(t) then multiset(Transactions(db.rows))[t] else 0
    ensures forall t :: t in FindForAccount(db, acct, route, limit).value
                     <==> Involves(acct, route)(t) && exists i :: 0 <= i < |db.rows| && db.rows[i].transaction == t
  {
    var s := Transactions(db.rows);
    var p := Involves(acct, route);
    FilterMultiset(s, p);
    FilterMembers(s, p);
    var r := FindForAccount(db, acct, route, limit).value;
    forall t ensures t in r <==> p(t) && exists i :: 0 <= i < |db.rows| && db.rows[i].transaction == t {
      assert t in r <==> t in multiset(r);
      assert t in Filter(s, p) <==> t in multiset(Filter(s, p));
      if t in s {
        var i :| 0 <= i < |s| && s[i] == t;
        assert db.rows[i].transaction == t;
      }
      if exists i :: 0 <= i < |db.rows| && db.rows[i].transaction == t {
        var i :| 0 <= i < |db.rows| && db.rows[i].transaction == t;
        assert s[i] == t;
      }
    }
  }

  /** The result is ordered by timestamp, newest first. */
  lemma FindForAccountNewestFirst(db: Db, acct: string, route: string, limit: int)
    requires db.fault.None?
    ensures var r := FindForAccount(db, acct, route, limit).value;
            forall i, j :: 0 <= i < j < |r| ==> r[i].timestamp >= r[j].timestamp
  {
    var r := FindForAccount(db, acct, route, limit).value;
    forall i, j | 0 <= i < j < |r| ensures r[i].timestamp >= r[j].timestamp {
      assert Newest(r[i]) <= Newest(r[j]);
    }
  }

  /** A query error yields the error and no list. */
  lemma FindForAccountError(db: Db, acct: string, route: string, limit: int)
    requires db.fault.Some?
    ensures FindForAccount(db, acct, route, limit) == Err(db.fault.value)
  {
  }

  /** The history is not bounded by `limit`: two matching rows come back under a limit of one. */
  lemma LimitIsIgnored()
    ensures var t1 := Transaction("1011226111", "883745000", "X", "other", 10, 1);
            var t2 := Transaction("1011226111", "883745000", "Y", "other", 20, 2);
            var db := Db([TransactionWithID(t1, 1), TransactionWithID(t2, 2)], None);
            FindForAccount(db, "1011226111", "883745000", 1) == Ok([t2, t1])
  {
    var t1 := Transaction("1011226111", "883745000", "X", "other", 10, 1);
    var t2 := Transaction("1011226111", "883745000", "Y", "other", 20, 2);
    var s := Transactions([TransactionWithID(t1, 1), TransactionWithID(t2, 2)]);
    assert s == [t1, t2];
    var p := Involves("1011226111", "883745000");
    assert DebitsFrom("1011226111", "883745000")(t1) && DebitsFrom("1011226111", "883745000")(t2);
    assert p(t1) && p(t2);
    FilterAll(s, p);
    assert s[..1] == [t1] && [t1][..0] == [];
    assert SortBy([t1], Newest) == [t1];
    assert Insert(t2, [t1], Newest) == [t2, t1];
  }

  /** A row the query does not select leaves the history as it was. */
  lemma AppendUninvolved(db: Db, x: TransactionWithID, acct: string, route: string, limit: int)
    requires db.fault.None? && !Involves(acct, route)(x.transaction)
    ensures FindForAccount(Append(db, x), acct, route, limit) == FindForAccount(db, acct, route, limit)
  {
    var s := Transactions(db.rows);
    assert Transactions(db.rows + [x]) == s + [x.transaction];
    FilterAppend(s, [x.transaction], Involves(acct, route));
    assert Filter([x.transaction], Involves(acct, route)) == [] by {
      assert [x.transaction][1..] == [];
    }
    assert Filter(s, Involves(acct, route)) + [] == Filter(s, Involves(acct, route));
  }

  /**
   * A selected row newer than every row already stored goes to the head of
   * the history, ahead of the previous result.
   */
  lemma AppendNewest(db: Db, x: TransactionWithID, acct: string, route: string, limit: int)
    requires db.fault.None? && Involves(acct, route)(x.transaction)
    requires forall i :: 0 <= i < |db.rows| ==> db.rows[i].transaction.timestamp < x.transaction.timestamp
    ensures FindForAccount(Append(db, x), acct, route, limit).value
         == [x.transaction] + FindForAccount(db, acct, route, limit).value
  {
    var s := Transactions(db.rows);
    var t := x.transaction;
    var p := Involves(acct, route);
    var f := Filter(s, p);
    assert Transactions(db.rows + [x]) == s + [t];
    FilterAppend(s, [t], p);
    assert Filter([t], p) == [t] by {
      assert [t][1..] == [];
    }
    SortAppend(f, t, Newest);
    FilterMembers(s, p);
    forall y | y in SortBy(f, Newest) ensures Newest(t) < Newest(y) {
      assert y in multiset(SortBy(f, Newest));
      assert y in f;
      var i :| 0 <= i < |s| && s[i] == y;
    }
    InsertFront(t, SortBy(f, Newest), Newest);
  }
}
