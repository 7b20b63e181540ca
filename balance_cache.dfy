/**
 * The balance reader's cache (`newTransactionCache` in package
 * `balancereader`): a loading cache from account number to balance whose
 * loader is the authoritative balance query for the local routing number.
 */
module BalanceCache {
  import opened Wrappers
  import opened LedgerRepo
  import opened BalanceRepo
  import opened LoadingCache

  /** The `load` closure: `findBalance(accountID, localRoutingNum)`, which never fails. */
  function Loader(localRoutingNum: string): (load: (Db, string) -> Result<int, string>)
    ensures forall db, acct :: load(db, acct) == FindBalance(db, acct, localRoutingNum)
    ensures forall db, acct :: load(db, acct).Ok?
  {
    (db: Db, acct: string) => FindBalance(db, acct, localRoutingNum)
  }

  /**
   * `WithMaximumSize(expireSize)` is the only option: the argument bounds the
   * number of entries, and no expire-after-write is configured.
   */
  method NewBalanceCache(expireSize: int, localRoutingNum: string) returns (c: Cache<Db, int>)
    ensures fresh(c) && c.Valid() && c.entries == map[]
    ensures c.loader == Loader(localRoutingNum)
    ensures c.maximumSize == expireSize && c.expireAfterWrite == 0
  {
    c := new Cache(Loader(localRoutingNum), expireSize, 0);
  }

  /** Without expire-after-write, an entry is live exactly when it is present, at any time. */
  lemma NeverExpires(m: map<string, Entry<int>>, acct: string, now: int)
    ensures Live(m, acct, 0, now) <==> acct in m
  {
  }
}
