/**
 * The transaction history's cache (`newTransactionCache` in package
 * `transactionhistory`): a loading cache from account number to its history,
 * bounded in size and expiring entries a fixed time after they were written.
 */
module HistoryCache {
  import opened Wrappers
  import opened Model
  import opened LedgerRepo
  import opened HistoryRepo
  import opened LoadingCache

  /** `time.Minute`, in the nanoseconds of a `time.Duration`; the logical clock counts nanoseconds. */
  const MinuteNanos := 60_000_000_000

  /**
   * The `load` closure: `findForAccount(accountID, localRoutingNum, historyLimit)`.
   * It fails exactly when the query does, and its error reaches the caller.
   */
  function Loader(localRoutingNum: string, historyLimit: int): (load: (Db, string) -> Result<seq<Transaction>, string>)
    ensures forall db, acct :: load(db, acct) == FindForAccount(db, acct, localRoutingNum, historyLimit)
    ensures forall db, acct :: load(db, acct).Err? <==> db.fault.Some?
  {
    (db: Db, acct: string) => FindForAccount(db, acct, localRoutingNum, historyLimit)
  }

  /** `WithMaximumSize(cacheSize)` and `WithExpireAfterWrite(expireMinutes * time.Minute)`. */
  method NewHistoryCache(cacheSize: int, expireMinutes: int, localRoutingNum: string, historyLimit: int)
    returns (c: Cache<Db, seq<Transaction>>)
    ensures fresh(c) && c.Valid() && c.entries == map[]
    ensures c.loader == Loader(localRoutingNum, historyLimit)
    ensures c.maximumSize == cacheSize && c.expireAfterWrite == expireMinutes * MinuteNanos
  {
    c := new Cache(Loader(localRoutingNum, historyLimit), cacheSize, expireMinutes * MinuteNanos);
  }

  /**
   * With a positive number of minutes, an entry written at `writtenAt` is
   * still found at `now` exactly when at most that many minutes have passed.
   */
  lemma ExpireAfterWrite(m: map<string, Entry<seq<Transaction>>>, acct: string, expireMinutes: int, now: int)
    requires expireMinutes > 0 && acct in m
    ensures Live(m, acct, expireMinutes * MinuteNanos, now)
        <==> now - m[acct].writtenAt <= expireMinutes * MinuteNanos
  {
  }
}
