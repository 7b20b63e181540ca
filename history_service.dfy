/**
 * The transaction history service (`impl` in package `transactionhistory`):
 * it answers history lookups from its cache and keeps cached histories
 * current by prepending each new ledger transaction, truncated to the
 * history limit.
 */
module HistoryService {
  import opened Wrappers
  import opened Model
  import opened LedgerRepo
  import opened HistoryRepo
  import opened LoadingCache
  import opened HistoryCache

  /** `a` is a (not necessarily proper) prefix of `b`. */
  ghost predicate IsPrefix<T>(a: seq<T>, b: seq<T>) {
    |a| <= |b| && a == b[..|a|]
  }

  /**
   * `t` put in front of the cached list, which is then cut back to its first
   * `limit` elements when longer: the newest `limit` transactions, the oldest
   * ones dropped from the tail.
   */
  function PrependTruncate(t: Transaction, txns: seq<Transaction>, limit: nat): (r: seq<Transaction>)
    ensures |r| == if |txns| + 1 <= limit then |txns| + 1 else limit
    ensures IsPrefix(r, [t] + txns)
  {
    var s := [t] + txns;
    if |s| > limit then s[..limit] else s
  }

  /** Below the limit nothing is dropped: `t` goes in front of the whole history. */
  lemma PrependBelowLimit(t: Transaction, txns: seq<Transaction>, limit: nat)
    requires |txns| < limit
    ensures PrependTruncate(t, txns, limit)[0] == t
    ensures PrependTruncate(t, txns, limit)[1..] == txns
  {
  }

  /** Prepending to a prefix of a history gives a prefix of the history with `t` in front. */
  lemma PrependTruncatePrefix(t: Transaction, txns: seq<Transaction>, full: seq<Transaction>, limit: nat)
    requires IsPrefix(txns, full)
    ensures IsPrefix(PrependTruncate(t, txns, limit), [t] + full)
  {
    var r := PrependTruncate(t, txns, limit);
    assert ([t] + txns) == ([t] + full)[..|txns| + 1];
    assert r == ([t] + full)[..|r|];
  }

  /** `processTransactionForAcct` on an account whose entry is live at `now`. */
  function Record(m: map<string, Entry<seq<Transaction>>>, acct: string, t: Transaction,
                  limit: nat, ttl: int, now: int): (r: map<string, Entry<seq<Transaction>>>)
    ensures r.Keys == m.Keys
    ensures forall k :: k in m && k != acct ==> r[k] == m[k]
    ensures Live(m, acct, ttl, now) ==> r[acct] == Entry(PrependTruncate(t, m[acct].value, limit), now)
    ensures !Live(m, acct, ttl, now) ==> r == m
  {
    if Live(m, acct, ttl, now) then m[acct := Entry(PrependTruncate(t, m[acct].value, limit), now)] else m
  }

  /** The cache table after `ProcessTransaction(t)`: the debit side first, then the credit side. */
  function ObserveHistory(m: map<string, Entry<seq<Transaction>>>, t: Transaction, local: string,
                          limit: nat, ttl: int, now: int): (r: map<string, Entry<seq<Transaction>>>)
  {
    var m1 := if t.fromRoutingNum == local then Record(m, t.fromAccountNum, t, limit, ttl, now) else m;
    if t.toRoutingNum == local then Record(m1, t.toAccountNum, t, limit, ttl, now) else m1
  }

  /** The observer never creates an entry for an uncached account and never drops one. */
  lemma ObserveHistoryKeepsKeys(m: map<string, Entry<seq<Transaction>>>, t: Transaction, local: string,
                                limit: nat, ttl: int, now: int)
    ensures ObserveHistory(m, t, local, limit, ttl, now).Keys == m.Keys
  {
  }

  /**
   * What the observer does to one cached account: nothing unless `t` involves
   * it at the local bank and its entry is live; then `t` is prepended once,
   * or twice for a local self-transfer (once per side).
   */
  lemma ObserveHistoryAt(m: map<string, Entry<seq<Transaction>>>, t: Transaction, local: string,
                         limit: nat, ttl: int, now: int, acct: string)
    requires acct in m
    ensures var r := ObserveHistory(m, t, local, limit, ttl, now);
            && (!(Involves(acct, local)(t) && Live(m, acct, ttl, now)) ==> r[acct] == m[acct])
            && (Involves(acct, local)(t) && Live(m, acct, ttl, now)
                && !(DebitsFrom(acct, local)(t) && CreditsTo(acct, local)(t)) ==>
                  r[acct] == Entry(PrependTruncate(t, m[acct].value, limit), now))
            && (DebitsFrom(acct, local)(t) && CreditsTo(acct, local)(t) && Live(m, acct, ttl, now) ==>
                  r[acct] == Entry(PrependTruncate(t, PrependTruncate(t, m[acct].value, limit), limit), now))
  {
    assert DebitsFrom(acct, local)(t) <==> t.fromAccountNum == acct && t.fromRoutingNum == local;
    assert CreditsTo(acct, local)(t) <==> t.toAccountNum == acct && t.toRoutingNum == local;
  }

  /** A transaction with neither side at the local bank leaves the cache untouched. */
  lemma ObserveHistoryForeign(m: map<string, Entry<seq<Transaction>>>, t: Transaction, local: string,
                              limit: nat, ttl: int, now: int)
    requires t.fromRoutingNum != local && t.toRoutingNum != local
    ensures ObserveHistory(m, t, local, limit, ttl, now) == m
  {
  }

  /** Every live cached history is a prefix of the authoritative one. */
  ghost predicate PrefixOfQuery(m: map<string, Entry<seq<Transaction>>>, db: Db, local: string,
                                limit: nat, ttl: int, now: int)
    requires db.fault.None?
  {
    forall acct :: Live(m, acct, ttl, now) ==> IsPrefix(m[acct].value, FindForAccount(db, acct, local, limit).value)
  }

  /**
   * The prepend observer keeps live histories consistent with the ledger,
   * provided the new row is newer than every stored row and is not a local
   * self-transfer: every live cached history stays a prefix of the
   * authoritative history of the new ledger.
   */
  lemma ObserveHistoryPrefix(m: map<string, Entry<seq<Transaction>>>, db: Db, x: TransactionWithID,
                             local: string, limit: nat, ttl: int, now: int)
    requires db.fault.None? && PrefixOfQuery(m, db, local, limit, ttl, now)
    requires forall i :: 0 <= i < |db.rows| ==> db.rows[i].transaction.timestamp < x.transaction.timestamp
    requires !(x.transaction.fromAccountNum == x.transaction.toAccountNum
               && x.transaction.fromRoutingNum == local && x.transaction.toRoutingNum == local)
    ensures PrefixOfQuery(ObserveHistory(m, x.transaction, local, limit, ttl, now), Append(db, x), local, limit, ttl, now)
  {
    var t := x.transaction;
    var r := ObserveHistory(m, t, local, limit, ttl, now);
    forall acct | Live(r, acct, ttl, now)
      ensures IsPrefix(r[acct].value, FindForAccount(Append(db, x), acct, local, limit).value)
    {
      ObserveHistoryAt(m, t, local, limit, ttl, now, acct);
      if Involves(acct, local)(t) && Live(m, acct, ttl, now) {
        AppendNewest(db, x, acct, local, limit);
        PrependTruncatePrefix(t, m[acct].value, FindForAccount(db, acct, local, limit).value, limit);
      } else {
        AppendUninvolved(db, x, acct, local, limit);
      }
    }
  }

  /**
   * A local self-transfer is listed twice in a cached history, while the
   * authoritative query lists it once.
   */
  lemma SelfTransferListedTwice()
    ensures var t := Transaction("1011226111", "883745000", "1011226111", "883745000", 10, 1);
            var db := Db([], None);
            var m := map["1011226111" := Entry(FindForAccount(db, "1011226111", "883745000", 100).value, 0)];
            ObserveHistory(m, t, "883745000", 100, 0, 1)["1011226111"].value == [t, t]
            && FindForAccount(Append(db, TransactionWithID(t, 1)), "1011226111", "883745000", 100).value == [t]
  {
    var t := Transaction("1011226111", "883745000", "1011226111", "883745000", 10, 1);
    var db := Db([], None);
    assert FindForAccount(db, "1011226111", "883745000", 100).value == [];
    assert DebitsFrom("1011226111", "883745000")(t);
    AppendNewest(db, TransactionWithID(t, 1), "1011226111", "883745000", 100);
  }

  class Service {
    /** `Config().LocalRoutingNum` and `Config().HistoryLimit`. */
    var localRoutingNum: string
    var historyLimit: nat
    var txnCache: Cache<Db, seq<Transaction>>

    ghost predicate Valid()
      reads this, txnCache
    {
      txnCache.Valid() && txnCache.loader == Loader(localRoutingNum, historyLimit)
    }

    /** `Init`, once the repository is open. */
    constructor (localRoutingNum: string, historyLimit: nat, cacheSize: int, cacheMinutes: int)
      ensures Valid() && fresh(txnCache) && txnCache.entries == map[]
      ensures this.localRoutingNum == localRoutingNum && this.historyLimit == historyLimit
      ensures txnCache.maximumSize == cacheSize && txnCache.expireAfterWrite == cacheMinutes * MinuteNanos
    {
      var c := NewHistoryCache(cacheSize, cacheMinutes, localRoutingNum, historyLimit);
      this.localRoutingNum := localRoutingNum;
      this.historyLimit := historyLimit;
      txnCache := c;
    }

    /**
     * `processTransactionForAcct`: reads the history through `Get` (loading it
     * when absent or expired), prepends `t`, truncates, and writes it back; a
     * failed load changes nothing.
     */
    method ProcessTransactionForAcct(acct: string, t: Transaction, db: Db, now: int)
      requires Valid()
      modifies txnCache
      ensures Valid()
      ensures Live(old(txnCache.entries), acct, txnCache.expireAfterWrite, now) ==>
                txnCache.entries == Record(old(txnCache.entries), acct, t, historyLimit, txnCache.expireAfterWrite, now)
      ensures !Live(old(txnCache.entries), acct, txnCache.expireAfterWrite, now)
              && FindForAccount(db, acct, localRoutingNum, historyLimit).Err? ==>
                txnCache.entries == old(txnCache.entries)
      ensures !Live(old(txnCache.entries), acct, txnCache.expireAfterWrite, now)
              && FindForAccount(db, acct, localRoutingNum, historyLimit).Ok? ==>
                var loaded := FindForAccount(db, acct, localRoutingNum, historyLimit).value;
                exists mid :: Stored(old(txnCache.entries), mid, acct, Entry(loaded, now), txnCache.maximumSize)
                              && txnCache.entries == mid[acct := Entry(PrependTruncate(t, loaded, historyLimit), now)]
    {
      ghost var before := txnCache.entries;
      var got := txnCache.Get(acct, db, now);
      if got.Err? {
        return;
      }
      ghost var mid := txnCache.entries;
      StoredFactsAfterGet(before, mid, acct, got.value, now);
      var txns := [t] + got.value;
      if |txns| > historyLimit {
        txns := txns[..historyLimit];
      }
      txnCache.Put(acct, txns, now);
      StoredFacts(mid, txnCache.entries, acct, Entry(txns, now), txnCache.maximumSize);
    }

    /** After a successful `Get`, the key is present. */
    lemma StoredFactsAfterGet(before: map<string, Entry<seq<Transaction>>>, mid: map<string, Entry<seq<Transaction>>>,
                              acct: string, v: seq<Transaction>, now: int)
      requires Live(before, acct, txnCache.expireAfterWrite, now) ==> mid == before && v == before[acct].value
      requires !Live(before, acct, txnCache.expireAfterWrite, now) ==> Stored(before, mid, acct, Entry(v, now), txnCache.maximumSize)
      requires txnCache.maximumSize <= 0 || |before| <= txnCache.maximumSize
      ensures acct in mid
    {
      if !Live(before, acct, txnCache.expireAfterWrite, now) {
        StoredFacts(before, mid, acct, Entry(v, now), txnCache.maximumSize);
      }
    }

    /** Prepends `t` to the cached histories of its local sides whose entries are live. */
    method ProcessTransaction(t: Transaction, db: Db, now: int)
      requires Valid()
      modifies txnCache
      ensures Valid()
      ensures txnCache.entries
           == ObserveHistory(old(txnCache.entries), t, localRoutingNum, historyLimit, txnCache.expireAfterWrite, now)
    {
      if t.fromRoutingNum == localRoutingNum {
        var present := txnCache.GetIfPresent(t.fromAccountNum, now);
        if present.Some? {
          ProcessTransactionForAcct(t.fromAccountNum, t, db, now);
        }
      }
      if t.toRoutingNum == localRoutingNum {
        var present := txnCache.GetIfPresent(t.toAccountNum, now);
        if present.Some? {
          ProcessTransactionForAcct(t.toAccountNum, t, db, now);
        }
      }
    }

    /**
     * `GetTransactions`: the cached or loaded history as it is, with no
     * truncation to the history limit on this path.
     */
    method GetTransactions(acct: string, db: Db, now: int) returns (r: Result<seq<Transaction>, string>)
      requires Valid()
      modifies txnCache
      ensures Valid()
      ensures Live(old(txnCache.entries), acct, txnCache.expireAfterWrite, now) ==>
                r == Ok(old(txnCache.entries)[acct].value) && txnCache.entries == old(txnCache.entries)
      ensures !Live(old(txnCache.entries), acct, txnCache.expireAfterWrite, now) ==>
                r == FindForAccount(db, acct, localRoutingNum, historyLimit)
      ensures !Live(old(txnCache.entries), acct, txnCache.expireAfterWrite, now) && r.Err? ==>
                txnCache.entries == old(txnCache.entries)
      ensures !Live(old(txnCache.entries), acct, txnCache.expireAfterWrite, now) && r.Ok? ==>
                Stored(old(txnCache.entries), txnCache.entries, acct, Entry(r.value, now), txnCache.maximumSize)
    {
      r := txnCache.Get(acct, db, now);
    }
  }
}
