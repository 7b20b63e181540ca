/**
 * The balance reader service (`impl` in package `balancereader`): it answers
 * balance lookups from its cache and keeps cached balances current by
 * applying each new ledger transaction as a delta.
 */
module BalanceService {
  import opened Wrappers
  import opened Model
  import opened LedgerRepo
  import opened BalanceRepo
  import opened LoadingCache
  import opened BalanceCache

  /** `cacheSize` in `Init`. */
  const CacheSize := 1000000

  /** Adds `delta` to the cached balance of `acct`, if it is cached; nothing otherwise. */
  function Adjust(m: map<string, Entry<int>>, acct: string, delta: int, now: int): (r: map<string, Entry<int>>)
    ensures r.Keys == m.Keys
    ensures acct in m ==> r[acct] == Entry(m[acct].value + delta, now)
    ensures forall k :: k in m && k != acct ==> r[k] == m[k]
  {
    if acct in m then m[acct := Entry(m[acct].value + delta, now)] else m
  }

  /**
   * The cache table after `ProcessTransaction(t)` at time `now`: first the
   * debit side, then the credit side, each only for the local routing number.
   */
  function ObserveBalance(m: map<string, Entry<int>>, t: Transaction, local: string, now: int): (r: map<string, Entry<int>>) {
    var m1 := if t.fromRoutingNum == local then Adjust(m, t.fromAccountNum, -t.amount, now) else m;
    if t.toRoutingNum == local then Adjust(m1, t.toAccountNum, t.amount, now) else m1
  }

  /** The observer never creates an entry for an uncached account and never drops one. */
  lemma ObserveKeepsKeys(m: map<string, Entry<int>>, t: Transaction, local: string, now: int)
    ensures ObserveBalance(m, t, local, now).Keys == m.Keys
  {
  }

  /**
   * Each cached balance moves by `-amount` for a local debit and by `+amount`
   * for a local credit (both for a local self-transfer, which cancels out);
   * every other entry, timestamp included, is left as it was.
   */
  lemma ObserveDelta(m: map<string, Entry<int>>, t: Transaction, local: string, now: int, acct: string)
    requires acct in m
    ensures var r := ObserveBalance(m, t, local, now);
            acct in r
            && r[acct].value == m[acct].value
                 - (if DebitsFrom(acct, local)(t) then t.amount else 0)
                 + (if CreditsTo(acct, local)(t) then t.amount else 0)
            && (!DebitsFrom(acct, local)(t) && !CreditsTo(acct, local)(t) ==> r[acct] == m[acct])
  {
  }

  /** A local self-transfer of a cached account leaves its balance unchanged. */
  lemma ObserveSelfTransfer(m: map<string, Entry<int>>, t: Transaction, local: string, now: int)
    requires t.fromAccountNum == t.toAccountNum && t.fromRoutingNum == local && t.toRoutingNum == local
    requires t.fromAccountNum in m
    ensures ObserveBalance(m, t, local, now)[t.fromAccountNum].value == m[t.fromAccountNum].value
  {
    ObserveDelta(m, t, local, now, t.fromAccountNum);
  }

  /** A cached balance of 100 debited by 30 at the local bank becomes 70; the foreign side is ignored. */
  lemma DebitExample()
    ensures var t := Transaction("1011226111", "883745000", "X", "other", 30, 0);
            var m := map["1011226111" := Entry(100, 0), "X" := Entry(5, 0)];
            ObserveBalance(m, t, "883745000", 1) == map["1011226111" := Entry(70, 1), "X" := Entry(5, 0)]
  {
  }

  /** A transaction with neither side at the local bank leaves the cache untouched. */
  lemma ObserveForeign(m: map<string, Entry<int>>, t: Transaction, local: string, now: int)
    requires t.fromRoutingNum != local && t.toRoutingNum != local
    ensures ObserveBalance(m, t, local, now) == m
  {
  }

  /** Every cached balance is the authoritative one, and its credit sum is not NULL. */
  ghost predicate Agrees(m: map<string, Entry<int>>, db: Db, local: string) {
    forall acct :: acct in m ==> m[acct].value == FindBalance(db, acct, local).value && HasCredit(db, acct, local)
  }

  lemma HasCreditAppend(db: Db, x: TransactionWithID, acct: string, route: string)
    requires HasCredit(db, acct, route)
    ensures HasCredit(Append(db, x), acct, route)
  {
    var i :| 0 <= i < |db.rows| && CreditsTo(acct, route)(db.rows[i].transaction);
    assert Append(db, x).rows[i] == db.rows[i];
  }

  /**
   * The delta observer keeps the cache in step with the ledger: if every
   * cached balance was the authoritative one for a credited account, then
   * after the ledger appends `x` and the observer sees it, every cached
   * balance is the authoritative one for the new ledger.
   */
  lemma ObserveAgrees(m: map<string, Entry<int>>, db: Db, x: TransactionWithID, local: string, now: int)
    requires db.fault.None? && Agrees(m, db, local)
    ensures Agrees(ObserveBalance(m, x.transaction, local, now), Append(db, x), local)
  {
    var r := ObserveBalance(m, x.transaction, local, now);
    forall acct | acct in r
      ensures r[acct].value == FindBalance(Append(db, x), acct, local).value
      ensures HasCredit(Append(db, x), acct, local)
    {
      ObserveDelta(m, x.transaction, local, now, acct);
      AppendMovesBalance(db, x, acct, local);
      HasCreditAppend(db, x, acct, local);
    }
  }

  /**
   * Without the credit caveat the cache drifts: a balance loaded for an account
   * with no credits is 0, a debit then caches -30, while the query still says 0.
   */
  lemma UncreditedAccountDrifts()
    ensures var db := Db([], None);
            var x := TransactionWithID(Transaction("1011226111", "883745000", "X", "other", 30, 0), 1);
            var m := map["1011226111" := Entry(FindBalance(db, "1011226111", "883745000").value, 0)];
            ObserveBalance(m, x.transaction, "883745000", 1)["1011226111"].value == -30
            && FindBalance(Append(db, x), "1011226111", "883745000").value == 0
  {
    UncreditedDebitIsInvisible();
  }

  class Service {
    /** `Config().LocalRoutingNum`. */
    var localRoutingNum: string
    var balanceCache: Cache<Db, int>

    ghost predicate Valid()
      reads this, balanceCache
    {
      balanceCache.Valid()
      && balanceCache.loader == Loader(localRoutingNum)
      && balanceCache.expireAfterWrite == 0
    }

    /** `Init`, once the repository is open: a cache of `CacheSize` entries. */
    constructor (localRoutingNum: string)
      ensures Valid() && fresh(balanceCache)
      ensures this.localRoutingNum == localRoutingNum
      ensures balanceCache.entries == map[] && balanceCache.maximumSize == CacheSize
    {
      var c := NewBalanceCache(CacheSize, localRoutingNum);
      this.localRoutingNum := localRoutingNum;
      balanceCache := c;
    }

    /** Applies `t` as a delta to the cached balances of its local sides. */
    method ProcessTransaction(t: Transaction, now: int)
      requires Valid()
      modifies balanceCache
      ensures Valid()
      ensures balanceCache.entries == ObserveBalance(old(balanceCache.entries), t, localRoutingNum, now)
    {
      ghost var m0 := balanceCache.entries;
      var fromID := t.fromAccountNum;
      var toID := t.toAccountNum;
      if t.fromRoutingNum == localRoutingNum {
        var got := balanceCache.GetIfPresent(fromID, now);
        if got.Some? {
          PutExisting(fromID, got.value - t.amount, now);
        }
        assert balanceCache.entries == Adjust(m0, fromID, -t.amount, now);
      }
      ghost var m1 := balanceCache.entries;
      assert m1 == if t.fromRoutingNum == localRoutingNum then Adjust(m0, fromID, -t.amount, now) else m0;
      if t.toRoutingNum == localRoutingNum {
        var got := balanceCache.GetIfPresent(toID, now);
        if got.Some? {
          PutExisting(toID, got.value + t.amount, now);
        }
        assert balanceCache.entries == Adjust(m1, toID, t.amount, now);
      }
    }

    /** A `Put` of a key already present overwrites it and evicts nothing. */
    method PutExisting(acct: string, balance: int, now: int)
      requires Valid() && acct in balanceCache.entries
      modifies balanceCache
      ensures Valid()
      ensures balanceCache.entries == old(balanceCache.entries)[acct := Entry(balance, now)]
    {
      ghost var before := balanceCache.entries;
      balanceCache.Put(acct, balance, now);
      StoredFacts(before, balanceCache.entries, acct, Entry(balance, now), balanceCache.maximumSize);
    }

    /**
     * `GetBalance`: the cached balance, or the authoritative one, loaded and
     * cached. The `(0, err)` branch of the source is unreachable.
     */
    method GetBalance(acct: string, db: Db, now: int) returns (r: Result<int, string>)
      requires Valid()
      modifies balanceCache
      ensures Valid() && r.Ok?
      ensures acct in old(balanceCache.entries) ==>
                r.value == old(balanceCache.entries)[acct].value && balanceCache.entries == old(balanceCache.entries)
      ensures acct !in old(balanceCache.entries) ==>
                r == FindBalance(db, acct, localRoutingNum)
                && Stored(old(balanceCache.entries), balanceCache.entries, acct, Entry(r.value, now), balanceCache.maximumSize)
    {
      r := balanceCache.Get(acct, db, now);
    }
  }
}
