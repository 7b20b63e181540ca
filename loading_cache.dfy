/**
 * The loading cache both read services sit on (goburrow's `LoadingCache`),
 * as a sequential key/value table. `Get` loads a missing or expired key
 * through the loader bound at construction, `GetIfPresent` never loads, and
 * `Put` overwrites. The loader reads an external source of type `S` (the
 * database), handed to `Get` as it is at the time of the call. Time is a
 * logical clock `now` passed to each operation. The library's choice of
 * victim (least recently used) is left open: when a write exceeds the size
 * bound, some other entry is evicted.
 */
module LoadingCache {
  import opened Wrappers

  datatype Entry<V> = Entry(value: V, writtenAt: int)

  /** Not yet expired at `now`; a `ttl` of zero or less disables expire-after-write. */
  predicate Fresh<V>(e: Entry<V>, ttl: int, now: int) {
    ttl <= 0 || now - e.writtenAt <= ttl
  }

  /** `key` is present and not expired, so a lookup at `now` finds it. */
  predicate Live<V>(m: map<string, Entry<V>>, key: string, ttl: int, now: int) {
    key in m && Fresh(m[key], ttl, now)
  }

  /**
   * `after` is `before` with `e` written under `key`; when that exceeds a
   * positive `maximumSize`, exactly one other entry has been evicted.
   */
  ghost predicate Stored<V>(before: map<string, Entry<V>>, after: map<string, Entry<V>>,
                            key: string, e: Entry<V>, maximumSize: int)
  {
    if maximumSize <= 0 || |before[key := e]| <= maximumSize then after == before[key := e]
    else exists victim :: victim in before && victim != key && after == (before - {victim})[key := e]
  }

  /** What a write never does: it keeps `key`, and touches no other key except by evicting it. */
  lemma StoredFacts<V>(before: map<string, Entry<V>>, after: map<string, Entry<V>>,
                       key: string, e: Entry<V>, maximumSize: int)
    requires Stored(before, after, key, e, maximumSize)
    requires maximumSize <= 0 || |before| <= maximumSize
    ensures key in after && after[key] == e
    ensures after.Keys <= before.Keys + {key}
    ensures forall k :: k in after && k != key ==> k in before && after[k] == before[k]
    ensures key in before ==> after == before[key := e]
  {
    if key in before {
      assert before[key := e].Keys == before.Keys;
    }
  }

  class Cache<S, V> {
    const loader: (S, string) -> Result<V, string>
    /** `WithMaximumSize`: the entry bound, unbounded when zero or less. */
    const maximumSize: int
    /** `WithExpireAfterWrite`: the time-to-live, none when zero or less. */
    const expireAfterWrite: int
    var entries: map<string, Entry<V>>

    ghost predicate Valid()
      reads this
    {
      maximumSize > 0 ==> |entries| <= maximumSize
    }

    constructor (loader: (S, string) -> Result<V, string>, maximumSize: int, expireAfterWrite: int)
      ensures Valid() && entries == map[]
      ensures this.loader == loader && this.maximumSize == maximumSize
      ensures this.expireAfterWrite == expireAfterWrite
    {
      this.loader := loader;
      this.maximumSize := maximumSize;
      this.expireAfterWrite := expireAfterWrite;
      entries := map[];
    }

    /** Never loads and never changes the table. */
    method GetIfPresent(key: string, now: int) returns (r: Option<V>)
      ensures r.Some? <==> Live(entries, key, expireAfterWrite, now)
      ensures r.Some? ==> r.value == entries[key].value
    {
      if key in entries && Fresh(entries[key], expireAfterWrite, now) {
        r := Some(entries[key].value);
      } else {
        r := None;
      }
    }

    method Put(key: string, value: V, now: int)
      requires Valid()
      modifies this
      ensures Valid()
      ensures Stored(old(entries), entries, key, Entry(value, now), maximumSize)
    {
      var e := Entry(value, now);
      if maximumSize > 0 && |entries[key := e]| > maximumSize {
        assert key !in entries;
        assert entries.Keys != {};
        var victim :| victim in entries.Keys;
        assert (entries - {victim}).Keys == entries.Keys - {victim};
        entries := (entries - {victim})[key := e];
      } else {
        entries := entries[key := e];
      }
    }

    /** Returns a live entry as is; otherwise loads, storing a success and nothing on error. */
    method Get(key: string, source: S, now: int) returns (r: Result<V, string>)
      requires Valid()
      modifies this
      ensures Valid()
      ensures Live(old(entries), key, expireAfterWrite, now) ==>
                r == Ok(old(entries)[key].value) && entries == old(entries)
      ensures !Live(old(entries), key, expireAfterWrite, now) ==> r == loader(source, key)
      ensures !Live(old(entries), key, expireAfterWrite, now) && r.Err? ==> entries == old(entries)
      ensures !Live(old(entries), key, expireAfterWrite, now) && r.Ok? ==>
                Stored(old(entries), entries, key, Entry(r.value, now), maximumSize)
    {
      if key in entries && Fresh(entries[key], expireAfterWrite, now) {
        r := Ok(entries[key].value);
      } else {
        r := loader(source, key);
        if r.Ok? {
          Put(key, r.value, now);
        }
      }
    }
  }
}
