/**
 * The `cache.Cacher` contract the handlers and the middleware rely on: a map from keys to
 * strings whose entries expire, where a missing or expired key answers `ErrNil` and a backend
 * failure answers its own error.
 */
module Cache {
  import opened Wrappers
  import opened Errors
  import opened Models

  /** `100*time.Second`: the time to live of every balance the handlers store. */
  const BalanceTtl: int := 100

  /** A stored value and the first instant at which it is gone (`None`: it never expires). */
  datatype Entry = Entry(value: string, expiresAt: Option<Time>)

  /** The cache as a value: its entries, and the error every call returns while the backend is down. */
  datatype CacheState = CacheState(entries: map<string, Entry>, outage: Option<Error>)

  predicate Live(e: Entry, now: Time)
  {
    e.expiresAt.None? || now < e.expiresAt.value
  }

  /** `Get`: the live value under the key, `ErrNil` on a miss, or the backend's error. */
  function Lookup(c: CacheState, key: string, now: Time): (r: Result<string, Error>)
    ensures r.Success? <==> c.outage.None? && key in c.entries && Live(c.entries[key], now)
    ensures r.Success? ==> r.value == c.entries[key].value
    ensures c.outage.Some? ==> r == Failure(c.outage.value)
    ensures c.outage.None? && r.Failure? ==> r.error == CacheNil
  {
    if c.outage.Some? then Failure(c.outage.value)
    else if key in c.entries && Live(c.entries[key], now) then Success(c.entries[key].value)
    else Failure(CacheNil)
  }

  /** What a call returns: the backend's error while it is down, success otherwise. */
  function Reply(c: CacheState): (r: Outcome<Error>)
    ensures r.Fail? <==> c.outage.Some?
  {
    if c.outage.Some? then Fail(c.outage.value) else Pass
  }

  /** `Set`'s effect: the key holds the value for `ttl` seconds from `now`; a zero TTL never expires. */
  function Stored(c: CacheState, key: string, value: string, ttl: nat, now: Time): (r: CacheState)
    ensures c.outage.Some? ==> r == c
    ensures c.outage.None? ==> key in r.entries && r.entries[key].value == value
    ensures c.outage.None? && ttl > 0 ==> r.entries[key].expiresAt == Some(now + ttl)
    ensures c.outage.None? && ttl == 0 ==> r.entries[key].expiresAt.None?
    ensures r.outage == c.outage
  {
    if c.outage.Some? then c
    else c.(entries := c.entries[key := Entry(value, if ttl == 0 then None else Some(now + ttl))])
  }

  /** `Delete`'s effect: the key is gone. */
  function Removed(c: CacheState, key: string): (r: CacheState)
    ensures c.outage.Some? ==> r == c
    ensures c.outage.None? ==> key !in r.entries
    ensures r.outage == c.outage
  {
    if c.outage.Some? then c else c.(entries := c.entries - {key})
  }

  /** A value stored with a positive TTL is read back until the TTL has passed, and not after. */
  lemma ReadAfterSet(c: CacheState, key: string, value: string, ttl: nat, now: Time, later: Time)
    requires c.outage.None? && 0 < ttl && now <= later
    ensures later < now + ttl ==> Lookup(Stored(c, key, value, ttl, now), key, later) == Success(value)
    ensures later >= now + ttl ==> Lookup(Stored(c, key, value, ttl, now), key, later) == Failure(CacheNil)
  {
  }

  /** Storing or deleting one key leaves every other key's answer as it was. */
  lemma OtherKeysUnaffected(c: CacheState, key: string, other: string, value: string, ttl: nat, now: Time, later: Time)
    requires other != key
    ensures Lookup(Stored(c, key, value, ttl, now), other, later) == Lookup(c, other, later)
    ensures Lookup(Removed(c, key), other, later) == Lookup(c, other, later)
  {
  }

  /** After a delete the key misses, unless the backend is down. */
  lemma DeleteThenMiss(c: CacheState, key: string, later: Time)
    requires c.outage.None?
    ensures Lookup(Removed(c, key), key, later) == Failure(CacheNil)
  {
  }

  /** A cache held in place. */
  class Cacher {
    var entries: map<string, Entry>
    var outage: Option<Error>

    function State(): CacheState
      reads this
    {
      CacheState(entries, outage)
    }

    /** An empty cache, down with `outage` when that is given. */
    constructor (outage: Option<Error>)
      ensures State() == CacheState(map[], outage)
    {
      this.entries := map[];
      this.outage := outage;
    }

    method Get(key: string, now: Time) returns (r: Result<string, Error>)
      ensures r == Lookup(State(), key, now)
    {
      if outage.Some? {
        return Failure(outage.value);
      }
      if key in entries && Live(entries[key], now) {
        return Success(entries[key].value);
      }
      return Failure(CacheNil);
    }

    method Set(key: string, value: string, ttl: nat, now: Time) returns (r: Outcome<Error>)
      modifies this
      ensures State() == Stored(old(State()), key, value, ttl, now)
      ensures r == Reply(old(State()))
    {
      if outage.Some? {
        return Fail(outage.value);
      }
      entries := entries[key := Entry(value, if ttl == 0 then None else Some(now + ttl))];
      return Pass;
    }

    method Delete(key: string) returns (r: Outcome<Error>)
      modifies this
      ensures State() == Removed(old(State()), key)
      ensures r == Reply(old(State()))
    {
      if outage.Some? {
        return Fail(outage.value);
      }
      entries := entries - {key};
      return Pass;
    }
  }
}
