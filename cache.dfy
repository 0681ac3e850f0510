/**
 * The in-memory cache driver (`InMemoryCacheDriver`): one store, the class
 * attribute `_memory`, shared by every driver instance, whose entries expire
 * lazily on `get`. Time is an integer number of seconds passed in as `now`.
 */
module InMemoryCache {
  import opened Wrappers

  /** `CacheData`: the stored text, its time to live in seconds, and when it was stored. */
  datatype CacheData = CacheData(value: string, secondsForExpire: int, storedAt: int)

  /** An entry has expired once strictly more than its time to live has elapsed. */
  predicate Expired(d: CacheData, now: int)
  {
    now - d.storedAt > d.secondsForExpire
  }

  /** What `get(key)` returns at `now`: `None` for a missing or expired entry. */
  function Lookup(memory: map<string, CacheData>, key: string, now: int): (r: Option<string>)
    ensures r.None? <==> key !in memory || Expired(memory[key], now)
    ensures r.Some? ==> r.value == memory[key].value
  {
    if key !in memory || Expired(memory[key], now) then None else Some(memory[key].value)
  }

  /** The store after `get(key)` at `now`: an expired entry is evicted, nothing else changes. */
  function AfterGet(memory: map<string, CacheData>, key: string, now: int): (m: map<string, CacheData>)
    ensures key in memory && Expired(memory[key], now) ==> m == memory - {key}
    ensures !(key in memory && Expired(memory[key], now)) ==> m == memory
  {
    if key in memory && Expired(memory[key], now) then memory - {key} else memory
  }

  /** After `set(key, value, ttl)` at time `t`, `get(key)` at `now` returns the value exactly while no more than `ttl` seconds have passed. */
  lemma SetThenGet(memory: map<string, CacheData>, key: string, value: string, ttl: int, t: int, now: int)
    ensures var m := memory[key := CacheData(value, ttl, t)];
      && (now - t <= ttl ==> Lookup(m, key, now) == Some(value) && AfterGet(m, key, now) == m)
      && (now - t > ttl ==> Lookup(m, key, now) == None && AfterGet(m, key, now) == memory - {key})
  {
    var m := memory[key := CacheData(value, ttl, t)];
    assert m - {key} == memory - {key};
  }

  /** `set`, `dump` and an evicting `get` of one key leave what every other key reads unchanged. */
  lemma OtherKeysUnaffected(memory: map<string, CacheData>, key: string, other: string, d: CacheData, now: int, later: int)
    requires other != key
    ensures Lookup(memory[key := d], other, later) == Lookup(memory, other, later)
    ensures Lookup(memory - {key}, other, later) == Lookup(memory, other, later)
    ensures Lookup(AfterGet(memory, key, now), other, later) == Lookup(memory, other, later)
  {
  }

  /** A second `get` returns what the first returned: eviction only removes what already read as `None`. */
  lemma GetTwice(memory: map<string, CacheData>, key: string, now: int)
    ensures Lookup(AfterGet(memory, key, now), key, now) == Lookup(memory, key, now)
    ensures AfterGet(AfterGet(memory, key, now), key, now) == AfterGet(memory, key, now)
  {
  }

  /** The store: the class attribute `_memory`. */
  class CacheMemory {
    var entries: map<string, CacheData>

    constructor ()
      ensures entries == map[]
    {
      entries := map[];
    }
  }

  /** A driver instance; every instance works on the one shared store. */
  class InMemoryCacheDriver {
    const memory: CacheMemory

    constructor (memory: CacheMemory)
      ensures this.memory == memory
    {
      this.memory := memory;
    }

    /** `get`: the stored text while it is fresh; an expired entry is deleted and reads as `None`. */
    method Get(key: string, now: int) returns (r: Option<string>)
      modifies memory
      ensures r == Lookup(old(memory.entries), key, now)
      ensures memory.entries == AfterGet(old(memory.entries), key, now)
    {
      if key !in memory.entries {
        return None;
      }
      var cacheData := memory.entries[key];
      if now - cacheData.storedAt > cacheData.secondsForExpire {
        memory.entries := memory.entries - {key};
        return None;
      }
      r := Some(cacheData.value);
    }

    /** `set`: store `str(value)` under `key` with its time to live and the current time, replacing any entry. */
    method Set(key: string, value: string, now: int, secondsForExpire: int := 600)
      modifies memory
      ensures memory.entries == old(memory.entries)[key := CacheData(value, secondsForExpire, now)]
    {
      memory.entries := memory.entries[key := CacheData(value, secondsForExpire, now)];
    }

    /** `dump`: delete `key` if present; a missing key is no error. */
    method Dump(key: string)
      modifies memory
      ensures memory.entries == old(memory.entries) - {key}
    {
      if key in memory.entries {
        memory.entries := memory.entries - {key};
      }
    }
  }

  /** What one driver stores, another driver reads, and a dump through either removes it for both. */
  method SharedAcrossInstances(value: string)
  {
    var memory := new CacheMemory();
    var first := new InMemoryCacheDriver(memory);
    var second := new InMemoryCacheDriver(memory);
    first.Set("user:1", value, 100);
    var seen := second.Get("user:1", 700);
    assert seen == Some(value);
    var gone := second.Get("user:1", 701);
    assert gone == None;
    first.Set("user:2", value, 0, 30);
    second.Dump("user:2");
    var dumped := first.Get("user:2", 0);
    assert dumped == None;
  }
}
