/** `SimpleCache`, the in-memory TTL cache: a map from keys to entries stamped with the time
    they were set. The clock (`Date.now()`, in milliseconds) is passed in as `now`. */
module Cache {
  import opened Values

  datatype Entry = Entry(data: Json, timestamp: int, ttl: int)

  const DefaultTtlSeconds := 300

  /** An entry is live while `now - timestamp <= ttl`; at exactly `ttl` it still is. */
  predicate Live(e: Entry, now: int) {
    now - e.timestamp <= e.ttl
  }

  /** The map after `set(key, data, ttlSeconds)` at time `now`. */
  function Put(entries: map<string, Entry>, key: string, data: Json, now: int, ttlSeconds: int): map<string, Entry> {
    entries[key := Entry(data, now, ttlSeconds * 1000)]
  }

  /** What `get(key)` answers at time `now`: `null` for a missing or expired key. */
  function Answer(entries: map<string, Entry>, key: string, now: int): (r: Json)
    ensures key !in entries ==> r == JNull
    ensures key in entries ==> r == (if Live(entries[key], now) then entries[key].data else JNull)
  {
    if key in entries && Live(entries[key], now) then entries[key].data else JNull
  }

  /** The map after `get(key)` at time `now`: an expired entry for `key` is deleted. */
  function Evict(entries: map<string, Entry>, key: string, now: int): map<string, Entry> {
    if key in entries && !Live(entries[key], now) then entries - {key} else entries
  }

  /** The map after `cleanup()` at time `now`: exactly the live entries. */
  function Pruned(entries: map<string, Entry>, now: int): (r: map<string, Entry>)
    ensures forall k :: k in r <==> k in entries && Live(entries[k], now)
    ensures forall k :: k in r ==> r[k] == entries[k]
  {
    map k | k in entries && Live(entries[k], now) :: entries[k]
  }

  class SimpleCache {
    var entries: map<string, Entry>

    constructor()
      ensures entries == map[]
    {
      entries := map[];
    }

    /** `set`: replaces any entry for `key`; the ttl is kept in milliseconds. */
    method Set(key: string, data: Json, now: int, ttlSeconds: int := DefaultTtlSeconds)
      modifies this
      ensures entries == Put(old(entries), key, data, now, ttlSeconds)
    {
      entries := entries[key := Entry(data, now, ttlSeconds * 1000)];
    }

    /** `get`: the data of a live entry, otherwise `null`; an expired entry is deleted. */
    method Get(key: string, now: int) returns (r: Json)
      modifies this
      ensures r == Answer(old(entries), key, now)
      ensures entries == Evict(old(entries), key, now)
    {
      if key !in entries {
        return JNull;
      }
      var entry := entries[key];
      if now - entry.timestamp > entry.ttl {
        entries := entries - {key};
        return JNull;
      }
      r := entry.data;
    }

    /** `has`: `get(key) !== null`, so it evicts like `get` and is false for a stored `null`. */
    method Has(key: string, now: int) returns (b: bool)
      modifies this
      ensures b <==> Answer(old(entries), key, now) != JNull
      ensures entries == Evict(old(entries), key, now)
    {
      var r := Get(key, now);
      b := r != JNull;
    }

    method Clear()
      modifies this
      ensures entries == map[]
    {
      entries := map[];
    }

    /** `cleanup`: walks every entry and deletes the expired ones. */
    method Cleanup(now: int)
      modifies this
      ensures entries == Pruned(old(entries), now)
    {
      var pending := entries.Keys;
      while pending != {}
        invariant pending <= entries.Keys <= old(entries).Keys
        invariant forall k :: k in entries ==> entries[k] == old(entries)[k]
        invariant forall k :: k in old(entries) && k !in pending ==> (k in entries <==> Live(old(entries)[k], now))
        decreases |pending|
      {
        var k :| k in pending;
        if now - entries[k].timestamp > entries[k].ttl {
          entries := entries - {k};
        }
        pending := pending - {k};
      }
      assert entries.Keys == Pruned(old(entries), now).Keys;
    }
  }

  // ---------------------------------------------------------------------------------------
  // Properties

  /** A value set at `now` is answered back until `ttlSeconds * 1000` milliseconds have passed
      and `null` afterwards; no other key's answer changes. */
  lemma {:induction false} PutAnswer(entries: map<string, Entry>, key: string, data: Json, now: int, ttlSeconds: int, later: int)
    ensures Answer(Put(entries, key, data, now, ttlSeconds), key, later) ==
      (if later - now <= ttlSeconds * 1000 then data else JNull)
    ensures forall k :: k != key ==> Answer(Put(entries, key, data, now, ttlSeconds), k, later) == Answer(entries, k, later)
  {
    var e := Put(entries, key, data, now, ttlSeconds);
    assert e[key] == Entry(data, now, ttlSeconds * 1000);
  }

  /** With the default ttl a value lives for exactly five minutes. */
  lemma DefaultTtl(entries: map<string, Entry>, key: string, data: Json, now: int)
    ensures Answer(Put(entries, key, data, now, DefaultTtlSeconds), key, now + 300000) == data
    ensures Answer(Put(entries, key, data, now, DefaultTtlSeconds), key, now + 300001) == JNull
  {
    PutAnswer(entries, key, data, now, DefaultTtlSeconds, now + 300000);
    PutAnswer(entries, key, data, now, DefaultTtlSeconds, now + 300001);
  }

  /** Eviction never changes an answer at the same moment: `get` is repeatable, and it
      removes at most the one key it was asked about. */
  lemma EvictAnswers(entries: map<string, Entry>, key: string, now: int)
    ensures forall k :: Answer(Evict(entries, key, now), k, now) == Answer(entries, k, now)
    ensures Evict(entries, key, now).Keys == entries.Keys
      || Evict(entries, key, now).Keys == entries.Keys - {key}
  {
  }

  /** An expired entry stays expired: answers only disappear as time goes on. */
  lemma AnswerExpires(entries: map<string, Entry>, key: string, now: int, later: int)
    requires now <= later && Answer(entries, key, later) != JNull
    ensures Answer(entries, key, now) == Answer(entries, key, later)
  {
  }

  /** Cleanup keeps every answer at its own moment and leaves only live entries, so a later
      cleanup at the same moment changes nothing. */
  lemma {:induction false} PrunedAnswers(entries: map<string, Entry>, now: int)
    ensures forall k :: Answer(Pruned(entries, now), k, now) == Answer(entries, k, now)
    ensures Pruned(Pruned(entries, now), now) == Pruned(entries, now)
  {
    var p := Pruned(entries, now);
    assert Pruned(p, now).Keys == p.Keys;
  }
}
