/** The Redis key-value store behind `RedisTemplate<String, Object>`: string
    keys, values serialised with their Java type, and per-key expiry. The
    current time is a parameter; a key is live while that time is before its
    expiry instant. */
module Redis {
  import opened Common

  /** A stored value: the JDK serialiser keeps `Long` and `Integer` apart, and
      reading one back as the other raises ClassCastException. */
  datatype Value = LongValue(n: int) | IntValue(n: int)

  datatype Entry = Entry(value: Value, expiresAt: int)

  /** The live value of `key` at time `now`. */
  function Lookup(entries: map<string, Entry>, key: string, now: int): (v: Option<Value>)
    ensures v.Some? <==> key in entries && now < entries[key].expiresAt
    ensures v.Some? ==> v.value == entries[key].value
  {
    if key in entries && now < entries[key].expiresAt then Some(entries[key].value) else None
  }

  /** The store after `SET key value EX ttlSeconds` at time `now`. */
  function Put(entries: map<string, Entry>, key: string, value: Value, ttlSeconds: int, now: int): map<string, Entry>
  {
    entries[key := Entry(value, now + ttlSeconds * 1000)]
  }

  /** A value written with a positive lifetime reads back unchanged until the
      lifetime runs out, and is gone from then on; other keys are untouched. */
  lemma PutThenLookup(entries: map<string, Entry>, key: string, value: Value, ttlSeconds: int, now: int, later: int, other: string)
    requires ttlSeconds > 0 && other != key
    ensures later < now + ttlSeconds * 1000 ==> Lookup(Put(entries, key, value, ttlSeconds, now), key, later) == Some(value)
    ensures later >= now + ttlSeconds * 1000 ==> Lookup(Put(entries, key, value, ttlSeconds, now), key, later) == None
    ensures Lookup(Put(entries, key, value, ttlSeconds, now), other, later) == Lookup(entries, other, later)
  {
  }

  class ValueStore {
    var entries: map<string, Entry>

    constructor ()
      ensures entries == map[]
    {
      entries := map[];
    }

    /** `opsForValue().set(key, value, Duration.ofSeconds(ttlSeconds))`. Redis
        refuses a lifetime that is not positive, and the client raises. */
    method Set(key: string, value: Value, ttlSeconds: int, now: int) returns (r: Outcome)
      modifies this
      ensures ttlSeconds > 0 ==> r == Done && entries == Put(old(entries), key, value, ttlSeconds, now)
      ensures ttlSeconds <= 0 ==> r == Thrown(StoreFailure) && entries == old(entries)
    {
      if ttlSeconds <= 0 {
        return Thrown(StoreFailure);
      }
      entries := Put(entries, key, value, ttlSeconds, now);
      r := Done;
    }

    /** `opsForValue().get(key)`: null for a missing or expired key. */
    method Get(key: string, now: int) returns (v: Option<Value>)
      ensures v == Lookup(entries, key, now)
    {
      v := Lookup(entries, key, now);
    }
  }
}
