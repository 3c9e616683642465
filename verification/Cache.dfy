/** The two-tier cache: a local store in front of an optional Redis, either of which may lose entries. */
module Cache {
  import opened Core

  /**
   * What the environment does around one call: the keys each tier loses before and after the call's own
   * work on it, and whether Redis carries out the command.
   */
  datatype Weather = Weather(localBefore: set<string>, localAfter: set<string>,
                             redisBefore: set<string>, redisAfter: set<string>, redisOk: bool)

  datatype Tiers<V> = Tiers(local: map<string, V>, redis: map<string, V>)
  {
    function Before(w: Weather): Tiers<V> {
      Tiers(local - w.localBefore, redis - w.redisBefore)
    }

    function After(w: Weather): Tiers<V> {
      Tiers(local - w.localAfter, redis - w.redisAfter)
    }
  }

  /** Get answers from the local tier, else from Redis with a local backfill, else misses. */
  function Fetch<V>(hasRedis: bool, t: Tiers<V>, key: string, w: Weather): (Option<V>, Tiers<V>) {
    var b := t.Before(w);
    if key in b.local then (Some(b.local[key]), b.After(w))
    else if hasRedis && w.redisOk && key in b.redis then
      (Some(b.redis[key]), Tiers(b.local[key := b.redis[key]], b.redis).After(w))
    else (None, b.After(w))
  }

  /** Set writes both tiers, Redis only if it answers. */
  function Store<V>(hasRedis: bool, t: Tiers<V>, key: string, val: V, w: Weather): Tiers<V> {
    var b := t.Before(w);
    Tiers(b.local[key := val], if hasRedis && w.redisOk then b.redis[key := val] else b.redis).After(w)
  }

  /** Delete clears both tiers, Redis only if it answers. */
  function Drop<V>(hasRedis: bool, t: Tiers<V>, key: string, w: Weather): Tiers<V> {
    var b := t.Before(w);
    Tiers(b.local - {key}, if hasRedis && w.redisOk then b.redis - {key} else b.redis).After(w)
  }

  /** What was set is found: locally while it is kept there, else in Redis, which puts it back locally. */
  lemma SetThenGet<V>(hasRedis: bool, t: Tiers<V>, key: string, val: V, w: Weather, w': Weather)
    ensures var (r, t') := Fetch(hasRedis, Store(hasRedis, t, key, val, w), key, w');
            && (key !in w.localAfter + w'.localBefore ==> r == Some(val))
            && (key in w.localAfter + w'.localBefore && hasRedis && w.redisOk && w'.redisOk
                && key !in w.redisAfter + w'.redisBefore ==>
                  r == Some(val) && (key !in w'.localAfter ==> key in t'.local && t'.local[key] == val))
  {
  }

  /** What was deleted is gone, unless Redis refused and still has it. */
  lemma DeleteThenGet<V>(hasRedis: bool, t: Tiers<V>, key: string, w: Weather, w': Weather)
    ensures var r := Fetch(hasRedis, Drop(hasRedis, t, key, w), key, w').0;
            && (!hasRedis || w.redisOk ==> r == None)
            && (r.Some? ==> key in t.redis && r.value == t.redis[key])
  {
  }

  /** An operation leaves every other key alone, but for what the environment loses. */
  lemma OtherKeysStay<V>(hasRedis: bool, t: Tiers<V>, key: string, val: V, w: Weather, k: string)
    requires k != key
    ensures var b := t.Before(w).After(w);
            forall t' ::
              t' in {Fetch(hasRedis, t, key, w).1, Store(hasRedis, t, key, val, w), Drop(hasRedis, t, key, w)} ==>
              (k in t'.local <==> k in b.local) && (k in b.local ==> t'.local[k] == b.local[k])
              && (k in t'.redis <==> k in b.redis) && (k in b.redis ==> t'.redis[k] == b.redis[k])
  {
  }

  class Layered<V(==)> {
    var local: map<string, V>
    var redis: map<string, V>
    const hasRedis: bool

    /** Every (key, value) pair ever passed to Set. */
    ghost var everSet: set<(string, V)>
    /** The lossless map this cache approximates: the last Set since the last Delete of each key. */
    ghost var last: map<string, V>
    /** Whether some Redis SET or DEL has failed; the code ignores the error. */
    ghost var redisFailed: bool

    ghost predicate Holds(m: map<string, V>)
      reads this`everSet, this`last, this`redisFailed
    {
      forall k :: k in m ==>
        && (k, m[k]) in everSet
        && (!redisFailed ==> k in last && m[k] == last[k])
    }

    ghost predicate Valid()
      reads this
    {
      Holds(local) && Holds(redis) && (!hasRedis ==> redis == map[])
    }

    constructor (hasRedis: bool)
      ensures Valid() && this.hasRedis == hasRedis
      ensures everSet == {} && last == map[] && !redisFailed
    {
      this.hasRedis := hasRedis;
      local, redis := map[], map[];
      everSet, last, redisFailed := {}, map[], false;
    }

    ghost function Now(): Tiers<V>
      reads this`local, this`redis
    {
      Tiers(local, redis)
    }

    /** The environment: expiry, cost eviction and dropped local writes remove any keys at any moment. */
    method Lose(fromLocal: set<string>, fromRedis: set<string>)
      requires Valid()
      modifies this`local, this`redis
      ensures Valid()
      ensures local == old(local) - fromLocal && redis == old(redis) - fromRedis
    {
      local := local - fromLocal;
      redis := redis - fromRedis;
    }

    method Get(key: string, w: Weather) returns (r: Option<V>)
      requires Valid()
      modifies this`local, this`redis
      ensures Valid()
      ensures (r, Now()) == Fetch(hasRedis, old(Now()), key, w)
      ensures r.Some? ==> (key, r.value) in everSet
      ensures r.Some? && !redisFailed ==> key in last && r.value == last[key]
    {
      Lose(w.localBefore, w.redisBefore);
      r := None;
      if key in local {
        r := Some(local[key]);
      } else if hasRedis {
        if w.redisOk && key in redis {
          r := Some(redis[key]);
          local := local[key := redis[key]];
        }
      }
      Lose(w.localAfter, w.redisAfter);
    }

    method Set(key: string, val: V, w: Weather)
      requires Valid()
      modifies this
      ensures Valid()
      ensures Now() == Store(hasRedis, old(Now()), key, val, w)
      ensures everSet == old(everSet) + {(key, val)}
      ensures last == old(last)[key := val]
      ensures redisFailed == (old(redisFailed) || (hasRedis && !w.redisOk))
    {
      Lose(w.localBefore, w.redisBefore);
      everSet := everSet + {(key, val)};
      last := last[key := val];
      local := local[key := val];
      if hasRedis {
        if w.redisOk {
          redis := redis[key := val];
        } else {
          redisFailed := true;
        }
      }
      Lose(w.localAfter, w.redisAfter);
    }

    method Delete(key: string, w: Weather)
      requires Valid()
      modifies this
      ensures Valid()
      ensures Now() == Drop(hasRedis, old(Now()), key, w)
      ensures everSet == old(everSet)
      ensures last == old(last) - {key}
      ensures redisFailed == (old(redisFailed) || (hasRedis && !w.redisOk))
    {
      Lose(w.localBefore, w.redisBefore);
      last := last - {key};
      local := local - {key};
      if hasRedis {
        if w.redisOk {
          redis := redis - {key};
        } else {
          redisFailed := true;
        }
      }
      Lose(w.localAfter, w.redisAfter);
    }
  }
}
