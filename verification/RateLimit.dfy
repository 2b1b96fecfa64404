/**
 `MemoryRateLimitBackend` of `rate_limit.py`, loop by loop, proved to do to its table what
 `RateLimitSpec` says. The clock is a parameter, and the lock is the atomicity of `Hit`.
 */
module RateLimit {
  import opened Options
  import opened RateLimitSpec
  import opened RateLimitRuns

  function Capacity(maxBuckets: Option<int>, configured: int): nat {
    var chosen := if maxBuckets.Some? && maxBuckets.value != 0 then maxBuckets.value else configured;
    if chosen < 1 then 1 else chosen
  }

  function ExpireOne(lim: Limiter, b: Bucket, now: real): Bucket {
    Bucket(b.key, DropExpired(b.hits, Cutoff(lim, b.key, now)))
  }

  /** Each bucket without its expired hits, before the empty ones are dropped. */
  function Expire(lim: Limiter, t: Table, now: real): Table {
    if t == [] then [] else [ExpireOne(lim, t[0], now)] + Expire(lim, t[1..], now)
  }

  function DropKeys(t: Table, keys: set<string>): Table {
    if t == [] then []
    else if t[0].key in keys then DropKeys(t[1..], keys)
    else [t[0]] + DropKeys(t[1..], keys)
  }

  lemma {:induction false} ExpireAt(lim: Limiter, t: Table, now: real)
    ensures |Expire(lim, t, now)| == |t|
    ensures forall i :: 0 <= i < |t| ==> Expire(lim, t, now)[i] == ExpireOne(lim, t[i], now)
  {
    if t != [] {
      ExpireAt(lim, t[1..], now);
    }
  }

  lemma {:induction false} DropEmptyIsPrune(lim: Limiter, t: Table, now: real, empty: set<string>)
    requires Unique(t)
    requires forall i :: 0 <= i < |t| ==> (t[i].key in empty <==> DropExpired(t[i].hits, Cutoff(lim, t[i].key, now)) == [])
    ensures DropKeys(Expire(lim, t, now), empty) == Prune(lim, t, now)
  {
    if t != [] {
      DropEmptyIsPrune(lim, t[1..], now, empty);
      assert Expire(lim, t, now)[1..] == Expire(lim, t[1..], now);
    }
  }

  lemma {:induction false} DropNone(t: Table)
    ensures DropKeys(t, {}) == t
  {
    if t != [] {
      DropNone(t[1..]);
    }
  }

  /** Dropping one more key from the dictionary. */
  lemma {:induction false} DropOneMore(t: Table, keys: set<string>, key: string)
    requires Unique(t)
    ensures Without(DropKeys(t, keys), key) == DropKeys(t, keys + {key})
  {
    if t != [] {
      var b, rest := t[0], DropKeys(t[1..], keys);
      DropOneMore(t[1..], keys, key);
      if b.key !in keys {
        ConsWithout(b, rest, key);
        assert DropKeys(t, keys) == [b] + rest;
        if b.key == key {
          DropAbsent(t[1..], keys, key);
        }
      }
    }
  }

  lemma ConsWithout(b: Bucket, t: Table, key: string)
    ensures Without([b] + t, key) == if b.key == key then t else [b] + Without(t, key)
  {
    var bt := [b] + t;
    assert bt[1..] == t;
    if b.key != key {
      var n := IndexOf(t, key);
      assert IndexOf(bt, key) == n + 1;
      if n < |t| {
        assert bt[..n+1] == [b] + t[..n];
        assert bt[n+2..] == t[n+1..];
      }
    } else {
      assert IndexOf(bt, key) == 0;
    }
  }

  lemma {:induction false} DropAbsent(t: Table, keys: set<string>, key: string)
    requires forall i :: 0 <= i < |t| ==> t[i].key != key
    ensures DropKeys(t, keys) == DropKeys(t, keys + {key})
  {
    if t != [] {
      DropAbsent(t[1..], keys, key);
    }
  }

  /** The keys that pruning finds empty, in table order. */
  function EmptyKeys(lim: Limiter, t: Table, now: real): seq<string> {
    if t == [] then []
    else
      var last := t[|t|-1];
      EmptyKeys(lim, t[..|t|-1], now) + if DropExpired(last.hits, Cutoff(lim, last.key, now)) == [] then [last.key] else []
  }

  lemma {:induction false} EmptyKeysAre(lim: Limiter, t: Table, now: real)
    requires Unique(t)
    ensures forall key :: key in EmptyKeys(lim, t, now) ==> exists i :: 0 <= i < |t| && t[i].key == key
    ensures forall i :: 0 <= i < |t| ==> (t[i].key in EmptyKeys(lim, t, now) <==> DropExpired(t[i].hits, Cutoff(lim, t[i].key, now)) == [])
  {
    if t != [] {
      var front := t[..|t|-1];
      EmptyKeysAre(lim, front, now);
      forall i | 0 <= i < |t| ensures t[i].key in EmptyKeys(lim, t, now) <==> DropExpired(t[i].hits, Cutoff(lim, t[i].key, now)) == [] {
        if i < |front| {
          assert front[i] == t[i] && t[i].key != t[|t|-1].key;
        } else {
          assert forall k :: 0 <= k < |front| ==> front[k] == t[k] && t[k].key != t[i].key;
        }
      }
    }
  }

  ghost function SetOf(keys: seq<string>): set<string> {
    set key | key in keys
  }

  lemma AfterIsBounded(lim: Limiter, t: Table, e: Event)
    requires lim.maxBuckets > 0 && Unique(t) && |t| <= lim.maxBuckets
    ensures Unique(After(lim, t, e)) && |After(lim, t, e)| <= lim.maxBuckets
  {
    AfterHits(lim, t, e, e.key);
  }

  class MemoryRateLimitBackend {
    const lim: Limiter
    var buckets: Table

    /** `max(1, max_buckets or settings.rate_limit_memory_max_buckets)` */
    constructor (maxBuckets: Option<int>, configured: int)
      ensures lim == MemoryLimiter(lim.maxBuckets) && Valid() && buckets == []
      ensures lim.maxBuckets >= 1
      ensures maxBuckets.Some? && maxBuckets.value >= 1 ==> lim.maxBuckets == maxBuckets.value
      ensures maxBuckets.Some? && maxBuckets.value < 0 ==> lim.maxBuckets == 1
      ensures (maxBuckets.None? || maxBuckets.value == 0) && configured >= 1 ==> lim.maxBuckets == configured
      ensures (maxBuckets.None? || maxBuckets.value == 0) && configured < 1 ==> lim.maxBuckets == 1
    {
      lim := MemoryLimiter(Capacity(maxBuckets, configured));
      buckets := [];
    }

    ghost predicate Valid()
      reads this
    {
      lim.maxBuckets > 0 && Unique(buckets) && |buckets| <= lim.maxBuckets
    }

    method PopExpired(hits: seq<real>, cutoff: real) returns (kept: seq<real>)
      ensures kept == DropExpired(hits, cutoff)
    {
      kept := hits;
      while kept != [] && kept[0] <= cutoff
        invariant DropExpired(kept, cutoff) == DropExpired(hits, cutoff)
        decreases |kept|
      {
        kept := kept[1..];
      }
    }

    /** The first loop of `_prune_expired_locked`. */
    method ExpireEach(now: real) returns (emptyKeys: seq<string>)
      modifies this
      ensures |buckets| == |old(buckets)| && forall i :: 0 <= i < |buckets| ==> buckets[i] == ExpireOne(lim, old(buckets)[i], now)
      ensures emptyKeys == EmptyKeys(lim, old(buckets), now)
    {
      ghost var before := buckets;
      emptyKeys := [];
      for i := 0 to |buckets|
        invariant |buckets| == |before|
        invariant forall k :: 0 <= k < |before| ==> buckets[k] == if k < i then ExpireOne(lim, before[k], now) else before[k]
        invariant emptyKeys == EmptyKeys(lim, before[..i], now)
      {
        assert before[..i+1][..i] == before[..i] && before[..i+1][i] == before[i];
        var windowSeconds := lim.windowOf(buckets[i].key);
        var kept := PopExpired(buckets[i].hits, now - windowSeconds as real);
        buckets := buckets[i := Bucket(buckets[i].key, kept)];
        if kept == [] {
          emptyKeys := emptyKeys + [buckets[i].key];
        }
      }
      assert before[..|before|] == before;
    }

    /** Its second loop. */
    method PopKeys(keys: seq<string>)
      requires Unique(buckets)
      modifies this
      ensures buckets == DropKeys(old(buckets), SetOf(keys))
    {
      ghost var before := buckets;
      DropNone(before);
      assert SetOf(keys[..0]) == {};
      for i := 0 to |keys|
        invariant buckets == DropKeys(before, SetOf(keys[..i]))
      {
        assert keys[..i+1] == keys[..i] + [keys[i]];
        assert SetOf(keys[..i+1]) == SetOf(keys[..i]) + {keys[i]};
        DropOneMore(before, SetOf(keys[..i]), keys[i]);
        buckets := Without(buckets, keys[i]);
      }
      assert keys[..|keys|] == keys;
    }

    method PruneExpired(now: real)
      requires Valid()
      modifies this
      ensures Valid() && buckets == Prune(lim, old(buckets), now)
    {
      ghost var before := buckets;
      ExpireAt(lim, before, now);
      EmptyKeysAre(lim, before, now);
      PruneKeys(lim, before, now);
      DropEmptyIsPrune(lim, before, now, SetOf(EmptyKeys(lim, before, now)));
      var emptyKeys := ExpireEach(now);
      assert buckets == Expire(lim, before, now);
      PopKeys(emptyKeys);
    }

    /** Find the bucket, or make room for a new one; the table keeps the other buckets. */
    method TakeEntries(bucketKey: string) returns (entries: seq<real>)
      requires lim.maxBuckets > 0
      modifies this
      ensures entries == Hits(old(buckets), bucketKey)
      ensures buckets == if Has(old(buckets), bucketKey) then Without(old(buckets), bucketKey) else MakeRoom(old(buckets), lim.maxBuckets)
    {
      entries := Hits(buckets, bucketKey);
      if Has(buckets, bucketKey) {
        buckets := Without(buckets, bucketKey);
        return;
      }
      ghost var before := buckets;
      while |buckets| >= lim.maxBuckets
        invariant MakeRoom(buckets, lim.maxBuckets) == MakeRoom(before, lim.maxBuckets)
        decreases |buckets|
      {
        buckets := buckets[1..];
      }
    }

    /** The part of `hit` under the lock. */
    method HitBucket(bucketKey: string, limit: int, cutoff: real, now: real) returns (admitted: bool)
      requires Valid() && cutoff == Cutoff(lim, bucketKey, now)
      modifies this
      ensures Valid()
      ensures var e := Event(bucketKey, limit, now);
        admitted == Admits(lim, old(buckets), e) && buckets == After(lim, old(buckets), e)
    {
      ghost var e := Event(bucketKey, limit, now);
      AfterIsBounded(lim, buckets, e);
      PruneExpired(now);
      var entries := TakeEntries(bucketKey);
      entries := PopExpired(entries, cutoff);
      admitted := |entries| < limit;
      if admitted {
        entries := entries + [now];
      }
      buckets := buckets + [Bucket(bucketKey, entries)];
    }

    /** Returns whether the hit is admitted; the original raises HTTP 429 when it is not. */
    method Hit(bucket: string, key: string, limit: int, window: int, now: real) returns (admitted: bool)
      requires Valid() && lim == MemoryLimiter(lim.maxBuckets)
      modifies this
      ensures Valid()
      ensures var e := Event(BucketKey(bucket, key, window), limit, now);
        admitted == Admits(lim, old(buckets), e) && buckets == After(lim, old(buckets), e)
    {
      var bucketKey := BucketKey(bucket, key, window);
      KeyCutoff(lim.maxBuckets, bucket, key, window, now);
      admitted := HitBucket(bucketKey, limit, now - window as real, now);
    }

    method Clear()
      requires Valid()
      modifies this
      ensures Valid() && buckets == []
    {
      buckets := [];
    }
  }
}
