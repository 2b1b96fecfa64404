/**
 What the limiter guarantees over every run of hits: against a log that never forgets, when hits
 come in the order of their times, and by itself, with whatever skew between the two.
 */
module RateLimitRuns {
  import opened RateLimitSpec

  // ---------- Dropping and counting ----------

  lemma {:induction false} DropTwice(hits: seq<real>, c1: real, c2: real)
    requires c1 <= c2
    ensures DropExpired(DropExpired(hits, c1), c2) == DropExpired(hits, c2)
  {
    if hits != [] && hits[0] <= c1 {
      DropTwice(hits[1..], c1, c2);
    }
  }

  lemma {:induction false} DropAppend(hits: seq<real>, now: real, c: real)
    ensures DropExpired(hits + [now], c) ==
      if DropExpired(hits, c) == [] then (if now <= c then [] else [now]) else DropExpired(hits, c) + [now]
  {
    if hits == [] {
      assert hits + [now] == [now];
    } else if hits[0] <= c {
      DropAppend(hits[1..], now, c);
      assert (hits + [now])[1..] == hits[1..] + [now];
    }
  }

  predicate Sorted(log: seq<real>) {
    forall i, j :: 0 <= i < j < |log| ==> log[i] <= log[j]
  }

  lemma {:induction false} CountIsLength(log: seq<real>, c: real)
    requires Sorted(log)
    ensures CountAfter(log, c) == |DropExpired(log, c)|
  {
    if log != [] {
      var front, last := log[..|log|-1], log[|log|-1];
      CountIsLength(front, c);
      DropAppend(front, last, c);
      assert log == front + [last];
      if last <= c {
        NoneAfter(front, c);
      }
    }
  }

  lemma {:induction false} NoneAfter(log: seq<real>, c: real)
    requires forall i :: 0 <= i < |log| ==> log[i] <= c
    ensures CountAfter(log, c) == 0 && DropExpired(log, c) == []
  {
    if log != [] {
      NoneAfter(log[..|log|-1], c);
      DropAppend(log[..|log|-1], log[|log|-1], c);
      assert log == log[..|log|-1] + [log[|log|-1]];
    }
  }

  lemma {:induction false} CountSuffix(log: seq<real>, k: nat, c: real)
    requires k <= |log| && forall j :: k <= j < |log| ==> log[j] > c
    ensures CountAfter(log, c) >= |log| - k
  {
    if k < |log| {
      CountSuffix(log[..|log|-1], k, c);
    }
  }

  // ---------- The table, key by key ----------

  predicate Unique(t: Table) {
    forall i, j :: 0 <= i < j < |t| ==> t[i].key != t[j].key
  }

  lemma HitsAt(t: Table, i: nat)
    requires Unique(t) && i < |t|
    ensures Has(t, t[i].key) && Hits(t, t[i].key) == t[i].hits
  {
    assert IndexOf(t, t[i].key) == i;
  }

  lemma HasIsIn(t: Table, key: string)
    ensures Has(t, key) <==> exists i :: 0 <= i < |t| && t[i].key == key
  {
  }

  lemma {:induction false} PruneKeys(lim: Limiter, t: Table, now: real)
    requires Unique(t)
    ensures Unique(Prune(lim, t, now)) && |Prune(lim, t, now)| <= |t|
    ensures forall b :: b in Prune(lim, t, now) ==> exists i :: 0 <= i < |t| && t[i].key == b.key
  {
    if t != [] {
      PruneKeys(lim, t[1..], now);
      forall b | b in Prune(lim, t[1..], now) ensures (exists i :: 0 <= i < |t| && t[i].key == b.key) && b.key != t[0].key {
        var i :| 0 <= i < |t[1..]| && t[1..][i].key == b.key;
        assert t[i+1].key == b.key;
      }
    }
  }

  lemma ConsHits(b: Bucket, t: Table, key: string)
    ensures Hits([b] + t, key) == if b.key == key then b.hits else Hits(t, key)
    ensures Has([b] + t, key) <==> b.key == key || Has(t, key)
  {
    assert ([b] + t)[1..] == t;
  }

  lemma AbsentHits(t: Table, key: string)
    requires !Has(t, key)
    ensures Hits(t, key) == []
  {
  }

  /** Pruning a table prunes each of its keys on its own. */
  lemma {:induction false} PruneHits(lim: Limiter, t: Table, now: real, key: string)
    requires Unique(t)
    ensures Hits(Prune(lim, t, now), key) == DropExpired(Hits(t, key), Cutoff(lim, key, now))
    ensures Has(Prune(lim, t, now), key) <==> DropExpired(Hits(t, key), Cutoff(lim, key, now)) != []
  {
    if t != [] {
      PruneHits(lim, t[1..], now, key);
      var kept := DropExpired(t[0].hits, Cutoff(lim, t[0].key, now));
      assert t == [t[0]] + t[1..];
      ConsHits(t[0], t[1..], key);
      ConsHits(Bucket(t[0].key, kept), Prune(lim, t[1..], now), key);
      if t[0].key == key {
        HasIsIn(t[1..], key);
        assert !Has(t[1..], key);
        AbsentHits(t[1..], key);
      }
      assert Prune(lim, t, now) == if kept == [] then Prune(lim, t[1..], now) else [Bucket(t[0].key, kept)] + Prune(lim, t[1..], now);
    }
  }

  lemma RoomForOne(t: Table, maxBuckets: nat)
    requires maxBuckets > 0 && |t| <= maxBuckets
    ensures MakeRoom(t, maxBuckets) == if |t| == maxBuckets then t[1..] else t
  {
  }

  lemma WithoutKeys(t: Table, key: string)
    requires Unique(t)
    ensures Unique(Without(t, key)) && !Has(Without(t, key), key)
    ensures forall k :: k != key ==> Has(Without(t, key), k) == Has(t, k) && Hits(Without(t, key), k) == Hits(t, k)
    ensures forall b :: b in Without(t, key) ==> b in t
  {
    var w := Without(t, key);
    forall k | k != key ensures Has(w, k) == Has(t, k) && Hits(w, k) == Hits(t, k) {
      var n := IndexOf(t, key);
      if Has(t, key) {
        if Has(t, k) {
          var i := IndexOf(t, k);
          assert w[if i < n then i else i - 1] == t[i];
          HitsAt(w, if i < n then i else i - 1);
        }
        if Has(w, k) {
          var i := IndexOf(w, k);
          assert t[if i < n then i else i + 1].key == k;
        }
      }
    }
  }

  lemma TailHits(t: Table, key: string)
    requires t != [] && Unique(t) && key != t[0].key
    ensures Has(t[1..], key) == Has(t, key) && Hits(t[1..], key) == Hits(t, key)
  {
  }

  lemma AppendHits(t: Table, b: Bucket, key: string)
    requires Unique(t) && !Has(t, b.key)
    ensures Unique(t + [b])
    ensures Hits(t + [b], key) == if key == b.key then b.hits else Hits(t, key)
    ensures Has(t + [b], key) <==> key == b.key || Has(t, key)
  {
    HasIsIn(t, b.key);
    if key == b.key {
      HitsAt(t + [b], |t|);
    } else if Has(t, key) {
      assert (t + [b])[IndexOf(t, key)].key == key;
      HitsAt(t + [b], IndexOf(t, key));
    }
  }

  /** Making room for `key`, or taking it out to put it back at the end, as seen from `other`. */
  lemma OthersHits(pruned: Table, key: string, maxBuckets: nat, other: string)
    requires maxBuckets > 0 && Unique(pruned) && |pruned| <= maxBuckets
    ensures var others := if Has(pruned, key) then Without(pruned, key) else MakeRoom(pruned, maxBuckets);
      && Unique(others) && |others| < maxBuckets && !Has(others, key)
      && (other != key && !(Has(pruned, other) && !Has(pruned, key) && !Has(MakeRoom(pruned, maxBuckets), other))
          ==> Hits(others, other) == Hits(pruned, other))
      && (other != key ==> Hits(others, other) in {[], Hits(pruned, other)})
  {
    if Has(pruned, key) {
      WithoutKeys(pruned, key);
    } else {
      RoomForOne(pruned, maxBuckets);
      HasIsIn(pruned, key);
      HasIsIn(MakeRoom(pruned, maxBuckets), key);
      if |pruned| == maxBuckets {
        if other == pruned[0].key {
          HasIsIn(pruned[1..], other);
        } else {
          TailHits(pruned, other);
        }
      }
    }
  }

  /** One hit, seen from one key. */
  lemma AfterHits(lim: Limiter, t: Table, e: Event, key: string)
    requires lim.maxBuckets > 0 && Unique(t) && |t| <= lim.maxBuckets
    ensures Unique(After(lim, t, e)) && |After(lim, t, e)| <= lim.maxBuckets
    ensures key == e.key ==> Hits(After(lim, t, e), key) == if Admits(lim, t, e) then Recent(lim, t, e) + [e.now] else Recent(lim, t, e)
    ensures var pruned := Prune(lim, t, e.now);
      key != e.key && !(Has(pruned, key) && !Has(pruned, e.key) && !Has(MakeRoom(pruned, lim.maxBuckets), key))
      ==> Hits(After(lim, t, e), key) == DropExpired(Hits(t, key), Cutoff(lim, key, e.now))
    ensures key != e.key ==> Hits(After(lim, t, e), key) in {[], DropExpired(Hits(t, key), Cutoff(lim, key, e.now))}
  {
    var pruned := Prune(lim, t, e.now);
    PruneKeys(lim, t, e.now);
    PruneHits(lim, t, e.now, key);
    OthersHits(pruned, e.key, lim.maxBuckets, key);
    AppendHits(Others(lim, t, e), Bucket(e.key, if Admits(lim, t, e) then Recent(lim, t, e) + [e.now] else Recent(lim, t, e)), key);
  }

  /** Pruning has already dropped what the touched bucket would drop again. */
  lemma RecentIs(lim: Limiter, t: Table, e: Event)
    requires Unique(t)
    ensures Recent(lim, t, e) == DropExpired(Hits(t, e.key), Cutoff(lim, e.key, e.now))
  {
    PruneHits(lim, t, e.now, e.key);
    DropTwice(Hits(t, e.key), Cutoff(lim, e.key, e.now), Cutoff(lim, e.key, e.now));
  }

  lemma {:induction false} RunIsBounded(lim: Limiter, events: seq<Event>)
    requires lim.maxBuckets > 0
    ensures Unique(Run(lim, events)) && |Run(lim, events)| <= lim.maxBuckets
  {
    if events != [] {
      RunIsBounded(lim, events[..|events|-1]);
      AfterHits(lim, Run(lim, events[..|events|-1]), events[|events|-1], "");
    }
  }

  // ---------- Against the log that never forgets ----------

  predicate UpTo(log: seq<real>, now: real) {
    forall i :: 0 <= i < |log| ==> log[i] <= now
  }

  lemma SortedAppend(log: seq<real>, before: real, now: real)
    requires Sorted(log) && UpTo(log, before) && before <= now
    ensures Sorted(log + [now]) && UpTo(log + [now], now) && UpTo(log, now)
  {
  }

  function LatestTime(events: seq<Event>): real {
    if events == [] then 0.0 else events[|events|-1].now
  }

  lemma {:induction false} LogIsSorted(lim: Limiter, events: seq<Event>, key: string)
    requires Nondecreasing(events)
    ensures Sorted(Log(lim, events, key)) && UpTo(Log(lim, events, key), LatestTime(events))
  {
    if events != [] {
      var before, e := events[..|events|-1], events[|events|-1];
      LogIsSorted(lim, before, key);
      if before != [] {
        SortedAppend(Log(lim, before, key), LatestTime(before), e.now);
      }
    }
  }

  /** As long as a key is not evicted, the limiter admits exactly what the unbounded log admits,
      and holds exactly the hits that any later window could still count. */
  lemma {:induction false} FollowsTheLog(lim: Limiter, events: seq<Event>, key: string, c: real)
    requires lim.maxBuckets > 0 && Nondecreasing(events) && !Evicted(lim, events, key)
    requires events == [] || c >= Cutoff(lim, key, events[|events|-1].now)
    ensures Admitted(lim, events, key) == Log(lim, events, key)
    ensures DropExpired(Hits(Run(lim, events), key), c) == DropExpired(Log(lim, events, key), c)
  {
    if events != [] {
      var before, e := events[..|events|-1], events[|events|-1];
      var t := Run(lim, before);
      RunIsBounded(lim, before);
      AfterHits(lim, t, e, key);
      RecentIs(lim, t, e);
      FollowsTheLog(lim, before, key, c);
      FollowsTheLog(lim, before, key, Cutoff(lim, key, e.now));
      DropTwice(Hits(t, key), Cutoff(lim, key, e.now), c);
      if key == e.key {
        LogIsSorted(lim, before, key);
        CountIsLength(Log(lim, before, key), Cutoff(lim, key, e.now));
        assert Admits(lim, t, e) <==> LogAdmits(lim, Log(lim, before, key), e);
        DropAppend(Recent(lim, t, e), e.now, c);
        DropAppend(Log(lim, before, key), e.now, c);
      }
    }
  }

  /** The decision on the next hit of a key that was never evicted is the log's decision. */
  lemma DecidesLikeTheLog(lim: Limiter, events: seq<Event>, e: Event)
    requires lim.maxBuckets > 0 && Nondecreasing(events + [e]) && !Evicted(lim, events, e.key)
    ensures Admits(lim, Run(lim, events), e) <==> LogAdmits(lim, Log(lim, events, e.key), e)
  {
    assert forall i :: 0 <= i < |events| ==> events[i] == (events + [e])[i];
    assert Nondecreasing(events);
    assert events != [] ==> (events + [e])[|events|-1].now <= (events + [e])[|events|].now;
    FollowsTheLog(lim, events, e.key, Cutoff(lim, e.key, e.now));
    RunIsBounded(lim, events);
    AfterHits(lim, Run(lim, events), e, e.key);
    RecentIs(lim, Run(lim, events), e);
    LogIsSorted(lim, events, e.key);
    CountIsLength(Log(lim, events, e.key), Cutoff(lim, e.key, e.now));
  }

  /** Every hit of the key comes with the same limit. */
  predicate FixedLimit(events: seq<Event>, key: string, limit: int) {
    forall k :: 0 <= k < |events| && events[k].key == key ==> events[k].limit == limit
  }

  /** `limit` admitted hits and the next one after them span at least the window. */
  lemma {:induction false} AdmittedHitsSpanTheWindow(lim: Limiter, events: seq<Event>, key: string, limit: nat, i: nat)
    requires Nondecreasing(events) && FixedLimit(events, key, limit)
    requires i + limit < |Log(lim, events, key)|
    ensures Log(lim, events, key)[i + limit] - Log(lim, events, key)[i] >= lim.windowOf(key) as real
  {
    var before, e := events[..|events|-1], events[|events|-1];
    var log := Log(lim, before, key);
    assert forall k :: 0 <= k < |before| ==> before[k] == events[k];
    if i + limit < |log| {
      AdmittedHitsSpanTheWindow(lim, before, key, limit, i);
    } else {
      LogIsSorted(lim, before, key);
      if log != [] && limit > 0 && log[i] > Cutoff(lim, key, e.now) {
        CountSuffix(log, i, Cutoff(lim, key, e.now));
      }
      assert events[|events|-1].limit == limit;
    }
  }

  predicate IsSuffix(a: seq<real>, b: seq<real>) {
    |a| <= |b| && a == b[|b| - |a|..]
  }

  lemma {:induction false} DropIsSuffix(hits: seq<real>, c: real)
    ensures IsSuffix(DropExpired(hits, c), hits)
    ensures DropExpired(hits, c) != [] ==> DropExpired(hits, c)[0] > c
  {
    if hits != [] && hits[0] <= c {
      DropIsSuffix(hits[1..], c);
    }
  }

  lemma SuffixOfSuffix(a: seq<real>, b: seq<real>, d: seq<real>)
    requires IsSuffix(a, b) && IsSuffix(b, d)
    ensures IsSuffix(a, d)
  {
    assert d[|d| - |b|..][|b| - |a|..] == d[|d| - |a|..];
  }

  predicate SkewedLog(log: seq<real>, skew: real) {
    forall i, j :: 0 <= i < j < |log| ==> log[i] <= log[j] + skew
  }

  lemma {:induction false} AdmittedIsSkewed(lim: Limiter, events: seq<Event>, key: string, skew: real)
    requires lim.maxBuckets > 0 && SkewedBy(events, skew)
    ensures SkewedLog(Admitted(lim, events, key), skew)
    ensures forall i :: 0 <= i < |Admitted(lim, events, key)| ==> exists k :: 0 <= k < |events| && events[k].now == Admitted(lim, events, key)[i]
  {
    if events != [] {
      var before, e := events[..|events|-1], events[|events|-1];
      var log := Admitted(lim, before, key);
      AdmittedIsSkewed(lim, before, key, skew);
      forall i | 0 <= i < |log| ensures log[i] <= e.now + skew && exists k :: 0 <= k < |events| && events[k].now == log[i] {
        var k :| 0 <= k < |before| && before[k].now == log[i];
        assert events[k] == before[k];
      }
      assert events[|events|-1].now == e.now;
    }
  }

  lemma LogIsSkewed(lim: Limiter, events: seq<Event>, key: string, skew: real)
    requires lim.maxBuckets > 0 && SkewedBy(events, skew)
    ensures SkewedLog(Admitted(lim, events, key), skew)
  {
    AdmittedIsSkewed(lim, events, key, skew);
  }

  /** A key's bucket holds the latest of its admitted hits. */
  lemma {:induction false} HoldsTheLatest(lim: Limiter, events: seq<Event>, key: string)
    requires lim.maxBuckets > 0
    ensures IsSuffix(Hits(Run(lim, events), key), Admitted(lim, events, key))
  {
    if events != [] {
      var before, e := events[..|events|-1], events[|events|-1];
      var t := Run(lim, before);
      RunIsBounded(lim, before);
      HoldsTheLatest(lim, before, key);
      AfterHits(lim, t, e, key);
      RecentIs(lim, t, e);
      KeptIsSuffix(Hits(t, key), Admitted(lim, before, key), Cutoff(lim, key, e.now), e.now);
    }
  }

  lemma KeptIsSuffix(hits: seq<real>, log: seq<real>, c: real, now: real)
    requires IsSuffix(hits, log)
    ensures IsSuffix(DropExpired(hits, c), log) && IsSuffix(DropExpired(hits, c) + [now], log + [now]) && IsSuffix([], log)
  {
    DropIsSuffix(hits, c);
    SuffixOfSuffix(DropExpired(hits, c), hits, log);
  }

  /** Evictions or not, and whatever the skew: a rejected hit had at least `limit` admitted hits in its
      window, if the window is taken longer by the skew. */
  lemma RejectionIsEarned(lim: Limiter, events: seq<Event>, e: Event, skew: real)
    requires lim.maxBuckets > 0 && SkewedBy(events, skew)
    ensures !Admits(lim, Run(lim, events), e) ==>
      CountAfter(Admitted(lim, events, e.key), Cutoff(lim, e.key, e.now) - skew) >= e.limit
  {
    if !Admits(lim, Run(lim, events), e) {
      RejectedIsFull(lim, events, e);
      FullIsEarned(lim, events, e, skew);
    }
  }

  lemma FullIsEarned(lim: Limiter, events: seq<Event>, e: Event, skew: real)
    requires lim.maxBuckets > 0 && SkewedBy(events, skew)
    requires |DropExpired(Hits(Run(lim, events), e.key), Cutoff(lim, e.key, e.now))| >= e.limit
    ensures CountAfter(Admitted(lim, events, e.key), Cutoff(lim, e.key, e.now) - skew) >= e.limit
  {
    BucketCounts(lim, events, e.key, Cutoff(lim, e.key, e.now), skew, e.limit);
  }

  lemma BucketCounts(lim: Limiter, events: seq<Event>, key: string, c: real, skew: real, n: int)
    requires lim.maxBuckets > 0 && SkewedBy(events, skew) && |DropExpired(Hits(Run(lim, events), key), c)| >= n
    ensures CountAfter(Admitted(lim, events, key), c - skew) >= n
  {
    HoldsTheLatest(lim, events, key);
    LogIsSkewed(lim, events, key, skew);
    RecentHitsCount(Admitted(lim, events, key), Hits(Run(lim, events), key), c, skew);
  }

  lemma RejectedIsFull(lim: Limiter, events: seq<Event>, e: Event)
    requires lim.maxBuckets > 0 && !Admits(lim, Run(lim, events), e)
    ensures |DropExpired(Hits(Run(lim, events), e.key), Cutoff(lim, e.key, e.now))| >= e.limit
  {
    RunIsBounded(lim, events);
    RecentIs(lim, Run(lim, events), e);
  }

  lemma RecentHitsCount(log: seq<real>, hits: seq<real>, c: real, skew: real)
    requires skew >= 0.0 && SkewedLog(log, skew) && IsSuffix(hits, log)
    ensures CountAfter(log, c - skew) >= |DropExpired(hits, c)|
  {
    DropIsSuffix(hits, c);
    SuffixOfSuffix(DropExpired(hits, c), hits, log);
    SuffixCounts(log, DropExpired(hits, c), c, c - skew);
  }

  lemma SuffixCounts(log: seq<real>, recent: seq<real>, c: real, low: real)
    requires low <= c && SkewedLog(log, c - low) && IsSuffix(recent, log) && (recent != [] ==> recent[0] > c)
    ensures CountAfter(log, low) >= |recent|
  {
    var k := |log| - |recent|;
    forall j | k <= j < |log| ensures log[j] > low {
      assert log[k] == recent[0];
    }
    CountSuffix(log, k, low);
  }

  // ---------- How soon the next hit is admitted ----------

  /** The latest time that any hit read. */
  function MaxTime(events: seq<Event>): (now: real)
    requires events != []
    ensures forall i :: 0 <= i < |events| ==> events[i].now <= now
    ensures exists i :: 0 <= i < |events| && events[i].now == now
  {
    var last := events[|events|-1].now;
    if |events| == 1 then last
    else
      var before := MaxTime(events[..|events|-1]);
      assert forall i :: 0 <= i < |events| - 1 ==> events[i] == events[..|events|-1][i];
      if last >= before then last else before
  }

  lemma {:induction false} DroppedPrefix(hits: seq<real>, c: real)
    ensures |DropExpired(hits, c)| <= |hits|
    ensures forall j :: 0 <= j < |hits| - |DropExpired(hits, c)| ==> hits[j] <= c
  {
    if hits != [] && hits[0] <= c {
      DroppedPrefix(hits[1..], c);
      assert forall j :: 1 <= j < |hits| ==> hits[j] == hits[1..][j-1];
    }
  }

  /** The admitted hits that a bucket no longer holds are older than `now`. */
  predicate GoneAreOld(log: seq<real>, held: nat, c: real) {
    forall j :: 0 <= j < |log| - held ==> log[j] <= c
  }

  lemma StillOld(log: seq<real>, hits: seq<real>, c0: real, c: real, c1: real)
    requires IsSuffix(hits, log) && GoneAreOld(log, |hits|, c0) && c0 <= c1 && c <= c1
    ensures GoneAreOld(log, |DropExpired(hits, c)|, c1)
  {
    DroppedPrefix(hits, c);
    forall j | 0 <= j < |log| - |DropExpired(hits, c)| ensures log[j] <= c1 {
      var k := |log| - |hits|;
      assert j >= k ==> log[j] == hits[j - k];
    }
  }

  lemma MaxTimeGrows(events: seq<Event>)
    requires |events| > 1
    ensures MaxTime(events[..|events|-1]) <= MaxTime(events)
  {
    var before := events[..|events|-1];
    var i :| 0 <= i < |before| && before[i].now == MaxTime(before);
    assert events[i] == before[i];
  }

  /** What the bucket of a key that was never evicted has lost is expired. */
  lemma {:induction false} LostAreExpired(lim: Limiter, events: seq<Event>, key: string)
    requires lim.maxBuckets > 0 && events != [] && !Evicted(lim, events, key)
    ensures GoneAreOld(Admitted(lim, events, key), |Hits(Run(lim, events), key)|, Cutoff(lim, key, MaxTime(events)))
  {
    var before, e := events[..|events|-1], events[|events|-1];
    var t, log, c := Run(lim, before), Admitted(lim, before, key), Cutoff(lim, key, e.now);
    var c1 := Cutoff(lim, key, MaxTime(events));
    RunIsBounded(lim, before);
    AfterHits(lim, t, e, key);
    RecentIs(lim, t, e);
    HoldsTheLatest(lim, before, key);
    if before != [] {
      LostAreExpired(lim, before, key);
      MaxTimeGrows(events);
      StillOld(log, Hits(t, key), Cutoff(lim, key, MaxTime(before)), c, c1);
    } else {
      StillOld(log, Hits(t, key), c1, c, c1);
    }
    assert Hits(Run(lim, events), key) == DropExpired(Hits(t, key), c)
      || (Admitted(lim, events, key) == log + [e.now] && Hits(Run(lim, events), key) == DropExpired(Hits(t, key), c) + [e.now]);
  }

  /** A key that was never evicted, and whose hits all come with the same limit: `limit` admitted hits and
      the next one after them span the window, but for the skew. */
  lemma {:induction false} AdmittedSpan(lim: Limiter, events: seq<Event>, key: string, limit: nat, i: nat, skew: real)
    requires lim.maxBuckets > 0 && SkewedBy(events, skew) && !Evicted(lim, events, key) && FixedLimit(events, key, limit)
    requires i + limit < |Admitted(lim, events, key)|
    ensures Admitted(lim, events, key)[i + limit] - Admitted(lim, events, key)[i] >= lim.windowOf(key) as real - skew
  {
    var before, e := events[..|events|-1], events[|events|-1];
    var log := Admitted(lim, before, key);
    assert forall k :: 0 <= k < |before| ==> before[k] == events[k];
    if i + limit < |log| {
      AdmittedSpan(lim, before, key, limit, i, skew);
    } else {
      LastSpan(lim, events, key, limit, i, skew);
    }
  }

  lemma LastSpan(lim: Limiter, events: seq<Event>, key: string, limit: nat, i: nat, skew: real)
    requires lim.maxBuckets > 0 && SkewedBy(events, skew) && events != [] && !Evicted(lim, events, key) && FixedLimit(events, key, limit)
    requires i + limit == |Admitted(lim, events[..|events|-1], key)| < |Admitted(lim, events, key)|
    ensures Admitted(lim, events, key)[i + limit] - Admitted(lim, events, key)[i] >= lim.windowOf(key) as real - skew
  {
    var before, e := events[..|events|-1], events[|events|-1];
    var t := Run(lim, before);
    RunIsBounded(lim, before);
    AfterHits(lim, t, e, key);
    LostAreExpired(lim, events, key);
    assert e.key == key && Admits(lim, t, e) && events[|events|-1].limit == limit;
    assert |Hits(Run(lim, events), key)| == |Recent(lim, t, e)| + 1 <= limit;
    assert MaxTime(events) <= e.now + skew;
  }

  // ---------- Eviction ----------

  /** Where in the run a key was last hit; -1 if nowhere. */
  function LastHit(events: seq<Event>, key: string): (i: int)
    ensures -1 <= i < |events|
    ensures i >= 0 ==> events[i].key == key
    ensures forall k :: i < k < |events| ==> events[k].key != key
  {
    if events == [] then -1
    else if events[|events|-1].key == key then |events| - 1
    else LastHit(events[..|events|-1], key)
  }

  /** The table is in ascending order of some rank of its keys. */
  ghost predicate Ascending(t: Table, rank: string -> int) {
    forall i, j :: 0 <= i < j < |t| ==> rank(t[i].key) < rank(t[j].key)
  }

  function KeysIn(t: Table): set<string> {
    set i | 0 <= i < |t| :: t[i].key
  }

  lemma KeysInCons(t: Table)
    requires t != []
    ensures KeysIn(t) == KeysIn(t[1..]) + {t[0].key}
  {
    forall k | k in KeysIn(t) ensures k in KeysIn(t[1..]) + {t[0].key} {
      var i :| 0 <= i < |t| && t[i].key == k;
      assert i > 0 ==> t[1..][i-1].key == k;
    }
    forall k | k in KeysIn(t[1..]) ensures k in KeysIn(t) {
      var i :| 0 <= i < |t[1..]| && t[1..][i].key == k;
      assert t[i+1].key == k;
    }
  }

  lemma {:induction false} PruneAscends(lim: Limiter, t: Table, now: real, rank: string -> int)
    requires Ascending(t, rank)
    ensures Ascending(Prune(lim, t, now), rank) && KeysIn(Prune(lim, t, now)) <= KeysIn(t)
  {
    if t != [] {
      var rest := Prune(lim, t[1..], now);
      PruneAscends(lim, t[1..], now, rank);
      KeysInCons(t);
      if DropExpired(t[0].hits, Cutoff(lim, t[0].key, now)) != [] {
        KeysInCons(Prune(lim, t, now));
        assert Prune(lim, t, now)[1..] == rest;
        forall i | 0 <= i < |rest| ensures rank(t[0].key) < rank(rest[i].key) {
          assert rest[i].key in KeysIn(t[1..]);
          var k :| 0 <= k < |t[1..]| && t[1..][k].key == rest[i].key;
          assert t[k+1].key == rest[i].key;
        }
      }
    }
  }

  lemma OthersAscend(lim: Limiter, t: Table, e: Event, rank: string -> int)
    requires lim.maxBuckets > 0 && Ascending(t, rank) && Unique(t) && |t| <= lim.maxBuckets
    ensures Ascending(Others(lim, t, e), rank)
    ensures KeysIn(Others(lim, t, e)) <= KeysIn(t) - {e.key}
  {
    PruneAscends(lim, t, e.now, rank);
    PruneKeys(lim, t, e.now);
    RoomAscends(Prune(lim, t, e.now), e.key, lim.maxBuckets, rank);
  }

  lemma RoomAscends(pruned: Table, key: string, maxBuckets: nat, rank: string -> int)
    requires maxBuckets > 0 && Ascending(pruned, rank) && Unique(pruned) && |pruned| <= maxBuckets
    ensures var others := if Has(pruned, key) then Without(pruned, key) else MakeRoom(pruned, maxBuckets);
      Ascending(others, rank) && KeysIn(others) <= KeysIn(pruned) - {key}
  {
    HasIsIn(pruned, key);
    if Has(pruned, key) {
      RemoveAtAscends(pruned, IndexOf(pruned, key), rank);
    } else {
      RoomForOne(pruned, maxBuckets);
      if |pruned| == maxBuckets { KeysInCons(pruned); }
    }
  }

  lemma RemoveAtAscends(t: Table, n: nat, rank: string -> int)
    requires Ascending(t, rank) && n < |t|
    ensures Ascending(t[..n] + t[n+1..], rank) && KeysIn(t[..n] + t[n+1..]) <= KeysIn(t) - {t[n].key}
  {
    var w := t[..n] + t[n+1..];
    assert forall i :: 0 <= i < |w| ==> w[i] == t[if i < n then i else i + 1];
    forall i | 0 <= i < |w| ensures w[i].key in KeysIn(t) && w[i].key != t[n].key {
      var k := if i < n then i else i + 1;
      assert t[k].key in KeysIn(t) && rank(t[k].key) != rank(t[n].key);
    }
  }

  /** Last use is what the table is ordered by. */
  ghost predicate InOrder(t: Table, events: seq<Event>) {
    Ascending(t, k => LastHit(events, k)) && forall k :: k in KeysIn(t) ==> LastHit(events, k) >= 0
  }

  lemma {:induction false} RunInOrder(lim: Limiter, events: seq<Event>)
    requires lim.maxBuckets > 0
    ensures InOrder(Run(lim, events), events)
  {
    if events != [] {
      var before, e := events[..|events|-1], events[|events|-1];
      RunInOrder(lim, before);
      RunIsBounded(lim, before);
      OthersAscend(lim, Run(lim, before), e, k => LastHit(before, k));
      AppendInOrder(Others(lim, Run(lim, before), e), events, Run(lim, events)[|Run(lim, events)|-1]);
    }
  }

  lemma AppendInOrder(others: Table, events: seq<Event>, b: Bucket)
    requires events != [] && b.key == events[|events|-1].key
    requires Ascending(others, k => LastHit(events[..|events|-1], k)) && b.key !in KeysIn(others)
    requires forall k :: k in KeysIn(others) ==> LastHit(events[..|events|-1], k) >= 0
    ensures InOrder(others + [b], events)
  {
    var t := others + [b];
    forall i | 0 <= i < |others| ensures LastHit(events, t[i].key) == LastHit(events[..|events|-1], others[i].key) >= 0 {
      assert others[i].key in KeysIn(others);
    }
    forall k | k in KeysIn(t) ensures LastHit(events, k) >= 0 {
      var i :| 0 <= i < |t| && t[i].key == k;
    }
  }

  function KeysHit(events: seq<Event>): set<string> {
    set i | 0 <= i < |events| :: events[i].key
  }

  lemma {:induction false} UniqueKeysCount(t: Table)
    requires Unique(t)
    ensures |KeysIn(t)| == |t|
  {
    if t != [] {
      UniqueKeysCount(t[1..]);
      KeysInCons(t);
    } else {
      assert KeysIn(t) == {};
    }
  }

  /** Whatever stands behind `t[0]` in the table was hit after it. */
  lemma HitSince(t: Table, events: seq<Event>, before: seq<Event>)
    requires t != [] && Ascending(t, k => LastHit(before, k)) && before <= events
    ensures KeysIn(t[1..]) <= KeysHit(events[LastHit(before, t[0].key)+1..])
  {
    var last := LastHit(before, t[0].key);
    forall k | k in KeysIn(t[1..]) ensures k in KeysHit(events[last+1..]) {
      var i :| 0 <= i < |t[1..]| && t[1..][i].key == k;
      assert t[i+1].key == k;
      assert events[last+1..][LastHit(before, k) - last - 1].key == k;
    }
  }

  lemma {:induction false} DropsAllBut(hits: seq<real>, c: real)
    ensures DropExpired(hits, c) != [] <==> exists i :: 0 <= i < |hits| && hits[i] > c
  {
    if hits != [] {
      DropsAllBut(hits[1..], c);
      if i :| 0 <= i < |hits[1..]| && hits[1..][i] > c {
        assert hits[i+1] > c;
      }
    }
  }

  /** Of a run, the events before and up to a hit at `now`: the hit finds `key` with a hit inside its
      window, and leaves it without a bucket. */
  ghost predicate LosesBetween(lim: Limiter, before: seq<Event>, upto: seq<Event>, now: real, key: string)
    requires lim.maxBuckets > 0
  {
    && !Has(Run(lim, upto), key)
    && exists i :: 0 <= i < |Hits(Run(lim, before), key)| && Hits(Run(lim, before), key)[i] > Cutoff(lim, key, now)
  }

  ghost predicate LosesHits(lim: Limiter, events: seq<Event>, k: nat, key: string)
    requires lim.maxBuckets > 0
  {
    k < |events| && LosesBetween(lim, events[..k], events[..k+1], events[k].now, key)
  }

  /** Which of the other keys keep their bucket. */
  lemma OthersHave(lim: Limiter, t: Table, e: Event, key: string)
    requires lim.maxBuckets > 0 && Unique(t) && |t| <= lim.maxBuckets && key != e.key
    ensures var pruned := Prune(lim, t, e.now);
      Has(After(lim, t, e), key) <==> Has(pruned, key) && (Has(pruned, e.key) || Has(MakeRoom(pruned, lim.maxBuckets), key))
  {
    var pruned := Prune(lim, t, e.now);
    PruneKeys(lim, t, e.now);
    OthersHits(pruned, e.key, lim.maxBuckets, key);
    AppendHits(Others(lim, t, e), Bucket(e.key, if Admits(lim, t, e) then Recent(lim, t, e) + [e.now] else Recent(lim, t, e)), key);
    if Has(pruned, e.key) {
      WithoutKeys(pruned, e.key);
    } else {
      RoomForOne(pruned, lim.maxBuckets);
      HasIsIn(MakeRoom(pruned, lim.maxBuckets), key);
      HasIsIn(pruned, key);
    }
  }

  lemma KeepsItsOwn(lim: Limiter, t: Table, e: Event)
    requires lim.maxBuckets > 0
    ensures Has(After(lim, t, e), e.key)
  {
    var after := After(lim, t, e);
    assert after[|after|-1].key == e.key;
    HasIsIn(after, e.key);
  }

  lemma LastHitEvicts(lim: Limiter, events: seq<Event>, key: string)
    requires lim.maxBuckets > 0 && events != []
    ensures EvictedBy(lim, events, key) <==> LosesHits(lim, events, |events| - 1, key)
  {
    var before, e := events[..|events|-1], events[|events|-1];
    var t := Run(lim, before);
    RunIsBounded(lim, before);
    PruneHits(lim, t, e.now, key);
    DropsAllBut(Hits(t, key), Cutoff(lim, key, e.now));
    assert events[..|events|] == events;
    if key == e.key {
      KeepsItsOwn(lim, t, e);
    } else {
      OthersHave(lim, t, e, key);
    }
  }

  lemma {:induction false} EvictedByAHit(lim: Limiter, events: seq<Event>, key: string) returns (k: nat)
    requires lim.maxBuckets > 0 && Evicted(lim, events, key)
    ensures LosesHits(lim, events, k, key)
  {
    var n := |events| - 1;
    if EvictedBy(lim, events, key) {
      LastHitEvicts(lim, events, key);
      k := n;
    } else {
      k := EvictedByAHit(lim, events[..n], key);
      LosesEarlier(lim, events, n, k, key);
    }
  }

  lemma {:induction false} LosingIsEviction(lim: Limiter, events: seq<Event>, k: nat, key: string)
    requires lim.maxBuckets > 0 && LosesHits(lim, events, k, key)
    ensures Evicted(lim, events, key)
  {
    if k == |events| - 1 {
      assert EvictedBy(lim, events, key) by { LastHitEvicts(lim, events, key); }
    } else {
      var front := events[..|events|-1];
      assert LosesHits(lim, front, k, key) by { LosesEarlier(lim, events, |events| - 1, k, key); }
      LosingIsEviction(lim, front, k, key);
      assert Evicted(lim, front, key);
    }
  }


  /** Over a whole run: a key was evicted if and only if some hit left it without a bucket although it
      still had hits inside its window. */
  lemma EvictedExactlyWhen(lim: Limiter, events: seq<Event>, key: string)
    requires lim.maxBuckets > 0
    ensures Evicted(lim, events, key) <==> exists k: nat :: LosesHits(lim, events, k, key)
  {
    if Evicted(lim, events, key) {
      var k := EvictedByAHit(lim, events, key);
    } else if k: nat :| LosesHits(lim, events, k, key) {
      LosingIsEviction(lim, events, k, key);
    }
  }

  lemma LosesEarlier(lim: Limiter, events: seq<Event>, n: nat, k: nat, key: string)
    requires lim.maxBuckets > 0 && k < n <= |events|
    ensures LosesHits(lim, events[..n], k, key) <==> LosesHits(lim, events, k, key)
  {
    assert events[..n][..k] == events[..k] && events[..n][..k+1] == events[..k+1];
  }

  /** A key is evicted only when at least `maxBuckets` other keys were hit after its own last hit. */
  lemma EvictionIsLeastRecentlyUsed(lim: Limiter, events: seq<Event>, key: string)
    requires lim.maxBuckets > 0 && events != []
    ensures EvictedBy(lim, events, key) ==>
      var since := events[LastHit(events, key)+1..];
      LastHit(events, key) >= 0 && key !in KeysHit(since) && |KeysHit(since)| >= lim.maxBuckets
  {
    if EvictedBy(lim, events, key) {
      var before, e := events[..|events|-1], events[|events|-1];
      var t := Run(lim, before);
      RunInOrder(lim, before);
      RunIsBounded(lim, before);
      PruneAscends(lim, t, e.now, k => LastHit(before, k));
      PruneKeys(lim, t, e.now);
      EvictedFrom(Prune(lim, t, e.now), lim.maxBuckets, key, events);
    }
  }

  lemma EvictedFrom(pruned: Table, maxBuckets: nat, key: string, events: seq<Event>)
    requires maxBuckets > 0 && events != [] && |pruned| <= maxBuckets && Unique(pruned)
    requires InOrder(pruned, events[..|events|-1])
    requires var e := events[|events|-1]; !Has(pruned, e.key) && key != e.key
    requires Has(pruned, key) && !Has(MakeRoom(pruned, maxBuckets), key)
    ensures var since := events[LastHit(events, key)+1..];
      LastHit(events, key) >= 0 && key !in KeysHit(since) && |KeysHit(since)| >= maxBuckets
  {
    var before, e := events[..|events|-1], events[|events|-1];
    EvictedIsFirst(pruned, key, maxBuckets);
    HitSince(pruned, events, before);
    HasIsIn(pruned, e.key);
    assert LastHit(before, key) >= 0 by { assert pruned[0].key in KeysIn(pruned); }
    ManyKeysSince(KeysIn(pruned[1..]), events, LastHit(before, key));
    UniqueKeysCount(pruned[1..]);
  }

  lemma ManyKeysSince(keys: set<string>, events: seq<Event>, last: nat)
    requires events != [] && last < |events| - 1
    requires keys <= KeysHit(events[last+1..]) && events[|events|-1].key !in keys
    ensures |KeysHit(events[last+1..])| >= |keys| + 1
  {
    var since := events[last+1..];
    assert since[|since|-1].key == events[|events|-1].key;
    SubsetIsSmaller(keys + {events[|events|-1].key}, KeysHit(since));
  }

  lemma EvictedIsFirst(t: Table, key: string, maxBuckets: nat)
    requires maxBuckets > 0 && |t| <= maxBuckets && Unique(t) && Has(t, key) && !Has(MakeRoom(t, maxBuckets), key)
    ensures |t| == maxBuckets && t[0].key == key
  {
    RoomForOne(t, maxBuckets);
    if key != t[0].key {
      TailHits(t, key);
    }
  }

  lemma SubsetIsSmaller(a: set<string>, b: set<string>)
    requires a <= b
    ensures |a| <= |b|
  {
    assert b == a + (b - a);
  }

  // ---------- The limiter that runs ----------

  /** With a fixed limit, `limit + 1` successive admitted hits of a key that was never evicted span the
      window it was called with, but for the skew, and whatever the caller put into the key. */
  lemma NoMoreThanTheLimit(maxBuckets: nat, events: seq<Event>, bucket: string, key: string, window: int, limit: nat, i: nat, skew: real)
    requires maxBuckets > 0 && SkewedBy(events, skew)
    ensures var lim, k := MemoryLimiter(maxBuckets), BucketKey(bucket, key, window);
      var log := Admitted(lim, events, k);
      !Evicted(lim, events, k) && FixedLimit(events, k, limit) && i + limit < |log| ==> log[i + limit] - log[i] >= window as real - skew
  {
    var lim, k := MemoryLimiter(maxBuckets), BucketKey(bucket, key, window);
    if !Evicted(lim, events, k) && FixedLimit(events, k, limit) && i + limit < |Admitted(lim, events, k)| {
      WindowReadsBack(bucket, key, window);
      AdmittedSpan(lim, events, k, limit, i, skew);
    }
  }

  /** Two hits out of order, and one that comes when the second is expired and the first is not. */
  function OutOfOrder(key: string): seq<Event> {
    [Event(key, 2, 5.0), Event(key, 2, 4.0)]
  }

  /** The limiter rejects the third hit, and the log would admit it: an expired hit is kept behind one that
      is not. */
  lemma OutOfOrderHitsPart(lim: Limiter, key: string)
    requires lim.maxBuckets > 0 && lim.windowOf(key) == 10
    ensures var e := Event(key, 2, 14.5);
      && !Admits(lim, Run(lim, OutOfOrder(key)), e) && LogAdmits(lim, Log(lim, OutOfOrder(key), key), e)
  {
    var e1, e2 := Event(key, 2, 5.0), Event(key, 2, 4.0);
    assert OutOfOrder(key)[..1] == [e1] && [e1][..0] == [];
    OneBucket(lim, [Bucket(key, [5.0])], e2);
    FirstOfAll(lim, e1);
    assert Run(lim, [e1]) == [Bucket(key, [5.0])];
    assert [5.0] + [4.0] == [5.0, 4.0];
    assert Admits(lim, [Bucket(key, [5.0])], e2);
    assert After(lim, [Bucket(key, [5.0])], e2) == [] + [Bucket(key, [5.0, 4.0])];
    assert Run(lim, OutOfOrder(key)) == After(lim, Run(lim, [e1]), e2);
    OneBucket(lim, [Bucket(key, [5.0, 4.0])], Event(key, 2, 14.5));
    OutOfOrderLog(lim, key);
  }

  lemma FirstOfAll(lim: Limiter, e: Event)
    requires lim.maxBuckets > 0 && e.limit > 0
    ensures After(lim, [], e) == [Bucket(e.key, [e.now])]
  {
    assert Prune(lim, [], e.now) == [] && !Has([], e.key) && Others(lim, [], e) == [];
    assert Recent(lim, [], e) == [] && [] + [e.now] == [e.now];
  }

  /** A table whose one bucket starts with a hit inside the window. */
  lemma OneBucket(lim: Limiter, t: Table, e: Event)
    requires lim.maxBuckets > 0 && |t| == 1 && t[0].key == e.key && t[0].hits != [] && t[0].hits[0] > Cutoff(lim, e.key, e.now)
    ensures Recent(lim, t, e) == t[0].hits && Others(lim, t, e) == []
  {
    assert Prune(lim, t, e.now) == t;
    HitsAt(t, 0);
  }

  lemma LogNext(lim: Limiter, events: seq<Event>, e: Event, key: string)
    requires e.key == key
    ensures var log := Log(lim, events, key); Log(lim, events + [e], key) == if LogAdmits(lim, log, e) then log + [e.now] else log
  {
    assert (events + [e])[..|events|] == events;
  }

  lemma CountNext(log: seq<real>, hit: real, c: real)
    ensures CountAfter(log + [hit], c) == CountAfter(log, c) + if hit > c then 1 else 0
  {
    assert (log + [hit])[..|log|] == log;
  }

  lemma OutOfOrderLog(lim: Limiter, key: string)
    requires lim.windowOf(key) == 10
    ensures Log(lim, OutOfOrder(key), key) == [5.0, 4.0] && CountAfter([5.0, 4.0], 4.5) == 1
  {
    var e1, e2 := Event(key, 2, 5.0), Event(key, 2, 4.0);
    assert [] + [e1] == [e1] && [e1] + [e2] == OutOfOrder(key);
    LogNext(lim, [], e1, key);
    assert [] + [5.0] == [5.0] && [5.0] + [4.0] == [5.0, 4.0];
    CountNext([], 5.0, -6.0);
    LogNext(lim, [e1], e2, key);
    CountNext([], 5.0, 4.5);
    CountNext([5.0], 4.0, 4.5);
  }
}
