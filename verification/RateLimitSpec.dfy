/**
 The in-memory rate limiter of `rate_limit.py` as functions on its table: an ordered list of
 buckets, least recently used first, each with the times of its admitted hits. Runs of hits are
 compared with a log that never forgets anything.
 */
module RateLimitSpec {
  import Text

  datatype Bucket = Bucket(key: string, hits: seq<real>)

  type Table = seq<Bucket>

  /** `_bucket_key` */
  function BucketKey(bucket: string, key: string, window: int): string {
    bucket + ":" + key + ":" + Text.Show(window)
  }

  /** The window that pruning reads back out of a key. */
  function WindowOf(bucketKey: string): int {
    match Text.ReadInt(Text.LastPart(bucketKey, ':'))
    case Some(window) => window
    case None => 0
  }

  lemma ShowHasNoColon(n: int)
    ensures ':' !in Text.Show(n)
  {
  }

  /** Pruning reads the window that was printed into the key, whatever the other parts contain. */
  lemma WindowReadsBack(bucket: string, key: string, window: int)
    ensures WindowOf(BucketKey(bucket, key, window)) == window
  {
    ShowHasNoColon(window);
    assert BucketKey(bucket, key, window) == (bucket + ":" + key) + [':'] + Text.Show(window);
    Text.LastPartOf(bucket + ":" + key, ':', Text.Show(window));
    Text.ReadShow(window);
  }

  /** Two hits share a bucket exactly when they have the same window and the same text in front of it;
      when no bucket name contains a colon, exactly when bucket, key and window are all the same. */
  lemma SharedBuckets(bucket: string, key: string, window: int, bucket': string, key': string, window': int)
    ensures BucketKey(bucket, key, window) == BucketKey(bucket', key', window') <==> window == window' && bucket + ":" + key == bucket' + ":" + key'
    ensures ':' !in bucket && ':' !in bucket' ==>
      (BucketKey(bucket, key, window) == BucketKey(bucket', key', window') <==> bucket == bucket' && key == key' && window == window')
  {
    if BucketKey(bucket, key, window) == BucketKey(bucket', key', window') {
      WindowReadsBack(bucket, key, window);
      WindowReadsBack(bucket', key', window');
      var n := |bucket + ":" + key|;
      assert BucketKey(bucket, key, window)[..n] == bucket + ":" + key;
      assert |bucket' + ":" + key'| == n && BucketKey(bucket', key', window')[..n] == bucket' + ":" + key';
      if ':' !in bucket && ':' !in bucket' {
        FirstColon(bucket, key, bucket', key');
      }
    }
  }

  lemma FirstColon(a: string, b: string, a': string, b': string)
    requires a + ":" + b == a' + ":" + b' && ':' !in a && ':' !in a'
    ensures a == a' && b == b'
  {
    var s := a + ":" + b;
    assert s[|a|] == ':' && s[|a'|] == ':';
    assert forall i :: 0 <= i < |a| ==> s[i] == a[i];
    assert forall i :: 0 <= i < |a'| ==> s[i] == a'[i];
    assert |a| == |a'|;
    assert s[..|a|] == a && s[..|a'|] == a' && s[|a|+1..] == b && s[|a'|+1..] == b';
  }

  /** With a colon in it, a bucket's name can run over into the key. */
  lemma AColonMixesBuckets(window: int)
    ensures BucketKey("a:b", "c", window) == BucketKey("a", "b:c", window)
  {
    assert "a:b" + ":" + "c" == "a" + ":" + "b:c";
  }

  /** `while entries and entries[0] <= cutoff: entries.popleft()` */
  function DropExpired(hits: seq<real>, cutoff: real): seq<real> {
    if hits != [] && hits[0] <= cutoff then DropExpired(hits[1..], cutoff) else hits
  }

  /** How many buckets the limiter may hold, and the window that belongs to a bucket's key. */
  datatype Limiter = Limiter(maxBuckets: nat, windowOf: string -> int)

  /** The limiter as the code sets it up: windows come out of the keys themselves. */
  function MemoryLimiter(maxBuckets: nat): Limiter {
    Limiter(maxBuckets, bucketKey => WindowOf(bucketKey))
  }

  lemma KeyCutoff(maxBuckets: nat, bucket: string, key: string, window: int, now: real)
    ensures Cutoff(MemoryLimiter(maxBuckets), BucketKey(bucket, key, window), now) == now - window as real
  {
    WindowReadsBack(bucket, key, window);
  }

  function Cutoff(lim: Limiter, key: string, now: real): real {
    now - lim.windowOf(key) as real
  }

  /** Every bucket loses its expired hits, and goes with the last of them. */
  function Prune(lim: Limiter, t: Table, now: real): Table {
    if t == [] then []
    else
      var hits := DropExpired(t[0].hits, Cutoff(lim, t[0].key, now));
      (if hits == [] then [] else [Bucket(t[0].key, hits)]) + Prune(lim, t[1..], now)
  }

  function IndexOf(t: Table, key: string): (i: nat)
    ensures i <= |t| && (i < |t| ==> t[i].key == key) && forall k :: 0 <= k < i ==> t[k].key != key
  {
    if t == [] || t[0].key == key then 0 else 1 + IndexOf(t[1..], key)
  }

  predicate Has(t: Table, key: string) {
    IndexOf(t, key) < |t|
  }

  function Hits(t: Table, key: string): seq<real> {
    if Has(t, key) then t[IndexOf(t, key)].hits else []
  }

  function Without(t: Table, key: string): Table {
    if Has(t, key) then t[..IndexOf(t, key)] + t[IndexOf(t, key)+1..] else t
  }

  /** Evict from the old end until there is room for one more. */
  function MakeRoom(t: Table, maxBuckets: nat): Table
    requires maxBuckets > 0
  {
    if |t| >= maxBuckets then MakeRoom(t[1..], maxBuckets) else t
  }

  datatype Event = Event(key: string, limit: int, now: real)

  /** What remains of the other buckets when `e` is about to touch its own. */
  function Others(lim: Limiter, t: Table, e: Event): Table
    requires lim.maxBuckets > 0
  {
    var pruned := Prune(lim, t, e.now);
    if Has(pruned, e.key) then Without(pruned, e.key) else MakeRoom(pruned, lim.maxBuckets)
  }

  /** The touched bucket's hits inside the window. */
  function Recent(lim: Limiter, t: Table, e: Event): seq<real> {
    DropExpired(Hits(Prune(lim, t, e.now), e.key), Cutoff(lim, e.key, e.now))
  }

  predicate Admits(lim: Limiter, t: Table, e: Event) {
    |Recent(lim, t, e)| < e.limit
  }

  /** `hit`: the touched bucket moves to the recent end, with one more hit if it is admitted. */
  function After(lim: Limiter, t: Table, e: Event): Table
    requires lim.maxBuckets > 0
  {
    Others(lim, t, e) + [Bucket(e.key, if Admits(lim, t, e) then Recent(lim, t, e) + [e.now] else Recent(lim, t, e))]
  }

  // ---------- Runs ----------

  /** No hit reads a time that lies more than `skew` before that of an earlier one. The clock is read
      before the lock is taken, so hits may come in out of order by as much as one can wait. */
  predicate SkewedBy(events: seq<Event>, skew: real) {
    skew >= 0.0 && forall i, j :: 0 <= i < j < |events| ==> events[i].now <= events[j].now + skew
  }

  /** The clock does not go backwards. */
  predicate Nondecreasing(events: seq<Event>) {
    forall i, j :: 0 <= i < j < |events| ==> events[i].now <= events[j].now
  }

  function Run(lim: Limiter, events: seq<Event>): Table
    requires lim.maxBuckets > 0
  {
    if events == [] then [] else After(lim, Run(lim, events[..|events|-1]), events[|events|-1])
  }

  /** The times at which the limiter admitted `key`. */
  function Admitted(lim: Limiter, events: seq<Event>, key: string): seq<real>
    requires lim.maxBuckets > 0
  {
    if events == [] then []
    else
      var e := events[|events|-1];
      var log := Admitted(lim, events[..|events|-1], key);
      if e.key == key && Admits(lim, Run(lim, events[..|events|-1]), e) then log + [e.now] else log
  }

  /** The hits of a log that lie inside the window. */
  function CountAfter(log: seq<real>, cutoff: real): nat {
    if log == [] then 0 else CountAfter(log[..|log|-1], cutoff) + if log[|log|-1] > cutoff then 1 else 0
  }

  /** The reference: admit while fewer than `limit` admitted hits lie in the window. It keeps
      every hit for ever. */
  predicate LogAdmits(lim: Limiter, log: seq<real>, e: Event) {
    CountAfter(log, Cutoff(lim, e.key, e.now)) < e.limit
  }

  function Log(lim: Limiter, events: seq<Event>, key: string): seq<real> {
    if events == [] then []
    else
      var e := events[|events|-1];
      var log := Log(lim, events[..|events|-1], key);
      if e.key == key && LogAdmits(lim, log, e) then log + [e.now] else log
  }

  /** Some hit of the run pushed `key` out to make room. */
  predicate Evicted(lim: Limiter, events: seq<Event>, key: string)
    requires lim.maxBuckets > 0
  {
    events != [] && (Evicted(lim, events[..|events|-1], key) || EvictedBy(lim, events, key))
  }

  predicate EvictedBy(lim: Limiter, events: seq<Event>, key: string)
    requires lim.maxBuckets > 0 && events != []
  {
    var e := events[|events|-1];
    var pruned := Prune(lim, Run(lim, events[..|events|-1]), e.now);
    Has(pruned, key) && !Has(MakeRoom(pruned, lim.maxBuckets), key) && !Has(pruned, e.key)
  }
}
