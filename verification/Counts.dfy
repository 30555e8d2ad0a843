/**
 * Sliding-window counts: bucketed counters with expiry, their weighted sum, how far the sum can be from
 * the true count, and why expiry never shows.
 */
module Counts {
  import opened RateLimit
  import opened Buckets

  datatype Bump = Bump(key: string, window: int, at: int, amount: nat)

  datatype BucketKey = BucketKey(key: string, window: int, bucket: int)

  /** A stored counter, and the time from which the store may drop it. */
  datatype Entry = Entry(count: nat, expiresAt: int)

  // ---------- what a history of bumps says ----------

  predicate InBucket(e: Bump, k: BucketKey)
    requires BucketSize(k.window) > 0
  {
    e.key == k.key && e.window == k.window && BucketTime(e.at, BucketSize(k.window)) == k.bucket
  }

  function CountIn(history: seq<Bump>, k: BucketKey): nat
    requires BucketSize(k.window) > 0
  {
    if history == [] then 0
    else
      CountIn(history[..|history| - 1], k)
      + if InBucket(history[|history| - 1], k) then history[|history| - 1].amount else 0
  }

  /** The bumps of a key from `start` on. */
  function CountSince(history: seq<Bump>, key: string, window: int, start: int): nat {
    if history == [] then 0
    else
      var e := history[|history| - 1];
      CountSince(history[..|history| - 1], key, window, start)
      + if e.key == key && e.window == window && e.at >= start then e.amount else 0
  }

  function SumBuckets(history: seq<Bump>, key: string, window: int, buckets: seq<int>): nat
    requires BucketSize(window) > 0
  {
    if buckets == [] then 0
    else
      SumBuckets(history, key, window, buckets[..|buckets| - 1])
      + CountIn(history, BucketKey(key, window, buckets[|buckets| - 1]))
  }

  /** How much of the first bucket is taken to lie inside the window. */
  function FirstBucketShare(at: int, window: int): real
    requires BucketSize(window) > 0
  {
    var size := BucketSize(window);
    var startTime := at - window;
    (size - (startTime - BucketTime(startTime, size))) as real / size as real
  }

  /** The share of the first bucket that lies in the window, from its start to the end of that bucket. */
  lemma ShareInWindow(at: int, window: int)
    requires BucketSize(window) > 0
    ensures var start, size := AllBuckets(at, window)[0], BucketSize(window);
      && FirstBucketShare(at, window) * size as real == (start + size - (at - window)) as real
      && (at >= window ==> start <= at - window < start + size && 0.0 < FirstBucketShare(at, window) <= 1.0)
  {
    var start, size := AllBuckets(at, window)[0], BucketSize(window);
    BucketTimeIsNumber(at - window, size);
    var part := start + size - (at - window);
    assert FirstBucketShare(at, window) == part as real / size as real;
  }

  /** `Math.round`. */
  function Round(x: real): int {
    (x + 0.5).Floor
  }

  /** Rounding gives the nearest integer, and the greater one of two that are equally near. */
  lemma RoundIsNearest(x: real)
    ensures Round(x) as real - 0.5 <= x < Round(x) as real + 0.5
  {
  }

  function FirstCount(history: seq<Bump>, key: string, window: int, at: int): nat
    requires BucketSize(window) > 0
  {
    CountIn(history, BucketKey(key, window, AllBuckets(at, window)[0]))
  }

  /** The first bucket's share and the other buckets, added up and rounded. */
  function Weighted(first: nat, rest: nat, share: real): int {
    Round(Scaled(first, share) + rest as real)
  }

  function Scaled(count: nat, share: real): real {
    count as real * share
  }

  /** The weighted sum of the eleven buckets of all bumps. */
  function Estimate(history: seq<Bump>, key: string, window: int, at: int): int
    requires BucketSize(window) > 0
  {
    var rest := SumBuckets(history, key, window, AllBuckets(at, window)[1..]);
    Weighted(FirstCount(history, key, window, at), rest, FirstBucketShare(at, window))
  }

  // ---------- the service ----------

  /** The bumps of this key and window were made at times for which expiry never shows. */
  predicate HiddenFor(history: seq<Bump>, key: string, window: int) {
    forall e :: e in history && e.key == key && e.window == window ==> ExpiryHidden(e.at, window)
  }

  /** A stored counter counts all bumps of its bucket; one that is missing has none that are recent. */
  ghost predicate BucketFits(db: map<BucketKey, Entry>, history: seq<Bump>, now: int, k: BucketKey)
    requires BucketSize(k.window) > 0
  {
    && (k in db ==> db[k].count == CountIn(history, k))
    && forall e {:trigger InBucket(e, k)} :: e in history && InBucket(e, k) ==>
         e.at <= now && e.at + KeptFor(k.window) <= if k in db then db[k].expiresAt else now
  }

  ghost predicate Books(db: map<BucketKey, Entry>, history: seq<Bump>, now: int) {
    forall k: BucketKey {:trigger BucketFits(db, history, now, k)} :: BucketSize(k.window) > 0 ==>
      BucketFits(db, history, now, k)
  }

  lemma {:induction false} NoBumpsNoCount(history: seq<Bump>, k: BucketKey)
    requires BucketSize(k.window) > 0 && forall e :: e in history ==> !InBucket(e, k)
    ensures CountIn(history, k) == 0
  {
    if history != [] {
      NoBumpsNoCount(history[..|history| - 1], k);
    }
  }

  lemma CountOneMore(history: seq<Bump>, e: Bump, k: BucketKey)
    requires BucketSize(k.window) > 0
    ensures CountIn(history + [e], k) == CountIn(history, k) + if InBucket(e, k) then e.amount else 0
  {
    assert (history + [e])[..|history|] == history;
  }

  /** The entry that a bump writes. */
  function Bumped(db: map<BucketKey, Entry>, e: Bump, k: BucketKey): Entry {
    Entry((if k in db then db[k].count else 0) + e.amount, e.at + KeptFor(e.window))
  }

  lemma BooksAfterBump(db: map<BucketKey, Entry>, history: seq<Bump>, now: int, e: Bump, k: BucketKey)
    requires Books(db, history, now) && now <= e.at && BucketSize(e.window) > 0
    requires k == BucketKey(e.key, e.window, BucketTime(e.at, BucketSize(e.window)))
    ensures Books(db[k := Bumped(db, e, k)], history + [e], e.at)
  {
    var db' := db[k := Bumped(db, e, k)];
    KeptLongEnough(e.window);
    forall k': BucketKey | BucketSize(k'.window) > 0
      ensures BucketFits(db', history + [e], e.at, k')
    {
      assert BucketFits(db, history, now, k');
      CountOneMore(history, e, k');
      if k' == k && k !in db {
        forall e' | e' in history
          ensures !InBucket(e', k)
        {
          if InBucket(e', k) {
            OneBucketClose(e.at, e'.at, BucketSize(e.window));
          }
        }
        NoBumpsNoCount(history, k);
      }
    }
  }

  lemma BooksAfterDrop(db: map<BucketKey, Entry>, history: seq<Bump>, now: int, k: BucketKey, time: int)
    requires Books(db, history, now) && now <= time && k in db && db[k].expiresAt <= time
    ensures Books(db - {k}, history, time)
  {
    forall k': BucketKey | BucketSize(k'.window) > 0
      ensures BucketFits(db - {k}, history, time, k')
    {
      assert BucketFits(db, history, now, k');
    }
  }

  /** A counter as the store shows it at a time. */
  function Read(db: map<BucketKey, Entry>, k: BucketKey, at: int): nat {
    if k in db && db[k].expiresAt > at then db[k].count else 0
  }

  function SumRead(db: map<BucketKey, Entry>, key: string, window: int, at: int, buckets: seq<int>): nat {
    if buckets == [] then 0
    else
      SumRead(db, key, window, at, buckets[..|buckets| - 1])
      + Read(db, BucketKey(key, window, buckets[|buckets| - 1]), at)
  }

  /** The weighted sum of what the store shows. */
  function ReadEstimate(db: map<BucketKey, Entry>, key: string, window: int, at: int): int
    requires BucketSize(window) > 0
  {
    var buckets := AllBuckets(at, window);
    Weighted(Read(db, BucketKey(key, window, buckets[0]), at),
             SumRead(db, key, window, at, buckets[1..]), FirstBucketShare(at, window))
  }

  /** What a fetch reads under a bucket it looks at is the count of all bumps of the bucket, expired or not. */
  lemma ReadIsCount(db: map<BucketKey, Entry>, history: seq<Bump>, now: int, k: BucketKey, at: int)
    requires Books(db, history, now) && now <= at && BucketSize(k.window) > 0 && HiddenFor(history, k.key, k.window)
    requires k.bucket in AllBuckets(at, k.window)
    ensures CountIn(history, k) == Read(db, k, at)
  {
    assert BucketFits(db, history, now, k);
    if k !in db || db[k].expiresAt <= at {
      forall e | e in history
        ensures !InBucket(e, k)
      {
        if InBucket(e, k) {
          HiddenBeforeExpiry(at, k.window, e.at);
        }
      }
      NoBumpsNoCount(history, k);
    }
  }

  /** The redis clock is the clock of the events; `now` is the latest time seen. */
  class RedisCountService {
    var db: map<BucketKey, Entry>
    ghost var history: seq<Bump>
    ghost var now: int

    ghost predicate Valid()
      reads this
    {
      Books(db, history, now)
    }

    constructor (start: int)
      ensures Valid() && history == [] && now == start
    {
      db, history, now := map[], [], start;
    }

    /** Drops whatever has expired, or only some of it. */
    method Drop(k: BucketKey, time: int)
      requires Valid() && now <= time && k in db && db[k].expiresAt <= time
      modifies this
      ensures Valid() && history == old(history) && now == time && db == old(db) - {k}
    {
      BooksAfterDrop(db, history, now, k, time);
      db := db - {k};
      now := time;
    }

    method BumpOne(at: int, key: string, window: int, amount: nat)
      requires Valid() && now <= at && BucketSize(window) > 0
      modifies this
      ensures Valid() && now == at && history == old(history) + [Bump(key, window, at, amount)]
      ensures var k := BucketKey(key, window, BucketTime(at, BucketSize(window)));
        db == old(db)[k := Entry(old(Read(db, k, at)) + amount, at + KeptFor(window))]
    {
      var k := BucketKey(key, window, BucketTime(at, BucketSize(window)));
      // a counter whose time has come is gone by the time it is incremented
      if k in db && db[k].expiresAt <= at {
        Drop(k, at);
      }
      BooksAfterBump(db, history, now, Bump(key, window, at, amount), k);
      var entry := Entry((if k in db then db[k].count else 0) + amount, at + KeptFor(window));
      assert (old(db) - {k})[k := entry] == old(db)[k := entry];
      db := db[k := entry];
      history := history + [Bump(key, window, at, amount)];
      now := at;
    }

    method BumpAll(at: int, keys: seq<string>, window: int, amount: nat)
      requires Valid() && now <= at && BucketSize(window) > 0
      modifies this
      ensures Valid() && (keys == [] || now == at) && history == old(history) + Bumps(keys, window, at, amount)
    {
      for i := 0 to |keys|
        invariant Valid() && now <= at && (i == 0 || now == at)
        invariant history == old(history) + Bumps(keys[..i], window, at, amount)
      {
        BumpOne(at, keys[i], window, amount);
        assert keys[..i + 1][..i] == keys[..i] && keys[..i + 1][i] == keys[i];
      }
      assert keys[..|keys|] == keys;
    }

    /** `mgetNumbers`: the counters of some buckets; one that is missing counts as zero. */
    method ReadAll(at: int, key: string, window: int, buckets: seq<int>) returns (values: seq<nat>)
      ensures |values| == |buckets|
      ensures forall j :: 0 <= j < |buckets| ==> values[j] == Read(db, BucketKey(key, window, buckets[j]), at)
    {
      values := [];
      for i := 0 to |buckets|
        invariant |values| == i
        invariant forall j :: 0 <= j < i ==> values[j] == Read(db, BucketKey(key, window, buckets[j]), at)
      {
        values := values + [Read(db, BucketKey(key, window, buckets[i]), at)];
      }
    }

    /**
     * Reads the eleven buckets, scales the first one down and adds up. As long as the bumps of the key
     * were made at times for which expiry never shows, the result depends on the bumps and nothing else.
     */
    method Fetch(at: int, key: string, window: int) returns (r: int)
      requires Valid() && now <= at && BucketSize(window) > 0
      ensures r == ReadEstimate(db, key, window, at)
      ensures HiddenFor(history, key, window) ==> r == Estimate(history, key, window, at)
    {
      var buckets := AllBuckets(at, window);
      var values := ReadAll(at, key, window, buckets);
      ReadsAddUp(db, key, window, at, buckets[1..], values[1..]);
      var reduced := Reduce(Scaled(values[0], FirstBucketShare(at, window)), values[1..]);
      r := Round(reduced);
      if HiddenFor(history, key, window) {
        ReadIsEstimate(db, history, now, key, window, at);
      }
    }

    /** Adds up the values, the first one scaled already. */
    method Reduce(first: real, rest: seq<nat>) returns (sum: real)
      ensures sum == first + Total(rest) as real
    {
      sum := first;
      for i := 0 to |rest|
        invariant sum == first + Total(rest[..i]) as real
      {
        sum := sum + rest[i] as real;
        assert rest[..i + 1][..i] == rest[..i];
      }
      assert rest[..|rest|] == rest;
    }
  }

  /** What a fetch reads is the estimate over all bumps: nothing that has expired is missed. */
  lemma ReadIsEstimate(db: map<BucketKey, Entry>, history: seq<Bump>, now: int, key: string, window: int, at: int)
    requires Books(db, history, now) && now <= at && BucketSize(window) > 0 && HiddenFor(history, key, window)
    ensures ReadEstimate(db, key, window, at) == Estimate(history, key, window, at)
  {
    var buckets := AllBuckets(at, window);
    ReadIsCount(db, history, now, BucketKey(key, window, buckets[0]), at);
    SumReadIsSum(db, history, now, key, window, at, buckets[1..]);
  }

  lemma {:induction false} SumReadIsSum(db: map<BucketKey, Entry>, history: seq<Bump>, now: int, key: string,
      window: int, at: int, buckets: seq<int>)
    requires Books(db, history, now) && now <= at && BucketSize(window) > 0 && HiddenFor(history, key, window)
    requires forall b :: b in buckets ==> b in AllBuckets(at, window)
    ensures SumRead(db, key, window, at, buckets) == SumBuckets(history, key, window, buckets)
  {
    if buckets != [] {
      SumReadIsSum(db, history, now, key, window, at, buckets[..|buckets| - 1]);
      ReadIsCount(db, history, now, BucketKey(key, window, buckets[|buckets| - 1]), at);
    }
  }

  // ---------- when expiry shows ----------

  /** The store after a single bump. */
  function OneBump(e: Bump): map<BucketKey, Entry>
    requires BucketSize(e.window) > 0
  {
    map[BucketKey(e.key, e.window, BucketTime(e.at, BucketSize(e.window))) := Entry(e.amount, e.at + KeptFor(e.window))]
  }

  /** After any single bump at this time, all later fetches give the estimate over the bump. */
  ghost predicate FetchesExact(key: string, window: int, t: int)
    requires BucketSize(window) > 0
  {
    forall amount: nat, at: int {:trigger ReadEstimate(OneBump(Bump(key, window, t, amount)), key, window, at)} ::
      t <= at ==>
      ReadEstimate(OneBump(Bump(key, window, t, amount)), key, window, at) ==
        Estimate([Bump(key, window, t, amount)], key, window, at)
  }

  lemma OneBumpBooks(e: Bump)
    requires BucketSize(e.window) > 0
    ensures Books(OneBump(e), [e], e.at)
  {
    var k := BucketKey(e.key, e.window, BucketTime(e.at, BucketSize(e.window)));
    assert Books(map[], [], e.at);
    BooksAfterBump(map[], [], e.at, e, k);
    assert [] + [e] == [e];
    assert map[][k := Bumped(map[], e, k)] == OneBump(e);
  }

  /** After a bump at any other time, a fetch at the time of its expiry still reads its bucket and misses it. */
  lemma ExpiryShows(key: string, window: int, t: int)
    requires BucketSize(window) > 0 && !ExpiryHidden(t, window)
    ensures var e, at := Bump(key, window, t, BucketSize(window)), t + KeptFor(window);
      && t <= at && ReadEstimate(OneBump(e), key, window, at) == 0 && Estimate([e], key, window, at) >= 1
  {
    var size, at := BucketSize(window), t + KeptFor(window);
    var e, buckets := Bump(key, window, t, size), AllBuckets(at, window);
    ReadAfterExpiry(window, t);
    KeptLongEnough(window);
    NothingRead(OneBump(e), key, window, at, buckets[1..]);
    WeightedNothing(FirstBucketShare(at, window));
    CountOneMore([], e, BucketKey(key, window, buckets[0]));
    assert [] + [e] == [e];
    assert FirstCount([e], key, window, at) == size;
    ZeroBucket(at - window, size);
    ScaledBack(size, size - (at - window));
  }

  lemma WeightedNothing(share: real)
    ensures Weighted(0, 0, share) == 0
  {
    assert Scaled(0, share) == 0.0;
  }

  lemma ScaledBack(size: int, part: int)
    requires size > 0
    ensures size as real * (part as real / size as real) == part as real
  {
  }

  lemma {:induction false} NothingRead(db: map<BucketKey, Entry>, key: string, window: int, at: int, buckets: seq<int>)
    requires forall k :: k in db ==> db[k].expiresAt <= at
    ensures SumRead(db, key, window, at, buckets) == 0
  {
    if buckets != [] {
      NothingRead(db, key, window, at, buckets[..|buckets| - 1]);
    }
  }

  /** Expiry never shows in a fetch exactly for bumps at such times. */
  lemma FetchesExactly(key: string, window: int, t: int)
    requires BucketSize(window) > 0
    ensures FetchesExact(key, window, t) <==> ExpiryHidden(t, window)
  {
    if ExpiryHidden(t, window) {
      forall amount: nat, at: int | t <= at
        ensures ReadEstimate(OneBump(Bump(key, window, t, amount)), key, window, at)
             == Estimate([Bump(key, window, t, amount)], key, window, at)
      {
        var e := Bump(key, window, t, amount);
        OneBumpBooks(e);
        ReadIsEstimate(OneBump(e), [e], t, key, window, at);
      }
    } else {
      ExpiryShows(key, window, t);
    }
  }

  function Total(values: seq<nat>): nat {
    if values == [] then 0 else Total(values[..|values| - 1]) + values[|values| - 1]
  }

  lemma {:induction false} ReadsAddUp(db: map<BucketKey, Entry>, key: string, window: int, at: int, buckets: seq<int>,
      values: seq<nat>)
    requires |values| == |buckets|
    requires forall j :: 0 <= j < |buckets| ==> values[j] == Read(db, BucketKey(key, window, buckets[j]), at)
    ensures Total(values) == SumRead(db, key, window, at, buckets)
  {
    if buckets != [] {
      ReadsAddUp(db, key, window, at, buckets[..|buckets| - 1], values[..|values| - 1]);
    }
  }

  function Bumps(keys: seq<string>, window: int, at: int, amount: nat): seq<Bump> {
    if keys == [] then []
    else Bumps(keys[..|keys| - 1], window, at, amount) + [Bump(keys[|keys| - 1], window, at, amount)]
  }

  // ---------- how good the estimate is ----------

  predicate UpTo(history: seq<Bump>, at: int) {
    forall e :: e in history ==> e.at <= at
  }

  predicate DistinctBuckets(buckets: seq<int>) {
    forall i, j :: 0 <= i < j < |buckets| ==> buckets[i] != buckets[j]
  }

  /** One more bump adds to the sum exactly when its bucket is among those summed. */
  lemma {:induction false} SumOneMore(history: seq<Bump>, e: Bump, key: string, window: int, buckets: seq<int>)
    requires BucketSize(window) > 0 && DistinctBuckets(buckets)
    ensures SumBuckets(history + [e], key, window, buckets) == SumBuckets(history, key, window, buckets)
      + if e.key == key && e.window == window && BucketTime(e.at, BucketSize(window)) in buckets then e.amount else 0
  {
    if buckets != [] {
      var front, last := buckets[..|buckets| - 1], buckets[|buckets| - 1];
      SumOneMore(history, e, key, window, front);
      CountOneMore(history, e, BucketKey(key, window, last));
      assert buckets == front + [last];
      assert last !in front;
    }
  }

  lemma {:induction false} SumOfNothing(key: string, window: int, buckets: seq<int>)
    requires BucketSize(window) > 0
    ensures SumBuckets([], key, window, buckets) == 0
  {
    if buckets != [] {
      SumOfNothing(key, window, buckets[..|buckets| - 1]);
    }
  }

  lemma AllBucketsDistinct(at: int, window: int)
    requires BucketSize(window) > 0
    ensures DistinctBuckets(AllBuckets(at, window))
  {
    forall i, j | 0 <= i < j < NUM_BUCKETS + 1
      ensures AllBuckets(at, window)[i] != AllBuckets(at, window)[j]
    {
      Commute(i, BucketSize(window));
      Commute(j, BucketSize(window));
      if BucketSize(window) * i == BucketSize(window) * j {
        SameMultiple(BucketSize(window), i, j);
      }
    }
  }

  /** The buckets read together hold exactly the bumps from the start of the first bucket on. */
  lemma {:induction false} SumIsCountSince(history: seq<Bump>, key: string, window: int, at: int)
    requires window > 0 && window % 10 == 0 && UpTo(history, at)
    ensures SumBuckets(history, key, window, AllBuckets(at, window)) ==
            CountSince(history, key, window, BucketStart(at - window, BucketSize(window)))
  {
    if history == [] {
      SumOfNothing(key, window, AllBuckets(at, window));
    } else {
      var front, e := history[..|history| - 1], history[|history| - 1];
      assert history == front + [e];
      SumIsCountSince(front, key, window, at);
      AllBucketsDistinct(at, window);
      SumOneMore(front, e, key, window, AllBuckets(at, window));
      BucketsRead(at, window, e.at);
    }
  }

  lemma {:induction false} SumSplits(history: seq<Bump>, key: string, window: int, buckets: seq<int>)
    requires BucketSize(window) > 0 && buckets != []
    ensures SumBuckets(history, key, window, buckets) ==
            CountIn(history, BucketKey(key, window, buckets[0])) + SumBuckets(history, key, window, buckets[1..])
  {
    if |buckets| > 1 {
      SumSplits(history, key, window, buckets[..|buckets| - 1]);
      assert buckets[1..][..|buckets| - 2] == buckets[..|buckets| - 1][1..];
    } else {
      assert buckets[..0] == [] && buckets[1..] == [];
    }
  }

  /** What the window leaves out of the buckets read is part of the first bucket. */
  lemma {:induction false} LeftOutOfFirst(history: seq<Bump>, key: string, window: int, at: int)
    requires window > 0 && window % 10 == 0
    ensures var start := BucketStart(at - window, BucketSize(window));
      CountSince(history, key, window, at - window) <= CountSince(history, key, window, start)
        <= CountSince(history, key, window, at - window) + FirstCount(history, key, window, at)
  {
    var size := BucketSize(window);
    BucketStartExact(at - window, at - window, size);
    if history != [] {
      var front, e := history[..|history| - 1], history[|history| - 1];
      assert history == front + [e];
      LeftOutOfFirst(front, key, window, at);
      CountOneMore(front, e, BucketKey(key, window, AllBuckets(at, window)[0]));
      if BucketStart(at - window, size) <= e.at < at - window {
        BucketStartExact(at - window, e.at, size);
        NumberMonotone(e.at, at - window, size);
        BucketTimeIsNumber(e.at, size);
        BucketTimeIsNumber(at - window, size);
      }
    }
  }

  /** When the share of the first bucket is a share: the window starts after 1970, or near the low end of a bucket. */
  predicate ShareIsFair(at: int, window: int)
    requires BucketSize(window) > 0
  {
    at >= window || (at - window) % BucketSize(window) <= 1
  }

  /** Within the first bucket's content of the true count. */
  predicate Close(estimate: int, exact: int, first: int) {
    exact - first <= estimate <= exact + first
  }

  lemma ShareBounds(at: int, window: int)
    requires BucketSize(window) > 0 && (at >= window || (at - window) % BucketSize(window) == 0)
    ensures 0.0 <= FirstBucketShare(at, window) <= 1.0
  {
    var size, start := BucketSize(window), at - window;
    BucketBounds(start, size);
    if start < 0 {
      assert (-start) % size == 0 by {
        MultipleNegates(start, size);
      }
    }
    var part := size - (start - BucketTime(start, size));
    assert 0 <= part <= size;
    assert FirstBucketShare(at, window) == part as real / size as real;
    ShareOfWhole(part, size);
  }

  lemma ShareOfWhole(part: int, whole: int)
    requires 0 <= part <= whole && whole > 0
    ensures 0.0 <= part as real / whole as real <= 1.0
  {
  }

  lemma MultipleNegates(x: int, d: int)
    requires d > 0 && x % d == 0
    ensures (-x) % d == 0
  {
    var q := x / d;
    assert x == d * q;
    Negated(d, q);
    DivisionOf(-x, d, -q);
  }

  lemma DivisionOf(x: int, d: int, q: int)
    requires d > 0 && x == d * q
    ensures x % d == 0
  {
    DivBounds(x, d);
    DivAtLeast(x, d, q);
    DivisionBelow(x, d, q);
  }

  lemma ScaledBetween(count: nat, share: real)
    requires 0.0 <= share <= 1.0
    ensures 0.0 <= Scaled(count, share) <= count as real
  {
    ProductBetween(count as real, share);
  }

  lemma ProductBetween(x: real, share: real)
    requires x >= 0.0 && 0.0 <= share <= 1.0
    ensures 0.0 <= x * share <= x
  {
  }

  lemma RoundBetween(x: real, low: int, high: int)
    requires low as real <= x <= high as real
    ensures low <= Round(x) <= high
  {
  }

  lemma RoundNear(extra: real, base: int, most: nat)
    requires 0.0 <= extra <= most as real
    ensures base <= Round(extra + base as real) <= base + most
  {
    RoundBetween(extra + base as real, base, base + most);
  }

  lemma FirstIsPart(history: seq<Bump>, key: string, window: int, at: int)
    requires window > 0 && window % 10 == 0 && UpTo(history, at)
    ensures var all := CountSince(history, key, window, BucketStart(at - window, BucketSize(window)));
      && FirstCount(history, key, window, at) <= all
      && SumBuckets(history, key, window, AllBuckets(at, window)[1..]) == all - FirstCount(history, key, window, at)
  {
    SumIsCountSince(history, key, window, at);
    SumSplits(history, key, window, AllBuckets(at, window));
  }

  /** The part of the first bucket that a share of at most one keeps is between nothing and the whole. */
  lemma ShareKeepsClose(first: nat, rest: nat, exact: nat, share: real)
    requires 0.0 <= share <= 1.0 && rest <= exact <= rest + first
    ensures Close(Weighted(first, rest, share), exact, first)
  {
    ScaledBetween(first, share);
    RoundNear(Scaled(first, share), rest, first);
  }

  /** A share between one and two stays close when the whole bucket lies in the window. */
  lemma DoubleShareKeepsClose(first: nat, rest: nat, share: real)
    requires 1.0 <= share <= 2.0
    ensures Close(Weighted(first, rest, share), first + rest, first)
  {
    var extra := Scaled(first, share - 1.0);
    ScaledBetween(first, share - 1.0);
    ScaledSplits(first, share);
    RoundNear(extra, first + rest, first);
    assert Scaled(first, share) + rest as real == extra + (first + rest) as real;
  }

  lemma ScaledSplits(count: nat, share: real)
    ensures Scaled(count, share) == Scaled(count, share - 1.0) + count as real
  {
  }

  lemma FairEstimateIsClose(history: seq<Bump>, key: string, window: int, at: int)
    requires window > 0 && window % 10 == 0 && UpTo(history, at) && ShareIsFair(at, window)
    ensures Close(Estimate(history, key, window, at), CountSince(history, key, window, at - window),
        FirstCount(history, key, window, at))
  {
    if at >= window || (at - window) % BucketSize(window) == 0 {
      ShareBounds(at, window);
      FairEstimate(history, key, window, at, FirstBucketShare(at, window));
    } else {
      LowEndShare(at, window);
      LowEndEstimate(history, key, window, at, FirstBucketShare(at, window));
    }
  }

  lemma FairEstimate(history: seq<Bump>, key: string, window: int, at: int, share: real)
    requires window > 0 && window % 10 == 0 && UpTo(history, at) && share == FirstBucketShare(at, window)
        && 0.0 <= share <= 1.0
    ensures Close(Estimate(history, key, window, at), CountSince(history, key, window, at - window),
                  FirstCount(history, key, window, at))
  {
    FirstIsPart(history, key, window, at);
    LeftOutOfFirst(history, key, window, at);
    ShareKeepsClose(FirstCount(history, key, window, at), SumBuckets(history, key, window, AllBuckets(at, window)[1..]),
                    CountSince(history, key, window, at - window), share);
  }

  lemma LowEndEstimate(history: seq<Bump>, key: string, window: int, at: int, share: real)
    requires window > 0 && window % 10 == 0 && UpTo(history, at) && share == FirstBucketShare(at, window)
        && 1.0 <= share <= 2.0
    requires BucketStart(at - window, BucketSize(window)) == at - window
    ensures Close(Estimate(history, key, window, at), CountSince(history, key, window, at - window),
                  FirstCount(history, key, window, at))
  {
    FirstIsPart(history, key, window, at);
    DoubleShareKeepsClose(FirstCount(history, key, window, at),
      SumBuckets(history, key, window, AllBuckets(at, window)[1..]), share);
  }

  /**
   * A window that starts at the very low end of a bucket before 1970 takes more than all of the bucket,
   * but less than twice.
   */
  lemma LowEndShare(at: int, window: int)
    requires BucketSize(window) > 1 && at < window && (at - window) % BucketSize(window) == 1
    ensures BucketStart(at - window, BucketSize(window)) == at - window
    ensures 1.0 <= FirstBucketShare(at, window) <= 2.0
  {
    var size, start := BucketSize(window), at - window;
    BucketTimeIsNumber(start, size);
    var q := start / size;
    assert start == size * q + 1;
    var n := BucketNumber(start, size);
    // start is one above a multiple, so its bucket is the next multiple
    Negated(size, q);
    Distribute(size, -q, -1);
    assert -start == size * (-q - 1) + (size - 1);
    QuotientIs(-start, size, -q - 1, size - 1);
    assert n == q + 1;
    Distribute(size, q, 1);
    assert BucketTime(start, size) == start + size - 1;
    ShareOfWhole(size - 1, size);
    assert FirstBucketShare(at, window) == (size + (size - 1)) as real / size as real;
    SplitShare(size, size - 1);
  }

  lemma SplitShare(whole: int, part: int)
    requires whole > 0
    ensures (whole + part) as real / whole as real == 1.0 + part as real / whole as real
  {
    var x := part as real / whole as real;
    assert x * whole as real == part as real;
    QuotientOf((whole + part) as real, whole as real, 1.0 + x);
  }

  lemma QuotientOf(z: real, w: real, y: real)
    requires w != 0.0 && y * w == z
    ensures z / w == y
  {
  }

  lemma QuotientIs(x: int, d: int, q: int, r: int)
    requires d > 0 && x == d * q + r && 0 <= r < d
    ensures x / d == q
  {
    DivAtLeast(x, d, q);
    DivisionBelow(x, d, q);
  }

  /** Many bumps just before a window that starts, before 1970, further inside a bucket. */
  lemma UnfairEstimateIsFar(key: string, window: int, at: int)
    requires window > 0 && window % 10 == 0 && !ShareIsFair(at, window)
    ensures var size := BucketSize(window);
      var history := [Bump(key, window, at - window - 1, 2 * size)];
      UpTo(history, at)
      && !Close(Estimate(history, key, window, at), CountSince(history, key, window, at - window),
         FirstCount(history, key, window, at))
  {
    var size, start := BucketSize(window), at - window;
    var e := Bump(key, window, start - 1, 2 * size);
    var history := [e];
    InnerShare(start, size);
    assert history[..0] == [] && history[0] == e;
    assert AllBuckets(at, window)[0] == BucketTime(start, size);
    assert InBucket(e, BucketKey(key, window, AllBuckets(at, window)[0]));
    assert CountIn(history[..0], BucketKey(key, window, AllBuckets(at, window)[0])) == 0;
    assert FirstCount(history, key, window, at) == 2 * size;
    assert CountSince(history, key, window, start) == 0;
    FirstIsPart(history, key, window, at);
    BucketStartExact(start, start - 1, size);
    NumberOfSameTime(start - 1, start, size);
    assert CountSince(history, key, window, BucketStart(start, size)) == 2 * size;
    var share := FirstBucketShare(at, window);
    var over := BucketTime(start, size) - start;
    assert share == (size + over) as real / size as real;
    SplitShare(size, over);
    TimesShare(size, over);
    assert (2 * size) as real * share == (2 * size + 2 * over) as real;
  }

  lemma TimesShare(size: int, over: int)
    requires size > 0
    ensures (2 * size) as real * (1.0 + over as real / size as real) == (2 * size + 2 * over) as real
  {
    assert size as real * (over as real / size as real) == over as real;
  }

  lemma NumberOfSameTime(t: int, u: int, size: int)
    requires size > 0 && BucketTime(t, size) == BucketTime(u, size)
    ensures BucketNumber(t, size) == BucketNumber(u, size)
  {
    BucketTimeIsNumber(t, size);
    BucketTimeIsNumber(u, size);
    SameMultiple(size, BucketNumber(t, size), BucketNumber(u, size));
  }

  /** Inside a bucket before 1970: the time before is in the same bucket, and the bucket's time is later. */
  lemma InnerShare(start: int, size: int)
    requires size > 0 && start < 0 && start % size >= 2
    ensures BucketTime(start - 1, size) == BucketTime(start, size) && BucketTime(start, size) - start >= 1
  {
    var q, r := start / size, start % size;
    assert start == size * q + r;
    Negated(size, q);
    Distribute(size, -q, -1);
    QuotientIs(-start, size, -q - 1, size - r);
    QuotientIs(-(start - 1), size, -q - 1, size - r + 1);
    BucketTimeIsNumber(start, size);
    BucketTimeIsNumber(start - 1, size);
    Distribute(size, q, 1);
  }

  /** The estimate is within the first bucket of the true count for every history up to now. */
  ghost predicate AlwaysClose(key: string, window: int, at: int)
    requires BucketSize(window) > 0
  {
    forall history :: UpTo(history, at) ==>
      Close(Estimate(history, key, window, at), CountSince(history, key, window, at - window),
        FirstCount(history, key, window, at))
  }

  /**
   * For a window divisible by ten, the estimate is always within the content of the first bucket of
   * the true count exactly when the first bucket is given a fair share.
   */
  lemma EstimateError(key: string, window: int, at: int)
    requires window > 0 && window % 10 == 0
    ensures AlwaysClose(key, window, at) <==> ShareIsFair(at, window)
  {
    if ShareIsFair(at, window) {
      forall history | UpTo(history, at)
        ensures Close(Estimate(history, key, window, at), CountSince(history, key, window, at - window),
            FirstCount(history, key, window, at))
      {
        FairEstimateIsClose(history, key, window, at);
      }
    } else {
      UnfairEstimateIsFar(key, window, at);
    }
  }
}
