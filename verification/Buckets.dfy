/** The arithmetic of bucketed keys: bucket sizes, alignment, the buckets that a window reads, and expiry. */
module Buckets {
  import opened RateLimit

  const NUM_BUCKETS := 10

  /** The remainder of JavaScript, which has the sign of its dividend. */
  function JsRemainder(x: int, d: int): int
    requires d > 0
  {
    if x >= 0 then x % d else -((-x) % d)
  }

  function BucketSize(window: int): int {
    window / NUM_BUCKETS
  }

  /** The bucket of a time. Times before 1970 are negative and are rounded up, towards zero. */
  function BucketTime(t: int, size: int): int
    requires size > 0
  {
    t - JsRemainder(t, size)
  }

  function AllBuckets(at: int, window: int): (r: seq<int>)
    requires BucketSize(window) > 0
    ensures |r| == NUM_BUCKETS + 1
  {
    var startBucket := BucketTime(at - window, BucketSize(window));
    seq(NUM_BUCKETS + 1, (k: nat) => startBucket + k * BucketSize(window))
  }

  /** How long after its last change a bucket is kept, in milliseconds. */
  function KeptFor(window: int): int {
    CeilDiv(window + BucketSize(window), 1000) * 1000
  }

  lemma KeptLongEnough(window: int)
    ensures KeptFor(window) >= window + BucketSize(window)
  {
    CeilDivBounds(window + BucketSize(window), 1000);
  }

  // ---------- which times a bucket holds ----------

  /** The number of the bucket: its time divided by its size. */
  function BucketNumber(t: int, size: int): int
    requires size > 0
  {
    if t >= 0 then t / size else -((-t) / size)
  }

  lemma BucketTimeIsNumber(t: int, size: int)
    requires size > 0
    ensures BucketTime(t, size) == size * BucketNumber(t, size)
    ensures t >= 0 ==> 0 <= BucketTime(t, size) <= t < BucketTime(t, size) + size
    ensures t < 0 ==> BucketTime(t, size) - size < t <= BucketTime(t, size) <= 0
  {
    DivBounds(if t >= 0 then t else -t, size);
    DivAtLeast(if t >= 0 then t else -t, size, 0);
    MulMonotone(size, 0, if t >= 0 then t / size else (-t) / size);
    if t < 0 {
      assert -t == size * ((-t) / size) + (-t) % size;
      Negated(size, (-t) / size);
    }
  }

  lemma Negated(x: int, y: int)
    ensures x * -y == -(x * y)
  {
  }

  lemma NumberMonotone(t: int, u: int, size: int)
    requires size > 0 && t <= u
    ensures BucketNumber(t, size) <= BucketNumber(u, size)
  {
    if t >= 0 {
      DivMonotone(t, u, size);
    } else if u < 0 {
      DivMonotone(-u, -t, size);
    } else {
      DivAtLeast(u, size, 0);
      DivAtLeast(-t, size, 0);
    }
  }

  lemma NumberShift(t: int, size: int)
    requires size > 0
    ensures BucketNumber(t + 10 * size, size) <= BucketNumber(t, size) + 10
  {
    var u := t + 10 * size;
    if t >= 0 {
      DivBounds(u, size);
      DivBounds(t, size);
      Distribute(size, t / size, 10);
      DivisionBelow(u, size, t / size + 10);
    } else if u < 0 {
      DivShift(-u, -t, size, 10);
      DivBounds(-t, size);
      Distribute(size, (-t) / size, -10);
      DivAtLeast(-u, size, (-t) / size - 10);
    } else {
      // the window reaches from before 1970 to after
      DivBounds(-t, size);
      DivBounds(u, size);
      Distribute(size, 10, -((-t) / size));
      Negated(size, (-t) / size);
      DivisionBelow(u, size, 10 - (-t) / size);
    }
  }

  lemma DivisionBelow(x: int, d: int, q: int)
    requires d > 0 && x < d * q + d
    ensures x / d <= q
  {
    DivBounds(x, d);
    if x / d >= q + 1 {
      MulMonotone(d, q + 1, x / d);
      Distribute(d, q, 1);
    }
  }

  /** The first time that falls into the same bucket. */
  function BucketStart(t: int, size: int): int
    requires size > 0
  {
    if BucketTime(t, size) > 0 then BucketTime(t, size) else BucketTime(t, size) - size + 1
  }

  lemma BucketStartExact(t: int, e: int, size: int)
    requires size > 0
    ensures BucketNumber(e, size) >= BucketNumber(t, size) <==> e >= BucketStart(t, size)
    ensures BucketStart(t, size) <= t < BucketStart(t, size) + 2 * size
  {
    NumbersOrderBuckets(e, t, size);
    BucketBounds(t, size);
    BucketBounds(e, size);
  }

  /** A bucket holds the times of one size from its time on, or up to it, or both for the bucket at zero. */
  lemma BucketBounds(t: int, size: int)
    requires size > 0
    ensures t >= 0 ==> 0 <= BucketTime(t, size) <= t < BucketTime(t, size) + size
    ensures t < 0 ==> BucketTime(t, size) - size < t <= BucketTime(t, size) <= 0
  {
    BucketTimeIsNumber(t, size);
  }

  lemma NumbersOrderBuckets(e: int, t: int, size: int)
    requires size > 0
    ensures BucketNumber(e, size) >= BucketNumber(t, size) ==> BucketTime(e, size) >= BucketTime(t, size)
    ensures BucketNumber(e, size) < BucketNumber(t, size) ==> BucketTime(e, size) <= BucketTime(t, size) - size
  {
    BucketTimeIsNumber(t, size);
    BucketTimeIsNumber(e, size);
    var m, n := BucketNumber(e, size), BucketNumber(t, size);
    if m >= n {
      MulMonotone(size, n, m);
    } else {
      MulMonotone(size, m, n - 1);
      Distribute(size, n, -1);
    }
  }

  /** The bucket of `e` is one of the eleven that a fetch at `at` reads. */
  lemma ReadBuckets(at: int, window: int, e: int)
    requires BucketSize(window) > 0
    ensures var size := BucketSize(window);
      BucketTime(e, size) in AllBuckets(at, window) <==>
      0 <= BucketNumber(e, size) - BucketNumber(at - window, size) <= 10
  {
    var size, buckets := BucketSize(window), AllBuckets(at, window);
    var m, n := BucketNumber(e, size), BucketNumber(at - window, size);
    BucketTimeIsNumber(e, size);
    BucketTimeIsNumber(at - window, size);
    Distribute(size, n, m - n);
    if 0 <= m - n <= 10 {
      Commute(size, m - n);
      assert buckets[m - n] == BucketTime(e, size);
    }
    if BucketTime(e, size) in buckets {
      var k :| 0 <= k < |buckets| && buckets[k] == BucketTime(e, size);
      Commute(size, k);
      SameMultiple(size, m - n, k);
    }
  }

  lemma SameMultiple(d: int, x: int, y: int)
    requires d > 0 && d * x == d * y
    ensures x == y
  {
    if x < y {
      MulMonotone(d, x + 1, y);
      Distribute(d, x, 1);
    } else if y < x {
      MulMonotone(d, y + 1, x);
      Distribute(d, y, 1);
    }
  }

  /**
   * With a window divisible by ten, the buckets read hold, of the times up to `at`, exactly those
   * from the start of the first bucket on, and so all of the window.
   */
  lemma BucketsRead(at: int, window: int, e: int)
    requires window > 0 && window % 10 == 0 && e <= at
    ensures BucketTime(e, BucketSize(window)) in AllBuckets(at, window) <==>
        e >= BucketStart(at - window, BucketSize(window))
    ensures e >= at - window ==> BucketTime(e, BucketSize(window)) in AllBuckets(at, window)
  {
    var size := BucketSize(window);
    ReadBuckets(at, window, e);
    NumberMonotone(e, at, size);
    NumberShift(at - window, size);
    BucketStartExact(at - window, e, size);
  }

  /** Every time in every window is read. */
  ghost predicate CoversWindow(window: int)
    requires BucketSize(window) > 0
  {
    forall at: int, e: int {:trigger BucketTime(e, BucketSize(window)) in AllBuckets(at, window)} ::
      at - window <= e <= at ==> BucketTime(e, BucketSize(window)) in AllBuckets(at, window)
  }

  /** The eleven buckets cover every window exactly when the window is divisible by ten. */
  lemma CoverageExact(window: int)
    requires window >= 10
    ensures CoversWindow(window) <==> window % 10 == 0
  {
    if window % 10 == 0 {
      forall at: int, e: int | at - window <= e <= at
        ensures BucketTime(e, BucketSize(window)) in AllBuckets(at, window)
      {
        BucketsRead(at, window, e);
      }
    } else {
      var size := BucketSize(window);
      var at := window + size - 1;
      ReadBuckets(at, window, at);
      DivisionBelow(size - 1, size, 0);
      DivAtLeast(size - 1, size, 0);
      DivAtLeast(at, size, 11);
      assert BucketTime(at, size) !in AllBuckets(at, window);
    }
  }

  /** As long as the bucket of a bump at `e` is read, it has not expired. */
  ghost predicate NeverReadExpired(e: int, window: int)
    requires BucketSize(window) > 0
  {
    forall at {:trigger AllBuckets(at, window)} ::
      e <= at && BucketTime(e, BucketSize(window)) in AllBuckets(at, window) ==> at < e + KeptFor(window)
  }

  /**
   * The bump is after 1970, or before the bucket at zero, which is twice as wide as the others, or
   * late enough in that bucket for the expiry, rounded up to seconds, to outlast its reading.
   */
  predicate ExpiryHidden(e: int, window: int) {
    e >= 0 || e <= -BucketSize(window) || e + KeptFor(window) >= window + BucketSize(window)
  }

  lemma HiddenBeforeExpiry(at: int, window: int, e: int)
    requires BucketSize(window) > 0 && ExpiryHidden(e, window)
    requires BucketTime(e, BucketSize(window)) in AllBuckets(at, window)
    ensures at < e + KeptFor(window)
  {
    var size := BucketSize(window);
    ReadBuckets(at, window, e);
    NumbersOrderBuckets(e, at - window, size);
    BucketBounds(e, size);
    BucketBounds(at - window, size);
    KeptLongEnough(window);
    if -size < e < 0 {
      ZeroBucket(e, size);
    }
  }

  /** Times less than a size before 1970 share the bucket at zero. */
  lemma ZeroBucket(e: int, size: int)
    requires size > 0 && -size < e < size
    ensures BucketTime(e, size) == 0 && BucketNumber(e, size) == 0
  {
    DivAtLeast(if e >= 0 then e else -e, size, 0);
    DivisionBelow(if e >= 0 then e else -e, size, 0);
    BucketTimeIsNumber(e, size);
  }

  /** The time at which a bump that expires too early has expired and is still read. */
  lemma ReadAfterExpiry(window: int, e: int)
    requires BucketSize(window) > 0 && !ExpiryHidden(e, window)
    ensures var at := e + KeptFor(window);
      && window < at < window + BucketSize(window)
      && BucketTime(e, BucketSize(window)) == 0 == AllBuckets(at, window)[0]
  {
    var size, at := BucketSize(window), e + KeptFor(window);
    KeptLongEnough(window);
    ZeroBucket(e, size);
    ZeroBucket(at - window, size);
    assert AllBuckets(at, window)[0] == BucketTime(at - window, size);
  }

  /** Expiry never shows exactly for such bumps. */
  lemma ExpiryHiddenExactly(window: int, e: int)
    requires BucketSize(window) > 0
    ensures NeverReadExpired(e, window) <==> ExpiryHidden(e, window)
  {
    if ExpiryHidden(e, window) {
      forall at | e <= at && BucketTime(e, BucketSize(window)) in AllBuckets(at, window)
        ensures at < e + KeptFor(window)
      {
        HiddenBeforeExpiry(at, window, e);
      }
    } else {
      ReadAfterExpiry(window, e);
      KeptLongEnough(window);
      var at := e + KeptFor(window);
      assert AllBuckets(at, window)[0] in AllBuckets(at, window);
    }
  }

  /** Two times in one bucket are less than two bucket sizes apart. */
  lemma OneBucketClose(t: int, e: int, size: int)
    requires size > 0 && BucketTime(t, size) == BucketTime(e, size)
    ensures t - e < 2 * size
  {
    BucketBounds(t, size);
    BucketBounds(e, size);
  }
}
