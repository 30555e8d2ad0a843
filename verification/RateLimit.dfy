/**
 * The lazily refilled token bucket: one step as the script performs it on the store, what every run
 * conserves, and how many tokens a stretch of calls can be granted.
 */
module RateLimit {
  import opened Values

  datatype Limits = Limits(maxAmount: int, refillTime: int, refillAmount: int)

  predicate ValidLimits(l: Limits) {
    l.maxAmount >= 1 && l.refillTime >= 1 && l.refillAmount >= 1
  }

  /** What is stored under a key, and the time from which the store may drop it. */
  datatype Bucket = Bucket(tokens: int, lastRefill: int, expiresAt: int)

  /** One call. `dropped` says that the store has dropped the key before the call. */
  datatype Call = Call(take: int, at: int, strict: bool, dropped: bool)

  /** `Math.ceil` of a quotient with a positive divisor. */
  function CeilDiv(x: int, d: int): int
    requires d > 0
  {
    -((-x) / d)
  }

  function Max(x: int, y: int): int {
    if x > y then x else y
  }

  function Min(x: int, y: int): int {
    if x < y then x else y
  }

  // ---------- one step ----------

  /** The bucket a call starts from: the stored one, or a full one. */
  function Loaded(b: Option<Bucket>, l: Limits, c: Call): Bucket {
    if b.Some? && !c.dropped then b.value else Bucket(l.maxAmount, c.at, c.at)
  }

  /** A clock that runs behind the last refill is put forward to it. */
  function EffectiveAt(b: Option<Bucket>, c: Call): int {
    if b.Some? && !c.dropped then Max(c.at, b.value.lastRefill) else c.at
  }

  /** Whole refills since the last one are added only when there are fewer tokens than asked for. */
  function Refilled(b: Bucket, l: Limits, take: int, at: int): Bucket
    requires ValidLimits(l)
  {
    if b.tokens >= take then b
    else
      var refills := (at - b.lastRefill) / l.refillTime;
      b.(lastRefill := b.lastRefill + refills * l.refillTime,
         tokens := Min(l.maxAmount, b.tokens + refills * l.refillAmount))
  }

  function Expiry(l: Limits, tokens: int): int
    requires ValidLimits(l)
  {
    CeilDiv(l.maxAmount - tokens, l.refillAmount) * l.refillTime
  }

  /** Taking tokens; `None` when nothing is written. */
  function Taken(b: Bucket, l: Limits, c: Call, at: int): Option<Bucket>
    requires ValidLimits(l)
  {
    if b.tokens == 0 then
      if c.strict then Some(Bucket(0, at, c.at + Expiry(l, 0))) else None
    else
      var tokens := Max(0, b.tokens - c.take);
      Some(Bucket(tokens, b.lastRefill, c.at + Expiry(l, tokens)))
  }

  /** What is stored after the call. */
  function After(b: Option<Bucket>, l: Limits, c: Call): Option<Bucket>
    requires ValidLimits(l)
  {
    var kept := if c.dropped then None else b;
    if c.take == 0 then kept
    else
      var at := EffectiveAt(b, c);
      var taken := Taken(Refilled(Loaded(b, l, c), l, c.take, at), l, c, at);
      if taken.Some? then taken else kept
  }

  /** The number the script returns: the tokens that were there before any were taken. */
  function Returned(b: Option<Bucket>, l: Limits, c: Call): int
    requires ValidLimits(l)
  {
    var loaded := Loaded(b, l, c);
    if c.take == 0 then loaded.tokens else Refilled(loaded, l, c.take, EffectiveAt(b, c)).tokens
  }

  /** The tokens that the caller is given: what it asked for, as far as there were any. */
  function Granted(b: Option<Bucket>, l: Limits, c: Call): int
    requires ValidLimits(l)
  {
    Min(c.take, Returned(b, l, c))
  }

  /** The keys of the store with the time at which it may drop each. */
  class RedisDatabase {
    var db: map<string, Bucket>

    ghost function Stored(key: string): Option<Bucket>
      reads this
    {
      if key in db then Some(db[key]) else None
    }

    /** The store drops a key whose time has come. */
    method Drop(key: string)
      modifies this
      ensures db == old(db) - {key}
    {
      db := db - {key};
    }

    /** The script. Keys other than its own are left alone. */
    method RateLimitFetch(key: string, l: Limits, take: int, callAt: int, strict: bool) returns (r: int)
      requires ValidLimits(l) && take >= 0
      modifies this
      ensures r == Returned(old(Stored(key)), l, Call(take, callAt, strict, false))
      ensures Stored(key) == After(old(Stored(key)), l, Call(take, callAt, strict, false))
      ensures db - {key} == old(db) - {key}
    {
      var at := callAt;
      var tokens, lastRefill;
      if key !in db {
        tokens, lastRefill := l.maxAmount, at;
      } else {
        tokens, lastRefill := db[key].tokens, db[key].lastRefill;
        if lastRefill > at {
          at := lastRefill;
        }
      }
      if take == 0 {
        return tokens;
      }
      if tokens < take {
        var refills := (at - lastRefill) / l.refillTime;
        lastRefill := lastRefill + refills * l.refillTime;
        tokens := Min(l.maxAmount, tokens + refills * l.refillAmount);
      }
      r := tokens;
      if tokens == 0 {
        if strict {
          lastRefill := at;
        } else {
          return 0;
        }
      } else {
        tokens := Max(0, tokens - take);
      }
      var expiry := CeilDiv(l.maxAmount - tokens, l.refillAmount) * l.refillTime;
      db := db[key := Bucket(tokens, lastRefill, callAt + expiry)];
    }
  }

  // ---------- arithmetic ----------

  lemma Distribute(d: int, x: int, y: int)
    ensures d * (x + y) == d * x + d * y
  {
  }

  lemma MulMonotone(d: int, x: int, y: int)
    requires d >= 0 && x <= y
    ensures d * x <= d * y
  {
  }

  lemma Commute(x: int, y: int)
    ensures x * y == y * x
  {
  }

  /** Floor division brackets its dividend. */
  lemma DivBounds(x: int, d: int)
    requires d > 0
    ensures d * (x / d) <= x < d * (x / d) + d
  {
  }

  lemma DivAtLeast(x: int, d: int, q: int)
    requires d > 0 && d * q <= x
    ensures q <= x / d
  {
    DivBounds(x, d);
    if x / d + 1 <= q {
      MulMonotone(d, x / d + 1, q);
      Distribute(d, x / d, 1);
    }
  }

  lemma DivMonotone(x: int, y: int, d: int)
    requires d > 0 && x <= y
    ensures x / d <= y / d
  {
    DivBounds(x, d);
    DivAtLeast(y, d, x / d);
  }

  /** Moving the dividend by at least `q` times the divisor moves the quotient by at least `q`. */
  lemma DivShift(x: int, y: int, d: int, q: int)
    requires d > 0 && x + q * d <= y
    ensures x / d + q <= y / d
  {
    DivBounds(x, d);
    Distribute(d, x / d, q);
    Commute(q, d);
    DivAtLeast(y, d, x / d + q);
  }

  lemma CeilDivBounds(x: int, d: int)
    requires d > 0
    ensures d * (CeilDiv(x, d) - 1) < x <= d * CeilDiv(x, d)
  {
    DivBounds(-x, d);
    var q := (-x) / d;
    Distribute(d, q, -q);
    Distribute(d, -q, -1);
  }

  // ---------- what a bucket always satisfies ----------

  /** Whatever the clock does: a stored bucket is neither overdrawn nor full. */
  predicate InBounds(b: Option<Bucket>, l: Limits) {
    b.Some? ==> 0 <= b.value.tokens < l.maxAmount
  }

  /**
   * With the clock of calls and store the same and never going back: not refilled in the future, and
   * full by its expiry.
   */
  predicate InTime(b: Option<Bucket>, l: Limits, now: int)
    requires ValidLimits(l)
  {
    b.Some? ==> b.value.lastRefill <= now && b.value.lastRefill + Expiry(l, b.value.tokens) <= b.value.expiresAt
  }

  /** The store drops a key only once its time has come. */
  predicate LegalDrop(b: Option<Bucket>, c: Call) {
    c.dropped && b.Some? ==> c.at >= b.value.expiresAt
  }

  lemma RefilledBounds(b: Bucket, l: Limits, take: int, at: int)
    requires ValidLimits(l) && 0 <= b.tokens <= l.maxAmount && b.lastRefill <= at
    ensures var r := Refilled(b, l, take, at);
      && b.tokens <= r.tokens <= l.maxAmount && b.lastRefill <= r.lastRefill <= at
      && l.refillTime * (r.tokens - b.tokens) <= l.refillAmount * (r.lastRefill - b.lastRefill)
  {
    if b.tokens < take {
      var refills := (at - b.lastRefill) / l.refillTime;
      DivBounds(at - b.lastRefill, l.refillTime);
      DivAtLeast(at - b.lastRefill, l.refillTime, 0);
      MulMonotone(l.refillTime, 0, refills);
      MulMonotone(l.refillAmount, 0, refills);
      Commute(refills, l.refillTime);
      Commute(refills, l.refillAmount);
      var r := Refilled(b, l, take, at);
      MulMonotone(l.refillTime, r.tokens - b.tokens, l.refillAmount * refills);
      Swap(l.refillTime, l.refillAmount, refills);
    }
  }

  lemma Swap(x: int, y: int, z: int)
    ensures x * (y * z) == y * (x * z)
  {
    calc {
      x * (y * z);
      (x * y) * z;
      { Commute(x, y); }
      (y * x) * z;
      y * (x * z);
    }
  }

  /** The call writes the key. */
  predicate Writes(b: Option<Bucket>, l: Limits, c: Call)
    requires ValidLimits(l)
  {
    c.take != 0 && Taken(Refilled(Loaded(b, l, c), l, c.take, EffectiveAt(b, c)), l, c, EffectiveAt(b, c)).Some?
  }

  /** Every key is written with a positive time to live, so the store never refuses to set it. */
  lemma ExpiryPositive(b: Option<Bucket>, l: Limits, c: Call)
    requires ValidLimits(l) && InBounds(b, l) && c.take >= 1 && Writes(b, l, c)
    ensures Expiry(l, After(b, l, c).value.tokens) >= l.refillTime
  {
    RefilledBounds(Loaded(b, l, c), l, c.take, EffectiveAt(b, c));
    var tokens := After(b, l, c).value.tokens;
    CeilDivBounds(l.maxAmount - tokens, l.refillAmount);
    if CeilDiv(l.maxAmount - tokens, l.refillAmount) <= 0 {
      MulMonotone(l.refillAmount, CeilDiv(l.maxAmount - tokens, l.refillAmount), 0);
    }
    MulMonotone(l.refillTime, 1, CeilDiv(l.maxAmount - tokens, l.refillAmount));
    Commute(l.refillTime, CeilDiv(l.maxAmount - tokens, l.refillAmount));
  }

  lemma StepKeepsBounds(b: Option<Bucket>, l: Limits, c: Call)
    requires ValidLimits(l) && InBounds(b, l) && c.take >= 0
    ensures InBounds(After(b, l, c), l)
    ensures 0 <= Granted(b, l, c) <= l.maxAmount
  {
    RefilledBounds(Loaded(b, l, c), l, c.take, EffectiveAt(b, c));
  }

  lemma StepKeepsTime(b: Option<Bucket>, l: Limits, c: Call, now: int)
    requires ValidLimits(l) && InBounds(b, l) && InTime(b, l, now) && c.take >= 0 && now <= c.at
    ensures EffectiveAt(b, c) == c.at && Loaded(b, l, c).lastRefill <= c.at
    ensures InTime(After(b, l, c), l, c.at)
  {
    RefilledBounds(Loaded(b, l, c), l, c.take, c.at);
  }

  // ---------- runs ----------

  function Final(b: Option<Bucket>, l: Limits, calls: seq<Call>): Option<Bucket>
    requires ValidLimits(l)
    decreases |calls|
  {
    if calls == [] then b else Final(After(b, l, calls[0]), l, calls[1..])
  }

  /** The tokens granted by the calls, added to what was granted before them. */
  function GrantedBy(b: Option<Bucket>, l: Limits, calls: seq<Call>, granted: int): int
    requires ValidLimits(l)
    decreases |calls|
  {
    if calls == [] then granted else GrantedBy(After(b, l, calls[0]), l, calls[1..], granted + Granted(b, l, calls[0]))
  }

  /** A run in which the clock never goes back and the store drops keys only when it may. */
  predicate Legal(b: Option<Bucket>, l: Limits, calls: seq<Call>, now: int)
    requires ValidLimits(l)
    decreases |calls|
  {
    calls == [] ||
      (now <= calls[0].at && calls[0].take >= 0 && LegalDrop(b, calls[0])
        && Legal(After(b, l, calls[0]), l, calls[1..], calls[0].at))
  }

  /** A run with clocks in any order, on a store that drops nothing. */
  predicate Undropped(calls: seq<Call>) {
    forall c :: c in calls ==> !c.dropped && c.take >= 0
  }

  /** The bucket, or the full one that a missing key stands for. */
  function Held(b: Option<Bucket>, l: Limits, now: int): Bucket {
    if b.Some? then b.value else Bucket(l.maxAmount, now, now)
  }

  // ---------- conservation ----------

  /** Tokens granted and tokens left are paid for by the full bucket and the refill time gone by. */
  predicate Conserved(h: Bucket, l: Limits, granted: int, created: int) {
    l.refillTime * (granted + h.tokens - l.maxAmount) <= l.refillAmount * (h.lastRefill - created)
  }

  lemma ConservedByRefill(h: Bucket, l: Limits, granted: int, created: int, take: int, at: int)
    requires ValidLimits(l) && 0 <= h.tokens <= l.maxAmount && h.lastRefill <= at
    requires Conserved(h, l, granted, created)
    ensures Conserved(Refilled(h, l, take, at), l, granted, created)
  {
    var r := Refilled(h, l, take, at);
    RefilledBounds(h, l, take, at);
    Distribute(l.refillTime, granted + h.tokens - l.maxAmount, r.tokens - h.tokens);
    Distribute(l.refillAmount, h.lastRefill - created, r.lastRefill - h.lastRefill);
  }

  lemma ConservedLater(h: Bucket, l: Limits, granted: int, created: int, later: int)
    requires ValidLimits(l) && Conserved(h, l, granted, created) && h.lastRefill <= later
    ensures Conserved(h.(lastRefill := later), l, granted, created)
  {
    MulMonotone(l.refillAmount, h.lastRefill - created, later - created);
  }

  /** Taking moves tokens from the bucket to the caller. */
  lemma ConservedByTaking(b: Option<Bucket>, l: Limits, c: Call, granted: int, created: int)
    requires ValidLimits(l) && InBounds(b, l) && c.take >= 1
    requires Conserved(Loaded(b, l, c), l, granted, created)
    ensures After(b, l, c).Some? && Conserved(After(b, l, c).value, l, granted + Granted(b, l, c), created)
    ensures After(b, l, c).value.lastRefill >= Loaded(b, l, c).lastRefill
  {
    var loaded, at := Loaded(b, l, c), EffectiveAt(b, c);
    ConservedByRefill(loaded, l, granted, created, c.take, at);
    RefilledBounds(loaded, l, c.take, at);
    var r := Refilled(loaded, l, c.take, at);
    if r.tokens == 0 {
      assert b.Some? && !c.dropped;
      ConservedLater(r, l, granted, created, at);
    }
  }

  /** With clocks in any order: conservation, bounds, and a last refill that never goes back. */
  lemma {:induction false} Conservation(b: Bucket, l: Limits, calls: seq<Call>, granted: int, created: int)
    requires ValidLimits(l) && InBounds(Some(b), l) && Undropped(calls) && Conserved(b, l, granted, created)
    ensures Final(Some(b), l, calls).Some? && InBounds(Final(Some(b), l, calls), l)
    ensures Final(Some(b), l, calls).value.lastRefill >= b.lastRefill
    ensures Conserved(Final(Some(b), l, calls).value, l, GrantedBy(Some(b), l, calls, granted), created)
    decreases |calls|
  {
    if calls != [] {
      var c := calls[0];
      assert c in calls;
      StepKeepsBounds(Some(b), l, c);
      if c.take > 0 {
        ConservedByTaking(Some(b), l, c, granted, created);
      }
      Conservation(After(Some(b), l, c).value, l, calls[1..], granted + Granted(Some(b), l, c), created);
    }
  }

  /** The time of the first call that takes any tokens, which is when the key is created. */
  function FirstTake(calls: seq<Call>): Option<int> {
    if calls == [] then None
    else if calls[0].take > 0 then Some(calls[0].at)
    else FirstTake(calls[1..])
  }

  /** The same from a missing key: nothing is granted or stored before a call takes, and that call starts the count. */
  lemma {:induction false} ConservationFromNothing(l: Limits, calls: seq<Call>)
    requires ValidLimits(l) && Undropped(calls)
    ensures InBounds(Final(None, l, calls), l)
    ensures Final(None, l, calls).Some? <==> FirstTake(calls).Some?
    ensures FirstTake(calls).None? ==> GrantedBy(None, l, calls, 0) == 0
    ensures FirstTake(calls).Some? ==>
      var created := FirstTake(calls).value;
      && Final(None, l, calls).value.lastRefill >= created
      && Conserved(Final(None, l, calls).value, l, GrantedBy(None, l, calls, 0), created)
    decreases |calls|
  {
    if calls != [] {
      var c := calls[0];
      assert c in calls;
      StepKeepsBounds(None, l, c);
      if c.take > 0 {
        ConservedByTaking(None, l, c, 0, c.at);
        Conservation(After(None, l, c).value, l, calls[1..], Granted(None, l, c), c.at);
      } else {
        ConservationFromNothing(l, calls[1..]);
      }
    }
  }

  /** A key dropped at its expiry would have been full again by then. */
  lemma DropIsRefill(b: Bucket, l: Limits, at: int, now: int)
    requires ValidLimits(l) && InBounds(Some(b), l) && InTime(Some(b), l, now) && at >= b.expiresAt
    ensures var n := CeilDiv(l.maxAmount - b.tokens, l.refillAmount);
      n >= 0 && l.maxAmount - b.tokens <= l.refillAmount * n && b.lastRefill + n * l.refillTime <= at
  {
    var n := CeilDiv(l.maxAmount - b.tokens, l.refillAmount);
    CeilDivBounds(l.maxAmount - b.tokens, l.refillAmount);
    if n < 0 {
      MulMonotone(l.refillAmount, n, -1);
    }
  }

  lemma ConservedByDrop(b: Bucket, l: Limits, at: int, now: int, granted: int, created: int)
    requires ValidLimits(l) && InBounds(Some(b), l) && InTime(Some(b), l, now) && at >= b.expiresAt
    requires Conserved(b, l, granted, created)
    ensures Conserved(Bucket(l.maxAmount, at, at), l, granted, created)
  {
    var n := CeilDiv(l.maxAmount - b.tokens, l.refillAmount);
    DropIsRefill(b, l, at, now);
    MulMonotone(l.refillTime, l.maxAmount - b.tokens, l.refillAmount * n);
    Swap(l.refillTime, l.refillAmount, n);
    Commute(n, l.refillTime);
    MulMonotone(l.refillAmount, l.refillTime * n, at - b.lastRefill);
    Distribute(l.refillTime, granted + b.tokens - l.maxAmount, l.maxAmount - b.tokens);
    Distribute(l.refillAmount, b.lastRefill - created, at - b.lastRefill);
  }

  lemma ConservedByLoading(b: Option<Bucket>, l: Limits, c: Call, now: int, granted: int, created: int)
    requires ValidLimits(l) && InBounds(b, l) && InTime(b, l, now) && now <= c.at && LegalDrop(b, c)
    requires Conserved(Held(b, l, now), l, granted, created)
    ensures Conserved(Loaded(b, l, c), l, granted, created)
  {
    if b.Some? && c.dropped {
      ConservedByDrop(b.value, l, c.at, now, granted, created);
    } else if b.None? {
      ConservedLater(Held(b, l, now), l, granted, created, c.at);
    }
  }

  /** With a clock that never goes back, conservation also survives the dropping of expired keys. */
  lemma {:induction false} ConservationWithExpiry(b: Option<Bucket>, l: Limits, calls: seq<Call>, now: int,
      granted: int, created: int)
    requires ValidLimits(l) && InBounds(b, l) && InTime(b, l, now) && Legal(b, l, calls, now)
    requires Conserved(Held(b, l, now), l, granted, created)
    ensures var last := if calls == [] then now else calls[|calls| - 1].at;
      && InBounds(Final(b, l, calls), l) && InTime(Final(b, l, calls), l, last)
      && Conserved(Held(Final(b, l, calls), l, last), l, GrantedBy(b, l, calls, granted), created)
    decreases |calls|
  {
    if calls != [] {
      var c := calls[0];
      StepKeepsBounds(b, l, c);
      StepKeepsTime(b, l, c, now);
      ConservedByLoading(b, l, c, now, granted, created);
      if c.take > 0 {
        ConservedByTaking(b, l, c, granted, created);
      }
      ConservationWithExpiry(After(b, l, c), l, calls[1..], c.at, granted + Granted(b, l, c), created);
    }
  }

  // ---------- how much a stretch of calls can be granted ----------

  /** Before the first refill of the stretch: no more than the bucket held at its start. */
  predicate Unrefilled(h: Bucket, l: Limits, granted: int) {
    granted + h.tokens < l.maxAmount
  }

  /** After it: one more full bucket, and the refills since, counted from just before the stretch. */
  predicate RefilledSince(h: Bucket, l: Limits, granted: int, from: int)
    requires ValidLimits(l)
  {
    && h.lastRefill >= from
    && granted + h.tokens < 2 * l.maxAmount + l.refillAmount * ((h.lastRefill - from) / l.refillTime)
  }

  predicate Bounded(h: Bucket, l: Limits, granted: int, from: int)
    requires ValidLimits(l)
  {
    Unrefilled(h, l, granted) || RefilledSince(h, l, granted, from)
  }

  /** A last refill that is later, and pays for the new tokens, keeps the bound. */
  lemma BoundKept(h: Bucket, l: Limits, granted: int, from: int, h': Bucket, refills: int)
    requires ValidLimits(l) && RefilledSince(h, l, granted, from)
    requires h'.tokens - h.tokens <= l.refillAmount * refills
        && h.lastRefill + refills * l.refillTime <= h'.lastRefill && refills >= 0
    ensures RefilledSince(h', l, granted, from)
  {
    MulMonotone(l.refillTime, 0, refills);
    Commute(refills, l.refillTime);
    DivShift(h.lastRefill - from, h'.lastRefill - from, l.refillTime, refills);
    Distribute(l.refillAmount, (h.lastRefill - from) / l.refillTime, refills);
    MulMonotone(l.refillAmount, (h.lastRefill - from) / l.refillTime + refills, (h'.lastRefill - from) / l.refillTime);
  }

  lemma FirstRefill(h: Bucket, l: Limits, granted: int, from: int)
    requires ValidLimits(l) && granted < l.maxAmount && h.tokens <= l.maxAmount && h.lastRefill >= from
    ensures RefilledSince(h, l, granted, from)
  {
    DivAtLeast(h.lastRefill - from, l.refillTime, 0);
    MulMonotone(l.refillAmount, 0, (h.lastRefill - from) / l.refillTime);
  }

  lemma BoundedByLoading(b: Option<Bucket>, l: Limits, c: Call, now: int, granted: int, from: int)
    requires ValidLimits(l) && InBounds(b, l) && InTime(b, l, now) && now <= c.at && LegalDrop(b, c) && from <= now
    requires Bounded(Held(b, l, now), l, granted, from)
    ensures Bounded(Loaded(b, l, c), l, granted, from)
  {
    var h, loaded := Held(b, l, now), Loaded(b, l, c);
    if Unrefilled(h, l, granted) {
      if b.None? || c.dropped {
        FirstRefill(loaded, l, granted, from);
      }
    } else if b.Some? && c.dropped {
      DropIsRefill(b.value, l, c.at, now);
      BoundKept(h, l, granted, from, loaded, CeilDiv(l.maxAmount - h.tokens, l.refillAmount));
    } else if b.None? {
      BoundKept(h, l, granted, from, loaded, 0);
    }
  }

  lemma BoundedByRefill(h: Bucket, l: Limits, granted: int, from: int, take: int, at: int)
    requires ValidLimits(l) && 0 <= h.tokens <= l.maxAmount && h.lastRefill <= at && from + l.refillTime - 1 <= at
    requires Bounded(h, l, granted, from)
    ensures Bounded(Refilled(h, l, take, at), l, granted, from)
  {
    if h.tokens < take {
      var r, refills := Refilled(h, l, take, at), (at - h.lastRefill) / l.refillTime;
      RefilledBounds(h, l, take, at);
      DivBounds(at - h.lastRefill, l.refillTime);
      DivAtLeast(at - h.lastRefill, l.refillTime, 0);
      Commute(l.refillTime, refills);
      Commute(l.refillAmount, refills);
      if Unrefilled(h, l, granted) {
        FirstRefill(r, l, granted, from);
      } else {
        BoundKept(h, l, granted, from, r, refills);
      }
    }
  }

  lemma BoundedByStep(b: Option<Bucket>, l: Limits, c: Call, now: int, granted: int, from: int)
    requires ValidLimits(l) && InBounds(b, l) && InTime(b, l, now) && now <= c.at && LegalDrop(b, c) && c.take >= 0
    requires from + l.refillTime - 1 <= now && Bounded(Held(b, l, now), l, granted, from)
    ensures Bounded(Held(After(b, l, c), l, c.at), l, granted + Granted(b, l, c), from)
  {
    var loaded := Loaded(b, l, c);
    StepKeepsBounds(b, l, c);
    StepKeepsTime(b, l, c, now);
    BoundedByLoading(b, l, c, now, granted, from);
    if c.take > 0 {
      var r := Refilled(loaded, l, c.take, c.at);
      RefilledBounds(loaded, l, c.take, c.at);
      BoundedByRefill(loaded, l, granted, from, c.take, c.at);
      if r.tokens == 0 && c.strict && !Unrefilled(r, l, granted) {
        BoundKept(r, l, granted, from, r.(lastRefill := c.at), 0);
      }
    }
  }

  lemma {:induction false} BoundedByRun(b: Option<Bucket>, l: Limits, calls: seq<Call>, now: int, granted: int,
      from: int)
    requires ValidLimits(l) && InBounds(b, l) && InTime(b, l, now) && Legal(b, l, calls, now)
    requires from + l.refillTime - 1 <= now && Bounded(Held(b, l, now), l, granted, from)
    ensures var last := if calls == [] then now else calls[|calls| - 1].at;
      && now <= last && InBounds(Final(b, l, calls), l) && InTime(Final(b, l, calls), l, last)
      && Bounded(Held(Final(b, l, calls), l, last), l, GrantedBy(b, l, calls, granted), from)
    decreases |calls|
  {
    if calls != [] {
      var c := calls[0];
      StepKeepsBounds(b, l, c);
      StepKeepsTime(b, l, c, now);
      BoundedByStep(b, l, c, now, granted, from);
      BoundedByRun(After(b, l, c), l, calls[1..], c.at, granted + Granted(b, l, c), from);
    }
  }

  lemma {:induction false} ReachedState(b: Option<Bucket>, l: Limits, before: seq<Call>, after: seq<Call>, now: int)
    requires ValidLimits(l) && InBounds(b, l) && InTime(b, l, now) && Legal(b, l, before + after, now)
    ensures var last := if before == [] then now else before[|before| - 1].at;
      && InBounds(Final(b, l, before), l) && InTime(Final(b, l, before), l, last)
         && Legal(Final(b, l, before), l, after, last)
    decreases |before|
  {
    if before == [] {
      assert before + after == after;
    } else {
      var c := before[0];
      assert (before + after)[0] == c && (before + after)[1..] == before[1..] + after;
      StepKeepsBounds(b, l, c);
      StepKeepsTime(b, l, c, now);
      ReachedState(After(b, l, c), l, before[1..], after, c.at);
    }
  }

  lemma LastQuotient(span: int, x: int, d: int)
    requires d > 0 && x <= span + d - 1
    ensures x / d <= CeilDiv(span, d)
  {
    CeilDivBounds(span, d);
    DivBounds(x, d);
    if x / d > CeilDiv(span, d) {
      MulMonotone(d, CeilDiv(span, d) + 1, x / d);
      Distribute(d, CeilDiv(span, d), 1);
    }
  }

  /** The bound as the last bucket of a stretch from `s` to `t` has it, in terms of the stretch alone. */
  lemma BoundOfSpan(h: Bucket, l: Limits, granted: int, s: int, t: int)
    requires ValidLimits(l) && 0 <= h.tokens && h.lastRefill <= t && s <= t
    requires Bounded(h, l, granted, s - l.refillTime + 1)
    ensures granted <= 2 * l.maxAmount - 1 + l.refillAmount * CeilDiv(t - s, l.refillTime)
  {
    var from, refills := s - l.refillTime + 1, CeilDiv(t - s, l.refillTime);
    LastQuotient(t - s, h.lastRefill - from, l.refillTime);
    LastQuotient(t - s, 0, l.refillTime);
    MulMonotone(l.refillAmount, 0, refills);
    if !Unrefilled(h, l, granted) {
      MulMonotone(l.refillAmount, (h.lastRefill - from) / l.refillTime, refills);
    }
  }

  /** At the start of a stretch nothing of it has been granted. */
  lemma BoundedAtStart(b: Option<Bucket>, l: Limits, s: int)
    requires ValidLimits(l) && InBounds(b, l)
    ensures Bounded(Held(b, l, s), l, 0, s - l.refillTime + 1)
  {
    if b.None? {
      FirstRefill(Held(b, l, s), l, 0, s - l.refillTime + 1);
    }
  }

  /**
   * In any run, strict or not, with or without expiry, the calls of a stretch from time `s` to time
   * `t` are granted less than two full buckets and one refill for every refill time begun in between.
   */
  lemma WindowBound(l: Limits, before: seq<Call>, stretch: seq<Call>, start: int)
    requires ValidLimits(l) && stretch != [] && Legal(None, l, before + stretch, start)
    ensures var s, t := stretch[0].at, stretch[|stretch| - 1].at;
      GrantedBy(Final(None, l, before), l, stretch, 0) <=
        2 * l.maxAmount - 1 + l.refillAmount * CeilDiv(t - s, l.refillTime)
  {
    ReachedState(None, l, before, stretch, start);
    var b, s, t := Final(None, l, before), stretch[0].at, stretch[|stretch| - 1].at;
    BoundedAtStart(b, l, s);
    BoundedByRun(b, l, stretch, s, 0, s - l.refillTime + 1);
    BoundOfSpan(Held(Final(b, l, stretch), l, t), l, GrantedBy(b, l, stretch, 0), s, t);
  }

  /** A call that finds enough tokens takes them without refilling. */
  lemma TakeWithoutRefill(b: Option<Bucket>, l: Limits, c: Call)
    requires ValidLimits(l) && c.take >= 1 && !c.dropped && Loaded(b, l, c).tokens >= c.take
        && Loaded(b, l, c).lastRefill <= c.at
    ensures Granted(b, l, c) == c.take && After(b, l, c).Some?
    ensures After(b, l, c).value.tokens == Loaded(b, l, c).tokens - c.take
    ensures After(b, l, c).value.lastRefill == Loaded(b, l, c).lastRefill
  {
  }

  /** The refill times after which an empty bucket is full again. */
  function TimeToFill(l: Limits): int
    requires ValidLimits(l)
  {
    CeilDiv(l.maxAmount, l.refillAmount) * l.refillTime
  }

  lemma FillTakesTime(l: Limits)
    requires ValidLimits(l)
    ensures TimeToFill(l) >= l.refillTime && TimeToFill(l) / l.refillTime == CeilDiv(l.maxAmount, l.refillAmount)
  {
    var n := CeilDiv(l.maxAmount, l.refillAmount);
    CeilDivBounds(l.maxAmount, l.refillAmount);
    if n <= 0 {
      MulMonotone(l.refillAmount, n, 0);
    }
    Commute(n, l.refillTime);
    MulMonotone(l.refillTime, 1, n);
    DivAtLeast(TimeToFill(l), l.refillTime, n);
    DivBounds(TimeToFill(l), l.refillTime);
    if TimeToFill(l) / l.refillTime > n {
      MulMonotone(l.refillTime, n + 1, TimeToFill(l) / l.refillTime);
      Distribute(l.refillTime, n, 1);
    }
  }

  /** An empty bucket that was last refilled long enough ago can be emptied again at once. */
  lemma EmptyAgain(b: Bucket, l: Limits, c: Call)
    requires ValidLimits(l) && c.take == l.maxAmount && !c.dropped
    requires b.tokens == 0 && c.at == b.lastRefill + TimeToFill(l)
    ensures Granted(Some(b), l, c) == l.maxAmount
  {
    FillTakesTime(l);
    CeilDivBounds(l.maxAmount, l.refillAmount);
    Commute(l.refillAmount, CeilDiv(l.maxAmount, l.refillAmount));
  }

  lemma FirstCall(b: Option<Bucket>, l: Limits, c: Call, rest: seq<Call>, granted: int, now: int)
    requires ValidLimits(l)
    ensures Final(b, l, [c] + rest) == Final(After(b, l, c), l, rest)
    ensures GrantedBy(b, l, [c] + rest, granted) == GrantedBy(After(b, l, c), l, rest, granted + Granted(b, l, c))
    ensures Legal(b, l, [c] + rest, now) <==>
        now <= c.at && c.take >= 0 && LegalDrop(b, c) && Legal(After(b, l, c), l, rest, c.at)
  {
    assert ([c] + rest)[1..] == rest;
  }

  /**
   * The bound is met, for all limits: a bucket that has one token missing, and that the store has not
   * dropped yet, is emptied twice at one instant once it is due to be refilled completely.
   */
  lemma WindowBoundTight(l: Limits)
    requires ValidLimits(l)
    ensures var before, t := Call(1, 0, false, false), TimeToFill(l);
      var stretch := [Call(l.maxAmount - 1, t, false, false)] + ([Call(l.maxAmount, t, false, false)] + []);
      && Legal(None, l, [before] + stretch, 0)
      && GrantedBy(Final(None, l, [before] + []), l, stretch, 0) == 2 * l.maxAmount - 1
  {
    var before, t := Call(1, 0, false, false), TimeToFill(l);
    var again, all := Call(l.maxAmount - 1, t, false, false), Call(l.maxAmount, t, false, false);
    FillTakesTime(l);
    TakeWithoutRefill(None, l, before);
    var b := After(None, l, before);
    if again.take > 0 {
      TakeWithoutRefill(b, l, again);
    }
    var empty := After(b, l, again);
    EmptyAgain(empty.value, l, all);
    FirstCall(None, l, before, [again] + ([all] + []), 0, 0);
    FirstCall(None, l, before, [], 0, 0);
    FirstCall(b, l, again, [all] + [], 0, 0);
    FirstCall(empty, l, all, [], l.maxAmount - 1, t);
  }

  // ---------- what a call can count on ----------

  /** A take of zero tells what is left and changes nothing; a missing key counts as a full bucket. */
  lemma ZeroTakeOnlyReads(b: Option<Bucket>, l: Limits, c: Call)
    requires ValidLimits(l) && c.take == 0 && !c.dropped
    ensures After(b, l, c) == b
    ensures Returned(b, l, c) == if b.Some? then b.value.tokens else l.maxAmount
  {
  }

  /**
   * A refill adds for every whole refill time that has passed, up to a full bucket, and keeps the rest
   * of the time for the next one. With enough tokens there is none.
   */
  lemma RefillExact(b: Bucket, l: Limits, take: int, at: int)
    requires ValidLimits(l) && b.lastRefill <= at
    ensures b.tokens >= take ==> Refilled(b, l, take, at) == b
    ensures b.tokens < take ==>
      var r := Refilled(b, l, take, at);
      && at - l.refillTime < r.lastRefill <= at && (r.lastRefill - b.lastRefill) % l.refillTime == 0
      && r.tokens == Min(l.maxAmount, b.tokens + l.refillAmount * ((at - b.lastRefill) / l.refillTime))
  {
    DivBounds(at - b.lastRefill, l.refillTime);
    Commute(l.refillTime, (at - b.lastRefill) / l.refillTime);
    Commute(l.refillAmount, (at - b.lastRefill) / l.refillTime);
    MultipleOf((at - b.lastRefill) / l.refillTime, l.refillTime);
  }

  lemma MultipleOf(q: int, d: int)
    requires d > 0
    ensures (q * d) % d == 0
  {
    DivBounds(q * d, d);
    DivAtLeast(q * d, d, q);
    Commute(q, d);
    if (q * d) / d > q {
      MulMonotone(d, q + 1, (q * d) / d);
      Distribute(d, q, 1);
    }
  }

  /** A key lives until its bucket would be full again, and not a refill time longer. */
  lemma ExpiryIsTimeToFill(l: Limits, tokens: int)
    requires ValidLimits(l)
    ensures exists refills :: Expiry(l, tokens) == refills * l.refillTime && JustFills(l, tokens, refills)
  {
    CeilDivBounds(l.maxAmount - tokens, l.refillAmount);
    var refills := CeilDiv(l.maxAmount - tokens, l.refillAmount);
    assert Expiry(l, tokens) == refills * l.refillTime && JustFills(l, tokens, refills);
  }

  predicate JustFills(l: Limits, tokens: int, refills: int) {
    tokens + l.refillAmount * (refills - 1) < l.maxAmount <= tokens + l.refillAmount * refills
  }

  /** What is granted is taken from the bucket, and nothing else; the time of the last refill stays. */
  lemma TakesExactly(b: Option<Bucket>, l: Limits, c: Call)
    requires ValidLimits(l) && InBounds(b, l) && c.take >= 1 && Returned(b, l, c) > 0
    ensures After(b, l, c).Some? && After(b, l, c).value.tokens + Granted(b, l, c) == Returned(b, l, c)
    ensures After(b, l, c).value.lastRefill ==
            Refilled(Loaded(b, l, c), l, c.take, EffectiveAt(b, c)).lastRefill
    ensures After(b, l, c).value.expiresAt == c.at + Expiry(l, After(b, l, c).value.tokens)
  {
  }

  /** A refill time after the last refill, a call gets what it asks for up to one refill, strict or not. */
  lemma GrantedAfterWait(b: Option<Bucket>, l: Limits, c: Call)
    requires ValidLimits(l) && InBounds(b, l) && c.take >= 1
    requires c.dropped || b.None? || c.at >= b.value.lastRefill + l.refillTime
    ensures Granted(b, l, c) >= Min(c.take, Min(l.refillAmount, l.maxAmount))
  {
    if b.Some? && !c.dropped {
      var refills := (c.at - b.value.lastRefill) / l.refillTime;
      DivAtLeast(c.at - b.value.lastRefill, l.refillTime, 1);
      MulMonotone(l.refillAmount, 1, refills);
      Commute(l.refillAmount, refills);
    }
  }

  /** An empty bucket gives nothing sooner than that. */
  lemma NothingBeforeWait(b: Bucket, l: Limits, c: Call)
    requires ValidLimits(l) && b.tokens == 0 && c.take >= 1 && !c.dropped && c.at < b.lastRefill + l.refillTime
    ensures Returned(Some(b), l, c) == 0
  {
    var at := EffectiveAt(Some(b), c);
    DivBounds(at - b.lastRefill, l.refillTime);
    DivAtLeast(at - b.lastRefill, l.refillTime, 0);
    if (at - b.lastRefill) / l.refillTime >= 1 {
      MulMonotone(l.refillTime, 1, (at - b.lastRefill) / l.refillTime);
    }
  }

  /** A call that is not strict and gets nothing leaves the key as it was, so the wait goes on. */
  lemma RefusedUnlessStrict(b: Option<Bucket>, l: Limits, c: Call)
    requires ValidLimits(l) && InBounds(b, l) && c.take >= 1 && !c.dropped && Returned(b, l, c) == 0
    ensures b.Some?
    ensures !c.strict ==> After(b, l, c) == b
    ensures c.strict ==>
      && After(b, l, c).Some? && After(b, l, c).value.tokens == 0
      && After(b, l, c).value.lastRefill == Max(c.at, b.value.lastRefill)
  {
  }

  /** Calls that take tokens on a store that drops nothing; all strict, or none of them. */
  predicate InMode(calls: seq<Call>, strict: bool) {
    forall c :: c in calls ==> c.take >= 1 && !c.dropped && c.strict == strict
  }

  /** Each call comes before a refill time has passed since the one before it. */
  predicate Hasty(calls: seq<Call>, l: Limits, last: int)
    decreases |calls|
  {
    calls == [] || (last <= calls[0].at < last + l.refillTime && Hasty(calls[1..], l, calls[0].at))
  }

  /** However often calls that are not strict are refused, they do not put off the next refill. */
  lemma {:induction false} RefusalsChangeNothing(b: Option<Bucket>, l: Limits, calls: seq<Call>, granted: int)
    requires ValidLimits(l) && InBounds(b, l) && InMode(calls, false)
    requires GrantedBy(b, l, calls, granted) == granted
    ensures Final(b, l, calls) == b
    decreases |calls|
  {
    if calls != [] {
      var c := calls[0];
      assert c in calls;
      StepKeepsBounds(b, l, c);
      GrantedGrows(After(b, l, c), l, calls[1..], granted + Granted(b, l, c));
      RefusedUnlessStrict(b, l, c);
      RefusalsChangeNothing(After(b, l, c), l, calls[1..], granted);
    }
  }

  lemma {:induction false} GrantedGrows(b: Option<Bucket>, l: Limits, calls: seq<Call>, granted: int)
    requires ValidLimits(l) && InBounds(b, l) && forall c :: c in calls ==> c.take >= 0
    ensures GrantedBy(b, l, calls, granted) >= granted
    decreases |calls|
  {
    if calls != [] {
      var c := calls[0];
      assert c in calls;
      StepKeepsBounds(b, l, c);
      GrantedGrows(After(b, l, c), l, calls[1..], granted + Granted(b, l, c));
    }
  }

  /**
   * Without the strict mode nobody is refused for longer than a refill time: after any number of calls
   * that got nothing, a call made a refill time after the last refill gets its tokens, up to one refill.
   */
  lemma RefusalEnds(b: Option<Bucket>, l: Limits, calls: seq<Call>, c: Call)
    requires ValidLimits(l) && InBounds(b, l) && InMode(calls, false) && c.take >= 1
    requires GrantedBy(b, l, calls, 0) == 0
    requires b.Some? ==> c.at >= b.value.lastRefill + l.refillTime
    ensures Granted(Final(b, l, calls), l, c) >= Min(c.take, Min(l.refillAmount, l.maxAmount))
  {
    RefusalsChangeNothing(b, l, calls, 0);
    GrantedAfterWait(b, l, c);
  }

  /**
   * In strict mode every refused call starts the wait anew: as long as no call leaves a refill time
   * after the one before it, all of them are refused, however long they go on.
   */
  lemma {:induction false} StrictRefusalGoesOn(b: Bucket, l: Limits, calls: seq<Call>, granted: int)
    requires ValidLimits(l) && b.tokens == 0 && InMode(calls, true) && Hasty(calls, l, b.lastRefill)
    ensures GrantedBy(Some(b), l, calls, granted) == granted
    ensures var last := Final(Some(b), l, calls);
      && last.Some? && last.value.tokens == 0
      && last.value.lastRefill == if calls == [] then b.lastRefill else calls[|calls| - 1].at
    decreases |calls|
  {
    if calls != [] {
      var c := calls[0];
      assert c in calls;
      NothingBeforeWait(b, l, c);
      RefusedUnlessStrict(Some(b), l, c);
      StrictRefusalGoesOn(After(Some(b), l, c).value, l, calls[1..], granted);
    }
  }

  /** After such calls, one more gets tokens exactly if it leaves a refill time after the last of them. */
  lemma StrictRefusalEnds(b: Bucket, l: Limits, calls: seq<Call>, c: Call)
    requires ValidLimits(l) && b.tokens == 0 && InMode(calls, true) && Hasty(calls, l, b.lastRefill)
    requires calls != [] && c.take >= 1 && !c.dropped
    ensures Granted(Final(Some(b), l, calls), l, c) > 0 <==> c.at >= calls[|calls| - 1].at + l.refillTime
  {
    StrictRefusalGoesOn(b, l, calls, 0);
    var last := Final(Some(b), l, calls);
    if c.at >= last.value.lastRefill + l.refillTime {
      GrantedAfterWait(last, l, c);
    } else {
      NothingBeforeWait(last.value, l, c);
    }
  }
}
