/**
 * Counting distinct values: the bucketed service over exact sets with expiry, the exact reference
 * service, and the relation between their answers.
 */
module UniqueCounts {
  import opened Buckets
  import Counts

  /** One bump: some values seen under a key at a time, in a service with this window. */
  datatype Seen = Seen(key: string, window: int, at: int, hashes: seq<string>)

  type BucketKey = Counts.BucketKey

  /** The members of a stored set, and the time from which the store may drop it. */
  datatype HashSet = HashSet(members: set<string>, expiresAt: int)

  function SetOf(hashes: seq<string>): set<string> {
    set h | h in hashes
  }

  // ---------- what a history says ----------

  predicate IsSeenSince(e: Seen, key: string, start: int, h: string) {
    e.key == key && e.at >= start && h in e.hashes
  }

  /** The distinct values seen under a key from `start` on. */
  function SeenSince(history: seq<Seen>, key: string, start: int): (r: set<string>)
    ensures forall h :: h in r <==> exists e :: e in history && IsSeenSince(e, key, start, h)
  {
    set e, h | e in history && h in e.hashes && IsSeenSince(e, key, start, h) :: h
  }

  predicate Falls(e: Seen, k: BucketKey)
    requires BucketSize(k.window) > 0
  {
    e.key == k.key && e.window == k.window && BucketTime(e.at, BucketSize(k.window)) == k.bucket
  }

  ghost predicate MemberOf(history: seq<Seen>, k: BucketKey, h: string)
    requires BucketSize(k.window) > 0
  {
    exists e :: e in history && Falls(e, k) && h in e.hashes
  }

  /** The bumps of this key and window were made at times for which expiry never shows. */
  predicate HiddenFor(history: seq<Seen>, key: string, window: int) {
    forall e :: e in history && e.key == key && e.window == window ==> ExpiryHidden(e.at, window)
  }

  /** The bumps that a reference service would have been given by the counters of one window. */
  function OfWindow(history: seq<Seen>, window: int): (r: seq<Seen>)
    ensures forall e :: e in r <==> e in history && e.window == window
  {
    if history == [] then []
    else
      OfWindow(history[..|history| - 1], window)
      + if history[|history| - 1].window == window then [history[|history| - 1]] else []
  }

  /** All values in the eleven buckets of a window, expired or not. */
  function InBuckets(history: seq<Seen>, key: string, window: int, at: int): (r: set<string>)
    requires BucketSize(window) > 0
    ensures forall h :: h in r <==> exists e :: e in history && IsRead(e, key, window, at, h)
  {
    set e, h | e in history && h in e.hashes && IsRead(e, key, window, at, h) :: h
  }

  predicate IsRead(e: Seen, key: string, window: int, at: int, h: string)
    requires BucketSize(window) > 0
  {
    e.key == key && e.window == window && BucketTime(e.at, BucketSize(window)) in AllBuckets(at, window)
      && h in e.hashes
  }

  // ---------- the reference service ----------

  ghost predicate Recorded(history: seq<Seen>, key: string, entry: (int, string)) {
    exists e :: e in history && e.key == key && e.at == entry.0 && entry.1 in e.hashes
  }

  ghost predicate ListFits(data: seq<(int, string)>, history: seq<Seen>, key: string) {
    forall entry :: entry in data <==> Recorded(history, key, entry)
  }

  lemma ListAfterBump(data: seq<(int, string)>, push: seq<(int, string)>, history: seq<Seen>, e: Seen, key: string)
    requires ListFits(data, history, key)
    requires forall entry :: entry in push <==> e.key == key && e.at == entry.0 && entry.1 in e.hashes
    ensures ListFits(data + push, history + [e], key)
  {
    forall entry
      ensures entry in data + push <==> Recorded(history + [e], key, entry)
    {
      assert entry in data <==> Recorded(history, key, entry);
      assert forall e' :: e' in history + [e] <==> e' in history || e' == e;
      if Recorded(history, key, entry) {
        var e' :| e' in history && e'.key == key && e'.at == entry.0 && entry.1 in e'.hashes;
        assert e' in history + [e];
      }
    }
  }

  /** Every value is kept with its time for ever, and a fetch looks at all of them. */
  class RedisCountUniqueService {
    var db: map<string, seq<(int, string)>>
    ghost var history: seq<Seen>

    function ListOf(key: string): seq<(int, string)>
      reads this
    {
      if key in db then db[key] else []
    }

    ghost predicate Valid()
      reads this
    {
      forall key :: ListFits(ListOf(key), history, key)
    }

    constructor ()
      ensures Valid() && history == []
    {
      db, history := map[], [];
    }

    method Bump(at: int, key: string, sortedHashes: seq<string>, window: int)
      requires Valid()
      modifies this
      ensures Valid() && history == old(history) + [Seen(key, window, at, sortedHashes)]
    {
      var push := seq(|sortedHashes|, (i: nat) requires i < |sortedHashes| => (at, sortedHashes[i]));
      forall entry
        ensures entry in push <==> at == entry.0 && entry.1 in sortedHashes
      {
        if at == entry.0 && entry.1 in sortedHashes {
          var i :| 0 <= i < |sortedHashes| && sortedHashes[i] == entry.1;
          assert push[i] == entry;
        }
      }
      db := db[key := ListOf(key) + push];
      history := history + [Seen(key, window, at, sortedHashes)];
      forall k
        ensures ListFits(ListOf(k), history, k)
      {
        var pushed := if k == key then push else [];
        ListAfterBump(old(ListOf(k)), pushed, old(history), Seen(key, window, at, sortedHashes), k);
        assert old(ListOf(k)) + [] == old(ListOf(k));
      }
    }

    /** The distinct values from the start of the window on, together with those to be added. */
    method FetchCount(at: int, key: string, window: int, addHashes: seq<string>) returns (r: nat)
      requires Valid()
      ensures r == |SeenSince(history, key, at - window) + SetOf(addHashes)|
    {
      var hashes := GetHashes(key, at - window);
      DataIsSeen(key, at - window, hashes);
      r := |hashes + SetOf(addHashes)|;
    }

    lemma DataIsSeen(key: string, start: int, hashes: set<string>)
      requires Valid()
      requires forall h :: h in hashes <==>
          exists j :: 0 <= j < |ListOf(key)| && ListOf(key)[j].0 >= start && ListOf(key)[j].1 == h
      ensures hashes == SeenSince(history, key, start)
    {
      assert ListFits(ListOf(key), history, key);
      ListIsSeen(ListOf(key), history, key, start, hashes);
    }

    /** The distinct values with a time from `start` on. */
    method GetHashes(key: string, start: int) returns (hashes: set<string>)
      ensures forall h :: h in hashes <==>
          exists j :: 0 <= j < |ListOf(key)| && ListOf(key)[j].0 >= start && ListOf(key)[j].1 == h
    {
      var data := ListOf(key);
      hashes := {};
      for i := 0 to |data|
        invariant forall h :: h in hashes <==> exists j :: 0 <= j < i && data[j].0 >= start && data[j].1 == h
      {
        if data[i].0 >= start {
          hashes := hashes + {data[i].1};
        }
      }
    }
  }

  lemma ListIsSeen(data: seq<(int, string)>, history: seq<Seen>, key: string, start: int, hashes: set<string>)
    requires ListFits(data, history, key)
    requires forall h :: h in hashes <==> exists j :: 0 <= j < |data| && data[j].0 >= start && data[j].1 == h
    ensures hashes == SeenSince(history, key, start)
  {
    forall h
      ensures h in hashes <==> h in SeenSince(history, key, start)
    {
      if h in hashes {
        var j :| 0 <= j < |data| && data[j].0 >= start && data[j].1 == h;
        assert data[j] in data && Recorded(history, key, data[j]);
        var e :| e in history && e.key == key && e.at == data[j].0 && h in e.hashes;
        assert IsSeenSince(e, key, start, h);
      }
      if h in SeenSince(history, key, start) {
        var e :| e in history && IsSeenSince(e, key, start, h);
        assert Recorded(history, key, (e.at, h));
        assert (e.at, h) in data;
        var j :| 0 <= j < |data| && data[j] == (e.at, h);
      }
    }
  }

  // ---------- the bucketed service ----------

  /** A stored set holds all values of its bucket; one that is missing has none that are recent. */
  ghost predicate BucketFits(db: map<BucketKey, HashSet>, history: seq<Seen>, now: int, k: BucketKey)
    requires BucketSize(k.window) > 0
  {
    && (k in db ==> forall h :: h in db[k].members <==> MemberOf(history, k, h))
    && forall e {:trigger Falls(e, k)} :: e in history && Falls(e, k) ==>
         e.at + KeptFor(k.window) <= if k in db then db[k].expiresAt else now
  }

  ghost predicate Books(db: map<BucketKey, HashSet>, history: seq<Seen>, now: int) {
    && (forall e :: e in history ==> e.at <= now)
    && forall k: BucketKey {:trigger BucketFits(db, history, now, k)} :: BucketSize(k.window) > 0 ==>
       BucketFits(db, history, now, k)
  }

  function Added(db: map<BucketKey, HashSet>, e: Seen, k: BucketKey): HashSet {
    HashSet((if k in db then db[k].members else {}) + SetOf(e.hashes), e.at + KeptFor(e.window))
  }

  lemma MemberAfterBump(history: seq<Seen>, e: Seen, k: BucketKey, h: string)
    requires BucketSize(k.window) > 0
    ensures MemberOf(history + [e], k, h) <==> MemberOf(history, k, h) || (Falls(e, k) && h in e.hashes)
  {
    assert forall e' :: e' in history + [e] <==> e' in history || e' == e;
    if MemberOf(history, k, h) {
      var e' :| e' in history && Falls(e', k) && h in e'.hashes;
      assert e' in history + [e];
    }
  }

  lemma BooksAfterBump(db: map<BucketKey, HashSet>, history: seq<Seen>, now: int, e: Seen, k: BucketKey)
    requires Books(db, history, now) && now <= e.at && BucketSize(e.window) > 0
    requires k == Counts.BucketKey(e.key, e.window, BucketTime(e.at, BucketSize(e.window)))
    ensures Books(db[k := Added(db, e, k)], history + [e], e.at)
  {
    var db' := db[k := Added(db, e, k)];
    KeptLongEnough(e.window);
    forall k': BucketKey | BucketSize(k'.window) > 0
      ensures BucketFits(db', history + [e], e.at, k')
    {
      assert BucketFits(db, history, now, k');
      forall h
        ensures MemberOf(history + [e], k', h) <==> MemberOf(history, k', h) || (Falls(e, k') && h in e.hashes)
      {
        MemberAfterBump(history, e, k', h);
      }
      if k' == k && k !in db {
        forall e' | e' in history
          ensures !Falls(e', k)
        {
          if Falls(e', k) {
            OneBucketClose(e.at, e'.at, BucketSize(e.window));
          }
        }
      }
    }
  }

  lemma BooksAfterDrop(db: map<BucketKey, HashSet>, history: seq<Seen>, now: int, k: BucketKey, time: int)
    requires Books(db, history, now) && now <= time && k in db && db[k].expiresAt <= time
    ensures Books(db - {k}, history, time)
  {
    forall k': BucketKey | BucketSize(k'.window) > 0
      ensures BucketFits(db - {k}, history, time, k')
    {
      assert BucketFits(db, history, now, k');
    }
  }

  /** A set as the store shows it at a time. */
  function Visible(db: map<BucketKey, HashSet>, k: BucketKey, at: int): set<string> {
    if k in db && db[k].expiresAt > at then db[k].members else {}
  }

  ghost predicate Shown(db: map<BucketKey, HashSet>, key: string, window: int, at: int, buckets: seq<int>, h: string) {
    exists b :: b in buckets && h in Visible(db, Counts.BucketKey(key, window, b), at)
  }

  /** What a fetch reads under a bucket it looks at is every value of the bucket, expired or not. */
  lemma ReadIsMembers(db: map<BucketKey, HashSet>, history: seq<Seen>, now: int, k: BucketKey, at: int, h: string)
    requires Books(db, history, now) && now <= at && BucketSize(k.window) > 0 && HiddenFor(history, k.key, k.window)
    requires k.bucket in AllBuckets(at, k.window)
    ensures MemberOf(history, k, h) <==> h in Visible(db, k, at)
  {
    assert BucketFits(db, history, now, k);
    forall e | e in history && Falls(e, k)
      ensures k in db && db[k].expiresAt > at
    {
      HiddenBeforeExpiry(at, k.window, e.at);
    }
  }

  /** The union of the sets that the store still shows. */
  ghost predicate IsShown(union: set<string>, db: map<BucketKey, HashSet>, key: string, window: int, at: int)
    requires BucketSize(window) > 0
  {
    forall h :: h in union <==> Shown(db, key, window, at, AllBuckets(at, window), h)
  }

  /** The store shows every value of the buckets: nothing that has expired is missed. */
  lemma ShownIsRead(db: map<BucketKey, HashSet>, history: seq<Seen>, now: int, key: string, window: int, at: int,
      h: string)
    requires Books(db, history, now) && now <= at && BucketSize(window) > 0 && HiddenFor(history, key, window)
    ensures Shown(db, key, window, at, AllBuckets(at, window), h) <==> h in InBuckets(history, key, window, at)
  {
    var buckets := AllBuckets(at, window);
    if b :| b in buckets && h in Visible(db, Counts.BucketKey(key, window, b), at) {
      ReadIsMembers(db, history, now, Counts.BucketKey(key, window, b), at, h);
      var e :| e in history && Falls(e, Counts.BucketKey(key, window, b)) && h in e.hashes;
      assert IsRead(e, key, window, at, h);
    }
    if h in InBuckets(history, key, window, at) {
      var e :| e in history && IsRead(e, key, window, at, h);
      var k := Counts.BucketKey(key, window, BucketTime(e.at, BucketSize(window)));
      assert Falls(e, k);
      ReadIsMembers(db, history, now, k, at, h);
    }
  }

  /** For a window divisible by ten, the values in its buckets are those seen since the start of the first one. */
  lemma BucketsAreSeen(history: seq<Seen>, key: string, window: int, at: int)
    requires window > 0 && window % 10 == 0 && forall e :: e in history ==> e.at <= at
    ensures InBuckets(history, key, window, at) ==
        SeenSince(OfWindow(history, window), key, BucketStart(at - window, BucketSize(window)))
  {
    var start := BucketStart(at - window, BucketSize(window));
    forall h
      ensures h in InBuckets(history, key, window, at) <==> h in SeenSince(OfWindow(history, window), key, start)
    {
      forall e | e in history && e.window == window
        ensures IsRead(e, key, window, at, h) <==> IsSeenSince(e, key, start, h)
      {
        BucketsRead(at, window, e.at);
      }
    }
  }

  // ---------- when expiry shows ----------

  /** The store after a single bump. */
  function OneBump(e: Seen): map<BucketKey, HashSet>
    requires BucketSize(e.window) > 0
  {
    map[Counts.BucketKey(e.key, e.window, BucketTime(e.at, BucketSize(e.window))) :=
      HashSet(SetOf(e.hashes), e.at + KeptFor(e.window))]
  }

  /** After any single bump at this time, all later fetches see all its values while they read its bucket. */
  ghost predicate FetchesExact(key: string, window: int, t: int)
    requires BucketSize(window) > 0
  {
    forall hashes: seq<string>, at: int, h: string
      {:trigger Shown(OneBump(Seen(key, window, t, hashes)), key, window, at, AllBuckets(at, window), h)} :: t <= at ==>
      (Shown(OneBump(Seen(key, window, t, hashes)), key, window, at, AllBuckets(at, window), h) <==>
       h in InBuckets([Seen(key, window, t, hashes)], key, window, at))
  }

  lemma OneBumpBooks(e: Seen)
    requires BucketSize(e.window) > 0
    ensures Books(OneBump(e), [e], e.at)
  {
    var k := Counts.BucketKey(e.key, e.window, BucketTime(e.at, BucketSize(e.window)));
    assert Books(map[], [], e.at);
    BooksAfterBump(map[], [], e.at, e, k);
    assert [] + [e] == [e];
    assert {} + SetOf(e.hashes) == SetOf(e.hashes);
    assert map[][k := Added(map[], e, k)] == OneBump(e);
  }

  /** After a bump at any other time, a fetch at the time of its expiry reads its bucket and misses its values. */
  lemma ExpiryShows(key: string, window: int, t: int, h: string)
    requires BucketSize(window) > 0 && !ExpiryHidden(t, window)
    ensures var e, at := Seen(key, window, t, [h]), t + KeptFor(window);
      t <= at && !Shown(OneBump(e), key, window, at, AllBuckets(at, window), h) && h in InBuckets([e], key, window, at)
  {
    var e, at := Seen(key, window, t, [h]), t + KeptFor(window);
    ReadAfterExpiry(window, t);
    KeptLongEnough(window);
    assert AllBuckets(at, window)[0] in AllBuckets(at, window);
    assert e in [e] && IsRead(e, key, window, at, h);
  }

  /** Expiry never shows in a fetch exactly for bumps at such times. */
  lemma FetchesExactly(key: string, window: int, t: int)
    requires BucketSize(window) > 0
    ensures FetchesExact(key, window, t) <==> ExpiryHidden(t, window)
  {
    if ExpiryHidden(t, window) {
      forall hashes: seq<string>, at: int, h: string | t <= at
        ensures Shown(OneBump(Seen(key, window, t, hashes)), key, window, at, AllBuckets(at, window), h)
          <==> h in InBuckets([Seen(key, window, t, hashes)], key, window, at)
      {
        var e := Seen(key, window, t, hashes);
        OneBumpBooks(e);
        ShownIsRead(OneBump(e), [e], t, key, window, at, h);
      }
    } else {
      ExpiryShows(key, window, t, "");
    }
  }

  // ---------- the service ----------

  class RedisApproxCountUniqueService {
    var db: map<BucketKey, HashSet>
    /** The temporary sets that hold the values to be added, each stored under those values. */
    var temp: map<seq<string>, set<string>>
    ghost var history: seq<Seen>
    ghost var now: int

    ghost predicate Valid()
      reads this
    {
      Books(db, history, now) && forall hashes :: hashes in temp ==> temp[hashes] == SetOf(hashes)
    }

    constructor (start: int)
      ensures Valid() && history == [] && now == start
    {
      db, temp, history, now := map[], map[], [], start;
    }

    /** Drops something that has expired. */
    method Drop(k: BucketKey, time: int)
      requires Valid() && now <= time && k in db && db[k].expiresAt <= time
      modifies this
      ensures Valid() && history == old(history) && now == time && db == old(db) - {k}
    {
      BooksAfterDrop(db, history, now, k, time);
      db := db - {k};
      now := time;
    }

    method Bump(at: int, key: string, sortedHashes: seq<string>, window: int)
      requires Valid() && now <= at && BucketSize(window) > 0
      modifies this
      ensures Valid() && now == at && history == old(history) + [Seen(key, window, at, sortedHashes)]
      ensures var k := Counts.BucketKey(key, window, BucketTime(at, BucketSize(window)));
        db == old(db)[k := HashSet(old(Visible(db, k, at)) + SetOf(sortedHashes), at + KeptFor(window))]
    {
      var k := Counts.BucketKey(key, window, BucketTime(at, BucketSize(window)));
      // a set whose time has come is gone by the time it is added to
      if k in db && db[k].expiresAt <= at {
        Drop(k, at);
      }
      BooksAfterBump(db, history, now, Seen(key, window, at, sortedHashes), k);
      var entry := HashSet((if k in db then db[k].members else {}) + SetOf(sortedHashes), at + KeptFor(window));
      assert (old(db) - {k})[k := entry] == old(db)[k := entry];
      db := db[k := entry];
      history := history + [Seen(key, window, at, sortedHashes)];
      now := at;
    }

    /** The union of some sets, as `pfcount` forms it; one that is missing counts as empty. */
    method ReadUnion(at: int, key: string, window: int, buckets: seq<int>) returns (union: set<string>)
      ensures forall h :: h in union <==> Shown(db, key, window, at, buckets, h)
    {
      union := {};
      for i := 0 to |buckets|
        invariant forall h :: h in union <==> Shown(db, key, window, at, buckets[..i], h)
      {
        ghost var before := union;
        union := union + Visible(db, Counts.BucketKey(key, window, buckets[i]), at);
        forall h
          ensures h in union <==> Shown(db, key, window, at, buckets[..i + 1], h)
        {
          ShownOneMore(db, key, window, at, buckets, i, h);
          assert h in before <==> Shown(db, key, window, at, buckets[..i], h);
        }
      }
      assert buckets[..|buckets|] == buckets;
    }

    /**
     * The size of the union of the eleven buckets and the values to be added. As long as the bumps of
     * the key were made at times for which expiry never shows, that is all values of the buckets; for a
     * window divisible by ten, what the reference would count if the window began where its first bucket does.
     */
    method FetchCount(at: int, key: string, window: int, addHashes: seq<string>) returns (r: nat)
      requires Valid() && now <= at && BucketSize(window) > 0
      modifies `temp
      ensures Valid()
      ensures exists union :: IsShown(union, db, key, window, at) && r == |union + SetOf(addHashes)|
      ensures HiddenFor(history, key, window) ==> r == |InBuckets(history, key, window, at) + SetOf(addHashes)|
      ensures HiddenFor(history, key, window) && window % 10 == 0 ==>
        var start := BucketStart(at - window, BucketSize(window));
        r == |SeenSince(OfWindow(history, window), key, start) + SetOf(addHashes)|
    {
      var extra := AddTemporary(addHashes);
      var union := ReadUnion(at, key, window, AllBuckets(at, window));
      if HiddenFor(history, key, window) {
        UnionIsAll(db, history, now, at, key, window, union);
        if window % 10 == 0 {
          BucketsAreSeen(history, key, window, at);
        }
      }
      assert IsShown(union, db, key, window, at);
      r := |union + extra|;
    }

    /** Stores the values to be added in a set of their own, to be counted with the buckets. */
    method AddTemporary(addHashes: seq<string>) returns (extra: set<string>)
      requires Valid()
      modifies `temp
      ensures Valid() && extra == SetOf(addHashes)
    {
      extra := {};
      if |addHashes| > 0 {
        temp := temp[addHashes := (if addHashes in temp then temp[addHashes] else {}) + SetOf(addHashes)];
        extra := temp[addHashes];
      }
    }
  }

  lemma ShownOneMore(db: map<BucketKey, HashSet>, key: string, window: int, at: int, buckets: seq<int>, i: nat,
      h: string)
    requires i < |buckets|
    ensures Shown(db, key, window, at, buckets[..i + 1], h) <==>
            Shown(db, key, window, at, buckets[..i], h)
              || h in Visible(db, Counts.BucketKey(key, window, buckets[i]), at)
  {
    assert buckets[..i + 1] == buckets[..i] + [buckets[i]];
    assert forall b :: b in buckets[..i + 1] <==> b in buckets[..i] || b == buckets[i];
  }

  lemma UnionIsAll(db: map<BucketKey, HashSet>, history: seq<Seen>, now: int, at: int, key: string, window: int,
      union: set<string>)
    requires Books(db, history, now) && now <= at && BucketSize(window) > 0 && HiddenFor(history, key, window)
    requires forall h :: h in union <==> Shown(db, key, window, at, AllBuckets(at, window), h)
    ensures union == InBuckets(history, key, window, at)
  {
    forall h
      ensures h in union <==> h in InBuckets(history, key, window, at)
    {
      ShownIsRead(db, history, now, key, window, at, h);
    }
  }

  /**
   * The bucketed answer lies between the reference answer for the window and the reference answer
   * for the window moved back to the start of its first bucket, less than two buckets earlier.
   */
  lemma BetweenReferences(history: seq<Seen>, key: string, window: int, at: int, addHashes: seq<string>)
    requires BucketSize(window) > 0
    ensures var start := BucketStart(at - window, BucketSize(window));
      && SeenSince(history, key, at - window) <= SeenSince(history, key, start)
      && |SeenSince(history, key, at - window) + SetOf(addHashes)| <=
         |SeenSince(history, key, start) + SetOf(addHashes)|
      && at - window - start < 2 * BucketSize(window)
  {
    var start := BucketStart(at - window, BucketSize(window));
    BucketStartExact(at - window, at - window, BucketSize(window));
    forall h | h in SeenSince(history, key, at - window)
      ensures h in SeenSince(history, key, start)
    {
      var e :| e in history && IsSeenSince(e, key, at - window, h);
      assert IsSeenSince(e, key, start, h);
    }
    SubsetSize(SeenSince(history, key, at - window) + SetOf(addHashes),
      SeenSince(history, key, start) + SetOf(addHashes));
  }

  lemma {:induction false} SubsetSize(a: set<string>, b: set<string>)
    requires a <= b
    ensures |a| <= |b|
  {
    if a != {} {
      var x :| x in a;
      SubsetSize(a - {x}, b - {x});
    }
  }
}
