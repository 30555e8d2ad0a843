/**
 * The protocol that assigns one id to each value for ever: any number of clients, interleaved at the
 * granularity of single store operations, and the encoding of ids as big integers.
 */
module UniqueIds {
  import opened Values

  const TIMESTAMP_SIZE: int := 0x100_0000_0000
  const TIMESTAMP_EPOCH: int := 1262304000000
  const REMAINDER_SIZE: int := 0x80_0000

  datatype SimpleId = SimpleId(timeMs: int, remainder: int)

  predicate ValidTime(timeMs: int) {
    timeMs >= TIMESTAMP_EPOCH && timeMs - TIMESTAMP_EPOCH < TIMESTAMP_SIZE
  }

  predicate ValidRemainder(remainder: int) {
    0 <= remainder < REMAINDER_SIZE
  }

  predicate ValidId(id: SimpleId) {
    ValidTime(id.timeMs) && ValidRemainder(id.remainder)
  }

  /** The time shifted left by the bits of a timestamp, plus the remainder. */
  function BigInt(id: SimpleId): int {
    id.timeMs * TIMESTAMP_SIZE + id.remainder
  }

  /** The time and the remainder can be read from the number: they are its upper and its lower bits. */
  lemma BigIntDecodes(id: SimpleId)
    requires ValidId(id)
    ensures BigInt(id) / 0x100_0000_0000 == id.timeMs && BigInt(id) % 0x100_0000_0000 == id.remainder
  {
  }

  /** An id of a later time has a larger number, whatever the remainders. */
  lemma LaterIsLarger(a: SimpleId, b: SimpleId)
    requires ValidId(a) && ValidId(b) && a.timeMs < b.timeMs
    ensures BigInt(a) < BigInt(b)
  {
    assert b.timeMs * TIMESTAMP_SIZE >= a.timeMs * TIMESTAMP_SIZE + TIMESTAMP_SIZE;
  }

  /** Different valid ids have different numbers. */
  lemma BigIntInjective(a: SimpleId, b: SimpleId)
    requires ValidId(a) && ValidId(b) && BigInt(a) == BigInt(b)
    ensures a == b
  {
    if a.timeMs < b.timeMs {
      LaterIsLarger(a, b);
    } else if b.timeMs < a.timeMs {
      LaterIsLarger(b, a);
    }
  }

  datatype IdKey = IdKey(kind: string, value: string)

  datatype Failure = InvalidTime | InvalidRemainder | SetFailed

  /** Where a client is: each state but the last three is followed by one store operation. */
  datatype Client =
    | Getting(key: IdKey)                          // fetch: about to look for a saved id
    | Creating(forKey: Option<IdKey>)              // create: about to increment the counter of a time
    | Setting(setKey: IdKey, id: SimpleId)         // fetch: about to save its new id, unless there is one
    | Rereading(raceKey: IdKey)                    // fetch: about to read the id that won the race
    | Returned(forWhich: Option<IdKey>, result: SimpleId)
    | Failed(why: Failure)
    | Idle

  predicate IsDone(c: Client) {
    c.Idle? || c.Returned? || c.Failed?
  }

  // ---------- the invariant ----------

  /** The ids handed out for a time are numbered from one up to its counter. */
  predicate Issued(counters: map<int, nat>, id: SimpleId) {
    id.timeMs in counters && 1 <= id.remainder <= counters[id.timeMs]
  }

  /** What one client's state says about the store. */
  predicate ClientFits(ids: map<IdKey, SimpleId>, counters: map<int, nat>, c: Client) {
    match c
    case Setting(_, id) => Issued(counters, id) && ValidId(id) && id !in ids.Values
    case Rereading(key) => key in ids
    case Returned(None, id) => Issued(counters, id) && ValidId(id) && id !in ids.Values
    case Returned(Some(key), id) => key in ids && ids[key] == id
    case Failed(why) => why != SetFailed
    case _ => true
  }

  /** The id that a client holds and that is not saved. */
  function Holding(c: Client): Option<SimpleId> {
    match c
    case Setting(_, id) => Some(id)
    case Returned(None, id) => Some(id)
    case _ => None
  }

  predicate StoreFits(ids: map<IdKey, SimpleId>, counters: map<int, nat>) {
    && (forall k :: k in ids ==> Issued(counters, ids[k]) && ValidId(ids[k]))
    && (forall k, k' :: k in ids && k' in ids && k != k' ==> ids[k] != ids[k'])
  }

  predicate ClientsFit(ids: map<IdKey, SimpleId>, counters: map<int, nat>, clients: map<nat, Client>) {
    && (forall n {:trigger clients[n]} :: n in clients ==> ClientFits(ids, counters, clients[n]))
    && (forall n, m {:trigger clients[n], clients[m]} :: n in clients && m in clients && n != m ==>
          Holding(clients[n]).None? || Holding(clients[n]) != Holding(clients[m]))
  }

  /** Everything that fetches have returned is what the store holds. */
  predicate CompletedFit(ids: map<IdKey, SimpleId>, completed: set<(IdKey, SimpleId)>) {
    forall r :: r in completed ==> r.0 in ids && ids[r.0] == r.1
  }

  lemma CounterUp(ids: map<IdKey, SimpleId>, counters: map<int, nat>, clients: map<nat, Client>, time: int)
    requires StoreFits(ids, counters) && ClientsFit(ids, counters, clients)
    ensures var count := (if time in counters then counters[time] else 0) + 1;
      && StoreFits(ids, counters[time := count]) && ClientsFit(ids, counters[time := count], clients)
      && Issued(counters[time := count], SimpleId(time, count)) && SimpleId(time, count) !in ids.Values
      && (forall n :: n in clients ==> Holding(clients[n]) != Some(SimpleId(time, count)))
  {
    var count := (if time in counters then counters[time] else 0) + 1;
    var counters' := counters[time := count];
    forall id | Issued(counters, id)
      ensures Issued(counters', id) && id != SimpleId(time, count)
    {
    }
    forall n | n in clients
      ensures ClientFits(ids, counters', clients[n]) && Holding(clients[n]) != Some(SimpleId(time, count))
    {
      assert ClientFits(ids, counters, clients[n]);
    }
  }

  lemma ClientMoves(ids: map<IdKey, SimpleId>, counters: map<int, nat>, clients: map<nat, Client>, n: nat, c: Client)
    requires ClientsFit(ids, counters, clients) && ClientFits(ids, counters, c)
    requires Holding(c).Some? ==> forall m :: m in clients && m != n ==> Holding(clients[m]) != Holding(c)
    ensures ClientsFit(ids, counters, clients[n := c])
  {
  }

  /** Saving a held id under a key that has none. */
  lemma IdSaved(ids: map<IdKey, SimpleId>, counters: map<int, nat>, clients: map<nat, Client>, n: nat, key: IdKey,
      id: SimpleId)
    requires StoreFits(ids, counters) && ClientsFit(ids, counters, clients)
    requires n in clients && clients[n] == Setting(key, id) && key !in ids
    ensures StoreFits(ids[key := id], counters)
    ensures ClientsFit(ids[key := id], counters, clients[n := Returned(Some(key), id)])
  {
    var ids', clients' := ids[key := id], clients[n := Returned(Some(key), id)];
    assert ClientFits(ids, counters, clients[n]);
    forall k | k in ids
      ensures ids[k] != id
    {
      assert ids[k] in ids.Values;
    }
    forall m | m in clients'
      ensures ClientFits(ids', counters, clients'[m])
    {
      if m != n {
        assert ClientFits(ids, counters, clients[m]);
        assert Holding(clients[n]).None? || Holding(clients[n]) != Holding(clients[m]);
        assert forall x :: x in ids'.Values ==> x in ids.Values || x == id;
      }
    }
  }

  datatype Event = FetchEvent(client: nat, key: IdKey) | CreateEvent(client: nat) | StepEvent(client: nat, clock: int)

  // ---------- runs as values ----------

  /** What the store holds and where all clients are. */
  datatype Service = Service(ids: map<IdKey, SimpleId>, counters: map<int, nat>, clients: map<nat, Client>) {
    function StateOf(n: nat): Client {
      if n in clients then clients[n] else Idle
    }
  }

  function CountAfter(counters: map<int, nat>, time: int): nat {
    (if time in counters then counters[time] else 0) + 1
  }

  /** Where a client is after creating the id with this remainder. */
  function Created(forKey: Option<IdKey>, timeMs: int, remainder: nat): Client {
    if !ValidTime(timeMs) then Failed(InvalidTime)
    else if !ValidRemainder(remainder) then Failed(InvalidRemainder)
    else if forKey.Some? then Setting(forKey.value, SimpleId(timeMs, remainder))
    else Returned(None, SimpleId(timeMs, remainder))
  }

  /** One store operation of client `n`. */
  function Stepped(s: Service, n: nat, clock: int): Service {
    match s.StateOf(n)
    case Getting(key) =>
      s.(clients := s.clients[n := if key in s.ids then Returned(Some(key), s.ids[key]) else Creating(Some(key))])
    case Creating(forKey) =>
      var count := CountAfter(s.counters, clock);
      s.(counters := s.counters[clock := count], clients := s.clients[n := Created(forKey, clock, count)])
    case Setting(key, id) =>
      if key in s.ids then s.(clients := s.clients[n := Rereading(key)])
      else s.(ids := s.ids[key := id], clients := s.clients[n := Returned(Some(key), id)])
    case Rereading(key) =>
      s.(clients := s.clients[n := if key in s.ids then Returned(Some(key), s.ids[key]) else Failed(SetFailed)])
    case _ => s
  }

  /** A client that is not busy takes up a call; a busy one makes its next store operation. */
  function Next(s: Service, event: Event): Service {
    match event
    case FetchEvent(n, key) => if IsDone(s.StateOf(n)) then s.(clients := s.clients[n := Getting(key)]) else s
    case CreateEvent(n) => if IsDone(s.StateOf(n)) then s.(clients := s.clients[n := Creating(None)]) else s
    case StepEvent(n, clock) => Stepped(s, n, clock)
  }

  function After(s: Service, events: seq<Event>): Service {
    if events == [] then s else Next(After(s, events[..|events| - 1]), events[|events| - 1])
  }

  // ---------- what becomes of a call ----------

  /** How many store operations a client still makes at most. */
  function OperationsLeft(c: Client): nat {
    match c
    case Getting(_) => 4
    case Creating(forKey) => if forKey.Some? then 3 else 1
    case Setting(_, _) => 2
    case Rereading(_) => 1
    case _ => 0
  }

  /** A fetch of `key` is under way, or has returned what is saved for it, or could not create an id. */
  predicate Fetches(s: Service, n: nat, key: IdKey) {
    match s.StateOf(n)
    case Getting(k) => k == key
    case Creating(forKey) => forKey == Some(key)
    case Setting(k, _) => k == key
    case Rereading(k) => k == key && key in s.ids
    case Returned(forWhich, id) => forWhich == Some(key) && key in s.ids && s.ids[key] == id
    case Failed(why) => why == InvalidTime || why == InvalidRemainder
    case Idle => false
  }

  /** `create` is under way, or has returned an id within the range of its time, or could not make one. */
  predicate Creates(s: Service, n: nat) {
    match s.StateOf(n)
    case Creating(forKey) => forKey == None
    case Returned(forWhich, id) => forWhich == None && Issued(s.counters, id) && ValidId(id)
    case Failed(why) => why == InvalidTime || why == InvalidRemainder
    case _ => false
  }

  predicate StepsOnly(events: seq<Event>, n: nat) {
    forall e :: e in events && e.client == n ==> e.StepEvent?
  }

  /** The number of store operations that client `n` is given time for. */
  function Steps(events: seq<Event>, n: nat): nat {
    if events == [] then 0
    else
      Steps(events[..|events| - 1], n)
      + if events[|events| - 1].StepEvent? && events[|events| - 1].client == n then 1 else 0
  }

  /** A failure has a reason: a clock out of range, or a time whose ids have run out. */
  predicate FailsForCause(s: Service, n: nat, events: seq<Event>) {
    s.StateOf(n).Failed? ==> exists e :: e in events && BadClock(s, n, e)
  }

  predicate BadClock(s: Service, n: nat, e: Event) {
    && e.StepEvent? && e.client == n
    && (!ValidTime(e.clock) || (e.clock in s.counters && s.counters[e.clock] >= REMAINDER_SIZE))
  }

  /** Operations of other clients, which may save ids and raise counters, do not disturb a call. */
  lemma OthersKeep(s: Service, e: Event, n: nat)
    requires e.client != n
    ensures Next(s, e).StateOf(n) == s.StateOf(n)
    ensures forall k :: k in s.ids ==> k in Next(s, e).ids && Next(s, e).ids[k] == s.ids[k]
    ensures forall t :: t in s.counters ==> t in Next(s, e).counters && Next(s, e).counters[t] >= s.counters[t]
  {
  }

  /** One operation of its own brings a call at least one operation nearer to its end. */
  lemma OwnStep(s: Service, n: nat, clock: int, key: Option<IdKey>)
    requires if key.Some? then Fetches(s, n, key.value) else Creates(s, n)
    ensures var s' := Stepped(s, n, clock);
      && (if key.Some? then Fetches(s', n, key.value) else Creates(s', n))
      && (OperationsLeft(s.StateOf(n)) > 0 ==> OperationsLeft(s'.StateOf(n)) < OperationsLeft(s.StateOf(n)))
      && (s'.StateOf(n).Failed? && !s.StateOf(n).Failed? ==> BadClock(s', n, StepEvent(n, clock)))
  {
  }

  lemma CauseKept(s: Service, n: nat, events: seq<Event>, event: Event)
    requires FailsForCause(s, n, events) && (event.client == n ==> event.StepEvent?)
    requires event.client == n && Next(s, event).StateOf(n).Failed? && !s.StateOf(n).Failed? ==>
      BadClock(Next(s, event), n, event)
    ensures FailsForCause(Next(s, event), n, events + [event])
  {
    var s' := Next(s, event);
    assert forall e :: e in events + [event] <==> e in events || e == event;
    if s.StateOf(n).Failed? {
      var e :| e in events && BadClock(s, n, e);
      assert BadClock(s', n, e);
    } else if s'.StateOf(n).Failed? {
      assert BadClock(s', n, event);
    }
  }

  /**
   * A call of any client among any others: it is still the same call, each store operation of its own
   * brings it nearer to its end, and it fails only for a reason.
   */
  lemma {:induction false} CallProgresses(s: Service, n: nat, key: Option<IdKey>, events: seq<Event>)
    requires if key.Some? then Fetches(s, n, key.value) else Creates(s, n)
    requires !s.StateOf(n).Failed? && StepsOnly(events, n)
    ensures var s' := After(s, events);
      && (if key.Some? then Fetches(s', n, key.value) else Creates(s', n))
      && OperationsLeft(s'.StateOf(n)) <= AtLeastZero(OperationsLeft(s.StateOf(n)) - Steps(events, n))
      && FailsForCause(s', n, events)
  {
    if events != [] {
      var front, last := events[..|events| - 1], events[|events| - 1];
      assert events == front + [last] && last in events;
      assert StepsOnly(front, n);
      CallProgresses(s, n, key, front);
      var before := After(s, front);
      if last.client == n {
        OwnStep(before, n, last.clock, key);
      } else {
        OthersKeep(before, last, n);
      }
      CauseKept(before, n, front, last);
    }
  }

  function AtLeastZero(x: int): nat {
    if x < 0 then 0 else x
  }

  /**
   * What a fetch comes to. After at most four store operations of its own, whatever all other clients
   * do in between, it has returned the id that is saved for its value, or its clock was out of range,
   * or the ids of a time had run out.
   */
  lemma FetchComesTo(s: Service, n: nat, key: IdKey, events: seq<Event>)
    requires IsDone(s.StateOf(n)) && StepsOnly(events, n) && Steps(events, n) >= 4
    ensures var s' := After(Next(s, FetchEvent(n, key)), events);
      if s'.StateOf(n).Failed? then FailsForCause(s', n, events)
      else key in s'.ids && s'.StateOf(n) == Returned(Some(key), s'.ids[key])
  {
    CallProgresses(Next(s, FetchEvent(n, key)), n, Some(key), events);
  }

  /** What creating an id comes to: after one store operation it has one, numbered within its time. */
  lemma CreateComesTo(s: Service, n: nat, events: seq<Event>)
    requires IsDone(s.StateOf(n)) && StepsOnly(events, n) && Steps(events, n) >= 1
    ensures var s' := After(Next(s, CreateEvent(n)), events);
      if s'.StateOf(n).Failed? then FailsForCause(s', n, events)
      else s'.StateOf(n).Returned? && s'.StateOf(n).forWhich == None
           && Issued(s'.counters, s'.StateOf(n).result) && ValidId(s'.StateOf(n).result)
  {
    CallProgresses(Next(s, CreateEvent(n)), n, None, events);
  }

  /** The store and all the clients that use it. */
  class RedisUniqueIdService {
    var ids: map<IdKey, SimpleId>
    var counters: map<int, nat>
    var clients: map<nat, Client>
    ghost var completed: set<(IdKey, SimpleId)>

    ghost predicate Valid()
      reads this
    {
      StoreFits(ids, counters) && ClientsFit(ids, counters, clients) && CompletedFit(ids, completed)
    }

    ghost function Contents(): Service
      reads this
    {
      Service(ids, counters, clients)
    }

    /** Nothing is ever unsaved or forgotten. */
    twostate predicate Grows()
      reads this
    {
      && (forall k :: k in old(ids) ==> k in ids && ids[k] == old(ids)[k])
      && old(completed) <= completed
    }

    constructor ()
      ensures Valid() && Contents() == Service(map[], map[], map[]) && completed == {}
    {
      ids, counters, clients, completed := map[], map[], map[], {};
    }

    function StateOf(n: nat): Client
      reads this
    {
      if n in clients then clients[n] else Idle
    }

    /** A client that is not busy starts to fetch the id of a value. */
    method StartFetch(n: nat, key: IdKey)
      requires Valid() && IsDone(StateOf(n))
      modifies `clients
      ensures Valid() && clients == old(clients)[n := Getting(key)]
    {
      ClientMoves(ids, counters, clients, n, Getting(key));
      clients := clients[n := Getting(key)];
    }

    method StartCreate(n: nat)
      requires Valid() && IsDone(StateOf(n))
      modifies `clients
      ensures Valid() && clients == old(clients)[n := Creating(None)]
    {
      ClientMoves(ids, counters, clients, n, Creating(None));
      clients := clients[n := Creating(None)];
    }

    /** The client finishes its fetch of `key`. */
    method Finish(n: nat, key: IdKey)
      requires Valid() && key in ids
      modifies `clients, `completed
      ensures Valid() && Grows() && clients == old(clients)[n := Returned(Some(key), ids[key])]
      ensures completed == old(completed) + {(key, ids[key])}
    {
      ClientMoves(ids, counters, clients, n, Returned(Some(key), ids[key]));
      clients := clients[n := Returned(Some(key), ids[key])];
      completed := completed + {(key, ids[key])};
    }

    /** `create`: the counter of the client's time gives the remainder; an id out of range is refused. */
    method Increment(n: nat, forKey: Option<IdKey>, timeMs: int)
      requires Valid() && n in clients && clients[n] == Creating(forKey)
      modifies `counters, `clients
      ensures Valid()
      ensures var count := (if timeMs in old(counters) then old(counters)[timeMs] else 0) + 1;
        && counters == old(counters)[timeMs := count]
        && clients == old(clients)[n := if !ValidTime(timeMs) then Failed(InvalidTime)
             else if !ValidRemainder(count) then Failed(InvalidRemainder)
             else if forKey.Some? then Setting(forKey.value, SimpleId(timeMs, count))
             else Returned(None, SimpleId(timeMs, count))]
    {
      var remainder := (if timeMs in counters then counters[timeMs] else 0) + 1;
      CounterUp(ids, counters, clients, timeMs);
      counters := counters[timeMs := remainder];
      var id := SimpleId(timeMs, remainder);
      var next :=
        if !ValidTime(timeMs) then Failed(InvalidTime)
        else if !ValidRemainder(remainder) then Failed(InvalidRemainder)
        else if forKey.Some? then Setting(forKey.value, id)
        else Returned(None, id);
      ClientMoves(ids, counters, clients, n, next);
      clients := clients[n := next];
    }

    /** `set` with `NX`: saves the id unless there is one already, and tells which. */
    method SetIfMissing(n: nat, key: IdKey, id: SimpleId)
      requires Valid() && n in clients && clients[n] == Setting(key, id)
      modifies `ids, `clients, `completed
      ensures Valid() && Grows()
      ensures key in old(ids) ==>
        ids == old(ids) && completed == old(completed) && clients == old(clients)[n := Rereading(key)]
      ensures key !in old(ids) ==>
        && ids == old(ids)[key := id] && completed == old(completed) + {(key, id)}
        && clients == old(clients)[n := Returned(Some(key), id)]
    {
      if key in ids {
        ClientMoves(ids, counters, clients, n, Rereading(key));
        clients := clients[n := Rereading(key)];
      } else {
        IdSaved(ids, counters, clients, n, key, id);
        ids := ids[key := id];
        clients := clients[n := Returned(Some(key), id)];
        completed := completed + {(key, id)};
      }
    }

    /**
     * One store operation of one client; the other clients stay where they are. A fetch looks for a
     * saved id, creates one if there is none, and saves it, unless another fetch has done so in between;
     * then it reads that one again, which is always there.
     */
    method Step(n: nat, clock: int)
      requires Valid() && !IsDone(StateOf(n))
      modifies this
      ensures Valid() && Grows() && Contents() == Stepped(old(Contents()), n, clock)
      ensures clients.Keys == old(clients.Keys) && forall m :: m in clients && m != n ==> clients[m] == old(clients)[m]
      ensures old(StateOf(n)).Getting? ==>
        var key := old(StateOf(n)).key;
        && ids == old(ids) && counters == old(counters)
        && StateOf(n) == if key in ids then Returned(Some(key), ids[key]) else Creating(Some(key))
      ensures old(StateOf(n)).Creating? ==>
        ids == old(ids) && (StateOf(n).Setting? ==> old(StateOf(n)).forKey == Some(StateOf(n).setKey))
      ensures old(StateOf(n)).Setting? ==>
        var key, id := old(StateOf(n)).setKey, old(StateOf(n)).id;
        && counters == old(counters)
        && if key in old(ids) then ids == old(ids) && StateOf(n) == Rereading(key)
           else ids == old(ids)[key := id] && StateOf(n) == Returned(Some(key), id)
      ensures old(StateOf(n)).Rereading? ==>
        var key := old(StateOf(n)).raceKey;
        ids == old(ids) && counters == old(counters) && key in ids && StateOf(n) == Returned(Some(key), ids[key])
      ensures forall key :: StateOf(n).Returned? && StateOf(n).forWhich == Some(key) ==>
        completed == old(completed) + {(key, StateOf(n).result)}
    {
      match clients[n]
      case Getting(key) =>
        if key in ids {
          Finish(n, key);
        } else {
          ClientMoves(ids, counters, clients, n, Creating(Some(key)));
          clients := clients[n := Creating(Some(key))];
        }
      case Creating(forKey) =>
        Increment(n, forKey, clock);
      case Setting(key, id) =>
        SetIfMissing(n, key, id);
      case Rereading(key) =>
        assert ClientFits(ids, counters, clients[n]);
        if key in ids {
          Finish(n, key);
        } else {
          // the source reports a failure here
          assert false;
        }
    }

    /** Any interleaving of any clients, with whatever clocks they have. */
    method Run(events: seq<Event>)
      requires Valid()
      modifies this
      ensures Valid() && Grows() && Contents() == After(old(Contents()), events)
    {
      for i := 0 to |events|
        invariant Valid() && Grows() && Contents() == After(old(Contents()), events[..i])
      {
        assert events[..i + 1][..i] == events[..i];
        match events[i]
        case FetchEvent(n, key) =>
          if IsDone(StateOf(n)) {
            StartFetch(n, key);
          }
        case CreateEvent(n) =>
          if IsDone(StateOf(n)) {
            StartCreate(n);
          }
        case StepEvent(n, clock) =>
          if !IsDone(StateOf(n)) {
            Step(n, clock);
          }
      }
      assert events[..|events|] == events;
    }
  }

  // ---------- what the invariant means ----------

  /** All fetches of one value return one id; fetches of different values return different ids and numbers. */
  lemma CompletedAgree(ids: map<IdKey, SimpleId>, counters: map<int, nat>, completed: set<(IdKey, SimpleId)>,
      a: (IdKey, SimpleId), b: (IdKey, SimpleId))
    requires StoreFits(ids, counters) && CompletedFit(ids, completed) && a in completed && b in completed
    ensures a.0 == b.0 <==> a.1 == b.1
    ensures a.0 == b.0 <==> BigInt(a.1) == BigInt(b.1)
  {
    assert ValidId(ids[a.0]) && ValidId(ids[b.0]);
    if BigInt(a.1) == BigInt(b.1) {
      BigIntInjective(a.1, b.1);
    }
  }

  /** No fetch ever fails to find the id that won the race, and a created id is nobody else's. */
  lemma ClientsAgree(ids: map<IdKey, SimpleId>, counters: map<int, nat>, clients: map<nat, Client>, n: nat, m: nat)
    requires StoreFits(ids, counters) && ClientsFit(ids, counters, clients) && n in clients && m in clients && n != m
    ensures clients[n] != Failed(SetFailed)
    ensures clients[n].Returned? && clients[m].Returned? && clients[n].result == clients[m].result ==>
      clients[n].forWhich.Some? && clients[n].forWhich == clients[m].forWhich
  {
    assert ClientFits(ids, counters, clients[n]) && ClientFits(ids, counters, clients[m]);
    assert Holding(clients[n]).None? || Holding(clients[n]) != Holding(clients[m]);
  }
}
