/**
 * Sessions over a token bucket: a call that finds enough tokens starts a session, and a call that finds
 * none is told when the current session started.
 */
module Sessions {
  import opened Values
  import opened RateLimit

  /** What is stored under a key. The start is null as long as no call has found enough tokens. */
  datatype Session = Session(start: Option<int>, tokens: int, lastRefill: int)

  /** One call; `dropped` says that the store has dropped the key before it. */
  datatype SessionCall = SessionCall(at: int, dropped: bool)

  /** The limits, and the tokens taken by each call; a take of zero is refused. */
  predicate ValidTake(l: Limits, take: int) {
    ValidLimits(l) && take >= 1
  }

  function Begun(b: Option<Session>, l: Limits, c: SessionCall): Session {
    if b.Some? && !c.dropped then b.value else Session(None, l.maxAmount, c.at)
  }

  /** The state after refilling, with a new session started when there are enough tokens. */
  function Ready(b: Option<Session>, l: Limits, take: int, c: SessionCall): Session
    requires ValidTake(l, take)
  {
    var s := Begun(b, l, c);
    var refilled := if s.tokens < take then
        var refills := (c.at - s.lastRefill) / l.refillTime;
        Session(s.start, Min(l.maxAmount, s.tokens + refills * l.refillAmount), s.lastRefill + refills * l.refillTime)
      else s;
    if refilled.tokens >= take then refilled.(start := Some(c.at)) else refilled
  }

  function Next(b: Option<Session>, l: Limits, take: int, c: SessionCall): Session
    requires ValidTake(l, take)
  {
    var s := Ready(b, l, take, c);
    if s.tokens == 0 then s.(lastRefill := c.at) else s.(tokens := Max(0, s.tokens - take))
  }

  /** The session start that the call is told, or null. */
  function Told(b: Option<Session>, l: Limits, take: int, c: SessionCall): Option<int>
    requires ValidTake(l, take)
  {
    var s := Ready(b, l, take, c);
    if s.tokens == 0 then s.start else None
  }

  class SessionDatabase {
    var db: map<string, Session>

    ghost function Stored(key: string): Option<Session>
      reads this
    {
      if key in db then Some(db[key]) else None
    }

    method Drop(key: string)
      modifies this
      ensures db == old(db) - {key}
    {
      db := db - {key};
    }

    /** The script; `None` is the error reply to a take of zero, which writes nothing. */
    method Sessionize(key: string, l: Limits, take: int, at: int) returns (r: Option<Option<int>>)
      requires ValidLimits(l) && take >= 0
      modifies this
      ensures take == 0 ==> r == None && db == old(db)
      ensures take > 0 ==> r == Some(Told(old(Stored(key)), l, take, SessionCall(at, false)))
      ensures take > 0 ==> Stored(key) == Some(Next(old(Stored(key)), l, take, SessionCall(at, false)))
      ensures db - {key} == old(db) - {key}
    {
      var tokens, lastRefill;
      var sessionStart: Option<int> := None;
      if key !in db {
        tokens, lastRefill := l.maxAmount, at;
      } else {
        sessionStart, tokens, lastRefill := db[key].start, db[key].tokens, db[key].lastRefill;
      }
      if take == 0 {
        return None;
      }
      if tokens < take {
        var refills := (at - lastRefill) / l.refillTime;
        lastRefill := lastRefill + refills * l.refillTime;
        tokens := Min(l.maxAmount, tokens + refills * l.refillAmount);
      }
      if tokens >= take {
        sessionStart := Some(at);
      }
      var returnedSession: Option<int> := None;
      if tokens == 0 {
        lastRefill := at;
        returnedSession := sessionStart;
      } else {
        tokens := Max(0, tokens - take);
      }
      db := db[key := Session(sessionStart, tokens, lastRefill)];
      return Some(returnedSession);
    }
  }

  // ---------- runs ----------

  /** The state before call `n` of a run on a key that is missing at first. */
  function Before(l: Limits, take: int, calls: seq<SessionCall>, n: nat): Option<Session>
    requires ValidTake(l, take) && n <= |calls|
  {
    if n == 0 then None else Some(Next(Before(l, take, calls, n - 1), l, take, calls[n - 1]))
  }

  function ToldAt(l: Limits, take: int, calls: seq<SessionCall>, n: nat): Option<int>
    requires ValidTake(l, take) && n < |calls|
  {
    Told(Before(l, take, calls, n), l, take, calls[n])
  }

  /** The clock never goes back. */
  predicate Nondecreasing(calls: seq<SessionCall>) {
    forall i :: 0 <= i < |calls| - 1 ==> calls[i].at <= calls[i + 1].at
  }

  /** Call `i` was made at time `start`, and no gap since, up to call `n`, is a refill time or more. */
  predicate StartedAt(l: Limits, calls: seq<SessionCall>, start: int, i: nat, n: nat) {
    && i <= n < |calls| && calls[i].at == start
    && forall k :: i <= k < n ==> calls[k + 1].at - calls[k].at < l.refillTime
  }

  /** A session start that a call is told is the time of an earlier call, with no long gap since. */
  ghost predicate GapFree(l: Limits, take: int, calls: seq<SessionCall>)
    requires ValidTake(l, take)
  {
    forall n :: 0 <= n < |calls| && ToldAt(l, take, calls, n).Some? ==>
      exists i: nat :: i < n && StartedAt(l, calls, ToldAt(l, take, calls, n).value, i, n)
  }

  /** Sessions never bridge a long gap, whatever the calls and whenever the store drops the key. */
  ghost predicate SessionsAreGapFree(l: Limits, take: int)
    requires ValidTake(l, take)
  {
    forall calls :: Nondecreasing(calls) ==> GapFree(l, take, calls)
  }

  /** After every call of every run there is a session to store: the packing of a start never meets a null. */
  ghost predicate StartsStored(l: Limits, take: int)
    requires ValidTake(l, take)
  {
    forall calls: seq<SessionCall>, n: nat {:trigger Before(l, take, calls, n)} :: 0 < n <= |calls| ==>
      Before(l, take, calls, n).value.start.Some?
  }

  lemma {:induction false} StartKept(l: Limits, take: int, calls: seq<SessionCall>, n: nat)
    requires ValidTake(l, take) && take <= l.maxAmount && 0 < n <= |calls|
    ensures Before(l, take, calls, n).value.start.Some?
  {
    if n > 1 {
      StartKept(l, take, calls, n - 1);
    }
  }

  /** Whatever the clock does, that is so exactly when a full bucket covers a take. */
  lemma StartsStoredExactly(l: Limits, take: int)
    requires ValidTake(l, take)
    ensures StartsStored(l, take) <==> take <= l.maxAmount
  {
    if take <= l.maxAmount {
      forall calls: seq<SessionCall>, n: nat | 0 < n <= |calls|
        ensures Before(l, take, calls, n).value.start.Some?
      {
        StartKept(l, take, calls, n);
      }
    } else {
      var calls := [SessionCall(0, false)];
      assert Before(l, take, calls, 0) == None;
      assert 0 / l.refillTime == 0;
      assert Before(l, take, calls, 1).value.start == None;
    }
  }

  // ---------- how sessions start, go on and end ----------

  /** A call that finds enough tokens starts a session, takes its tokens and is told nothing. */
  lemma SessionStarts(b: Option<Session>, l: Limits, take: int, c: SessionCall)
    requires ValidTake(l, take) && Ready(b, l, take, c).tokens >= take
    ensures Told(b, l, take, c) == None && Next(b, l, take, c).start == Some(c.at)
    ensures Next(b, l, take, c).tokens == Ready(b, l, take, c).tokens - take
  {
  }

  /** Each call comes before a refill time has passed since the one before it. */
  predicate WithoutGaps(calls: seq<SessionCall>, l: Limits, last: int)
    decreases |calls|
  {
    calls == [] ||
      (!calls[0].dropped && last <= calls[0].at < last + l.refillTime && WithoutGaps(calls[1..], l, calls[0].at))
  }

  /** The state after all calls of a run. */
  function AfterAll(s: Session, l: Limits, take: int, calls: seq<SessionCall>): Session
    requires ValidTake(l, take)
    decreases |calls|
  {
    if calls == [] then s else AfterAll(Next(Some(s), l, take, calls[0]), l, take, calls[1..])
  }

  /**
   * Once the tokens are used up, a session goes on for as long as no call leaves a refill time after
   * the one before it: every such call is told its start, and moves the time from which a gap counts.
   */
  lemma {:induction false} SessionGoesOn(s: Session, l: Limits, take: int, calls: seq<SessionCall>, c: SessionCall)
    requires ValidTake(l, take) && s.tokens == 0 && WithoutGaps(calls + [c], l, s.lastRefill)
    ensures var last := AfterAll(s, l, take, calls);
      && last == Session(s.start, 0, if calls == [] then s.lastRefill else calls[|calls| - 1].at)
      && Told(Some(last), l, take, c) == s.start
    decreases |calls|
  {
    var all := calls + [c];
    assert (all[0].at - s.lastRefill) / l.refillTime == 0 by {
      DivBounds(all[0].at - s.lastRefill, l.refillTime);
      SmallQuotient(all[0].at - s.lastRefill, l.refillTime);
    }
    if calls != [] {
      assert all[1..] == calls[1..] + [c];
      SessionGoesOn(Next(Some(s), l, take, calls[0]), l, take, calls[1..], c);
    }
  }

  lemma SmallQuotient(x: int, d: int)
    requires d > 0 && 0 <= x < d
    ensures x / d == 0
  {
  }

  /** If one refill covers a take, such a session ends exactly with a gap of a refill time, and another starts. */
  lemma SessionEndsExactly(s: Session, l: Limits, take: int, c: SessionCall)
    requires ValidTake(l, take) && take <= l.refillAmount && take <= l.maxAmount
    requires s.tokens == 0 && s.start.Some? && s.lastRefill <= c.at && !c.dropped
    ensures Told(Some(s), l, take, c).Some? <==> c.at < s.lastRefill + l.refillTime
    ensures c.at >= s.lastRefill + l.refillTime ==> Next(Some(s), l, take, c).start == Some(c.at)
  {
    if c.at < s.lastRefill + l.refillTime {
      assert [] + [c] == [c];
      SessionGoesOn(s, l, take, [], c);
    } else {
      LongGapStartsSession(Some(s), l, take, c, s.lastRefill);
    }
  }

  // ---------- when sessions have no long gaps ----------

  predicate Sane(b: Option<Session>, l: Limits, take: int, at: int) {
    b.Some? ==>
      && 0 <= b.value.tokens <= l.maxAmount && b.value.lastRefill <= at
      && (take > l.maxAmount ==> b.value.start == None)
  }

  lemma ReadySane(b: Option<Session>, l: Limits, take: int, c: SessionCall)
    requires ValidTake(l, take) && Sane(b, l, take, c.at)
    ensures var s := Ready(b, l, take, c);
      && 0 <= s.tokens <= l.maxAmount && s.lastRefill <= c.at && (take > l.maxAmount ==> s.start == None)
      && (s.tokens < take ==> s.start == Begun(b, l, c).start)
    ensures Sane(Some(Next(b, l, take, c)), l, take, c.at)
  {
    var s := Begun(b, l, c);
    var refills := (c.at - s.lastRefill) / l.refillTime;
    DivBounds(c.at - s.lastRefill, l.refillTime);
    DivAtLeast(c.at - s.lastRefill, l.refillTime, 0);
    Commute(l.refillTime, refills);
    MulMonotone(l.refillAmount, 0, refills);
    Commute(l.refillAmount, refills);
  }

  lemma {:induction false} BeforeSane(l: Limits, take: int, calls: seq<SessionCall>, n: nat)
    requires ValidTake(l, take) && Nondecreasing(calls) && n < |calls|
    ensures Sane(Before(l, take, calls, n), l, take, calls[n].at)
  {
    if n > 0 {
      BeforeSane(l, take, calls, n - 1);
      ReadySane(Before(l, take, calls, n - 1), l, take, calls[n - 1]);
      assert calls[n - 1].at <= calls[n - 1 + 1].at;
    }
  }

  /** After a long gap there are enough tokens, so a new session starts. */
  lemma LongGapStartsSession(b: Option<Session>, l: Limits, take: int, c: SessionCall, previous: int)
    requires ValidTake(l, take) && take <= l.refillAmount && take <= l.maxAmount
    requires Sane(b, l, take, previous) && c.at - previous >= l.refillTime
    ensures Ready(b, l, take, c).start == Some(c.at) && Ready(b, l, take, c).tokens >= take
  {
    var s := Begun(b, l, c);
    if s.tokens < take {
      var refills := (c.at - s.lastRefill) / l.refillTime;
      DivAtLeast(c.at - s.lastRefill, l.refillTime, 1);
      MulMonotone(l.refillAmount, 1, refills);
      Commute(l.refillAmount, refills);
    }
  }

  /** The state after a call: its session, if any, started at that call or an earlier one without long gaps since. */
  lemma {:induction false} StartIsEarlier(l: Limits, take: int, calls: seq<SessionCall>, n: nat) returns (i: nat)
    requires ValidTake(l, take) && (take <= l.refillAmount || take > l.maxAmount)
    requires Nondecreasing(calls) && n < |calls|
    requires Ready(Before(l, take, calls, n), l, take, calls[n]).start.Some?
    ensures StartedAt(l, calls, Ready(Before(l, take, calls, n), l, take, calls[n]).start.value, i, n)
    ensures Ready(Before(l, take, calls, n), l, take, calls[n]).tokens < take ==> i < n
  {
    var b, c := Before(l, take, calls, n), calls[n];
    BeforeSane(l, take, calls, n);
    ReadySane(b, l, take, c);
    var s := Ready(b, l, take, c);
    if s.tokens >= take {
      i := n;
    } else {
      assert b.Some? && n > 0 && s.start == b.value.start;
      i := StartIsEarlier(l, take, calls, n - 1);
      BeforeSane(l, take, calls, n - 1);
      ReadySane(Before(l, take, calls, n - 1), l, take, calls[n - 1]);
      assert calls[n - 1].at <= calls[n - 1 + 1].at;
      if c.at - calls[n - 1].at >= l.refillTime {
        LongGapStartsSession(b, l, take, c, calls[n - 1].at);
      }
    }
  }

  lemma GapFreeRuns(l: Limits, take: int, calls: seq<SessionCall>)
    requires ValidTake(l, take) && (take <= l.refillAmount || take > l.maxAmount) && Nondecreasing(calls)
    ensures GapFree(l, take, calls)
  {
    forall n | 0 <= n < |calls| && ToldAt(l, take, calls, n).Some?
      ensures exists i: nat :: i < n && StartedAt(l, calls, ToldAt(l, take, calls, n).value, i, n)
    {
      var i := StartIsEarlier(l, take, calls, n);
    }
  }

  // ---------- when they can have one ----------

  /** Enough calls at time zero to use up all tokens, and two calls one refill time later. */
  function LongGapRun(l: Limits): (r: seq<SessionCall>)
    requires ValidLimits(l)
    ensures |r| == l.maxAmount + 2
    ensures forall i :: 0 <= i < |r| ==> r[i] == SessionCall(if i < l.maxAmount then 0 else l.refillTime, false)
  {
    seq(l.maxAmount + 2, (i: nat) requires i < l.maxAmount + 2 =>
      SessionCall(if i < l.maxAmount then 0 else l.refillTime, false))
  }

  lemma {:induction false} TokensRunOut(l: Limits, take: int, n: nat)
    requires ValidTake(l, take) && take <= l.maxAmount && 1 <= n <= l.maxAmount
    ensures var b := Before(l, take, LongGapRun(l), n);
      b.Some? && b.value.start == Some(0) && b.value.lastRefill == 0 && 0 <= b.value.tokens <= l.maxAmount - n
  {
    if n > 1 {
      TokensRunOut(l, take, n - 1);
      var b := Before(l, take, LongGapRun(l), n - 1);
      assert (0 - b.value.lastRefill) / l.refillTime == 0;
    }
  }

  /** The call after the gap finds too few tokens to start a session, and the one after it is told the old start. */
  lemma OldSessionTold(l: Limits, take: int)
    requires ValidTake(l, take) && l.refillAmount < take <= l.maxAmount
    ensures ToldAt(l, take, LongGapRun(l), l.maxAmount + 1) == Some(0)
  {
    var calls, n := LongGapRun(l), l.maxAmount;
    TokensRunOut(l, take, n);
    var b := Before(l, take, calls, n);
    assert b.value == Session(Some(0), 0, 0);
    DivBounds(l.refillTime, l.refillTime);
    DivAtLeast(l.refillTime, l.refillTime, 1);
    assert l.refillTime / l.refillTime == 1;
    assert Next(b, l, take, calls[n]) == Session(Some(0), 0, l.refillTime);
    assert (l.refillTime - l.refillTime) / l.refillTime == 0;
  }

  /**
   * A session start that a call is told is always an earlier call with no gap of a refill time or
   * more since, exactly when one refill covers a take, or no call ever has enough tokens.
   */
  lemma SessionsGapFreeExactly(l: Limits, take: int)
    requires ValidTake(l, take)
    ensures SessionsAreGapFree(l, take) <==> take <= l.refillAmount || take > l.maxAmount
  {
    if take <= l.refillAmount || take > l.maxAmount {
      forall calls | Nondecreasing(calls)
        ensures GapFree(l, take, calls)
      {
        GapFreeRuns(l, take, calls);
      }
    } else {
      var calls, n := LongGapRun(l), l.maxAmount;
      OldSessionTold(l, take);
      assert Nondecreasing(calls);
      assert calls[n - 1 + 1].at - calls[n - 1].at == l.refillTime;
      assert !GapFree(l, take, calls);
    }
  }
}
