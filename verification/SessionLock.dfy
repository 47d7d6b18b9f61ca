/** cluster/session_lock.py: a Redis lock with a fencing token and a watchdog. */
module SessionLock {
  import opened Prelude
  import LeaseSteps
  import Redis

  /** aip:session:{sessionId}:lock */
  function LockKey(sid: string): string {
    Redis.KEY_PREFIX + "session:" + sid + ":lock"
  }

  /** Different sessions have different lock keys, and none of them is the lease key of an agent. */
  lemma LockKeysApart(a: string, b: string, agent: string)
    ensures LockKey(a) == LockKey(b) ==> a == b
    ensures LockKey(a) != LeaseSteps.OwnerKey(agent)
  {
    var head, tail := Redis.KEY_PREFIX + "session:", ":lock";
    assert LockKey(a) == head + a + tail && LockKey(b) == head + b + tail;
    if LockKey(a) == LockKey(b) {
      assert |a| == |b|;
      assert a == LockKey(a)[|head|..|head| + |a|];
      assert b == LockKey(b)[|head|..|head| + |b|];
    }
    assert LockKey(a)[4] == 's' && LeaseSteps.OwnerKey(agent)[4] == 'a';
  }

  // ------------------------------------------------------------------ the retry loop

  /** One acquire: what others do before each try, and which try raises (executed: after the SET ran). */
  datatype Acquire = Acquire(key: string, token: string, ttl: int, retry: nat, others: Redis.Others,
                             raise: nat, executed: bool)

  datatype Outcome = Won | GaveUp | Raised

  /** The server, how the loop ended and how often it tried. */
  datatype Tried = Tried(redis: Redis.Moment, outcome: Outcome, tries: nat)

  predicate Free(at: Redis.Moment, key: string) {
    Redis.Get(at.store, at.now, key).None?
  }

  function AfterSet(at: Redis.Moment, x: Acquire): Redis.Moment {
    Redis.Moment(Redis.SetNx(at.store, at.now, x.key, x.token, x.ttl).store, at.now)
  }

  /** The loop from its i-th try on. */
  function TryFrom(m: Redis.Moment, x: Acquire, i: nat): Tried
    decreases x.retry + 1 - i
  {
    if i > x.retry then Tried(m, GaveUp, i)
    else
      var at := Redis.Found(x.others, i, m);
      if i == x.raise then Tried(if x.executed then AfterSet(at, x) else at, Raised, i + 1)
      else if Redis.SetNx(at.store, at.now, x.key, x.token, x.ttl).ok then Tried(AfterSet(at, x), Won, i + 1)
      else TryFrom(AfterSet(at, x), x, i + 1)
  }

  /** What the i-th try finds if those before it failed: they have left the server to the others. */
  function FoundByTry(m: Redis.Moment, x: Acquire, i: nat): Redis.Moment {
    Redis.Found(x.others, i, if i == 0 then m else FoundByTry(m, x, i - 1))
  }

  /** The key in this token's name with a full TTL, and everything else as it was. */
  function Taken(at: Redis.Moment, x: Acquire): Redis.Moment {
    Redis.Moment(at.store[x.key := Redis.Entry(x.token, at.now + x.ttl)], at.now)
  }

  /** The i-th try goes through and finds the key held. */
  predicate FailedTry(m: Redis.Moment, x: Acquire, i: nat) {
    i != x.raise && !Free(FoundByTry(m, x, i), x.key)
  }

  ghost predicate TriedExactly(m: Redis.Moment, x: Acquire, r: Tried) {
    && 1 <= r.tries <= x.retry + 1
    && (forall i: nat | i < r.tries - 1 :: FailedTry(m, x, i))
    && var last := FoundByTry(m, x, r.tries - 1);
       match r.outcome
       case Won =>
         r.tries - 1 != x.raise && Free(last, x.key) && r.redis == Taken(last, x)
       case GaveUp => r.tries == x.retry + 1 && FailedTry(m, x, r.tries - 1) && r.redis == last
       case Raised =>
         r.tries - 1 == x.raise && r.redis == if x.executed && Free(last, x.key) then Taken(last, x) else last
  }

  lemma {:induction false} TryFromExactly(m: Redis.Moment, x: Acquire, i: nat)
    requires i <= x.retry
    requires forall j: nat | j < i :: FailedTry(m, x, j)
    ensures TriedExactly(m, x, TryFrom(if i == 0 then m else FoundByTry(m, x, i - 1), x, i))
    decreases x.retry - i
  {
    var at := FoundByTry(m, x, i);
    assert FailedTry(m, x, i) <==> i != x.raise && !Free(at, x.key);
    if FailedTry(m, x, i) && i < x.retry {
      TryFromExactly(m, x, i + 1);
    }
  }

  /** Whatever others do between the tries: at most retry + 1 of them; all but the last found the key held
      by a live token; a won one found it free and leaves it, and nothing else, changed; an acquire that
      gives up, or whose SET did not run, leaves the server exactly as it found it. */
  lemma AcquireExactly(m: Redis.Moment, x: Acquire)
    ensures TriedExactly(m, x, TryFrom(m, x, 0))
  {
    TryFromExactly(m, x, 0);
  }

  // ------------------------------------------------------------------ the watchdog

  /** One watchdog: rounds timeouts pass before stop is set, others act before each renew, and one renew may
      raise (executed: after the script ran). */
  datatype Watchdog = Watchdog(key: string, token: string, ttl: int, rounds: nat, others: Redis.Others,
                               raise: nat, executed: bool)

  datatype Extended = Extended(redis: Redis.Moment, renews: nat)

  predicate Holds(at: Redis.Moment, key: string, token: string) {
    Redis.Get(at.store, at.now, key) == Some(token)
  }

  function AfterRenew(at: Redis.Moment, x: Watchdog): Redis.Moment {
    Redis.Moment(Redis.Renew(at.store, at.now, x.key, x.token, x.ttl).store, at.now)
  }

  /** The loop from its i-th round on. */
  function ExtendFrom(m: Redis.Moment, x: Watchdog, i: nat): Extended
    decreases x.rounds - i
  {
    if i >= x.rounds then Extended(m, i)
    else
      var at := Redis.Found(x.others, i, m);
      if i == x.raise then Extended(if x.executed then AfterRenew(at, x) else at, i + 1)
      else if Redis.Renew(at.store, at.now, x.key, x.token, x.ttl).ok then ExtendFrom(AfterRenew(at, x), x, i + 1)
      else Extended(AfterRenew(at, x), i + 1)
  }

  /** What the i-th renew finds if those before it went through. */
  function FoundByRenew(m: Redis.Moment, x: Watchdog, i: nat): Redis.Moment
    decreases i, 1
  {
    Redis.Found(x.others, i, Left(m, x, i))
  }

  /** As what the renews before the i-th left the server. */
  function Left(m: Redis.Moment, x: Watchdog, i: nat): Redis.Moment
    decreases i, 0
  {
    if i == 0 then m else AfterRenew(FoundByRenew(m, x, i - 1), x)
  }

  function Refreshed(at: Redis.Moment, x: Watchdog): Redis.Moment {
    Redis.Moment(at.store[x.key := Redis.Entry(x.token, at.now + x.ttl)], at.now)
  }

  /** The i-th renew goes through, finds this token's live key and gives it a full TTL. */
  predicate Refreshes(m: Redis.Moment, x: Watchdog, i: nat) {
    var at := FoundByRenew(m, x, i);
    i != x.raise && Holds(at, x.key, x.token) && AfterRenew(at, x) == Refreshed(at, x)
  }

  ghost predicate ExtendedExactly(m: Redis.Moment, x: Watchdog, r: Extended) {
    && r.renews <= x.rounds
    && (r.renews == 0 ==> x.rounds == 0 && r.redis == m)
    && (forall i: nat | i < r.renews - 1 :: Refreshes(m, x, i))
    && (r.renews > 0 ==>
          var at := FoundByRenew(m, x, r.renews - 1);
          && (r.renews < x.rounds ==> !Refreshes(m, x, r.renews - 1))
          && r.redis ==
             if Holds(at, x.key, x.token) && (r.renews - 1 != x.raise || x.executed) then Refreshed(at, x) else at)
  }

  // The last renew: it raises, finds the key lost, or comes in the last round.
  lemma LastRenew(m: Redis.Moment, x: Watchdog, i: nat)
    requires i < x.rounds && (forall j: nat | j < i :: Refreshes(m, x, j))
    requires !Refreshes(m, x, i) || i + 1 == x.rounds
    ensures ExtendedExactly(m, x, ExtendFrom(Left(m, x, i), x, i))
  {
    var at := FoundByRenew(m, x, i);
    assert Refreshes(m, x, i) <==> i != x.raise && Holds(at, x.key, x.token);
    assert ExtendFrom(Left(m, x, i), x, i).renews == i + 1;
  }

  lemma {:induction false} ExtendFromExactly(m: Redis.Moment, x: Watchdog, i: nat)
    requires i < x.rounds && (forall j: nat | j < i :: Refreshes(m, x, j))
    ensures ExtendedExactly(m, x, ExtendFrom(Left(m, x, i), x, i))
    decreases x.rounds - i
  {
    if Refreshes(m, x, i) && i + 1 < x.rounds {
      ExtendFromExactly(m, x, i + 1);
    } else {
      LastRenew(m, x, i);
    }
  }

  /** Whatever others do between the renews: a renew refreshes the full TTL of this token's own live key or
      leaves the server exactly as it found it, and the first of the second kind, or one that raises, is the
      last. */
  lemma WatchdogExactly(m: Redis.Moment, x: Watchdog)
    ensures ExtendedExactly(m, x, ExtendFrom(m, x, 0))
  {
    if x.rounds > 0 {
      ExtendFromExactly(m, x, 0);
    }
  }

  // ------------------------------------------------------------------ the release

  /** What a release makes of what it finds. */
  function AfterRelease(at: Redis.Moment, key: string, token: string, raises: bool, executed: bool): Redis.Moment {
    if Holds(at, key, token) && (!raises || executed) then Redis.Moment(at.store - {key}, at.now) else at
  }

  // ------------------------------------------------------------------ the class

  class RedisSessionLock {
    const redis: Redis.Server
    const ttlMs: int
    const retry: nat

    constructor (redis: Redis.Server, lockTtlS: int, retry: int)
      ensures this.redis == redis && ttlMs == AtLeast(1, lockTtlS) * 1000 && this.retry == AtLeast(0, retry)
    {
      this.redis := redis;
      ttlMs := AtLeast(1, lockTtlS) * 1000;
      this.retry := AtLeast(0, retry);
    }

    /** The retry loop of acquire. */
    method TryAcquire(sid: string, token: string, others: Redis.Others, raise: nat, executed: bool)
      returns (outcome: Outcome, tries: nat)
      modifies redis
      ensures Tried(redis.Here(), outcome, tries) ==
              TryFrom(old(redis.Here()), Acquire(LockKey(sid), token, ttlMs, retry, others, raise, executed), 0)
    {
      ghost var start, x := redis.Here(), Acquire(LockKey(sid), token, ttlMs, retry, others, raise, executed);
      outcome, tries := GaveUp, 0;
      while tries < retry + 1
        invariant tries <= retry + 1 && outcome == GaveUp
        invariant TryFrom(start, x, 0) == TryFrom(redis.Here(), x, tries)
        decreases retry + 1 - tries
      {
        redis.Await(others, tries);
        tries := tries + 1;
        if tries - 1 == raise {
          if executed {
            var reply := redis.EvalSetNx(LockKey(sid), token, ttlMs);
          }
          return Raised, tries;
        }
        var ok := redis.EvalSetNx(LockKey(sid), token, ttlMs);
        if ok {
          return Won, tries;
        }
      }
    }

    /** The watchdog. */
    method ExtendLoop(key: string, token: string, rounds: nat, others: Redis.Others, raise: nat, executed: bool)
      returns (renews: nat)
      modifies redis
      ensures Extended(redis.Here(), renews) ==
              ExtendFrom(old(redis.Here()), Watchdog(key, token, ttlMs, rounds, others, raise, executed), 0)
    {
      ghost var start, x := redis.Here(), Watchdog(key, token, ttlMs, rounds, others, raise, executed);
      renews := 0;
      while renews < rounds
        invariant renews <= rounds
        invariant ExtendFrom(start, x, 0) == ExtendFrom(redis.Here(), x, renews)
      {
        redis.Await(others, renews);
        renews := renews + 1;
        if renews - 1 == raise {
          if executed {
            var reply := redis.EvalRenew(key, token, ttlMs);
          }
          return;
        }
        var ok := redis.EvalRenew(key, token, ttlMs);
        if ok != 1 {
          return;
        }
      }
    }

    /** The release: others act at its await, and it may raise (executed: after the script ran). Deletes the key
        if it is still this token's, and nothing else. */
    method ReleaseIfOwner(key: string, token: string, others: Redis.Others, raises: bool, executed: bool)
      modifies redis
      ensures redis.Here() == AfterRelease(Redis.Found(others, 0, old(redis.Here())), key, token, raises, executed)
    {
      redis.Await(others, 0);
      if !raises || executed {
        var deleted := redis.EvalRelease(key, token);
      }
    }
  }
}
