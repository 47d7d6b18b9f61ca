/** cluster/session_lock.py and agent/session.py: the lock's retry loop, its watchdog, the messages added under
    it and its release, with any steps of other workers at their awaits, are runs of the lock protocol, so what
    holds of every run of the protocol holds of the classes. */
module LockRefinement {
  import opened Prelude
  import opened SessionLock
  import SS = SessionStore
  import LP = LockProtocol
  import Redis

  // ------------------------------------------------------------------ longer runs

  /** Where the run has come to, Redis is as the moment shows it. */
  ghost predicate Reached(ttl: int, key: string, run: seq<LP.Step>, m: Redis.Moment) {
    && LP.IsRun(ttl, key, run)
    && LP.After(ttl, key, run).store == m.store && LP.After(ttl, key, run).now == m.now
  }

  function TaskAfter(ttl: int, key: string, run: seq<LP.Step>, t: string): LP.Task {
    LP.After(ttl, key, run).TaskOf(t)
  }

  lemma {:induction false} LockStays(ttl: int, key: string, run: seq<LP.Step>)
    ensures LP.After(ttl, key, run).ttl == ttl && LP.After(ttl, key, run).key == key
  {
    if run != [] {
      LockStays(ttl, key, run[..|run| - 1]);
    }
  }

  lemma OneMore(ttl: int, key: string, run: seq<LP.Step>, step: LP.Step)
    requires LP.IsRun(ttl, key, run) && LP.Enabled(LP.After(ttl, key, run), step)
    ensures LP.IsRun(ttl, key, run + [step])
    ensures LP.After(ttl, key, run + [step]) == LP.Next(LP.After(ttl, key, run), step)
  {
    assert (run + [step])[..|run|] == run;
  }

  /** Which coroutine of token t awaits: the only one there is, its watchdog, or the body of its section. */
  datatype Waiting = Alone | WatchdogWaits | BodyWaits

  /** What may be done meanwhile: the clock, the steps of others, and those of t's other coroutine. */
  predicate Beside(step: LP.Step, t: string, waiting: Waiting) {
    || !LP.OfTask(step) || step.t != t
    || (match waiting
        case Alone => false
        case WatchdogWaits => step.AddRead? || step.AddWrite?
        case BodyWaits => step.Extend? || step.ExtendRaises?)
  }

  predicate AllBeside(steps: seq<LP.Step>, t: string, waiting: Waiting) {
    forall i | 0 <= i < |steps| :: Beside(steps[i], t, waiting)
  }

  /** What that leaves of t's task. */
  predicate Kept(was: LP.Task, task: LP.Task, waiting: Waiting) {
    match waiting
    case Alone => task == was
    case WatchdogWaits => task == was.(buffer := task.buffer)
    case BodyWaits => task.pc == was.pc && task.buffer == was.buffer
  }

  lemma StepKeeps(s: LP.State, step: LP.Step, t: string, waiting: Waiting)
    requires Beside(step, t, waiting)
    ensures Kept(s.TaskOf(t), LP.Next(s, step).TaskOf(t), waiting)
  {
    if LP.OfTask(step) && step.t != t {
      LP.OtherTasksUntouched(s, step, t);
    }
  }

  lemma {:induction false} AwaitKeeps(ttl: int, key: string, run: seq<LP.Step>, steps: seq<LP.Step>, t: string,
                                      waiting: Waiting)
    requires AllBeside(steps, t, waiting)
    ensures Kept(TaskAfter(ttl, key, run, t), TaskAfter(ttl, key, run + steps, t), waiting)
  {
    if steps == [] {
      assert run + steps == run;
    } else {
      var n := |steps| - 1;
      AwaitKeeps(ttl, key, run, steps[..n], t, waiting);
      assert (run + steps)[..|run + steps| - 1] == run + steps[..n];
      StepKeeps(LP.After(ttl, key, run + steps[..n]), steps[n], t, waiting);
    }
  }

  /** While a coroutine of t awaits, these steps are taken, and leave Redis as the awaited call finds it. */
  ghost predicate Leads(ttl: int, key: string, run: seq<LP.Step>, steps: seq<LP.Step>, t: string, waiting: Waiting,
                        at: Redis.Moment)
  {
    AllBeside(steps, t, waiting) && Reached(ttl, key, run + steps, at)
  }

  // ------------------------------------------------------------------ the retry loop

  /** The run after the tries from the i-th on, each after what others do before it. */
  function AcquireRun(run: seq<LP.Step>, m: Redis.Moment, x: Acquire, between: seq<seq<LP.Step>>, i: nat): seq<LP.Step>
    requires |between| == x.retry + 1
    decreases x.retry + 1 - i
  {
    if i > x.retry then run
    else
      var there, at := run + between[i], Redis.Found(x.others, i, m);
      if i == x.raise then there + [LP.TrySetRaises(x.token, x.executed)]
      else if Free(at, x.key) then there + [LP.TrySet(x.token)]
      else AcquireRun(there + [LP.TrySet(x.token)], at, x, between, i + 1)
  }

  ghost predicate AcquireAmong(run: seq<LP.Step>, m: Redis.Moment, x: Acquire, between: seq<seq<LP.Step>>, i: nat)
    requires |between| == x.retry + 1
    decreases x.retry + 1 - i
  {
    i <= x.retry ==>
      var at := Redis.Found(x.others, i, m);
      && Leads(x.ttl, x.key, run, between[i], x.token, Alone, at)
      && (i != x.raise && !Free(at, x.key) ==>
            AcquireAmong(run + between[i] + [LP.TrySet(x.token)], at, x, between, i + 1))
  }

  /** How an acquire leaves its task: inside its section with a fresh hold, or over. */
  predicate Settled(task: LP.Task, r: Tried, ttl: int) {
    if r.outcome == Won then task == LP.Task(LP.Locked, true, None, r.redis.now, r.redis.now + ttl)
    else task.pc == LP.Over
  }

  predicate TriesLeft(task: LP.Task, x: Acquire, i: nat) {
    task.pc == if i <= x.retry then LP.Trying(x.retry + 1 - i) else LP.Over
  }

  lemma TryIsStep(run: seq<LP.Step>, at: Redis.Moment, x: Acquire, i: nat)
    requires i <= x.retry && Reached(x.ttl, x.key, run, at) && TriesLeft(TaskAfter(x.ttl, x.key, run, x.token), x, i)
    ensures Reached(x.ttl, x.key, run + [LP.TrySet(x.token)], AfterSet(at, x))
    ensures var task := TaskAfter(x.ttl, x.key, run + [LP.TrySet(x.token)], x.token);
      if Free(at, x.key) then Settled(task, Tried(AfterSet(at, x), Won, i + 1), x.ttl) else TriesLeft(task, x, i + 1)
  {
    LockStays(x.ttl, x.key, run);
    OneMore(x.ttl, x.key, run, LP.TrySet(x.token));
  }

  lemma RaisingTryIsStep(run: seq<LP.Step>, at: Redis.Moment, x: Acquire, i: nat)
    requires i <= x.retry && Reached(x.ttl, x.key, run, at) && TriesLeft(TaskAfter(x.ttl, x.key, run, x.token), x, i)
    ensures var more := run + [LP.TrySetRaises(x.token, x.executed)];
      && Reached(x.ttl, x.key, more, if x.executed then AfterSet(at, x) else at)
      && TaskAfter(x.ttl, x.key, more, x.token).pc == LP.Over
  {
    LockStays(x.ttl, x.key, run);
    OneMore(x.ttl, x.key, run, LP.TrySetRaises(x.token, x.executed));
  }

  /** The retry loop is a stretch of a run, and ends with its task inside the section exactly if it won. */
  lemma {:induction false} TriesAreRun(run: seq<LP.Step>, m: Redis.Moment, x: Acquire, between: seq<seq<LP.Step>>,
                                       i: nat)
    requires |between| == x.retry + 1 && i <= x.retry + 1
    requires Reached(x.ttl, x.key, run, m) && TriesLeft(TaskAfter(x.ttl, x.key, run, x.token), x, i)
    requires AcquireAmong(run, m, x, between, i)
    ensures var longer, r := AcquireRun(run, m, x, between, i), TryFrom(m, x, i);
      && Reached(x.ttl, x.key, longer, r.redis)
      && Settled(TaskAfter(x.ttl, x.key, longer, x.token), r, x.ttl)
    decreases x.retry + 1 - i
  {
    if i <= x.retry {
      var there, at := run + between[i], Redis.Found(x.others, i, m);
      AwaitKeeps(x.ttl, x.key, run, between[i], x.token, Alone);
      if i == x.raise {
        RaisingTryIsStep(there, at, x, i);
      } else {
        TryIsStep(there, at, x, i);
        if !Free(at, x.key) {
          TriesAreRun(there + [LP.TrySet(x.token)], at, x, between, i + 1);
        }
      }
    }
  }

  // ------------------------------------------------------------------ the watchdog

  /** The run after the renews from the i-th on, each after what is done beside the watchdog before it. */
  function WatchdogRun(run: seq<LP.Step>, m: Redis.Moment, x: Watchdog, between: seq<seq<LP.Step>>, i: nat)
    : seq<LP.Step>
    requires |between| == x.rounds
    decreases x.rounds - i
  {
    if i >= x.rounds then run
    else
      var there, at := run + between[i], Redis.Found(x.others, i, m);
      if i == x.raise then there + [LP.ExtendRaises(x.token, x.executed)]
      else if Holds(at, x.key, x.token)
      then WatchdogRun(there + [LP.Extend(x.token)], AfterRenew(at, x), x, between, i + 1)
      else there + [LP.Extend(x.token)]
  }

  ghost predicate WatchdogAmong(run: seq<LP.Step>, m: Redis.Moment, x: Watchdog, between: seq<seq<LP.Step>>, i: nat)
    requires |between| == x.rounds
    decreases x.rounds - i
  {
    i < x.rounds ==>
      var at := Redis.Found(x.others, i, m);
      && Leads(x.ttl, x.key, run, between[i], x.token, WatchdogWaits, at)
      && (i != x.raise && Holds(at, x.key, x.token) ==>
            WatchdogAmong(run + between[i] + [LP.Extend(x.token)], AfterRenew(at, x), x, between, i + 1))
  }

  lemma RenewIsStep(run: seq<LP.Step>, at: Redis.Moment, x: Watchdog)
    requires Reached(x.ttl, x.key, run, at)
    requires var task := TaskAfter(x.ttl, x.key, run, x.token); task.pc == LP.Locked && task.watchdog
    ensures Reached(x.ttl, x.key, run + [LP.Extend(x.token)], AfterRenew(at, x))
    ensures var task := TaskAfter(x.ttl, x.key, run + [LP.Extend(x.token)], x.token);
      task.pc == LP.Locked && (task.watchdog <==> Holds(at, x.key, x.token))
  {
    LockStays(x.ttl, x.key, run);
    OneMore(x.ttl, x.key, run, LP.Extend(x.token));
  }

  lemma RaisingRenewIsStep(run: seq<LP.Step>, at: Redis.Moment, x: Watchdog)
    requires Reached(x.ttl, x.key, run, at)
    requires var task := TaskAfter(x.ttl, x.key, run, x.token); task.pc == LP.Locked && task.watchdog
    ensures var more := run + [LP.ExtendRaises(x.token, x.executed)];
      && Reached(x.ttl, x.key, more, if x.executed then AfterRenew(at, x) else at)
      && TaskAfter(x.ttl, x.key, more, x.token).pc == LP.Locked
  {
    LockStays(x.ttl, x.key, run);
    OneMore(x.ttl, x.key, run, LP.ExtendRaises(x.token, x.executed));
  }

  /** The watchdog is a stretch of a run, and leaves its section open. */
  lemma {:induction false} RenewsAreRun(run: seq<LP.Step>, m: Redis.Moment, x: Watchdog, between: seq<seq<LP.Step>>,
                                        i: nat)
    requires |between| == x.rounds && i <= x.rounds
    requires Reached(x.ttl, x.key, run, m) && WatchdogAmong(run, m, x, between, i)
    requires var task := TaskAfter(x.ttl, x.key, run, x.token); task.pc == LP.Locked && task.watchdog
    ensures var longer := WatchdogRun(run, m, x, between, i);
      && Reached(x.ttl, x.key, longer, ExtendFrom(m, x, i).redis)
      && TaskAfter(x.ttl, x.key, longer, x.token).pc == LP.Locked
    decreases x.rounds - i
  {
    if i < x.rounds {
      var there, at := run + between[i], Redis.Found(x.others, i, m);
      AwaitKeeps(x.ttl, x.key, run, between[i], x.token, WatchdogWaits);
      if i == x.raise {
        RaisingRenewIsStep(there, at, x);
      } else {
        RenewIsStep(there, at, x);
        if Holds(at, x.key, x.token) {
          RenewsAreRun(there + [LP.Extend(x.token)], AfterRenew(at, x), x, between, i + 1);
        }
      }
    }
  }

  // ------------------------------------------------------------------ the release and the whole section

  function ReleaseStep(t: string, raises: bool, executed: bool): LP.Step {
    if raises then LP.ReleaseRaises(t, executed) else LP.Release(t)
  }

  lemma ReleaseIsRun(ttl: int, key: string, run: seq<LP.Step>, t: string, gap: seq<LP.Step>, at: Redis.Moment,
                     raises: bool, executed: bool)
    requires LP.IsRun(ttl, key, run) && TaskAfter(ttl, key, run, t).pc == LP.Locked
    requires Leads(ttl, key, run + [LP.Leave(t)], gap, t, Alone, at)
    ensures var longer := run + [LP.Leave(t)] + gap + [ReleaseStep(t, raises, executed)];
      && Reached(ttl, key, longer, AfterRelease(at, key, t, raises, executed))
      && TaskAfter(ttl, key, longer, t).pc == LP.Over
  {
    OneMore(ttl, key, run, LP.Leave(t));
    AwaitKeeps(ttl, key, run + [LP.Leave(t)], gap, t, Alone);
    LockStays(ttl, key, run + [LP.Leave(t)] + gap);
    OneMore(ttl, key, run + [LP.Leave(t)] + gap, ReleaseStep(t, raises, executed));
  }

  /** One use of the lock: what its three methods are called with. */
  datatype Section = Section(acquire: Acquire, watchdog: Watchdog, others: Redis.Others, raises: bool, executed: bool)
  {
    predicate Valid() {
      watchdog.key == acquire.key && watchdog.token == acquire.token && watchdog.ttl == acquire.ttl
    }
  }

  /** What is done beside it: before each try and each renew, after the last renew, and while the release is
      awaited; left is how the section leaves Redis to its release. */
  datatype Meanwhile = Meanwhile(tries: seq<seq<LP.Step>>, rounds: seq<seq<LP.Step>>, tail: seq<LP.Step>,
                                 left: Redis.Moment, gap: seq<LP.Step>)

  predicate Fits(x: Section, b: Meanwhile) {
    x.Valid() && |b.tries| == x.acquire.retry + 1 && |b.rounds| == x.watchdog.rounds
  }

  function TriedRun(run: seq<LP.Step>, m: Redis.Moment, x: Section, b: Meanwhile): seq<LP.Step>
    requires Fits(x, b)
  {
    AcquireRun(run + [LP.Begin(x.acquire.token, x.acquire.retry)], m, x.acquire, b.tries, 0)
  }

  function HeldRun(run: seq<LP.Step>, m: Redis.Moment, x: Section, b: Meanwhile): seq<LP.Step>
    requires Fits(x, b)
  {
    WatchdogRun(TriedRun(run, m, x, b), TryFrom(m, x.acquire, 0).redis, x.watchdog, b.rounds, 0) + b.tail
  }

  /** The run after a whole use of the lock. */
  function SectionRun(run: seq<LP.Step>, m: Redis.Moment, x: Section, b: Meanwhile): seq<LP.Step>
    requires Fits(x, b)
  {
    if TryFrom(m, x.acquire, 0).outcome != Won then TriedRun(run, m, x, b)
    else
      HeldRun(run, m, x, b) + [LP.Leave(x.acquire.token)] + b.gap +
      [ReleaseStep(x.acquire.token, x.raises, x.executed)]
  }

  /** And what it leaves of Redis. */
  function AfterSection(m: Redis.Moment, x: Section, b: Meanwhile): Redis.Moment {
    var r := TryFrom(m, x.acquire, 0);
    if r.outcome != Won then r.redis
    else AfterRelease(Redis.Found(x.others, 0, b.left), x.acquire.key, x.acquire.token, x.raises, x.executed)
  }

  ghost predicate SectionAmong(run: seq<LP.Step>, m: Redis.Moment, x: Section, b: Meanwhile)
    requires Fits(x, b)
  {
    var ttl, key, t, r := x.acquire.ttl, x.acquire.key, x.acquire.token, TryFrom(m, x.acquire, 0);
    && AcquireAmong(run + [LP.Begin(t, x.acquire.retry)], m, x.acquire, b.tries, 0)
    && (r.outcome == Won ==>
          && WatchdogAmong(TriedRun(run, m, x, b), r.redis, x.watchdog, b.rounds, 0)
          && Leads(ttl, key, WatchdogRun(TriedRun(run, m, x, b), r.redis, x.watchdog, b.rounds, 0), b.tail, t,
                   WatchdogWaits, b.left)
          && Leads(ttl, key, HeldRun(run, m, x, b) + [LP.Leave(t)], b.gap, t, Alone,
                   Redis.Found(x.others, 0, b.left)))
  }

  lemma TriedIsRun(run: seq<LP.Step>, m: Redis.Moment, x: Section, b: Meanwhile)
    requires Fits(x, b) && Reached(x.acquire.ttl, x.acquire.key, run, m)
    requires TaskAfter(x.acquire.ttl, x.acquire.key, run, x.acquire.token).pc == LP.Unborn
    requires AcquireAmong(run + [LP.Begin(x.acquire.token, x.acquire.retry)], m, x.acquire, b.tries, 0)
    ensures var r := TryFrom(m, x.acquire, 0);
      && Reached(x.acquire.ttl, x.acquire.key, TriedRun(run, m, x, b), r.redis)
      && Settled(TaskAfter(x.acquire.ttl, x.acquire.key, TriedRun(run, m, x, b), x.acquire.token), r, x.acquire.ttl)
  {
    var begin := LP.Begin(x.acquire.token, x.acquire.retry);
    OneMore(x.acquire.ttl, x.acquire.key, run, begin);
    TriesAreRun(run + [begin], m, x.acquire, b.tries, 0);
  }

  /** Wherever a run of the protocol has come to: a use of the lock by a new token, from its first try to its
      release, with any steps of other workers at its awaits and messages added beside its watchdog, continues
      the run, and leaves Redis and the token's task where the longer run comes to. */
  lemma SectionContinuesRun(run: seq<LP.Step>, m: Redis.Moment, x: Section, b: Meanwhile)
    requires Fits(x, b) && Reached(x.acquire.ttl, x.acquire.key, run, m)
    requires TaskAfter(x.acquire.ttl, x.acquire.key, run, x.acquire.token).pc == LP.Unborn
    requires SectionAmong(run, m, x, b)
    ensures Reached(x.acquire.ttl, x.acquire.key, SectionRun(run, m, x, b), AfterSection(m, x, b))
    ensures TaskAfter(x.acquire.ttl, x.acquire.key, SectionRun(run, m, x, b), x.acquire.token).pc == LP.Over
  {
    var ttl, key, t, r := x.acquire.ttl, x.acquire.key, x.acquire.token, TryFrom(m, x.acquire, 0);
    TriedIsRun(run, m, x, b);
    if r.outcome == Won {
      var tried := TriedRun(run, m, x, b);
      RenewsAreRun(tried, r.redis, x.watchdog, b.rounds, 0);
      AwaitKeeps(ttl, key, WatchdogRun(tried, r.redis, x.watchdog, b.rounds, 0), b.tail, t, WatchdogWaits);
      ReleaseIsRun(ttl, key, HeldRun(run, m, x, b), t, b.gap, Redis.Found(x.others, 0, b.left), x.raises, x.executed);
    }
  }

  // ------------------------------------------------------------------ adding a message under the lock

  /** The hot store holds the session as the run has left it. */
  ghost predicate Stores(ttl: int, key: string, run: seq<LP.Step>, hot: map<string, seq<SS.Message>>, sid: string) {
    LP.IsRun(ttl, key, run) && sid in hot && hot[sid] == LP.After(ttl, key, run).stored
  }

  function AddRun(run: seq<LP.Step>, t: string, between: seq<LP.Step>, m: SS.Message): seq<LP.Step> {
    run + [LP.AddRead(t)] + between + [LP.AddWrite(t, m)]
  }

  /** Between the read and the write of an added message others take steps and the watchdog may renew; they leave
      the hot store as the write finds it. */
  ghost predicate AddAmong(ttl: int, key: string, run: seq<LP.Step>, t: string, between: seq<LP.Step>,
                           found: map<string, seq<SS.Message>>, sid: string)
  {
    AllBeside(between, t, BodyWaits) && Stores(ttl, key, run + [LP.AddRead(t)] + between, found, sid)
  }

  /** An added message inside a section is a stretch of a run: the hot store that AddMessage leaves is the one
      the longer run comes to. */
  lemma AddContinuesRun(ttl: int, key: string, run: seq<LP.Step>, t: string, between: seq<LP.Step>, m: SS.Message,
                        hot: map<string, seq<SS.Message>>, found: map<string, seq<SS.Message>>, sid: string)
    requires Stores(ttl, key, run, hot, sid) && TaskAfter(ttl, key, run, t).pc == LP.Locked
    requires AddAmong(ttl, key, run, t, between, found, sid)
    ensures var longer := AddRun(run, t, between, m);
      && Stores(ttl, key, longer, found[sid := hot[sid] + [m]], sid)
      && TaskAfter(ttl, key, longer, t).pc == LP.Locked
      && LP.After(ttl, key, longer).log == LP.After(ttl, key, run + [LP.AddRead(t)] + between).log + [m]
  {
    OneMore(ttl, key, run, LP.AddRead(t));
    AwaitKeeps(ttl, key, run + [LP.AddRead(t)], between, t, BodyWaits);
    OneMore(ttl, key, run + [LP.AddRead(t)] + between, LP.AddWrite(t, m));
  }

  lemma TimelyFront(ttl: int, key: string, run: seq<LP.Step>, last: LP.Step, gap: int)
    requires LP.TimelyRun(ttl, key, run + [last], gap)
    ensures LP.TimelyRun(ttl, key, run, gap)
  {
    assert (run + [last])[..|run|] == run;
  }

  /** And in a run whose holds are refreshed at most a gap below the TTL apart, no message is lost: what the
      write replaces is what was read, and the session it leaves is every message anybody has added, in order. */
  lemma LockedAddLosesNothing(ttl: int, key: string, run: seq<LP.Step>, t: string, between: seq<LP.Step>,
                              m: SS.Message, hot: map<string, seq<SS.Message>>,
                              found: map<string, seq<SS.Message>>, sid: string, gap: int)
    requires 0 < ttl && gap < ttl && LP.TimelyRun(ttl, key, AddRun(run, t, between, m), gap)
    requires Stores(ttl, key, run, hot, sid) && TaskAfter(ttl, key, run, t).pc == LP.Locked
    requires AddAmong(ttl, key, run, t, between, found, sid)
    ensures found[sid] == hot[sid]
    ensures hot[sid] + [m] == LP.After(ttl, key, AddRun(run, t, between, m)).log
  {
    var front := run + [LP.AddRead(t)] + between;
    AddContinuesRun(ttl, key, run, t, between, m, hot, found, sid);
    TimelyFront(ttl, key, front, LP.AddWrite(t, m), gap);
    LP.TimelyRunSerializes(ttl, key, front, gap);
    LP.TimelyRunSerializes(ttl, key, AddRun(run, t, between, m), gap);
    assert found[sid] == (found[sid] + [m])[..|found[sid]|] == (hot[sid] + [m])[..|hot[sid]|] == hot[sid];
  }
}
