/** The session lock as a state machine: any number of workers contend for one session, each inside its
    locked section reading the whole session, appending a message and writing the whole session back. */
module LockProtocol {
  import opened Prelude
  import opened SessionStore
  import Redis

  datatype Pc = Unborn | Trying(left: nat) | Locked | Leaving | Over

  /** One acquire, identified by its fencing token. buffer is the session as read and not yet written
      back; lastRefresh and deadline are history: when its key was last set or a renew last ran, and
      when the hold it last obtained runs out. */
  datatype Task = Task(pc: Pc, watchdog: bool, buffer: Option<seq<Message>>, lastRefresh: int, deadline: int)

  const UNBORN := Task(Unborn, false, None, 0, 0)

  datatype State = State(ttl: int, key: string, now: int, store: Redis.Store, tasks: map<string, Task>,
                         stored: seq<Message>, log: seq<Message>)
  {
    function Holder(): Option<string> {
      Redis.Get(store, now, key)
    }

    function TaskOf(t: string): Task {
      if t in tasks then tasks[t] else UNBORN
    }

    function With(t: string, task: Task): State {
      this.(tasks := tasks[t := task])
    }

    /** Token t's caller is inside its locked section. */
    predicate Open(t: string) {
      TaskOf(t).pc == Locked
    }
  }

  datatype Step =
    | Tick(dt: nat)
    | Others(store: Redis.Store)
    | Begin(t: string, retry: nat)
    | TrySet(t: string)
    | TrySetRaises(t: string, executed: bool)
    | Extend(t: string)
    | ExtendRaises(t: string, executed: bool)
    | AddRead(t: string)
    | AddWrite(t: string, m: Message)
    | Leave(t: string)
    | Release(t: string)
    | ReleaseRaises(t: string, executed: bool)
    | Crash(t: string)

  predicate Enabled(s: State, step: Step) {
    match step
    case Tick(_) => true
    case Others(store) =>
      (s.key in store <==> s.key in s.store) && (s.key in store ==> store[s.key] == s.store[s.key])
    case Begin(t, _) => s.TaskOf(t).pc == Unborn
    case TrySet(t) => s.TaskOf(t).pc.Trying?
    case TrySetRaises(t, _) => s.TaskOf(t).pc.Trying?
    case Extend(t) => s.Open(t) && s.TaskOf(t).watchdog
    case ExtendRaises(t, _) => s.Open(t) && s.TaskOf(t).watchdog
    case AddRead(t) => s.Open(t)
    case AddWrite(t, _) => s.Open(t) && s.TaskOf(t).buffer.Some?
    case Leave(t) => s.Open(t)
    case Release(t) => s.TaskOf(t).pc == Leaving
    case ReleaseRaises(t, _) => s.TaskOf(t).pc == Leaving
    case Crash(t) => s.TaskOf(t).pc != Unborn
  }

  /** SET NX runs for token t; a task that loses its last try is over. */
  function RunSet(s: State, t: string): State {
    var r := Redis.SetNx(s.store, s.now, s.key, t, s.ttl);
    var task := s.TaskOf(t);
    if r.ok
    then s.(store := r.store).With(t, Task(Locked, true, None, s.now, s.now + s.ttl))
    else s.With(t, task.(pc := if task.pc.Trying? && task.pc.left > 1 then Trying(task.pc.left - 1) else Over))
  }

  function RunRenew(s: State, t: string): State {
    var r := Redis.Renew(s.store, s.now, s.key, t, s.ttl);
    var task := s.TaskOf(t);
    s.(store := r.store)
     .With(t, task.(watchdog := r.ok, lastRefresh := s.now, deadline := if r.ok then s.now + s.ttl else task.deadline))
  }

  function RunRelease(s: State, t: string): State {
    var r := Redis.Release(s.store, s.now, s.key, t);
    var task := s.TaskOf(t);
    s.(store := r.store)
     .With(t, task.(pc := Over, watchdog := false, deadline := if r.ok then s.now else task.deadline))
  }

  function Dropped(task: Task, pc: Pc): Task {
    task.(pc := pc, watchdog := false, buffer := None)
  }

  function Next(s: State, step: Step): State {
    match step
    case Tick(dt) => s.(now := s.now + dt)
    case Others(store) => s.(store := store)
    case Begin(t, retry) => s.With(t, s.TaskOf(t).(pc := Trying(retry + 1)))
    case TrySet(t) => RunSet(s, t)
    case TrySetRaises(t, executed) =>
      var after := if executed then RunSet(s, t) else s;
      after.With(t, Dropped(after.TaskOf(t), Over))
    case Extend(t) => RunRenew(s, t)
    case ExtendRaises(t, executed) =>
      var after := if executed then RunRenew(s, t) else s;
      after.With(t, after.TaskOf(t).(watchdog := false))
    case AddRead(t) => s.With(t, s.TaskOf(t).(buffer := Some(s.stored)))
    case AddWrite(t, m) =>
      var read := if s.TaskOf(t).buffer.Some? then s.TaskOf(t).buffer.value else [];
      s.(stored := read + [m], log := s.log + [m]).With(t, s.TaskOf(t).(buffer := None))
    case Leave(t) => s.With(t, Dropped(s.TaskOf(t), Leaving))
    case Release(t) => RunRelease(s, t)
    case ReleaseRaises(t, executed) =>
      var after := if executed then RunRelease(s, t) else s;
      after.With(t, Dropped(after.TaskOf(t), Over))
    case Crash(t) => s.With(t, Dropped(s.TaskOf(t), Over))
  }

  const EMPTY: Redis.Store := map[]

  function Init(ttl: int, key: string): State {
    State(ttl, key, 0, EMPTY, map[], [], [])
  }

  /** The state after a sequence of steps. */
  function After(ttl: int, key: string, steps: seq<Step>): State {
    if steps == [] then Init(ttl, key) else Next(After(ttl, key, steps[..|steps| - 1]), steps[|steps| - 1])
  }

  /** Every step was possible when it was taken. */
  ghost predicate IsRun(ttl: int, key: string, steps: seq<Step>) {
    steps == [] ||
    (IsRun(ttl, key, steps[..|steps| - 1]) && Enabled(After(ttl, key, steps[..|steps| - 1]), steps[|steps| - 1]))
  }

  // ------------------------------------------------------------------ fencing, in every state

  predicate OfTask(step: Step) {
    !step.Tick? && !step.Others?
  }

  // A step of one token leaves another token's live key alone.
  lemma Fencing(s: State, step: Step)
    requires Enabled(s, step) && OfTask(step)
    requires s.Holder().Some? && s.Holder() != Some(step.t)
    ensures Next(s, step).store == s.store
  {
  }

  /** From the k-th state of the run on, no step is one of token t. */
  ghost predicate WithoutStepsOf(steps: seq<Step>, k: nat, t: string) {
    forall j | k <= j < |steps| && OfTask(steps[j]) :: steps[j].t != t
  }

  /** Whatever the timing: nothing but its own steps and its expiry ends or changes a hold. Whoever else tries,
      renews, releases, raises or crashes, the holder's entry stays as it is until it expires. */
  lemma {:induction false} HoldIsItsOwn(ttl: int, key: string, steps: seq<Step>, k: nat, t: string)
    requires IsRun(ttl, key, steps) && k <= |steps| && WithoutStepsOf(steps, k, t)
    requires After(ttl, key, steps[..k]).Holder() == Some(t)
    ensures var was, now := After(ttl, key, steps[..k]), After(ttl, key, steps);
      && was.key == now.key == key && was.now <= now.now
      && (now.now < was.store[key].expiry ==> key in now.store && now.store[key] == was.store[key])
  {
    KeyStays(ttl, key, steps[..k]);
    if k == |steps| {
      assert steps[..k] == steps;
    } else {
      var n := |steps| - 1;
      var before := steps[..n];
      assert before[..k] == steps[..k];
      assert forall j | k <= j < n :: before[j] == steps[j];
      HoldIsItsOwn(ttl, key, before, k, t);
      var s := After(ttl, key, before);
      if OfTask(steps[n]) {
        if s.Holder() == Some(t) {
          Fencing(s, steps[n]);
        }
        OtherTasksUntouched(s, steps[n], t);
      }
    }
  }

  lemma {:induction false} KeyStays(ttl: int, key: string, steps: seq<Step>)
    ensures After(ttl, key, steps).key == key
  {
    if steps != [] {
      KeyStays(ttl, key, steps[..|steps| - 1]);
    }
  }

  // ------------------------------------------------------------------ the hold and its deadline

  /** A task is inside a hold it obtained exactly when its token is the live value of the key. */
  ghost predicate HoldInv(s: State) {
    && 0 <= s.now
    && (forall t :: s.now < s.TaskOf(t).deadline <==> s.Holder() == Some(t))
    && (forall t :: s.now < s.TaskOf(t).deadline ==> s.store[s.key].expiry == s.TaskOf(t).deadline)
    && (forall t :: s.TaskOf(t).pc == Unborn ==> s.TaskOf(t) == UNBORN)
  }

  /** The steps that run a command of the lock in Redis. */
  predicate Writes(step: Step) {
    step.TrySet? || (step.TrySetRaises? && step.executed) || step.Extend? || (step.ExtendRaises? && step.executed) ||
    step.Release? || (step.ReleaseRaises? && step.executed)
  }

  // The clock, the others and the steps between two commands leave the key and every deadline as they are.
  lemma OtherStepsKeepHoldInv(s: State, step: Step)
    requires HoldInv(s) && Enabled(s, step) && !Writes(step)
    ensures HoldInv(Next(s, step))
  {
    var r := Next(s, step);
    forall t
      ensures r.now < r.TaskOf(t).deadline <==> r.Holder() == Some(t)
      ensures r.now < r.TaskOf(t).deadline ==> r.store[r.key].expiry == r.TaskOf(t).deadline
    {
      assert s.now < s.TaskOf(t).deadline <==> s.Holder() == Some(t);
    }
  }

  lemma CommandKeepsHoldInv(s: State, step: Step)
    requires HoldInv(s) && Enabled(s, step) && 0 < s.ttl && Writes(step)
    ensures HoldInv(Next(s, step))
  {
    var r := Next(s, step);
    forall t
      ensures r.now < r.TaskOf(t).deadline <==> r.Holder() == Some(t)
      ensures r.now < r.TaskOf(t).deadline ==> r.store[r.key].expiry == r.TaskOf(t).deadline
    {
      assert s.now < s.TaskOf(t).deadline <==> s.Holder() == Some(t);
    }
  }

  lemma StepKeepsHoldInv(s: State, step: Step)
    requires HoldInv(s) && Enabled(s, step) && 0 < s.ttl
    ensures HoldInv(Next(s, step))
  {
    if Writes(step) {
      CommandKeepsHoldInv(s, step);
    } else {
      OtherStepsKeepHoldInv(s, step);
    }
  }

  lemma {:induction false} RunKeepsHoldInv(ttl: int, key: string, steps: seq<Step>)
    requires 0 < ttl && IsRun(ttl, key, steps)
    ensures HoldInv(After(ttl, key, steps)) && After(ttl, key, steps).ttl == ttl
  {
    if steps != [] {
      var before := steps[..|steps| - 1];
      RunKeepsHoldInv(ttl, key, before);
      StepKeepsHoldInv(After(ttl, key, before), steps[|steps| - 1]);
    }
  }

  /** In every run, timely or not: a token's last successful SET or renew plus TTL is still ahead exactly
      while the token is the live value of the key, so no two holds are ever in force at once. */
  lemma {:induction false} HoldSafety(ttl: int, key: string, steps: seq<Step>, t: string, u: string)
    requires 0 < ttl && IsRun(ttl, key, steps) && t != u
    ensures var s := After(ttl, key, steps);
      && (s.now < s.TaskOf(t).deadline <==> s.Holder() == Some(t))
      && !(s.now < s.TaskOf(t).deadline && s.now < s.TaskOf(u).deadline)
  {
    RunKeepsHoldInv(ttl, key, steps);
    var s := After(ttl, key, steps);
    assert s.now < s.TaskOf(u).deadline <==> s.Holder() == Some(u);
  }

  // ------------------------------------------------------------------ exclusion and no lost message

  /** While a section is open, its key was set or a renew of it ran at most gap ago. */
  ghost predicate Timely(s: State, gap: int) {
    forall t :: s.Open(t) ==> s.now <= s.TaskOf(t).lastRefresh + gap
  }

  ghost predicate TimelyRun(ttl: int, key: string, steps: seq<Step>, gap: int) {
    && Timely(After(ttl, key, steps), gap)
    && (steps == [] || TimelyRun(ttl, key, steps[..|steps| - 1], gap))
  }

  /** An open section's hold outlives its last refresh by a full TTL, and what it read is what is stored. */
  ghost predicate SectionOk(s: State, t: string) {
    s.Open(t) ==>
      && s.TaskOf(t).lastRefresh + s.ttl <= s.TaskOf(t).deadline
      && (s.TaskOf(t).buffer.Some? ==> s.TaskOf(t).buffer.value == s.stored)
  }

  ghost predicate SectionInv(s: State) {
    (forall t :: SectionOk(s, t)) && s.stored == s.log
  }

  lemma OpenSectionHolds(s: State, t: string, gap: int)
    requires HoldInv(s) && SectionInv(s) && Timely(s, gap) && gap < s.ttl && s.Open(t)
    ensures s.Holder() == Some(t)
  {
    assert SectionOk(s, t);
    assert s.now < s.TaskOf(t).deadline;
  }

  lemma OtherTasksUntouched(s: State, step: Step, u: string)
    requires OfTask(step) && step.t != u
    ensures Next(s, step).TaskOf(u) == s.TaskOf(u) && Next(s, step).now == s.now
  {
  }

  lemma StepKeepsSectionInv(s: State, step: Step, gap: int)
    requires HoldInv(s) && SectionInv(s) && Timely(s, gap) && 0 < s.ttl && gap < s.ttl && Enabled(s, step)
    ensures SectionInv(Next(s, step))
  {
    var r := Next(s, step);
    if OfTask(step) {
      assert SectionOk(s, step.t);
      if s.Open(step.t) {
        OpenSectionHolds(s, step.t, gap);
      }
    }
    forall u
      ensures SectionOk(r, u)
    {
      assert SectionOk(s, u);
      if OfTask(step) && step.t != u {
        OtherTasksUntouched(s, step, u);
        if s.Open(u) {
          OpenSectionHolds(s, u, gap);
        }
      }
    }
  }

  lemma {:induction false} TimelyRunKeepsSectionInv(ttl: int, key: string, steps: seq<Step>, gap: int)
    requires 0 < ttl && gap < ttl && IsRun(ttl, key, steps) && TimelyRun(ttl, key, steps, gap)
    ensures SectionInv(After(ttl, key, steps))
  {
    if steps != [] {
      var before := steps[..|steps| - 1];
      TimelyRunKeepsSectionInv(ttl, key, before, gap);
      RunKeepsHoldInv(ttl, key, before);
      StepKeepsSectionInv(After(ttl, key, before), steps[|steps| - 1], gap);
    }
  }

  /** At most one section is open, and the stored session is every appended message, in order of completion. */
  ghost predicate Serialized(s: State) {
    && (forall t, u :: s.Open(t) && s.Open(u) ==> t == u)
    && s.stored == s.log
  }

  lemma TimelyRunSerializes(ttl: int, key: string, steps: seq<Step>, gap: int)
    requires 0 < ttl && gap < ttl && IsRun(ttl, key, steps) && TimelyRun(ttl, key, steps, gap)
    ensures Serialized(After(ttl, key, steps))
  {
    var s := After(ttl, key, steps);
    TimelyRunKeepsSectionInv(ttl, key, steps, gap);
    RunKeepsHoldInv(ttl, key, steps);
    forall t, u | s.Open(t) && s.Open(u)
      ensures t == u
    {
      OpenSectionHolds(s, t, gap);
      OpenSectionHolds(s, u, gap);
    }
  }

  // ------------------------------------------------------------------ the condition is exact

  /** A possible timely run, and where it leads. */
  ghost predicate Reaches(ttl: int, key: string, steps: seq<Step>, gap: int, s: State) {
    IsRun(ttl, key, steps) && TimelyRun(ttl, key, steps, gap) && After(ttl, key, steps) == s
  }

  lemma ExtendRun(ttl: int, key: string, steps: seq<Step>, gap: int, s: State, step: Step)
    returns (more: seq<Step>, r: State)
    requires Reaches(ttl, key, steps, gap, s) && Enabled(s, step)
    requires step.Tick? ==> Timely(Next(s, step), gap)
    requires OfTask(step) && Next(s, step).Open(step.t) ==> s.now <= Next(s, step).TaskOf(step.t).lastRefresh + gap
    ensures r == Next(s, step) && Reaches(ttl, key, more, gap, r)
  {
    more, r := steps + [step], Next(s, step);
    assert more[..|more| - 1] == steps;
    forall u | r.Open(u)
      ensures r.now <= r.TaskOf(u).lastRefresh + gap
    {
      if OfTask(step) && step.t != u {
        OtherTasksUntouched(s, step, u);
        assert s.Open(u);
      } else if step.Others? {
        assert s.Open(u);
      }
    }
  }

  /** A fresh worker takes the free lock and reads the session. */
  lemma OpenAndRead(ttl: int, key: string, steps: seq<Step>, gap: int, s: State, t: string)
    returns (more: seq<Step>, r: State)
    requires Reaches(ttl, key, steps, gap, s) && 0 <= gap && s.Holder() == None && s.TaskOf(t) == UNBORN
    ensures Reaches(ttl, key, more, gap, r)
    ensures r == s.(store := s.store[s.key := Redis.Entry(t, s.now + s.ttl)],
                    tasks := s.tasks[t := Task(Locked, true, Some(s.stored), s.now, s.now + s.ttl)])
  {
    more, r := ExtendRun(ttl, key, steps, gap, s, Begin(t, 0));
    more, r := ExtendRun(ttl, key, more, gap, r, TrySet(t));
    more, r := ExtendRun(ttl, key, more, gap, r, AddRead(t));
  }

  /** A refresh gap of a whole TTL loses messages: the first worker reads, its key expires, a second
      worker reads and writes, and the first one writes over it. */
  lemma LostMessage(ttl: int, key: string, gap: int, a: Message, b: Message) returns (steps: seq<Step>)
    requires 0 < ttl <= gap
    ensures IsRun(ttl, key, steps) && TimelyRun(ttl, key, steps, gap)
    ensures After(ttl, key, steps).log == [b, a] && After(ttl, key, steps).stored == [a]
  {
    var t, u := "core-1:token", "core-2:token";
    assert t[5] != u[5];
    var s := Init(ttl, key);
    steps, s := OpenAndRead(ttl, key, [], gap, s, t);
    steps, s := ExtendRun(ttl, key, steps, gap, s, Tick(ttl));
    steps, s := OpenAndRead(ttl, key, steps, gap, s, u);
    steps, s := ExtendRun(ttl, key, steps, gap, s, AddWrite(u, b));
    assert s.log == [b];
    steps, s := ExtendRun(ttl, key, steps, gap, s, AddWrite(t, a));
    assert s.log == [b, a] && s.stored == [a];
  }

  /** The exact condition: locked sections serialize the session, in every run whose holds are refreshed
      at most gap apart, if and only if the gap is below the TTL. */
  lemma SerializesIffGapBelowTtl(ttl: int, key: string, gap: int)
    requires 0 < ttl
    ensures (forall steps :: IsRun(ttl, key, steps) && TimelyRun(ttl, key, steps, gap) ==>
               Serialized(After(ttl, key, steps)))
            <==> gap < ttl
  {
    if gap < ttl {
      forall steps | IsRun(ttl, key, steps) && TimelyRun(ttl, key, steps, gap)
        ensures Serialized(After(ttl, key, steps))
      {
        TimelyRunSerializes(ttl, key, steps, gap);
      }
    } else {
      var a := Message("1", "user", "", "", 0);
      var steps := LostMessage(ttl, key, gap, a, a);
    }
  }
}
