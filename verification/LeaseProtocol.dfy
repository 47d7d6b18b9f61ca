/** The lease protocol as a state machine: any number of cores share one Redis and run their
    resync loop, heartbeat loop and on_lost callback step by step, in any interleaving.
    Every step is one Redis script or one stretch of a coroutine between two awaits. */
module LeaseProtocol {
  import opened Prelude
  import opened Lifecycle
  import opened LeaseSteps
  import Redis

  datatype Phase = Up | Closing | Down

  /** Where a core's resync pass stands with one agent. */
  datatype SyncPc = SyncIdle | ClaimReply(ok: bool) | Creating

  /** Where a core's heartbeat pass stands with one agent. */
  datatype HbPc = HbIdle | RenewReply(ok: bool) | LostLease | OwnerReply(owner: Option<string>)

  /** One core's view of one agent. The last three fields are history: when the core last ran the claim
      script, when it last ran the claim or renew script, and when the lease it last obtained runs out. */
  datatype Slot = Slot(owned: bool, instance: Option<InstanceState>, sync: SyncPc, hb: HbPc,
                       lastClaim: int, lastTry: int, deadline: int)

  const FRESH := Slot(false, None, SyncIdle, HbIdle, 0, 0, 0)

  datatype Cluster = Cluster(ttl: int, now: int, store: Redis.Store,
                             phases: map<string, Phase>, slots: map<(string, string), Slot>)
  {
    function PhaseOf(c: string): Phase {
      if c in phases then phases[c] else Down
    }

    function SlotOf(c: string, a: string): Slot {
      if (c, a) in slots then slots[(c, a)] else FRESH
    }

    function Owner(a: string): Option<string> {
      Redis.Get(store, now, OwnerKey(a))
    }

    function With(c: string, a: string, slot: Slot): Cluster {
      this.(slots := slots[(c, a) := slot])
    }

    /** The runtime of agent a is serving on core c, which has not begun to shut down. */
    predicate Serving(c: string, a: string) {
      PhaseOf(c) == Up && RuntimeActive(SlotOf(c, a).instance)
    }

    /** Core c serves agent a, or its resync pass is on the way to starting it. */
    predicate Engaged(c: string, a: string) {
      PhaseOf(c) == Up &&
      (RuntimeActive(SlotOf(c, a).instance) || SlotOf(c, a).sync == Creating || SlotOf(c, a).sync == ClaimReply(true))
    }

    /** Agent a is in core c's owned set, or a won claim is on its way there. */
    predicate Holding(c: string, a: string) {
      SlotOf(c, a).owned || (PhaseOf(c) == Up && SlotOf(c, a).sync == ClaimReply(true))
    }
  }

  datatype Step =
    | Tick(dt: nat)
    | Boot(c: string)
    | Crash(c: string)
    | BeginShutdown(c: string)
    | ShutdownRelease(c: string, a: string)
    | SyncClaim(c: string, a: string)
    | SyncReplyLost(c: string, a: string)
    | SyncApply(c: string, a: string)
    | SyncCreateFails(c: string, a: string)
    | SyncStart(c: string, a: string)
    | HbRenew(c: string, a: string)
    | HbRenewRaises(c: string, a: string, executed: bool)
    | HbApply(c: string, a: string)
    | HbReadOwner(c: string, a: string)
    | HbReadRaises(c: string, a: string)
    | HbStop(c: string, a: string)
    | PauseRuntime(c: string, a: string)
    | ResumeRuntime(c: string, a: string)

  predicate Enabled(s: Cluster, step: Step) {
    match step
    case Tick(_) => true
    case Boot(c) => s.PhaseOf(c) == Down
    case Crash(c) => true
    case BeginShutdown(c) => s.PhaseOf(c) == Up
    case ShutdownRelease(c, a) => s.PhaseOf(c) == Closing
    case SyncClaim(c, a) => s.PhaseOf(c) == Up && s.SlotOf(c, a).sync == SyncIdle
    case SyncReplyLost(c, a) => s.PhaseOf(c) == Up && s.SlotOf(c, a).sync.ClaimReply?
    case SyncApply(c, a) => s.PhaseOf(c) == Up && s.SlotOf(c, a).sync.ClaimReply?
    case SyncCreateFails(c, a) => s.PhaseOf(c) == Up && s.SlotOf(c, a).sync == Creating
    case SyncStart(c, a) => s.PhaseOf(c) == Up && s.SlotOf(c, a).sync == Creating
    case HbRenew(c, a) => s.PhaseOf(c) != Down && s.SlotOf(c, a).hb == HbIdle
    case HbRenewRaises(c, a, _) => s.PhaseOf(c) != Down && s.SlotOf(c, a).hb == HbIdle
    case HbApply(c, a) => s.PhaseOf(c) != Down && s.SlotOf(c, a).hb.RenewReply?
    case HbReadOwner(c, a) => s.PhaseOf(c) != Down && s.SlotOf(c, a).hb == LostLease
    case HbReadRaises(c, a) => s.PhaseOf(c) != Down && s.SlotOf(c, a).hb == LostLease
    case HbStop(c, a) => s.PhaseOf(c) != Down && s.SlotOf(c, a).hb.OwnerReply?
    case PauseRuntime(c, a) => s.PhaseOf(c) != Down && s.SlotOf(c, a).instance.Some?
    case ResumeRuntime(c, a) => s.PhaseOf(c) != Down && s.SlotOf(c, a).instance.Some?
  }

  /** The claim script runs for core c on agent a. */
  function RunClaim(s: Cluster, c: string, a: string): Cluster {
    var r := Redis.Claim(s.store, s.now, OwnerKey(a), c, s.ttl);
    var slot := s.SlotOf(c, a);
    s.(store := r.store)
     .With(c, a, slot.(sync := ClaimReply(r.ok), lastClaim := s.now, lastTry := s.now,
                       deadline := if r.ok then s.now + s.ttl else slot.deadline))
  }

  /** The renew script runs for core c on agent a; hb is where the heartbeat goes next. */
  function RunRenew(s: Cluster, c: string, a: string, hb: HbPc): Cluster {
    var r := Redis.Renew(s.store, s.now, OwnerKey(a), c, s.ttl);
    var slot := s.SlotOf(c, a);
    s.(store := r.store)
     .With(c, a, slot.(hb := hb, lastTry := s.now, deadline := if r.ok then s.now + s.ttl else slot.deadline))
  }

  function RunRelease(s: Cluster, c: string, a: string): Cluster {
    var r := Redis.Release(s.store, s.now, OwnerKey(a), c);
    var slot := s.SlotOf(c, a);
    s.(store := r.store)
     .With(c, a, slot.(owned := false, deadline := if r.ok then s.now else slot.deadline))
  }

  /** A process that dies loses its memory; what it wrote to Redis stays until it expires. */
  function Wiped(slots: map<(string, string), Slot>, c: string): map<(string, string), Slot> {
    map p | p in slots ::
      if p.0 == c
      then FRESH.(lastClaim := slots[p].lastClaim, lastTry := slots[p].lastTry, deadline := slots[p].deadline)
      else slots[p]
  }

  function Next(s: Cluster, step: Step): Cluster {
    match step
    case Tick(dt) => s.(now := s.now + dt)
    case Boot(c) => s.(phases := s.phases[c := Up])
    case Crash(c) => s.(phases := s.phases[c := Down], slots := Wiped(s.slots, c))
    case BeginShutdown(c) => s.(phases := s.phases[c := Closing])
    case ShutdownRelease(c, a) => RunRelease(s, c, a)
    case SyncClaim(c, a) => RunClaim(s, c, a)
    case SyncReplyLost(c, a) => s.With(c, a, s.SlotOf(c, a).(sync := SyncIdle))
    case SyncApply(c, a) =>
      var slot := s.SlotOf(c, a);
      if slot.sync == ClaimReply(true)
      then s.With(c, a, slot.(owned := true, sync := Creating))
      else s.With(c, a, slot.(owned := false, sync := SyncIdle, instance := StopLocal(slot.instance)))
    case SyncCreateFails(c, a) => s.With(c, a, s.SlotOf(c, a).(sync := SyncIdle))
    case SyncStart(c, a) =>
      var slot := s.SlotOf(c, a);
      s.With(c, a, slot.(sync := SyncIdle, instance := CreateAndStart(slot.instance)))
    case HbRenew(c, a) =>
      RunRenew(s, c, a, RenewReply(Redis.Renew(s.store, s.now, OwnerKey(a), c, s.ttl).ok))
    case HbRenewRaises(c, a, executed) =>
      var after := if executed then RunRenew(s, c, a, LostLease) else s;
      after.With(c, a, after.SlotOf(c, a).(owned := false, hb := LostLease))
    case HbApply(c, a) =>
      var slot := s.SlotOf(c, a);
      if slot.hb == RenewReply(true)
      then s.With(c, a, slot.(hb := HbIdle))
      else s.With(c, a, slot.(owned := false, hb := LostLease))
    case HbReadOwner(c, a) => s.With(c, a, s.SlotOf(c, a).(hb := OwnerReply(s.Owner(a))))
    case HbReadRaises(c, a) => s.With(c, a, s.SlotOf(c, a).(hb := HbIdle))
    case HbStop(c, a) =>
      var slot := s.SlotOf(c, a);
      var instance := if slot.hb == OwnerReply(Some(c)) then slot.instance else StopLocal(slot.instance);
      s.With(c, a, slot.(hb := HbIdle, instance := instance))
    case PauseRuntime(c, a) =>
      var slot := s.SlotOf(c, a);
      s.With(c, a, slot.(instance := FireOn(slot.instance, Pause)))
    case ResumeRuntime(c, a) =>
      var slot := s.SlotOf(c, a);
      s.With(c, a, slot.(instance := FireOn(slot.instance, Resume)))
  }

  const EMPTY: Redis.Store := map[]

  function Init(ttl: int): Cluster {
    Cluster(ttl, 0, EMPTY, map[], map[])
  }

  /** The cluster after a sequence of steps. */
  function After(ttl: int, steps: seq<Step>): Cluster {
    if steps == [] then Init(ttl) else Next(After(ttl, steps[..|steps| - 1]), steps[|steps| - 1])
  }

  /** Every step was possible when it was taken. */
  ghost predicate IsRun(ttl: int, steps: seq<Step>) {
    steps == [] ||
    (IsRun(ttl, steps[..|steps| - 1]) && Enabled(After(ttl, steps[..|steps| - 1]), steps[|steps| - 1]))
  }

  // ------------------------------------------------------------------ lease safety

  /** A core is inside a lease it obtained exactly when Redis names it the live owner, with that expiry. */
  ghost predicate LeaseInv(s: Cluster) {
    forall c, a ::
      && (s.now < s.SlotOf(c, a).deadline <==> s.Owner(a) == Some(c))
      && (s.now < s.SlotOf(c, a).deadline ==> s.store[OwnerKey(a)].expiry == s.SlotOf(c, a).deadline)
  }

  /** What a step leaves alone when it runs no Redis write. */
  ghost predicate SameLeases(s: Cluster, t: Cluster) {
    && t.ttl == s.ttl && t.now == s.now && t.store == s.store
    && forall c, a :: t.SlotOf(c, a).deadline == s.SlotOf(c, a).deadline
  }

  predicate Writes(step: Step) {
    step.Tick? || step.SyncClaim? || step.HbRenew? || (step.HbRenewRaises? && step.executed) || step.ShutdownRelease?
  }

  lemma LocalStepKeepsLeases(s: Cluster, step: Step)
    requires !Writes(step)
    ensures SameLeases(s, Next(s, step))
  {
  }

  lemma WriteStepKeepsLeaseInv(s: Cluster, step: Step)
    requires Writes(step) && LeaseInv(s) && 0 < s.ttl
    ensures LeaseInv(Next(s, step))
  {
    var t := Next(s, step);
    forall c, a
      ensures t.now < t.SlotOf(c, a).deadline <==> t.Owner(a) == Some(c)
      ensures t.now < t.SlotOf(c, a).deadline ==> t.store[OwnerKey(a)].expiry == t.SlotOf(c, a).deadline
    {
      assert s.now < s.SlotOf(c, a).deadline <==> s.Owner(a) == Some(c);
      if !step.Tick? {
        OwnerKeyInjective(a, step.a);
      }
    }
  }

  lemma {:induction false} RunKeepsLeaseInv(ttl: int, steps: seq<Step>)
    requires 0 < ttl && IsRun(ttl, steps)
    ensures LeaseInv(After(ttl, steps)) && After(ttl, steps).ttl == ttl
  {
    if steps != [] {
      var n := |steps| - 1;
      var s := After(ttl, steps[..n]);
      RunKeepsLeaseInv(ttl, steps[..n]);
      if Writes(steps[n]) {
        WriteStepKeepsLeaseInv(s, steps[n]);
      } else {
        LocalStepKeepsLeases(s, steps[n]);
        var t := Next(s, steps[n]);
        forall c, a
          ensures t.now < t.SlotOf(c, a).deadline <==> t.Owner(a) == Some(c)
          ensures t.now < t.SlotOf(c, a).deadline ==> t.store[OwnerKey(a)].expiry == t.SlotOf(c, a).deadline
        {
          assert s.now < s.SlotOf(c, a).deadline <==> s.Owner(a) == Some(c);
        }
      }
    }
  }
}
