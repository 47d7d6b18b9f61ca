/** What every run of the lease protocol guarantees, and under which timing. */
module LeaseTheorems {
  import opened Prelude
  import opened Lifecycle
  import opened LeaseSteps
  import opened LeaseProtocol
  import Redis

  // ------------------------------------------------------------------ lease safety

  /** In every run, whatever the interleaving, crashes and lost replies: a core whose last successful
      claim or renew plus TTL is still ahead is exactly the live owner in Redis. */
  lemma LeaseSafety(ttl: int, steps: seq<Step>, c: string, a: string)
    requires 0 < ttl && IsRun(ttl, steps)
    ensures var s := After(ttl, steps); s.now < s.SlotOf(c, a).deadline <==> s.Owner(a) == Some(c)
  {
    RunKeepsLeaseInv(ttl, steps);
  }

  /** So no two cores are ever inside a lease on the same agent. */
  lemma NoTwoLeases(ttl: int, steps: seq<Step>, c: string, d: string, a: string)
    requires 0 < ttl && IsRun(ttl, steps) && c != d
    ensures var s := After(ttl, steps); !(s.now < s.SlotOf(c, a).deadline && s.now < s.SlotOf(d, a).deadline)
  {
    LeaseSafety(ttl, steps, c, a);
    LeaseSafety(ttl, steps, d, a);
  }

  // ------------------------------------------------------------------ bookkeeping every run keeps

  /** Only core c's slot for agent a may differ. */
  ghost predicate SameElsewhere(s: Cluster, t: Cluster, c: string, a: string) {
    && t.phases == s.phases && t.ttl == s.ttl
    && forall d, b :: (d, b) != (c, a) ==> t.SlotOf(d, b) == s.SlotOf(d, b)
  }

  /** The steps of one core on one agent; the others are the clock and whole processes. */
  predicate OnSlot(step: Step) {
    !step.Tick? && !step.Boot? && !step.Crash? && !step.BeginShutdown?
  }

  lemma OtherSlotsUntouched(s: Cluster, step: Step)
    requires OnSlot(step)
    ensures SameElsewhere(s, Next(s, step), step.c, step.a)
    ensures Next(s, step).now == s.now
  {
  }

  /** A process that is down has no local state; history never lies in the future. */
  ghost predicate LocalOk(s: Cluster, c: string, a: string) {
    var slot := s.SlotOf(c, a);
    && (s.PhaseOf(c) == Down ==> !slot.owned && slot.instance == None && slot.sync == SyncIdle && slot.hb == HbIdle)
    && slot.lastClaim <= slot.lastTry <= s.now
    && slot.deadline <= s.now + s.ttl
  }

  ghost predicate LocalInv(s: Cluster) {
    forall c, a :: LocalOk(s, c, a)
  }

  lemma OwnStepKeepsLocal(s: Cluster, step: Step)
    requires OnSlot(step) && LocalOk(s, step.c, step.a) && Enabled(s, step) && 0 < s.ttl
    ensures LocalOk(Next(s, step), step.c, step.a)
  {
  }

  lemma WholeStepKeepsLocal(s: Cluster, step: Step, c: string, a: string)
    requires !OnSlot(step) && LocalOk(s, c, a) && Enabled(s, step)
    ensures LocalOk(Next(s, step), c, a)
  {
  }

  lemma StepKeepsLocalInv(s: Cluster, step: Step)
    requires LocalInv(s) && Enabled(s, step) && 0 < s.ttl
    ensures LocalInv(Next(s, step))
  {
    forall c, a
      ensures LocalOk(Next(s, step), c, a)
    {
      assert LocalOk(s, c, a);
      if !OnSlot(step) {
        WholeStepKeepsLocal(s, step, c, a);
      } else if (step.c, step.a) == (c, a) {
        OwnStepKeepsLocal(s, step);
      } else {
        OtherSlotsUntouched(s, step);
      }
    }
  }

  lemma {:induction false} RunKeepsLocalInv(ttl: int, steps: seq<Step>)
    requires 0 < ttl && IsRun(ttl, steps)
    ensures LocalInv(After(ttl, steps))
  {
    if steps != [] {
      var before := steps[..|steps| - 1];
      RunKeepsLocalInv(ttl, before);
      RunKeepsLeaseInv(ttl, before);
      StepKeepsLocalInv(After(ttl, before), steps[|steps| - 1]);
    }
  }

  // ------------------------------------------------------------------ one core per agent

  /** Two ways a core can count on an agent, and two clocks to measure its diligence by:
      its last claim script, or its last claim or renew script. */
  datatype Interest = Serves | Holds

  datatype Clock = Claims | ClaimsAndRenews

  datatype Watch = Watch(interest: Interest, clock: Clock)

  predicate Bound(s: Cluster, w: Watch, c: string, a: string) {
    match w.interest
    case Serves => s.Engaged(c, a)
    case Holds => s.Holding(c, a)
  }

  function Since(s: Cluster, w: Watch, c: string, a: string): int {
    match w.clock
    case Claims => s.SlotOf(c, a).lastClaim
    case ClaimsAndRenews => s.SlotOf(c, a).lastTry
  }

  /** Every core attends to the agents it counts on at least every gap. */
  ghost predicate Timely(s: Cluster, w: Watch, gap: int) {
    forall c, a :: Bound(s, w, c, a) ==> s.now <= Since(s, w, c, a) + gap
  }

  ghost predicate TimelyRun(ttl: int, steps: seq<Step>, w: Watch, gap: int) {
    && Timely(After(ttl, steps), w, gap)
    && (steps == [] || TimelyRun(ttl, steps[..|steps| - 1], w, gap))
  }

  /** No agent is served by two cores; or, no agent is in two cores' owned sets. */
  ghost predicate Exclusive(s: Cluster, interest: Interest) {
    match interest
    case Serves => forall a, c, d :: s.Serving(c, a) && s.Serving(d, a) ==> c == d
    case Holds => forall a, c, d :: s.SlotOf(c, a).owned && s.SlotOf(d, a).owned ==> c == d
  }

  /** The lease of a bound core outlives its last attention by a full TTL. */
  ghost predicate BoundInv(s: Cluster, w: Watch) {
    forall c, a :: Bound(s, w, c, a) ==> Since(s, w, c, a) + s.ttl <= s.SlotOf(c, a).deadline
  }

  lemma BoundOwns(s: Cluster, w: Watch, c: string, a: string, gap: int)
    requires LeaseInv(s) && BoundInv(s, w) && Timely(s, w, gap) && gap < s.ttl
    requires Bound(s, w, c, a)
    ensures s.Owner(a) == Some(c)
  {
    assert s.now < s.SlotOf(c, a).deadline;
  }

  lemma OwnStepKeepsBound(s: Cluster, step: Step, w: Watch)
    requires OnSlot(step) && 0 < s.ttl && Enabled(s, step) && LocalOk(s, step.c, step.a)
    requires Bound(s, w, step.c, step.a) ==> s.Owner(step.a) == Some(step.c)
    requires Bound(s, w, step.c, step.a) ==> Since(s, w, step.c, step.a) + s.ttl <= s.SlotOf(step.c, step.a).deadline
    ensures var t := Next(s, step);
      Bound(t, w, step.c, step.a) ==> Since(t, w, step.c, step.a) + t.ttl <= t.SlotOf(step.c, step.a).deadline
  {
    OnlyStartActivates(s.SlotOf(step.c, step.a).instance);
  }

  lemma StepKeepsBoundInv(s: Cluster, step: Step, w: Watch, gap: int)
    requires LeaseInv(s) && LocalInv(s) && BoundInv(s, w) && Timely(s, w, gap)
    requires 0 < s.ttl && gap < s.ttl && Enabled(s, step)
    ensures BoundInv(Next(s, step), w)
  {
    var t := Next(s, step);
    forall c, a | Bound(t, w, c, a)
      ensures Since(t, w, c, a) + t.ttl <= t.SlotOf(c, a).deadline
    {
      assert LocalOk(s, c, a);
      if OnSlot(step) {
        if (step.c, step.a) == (c, a) {
          if Bound(s, w, c, a) {
            BoundOwns(s, w, c, a, gap);
          }
          OwnStepKeepsBound(s, step, w);
        } else {
          OtherSlotsUntouched(s, step);
        }
      } else {
        assert Bound(s, w, c, a);
      }
    }
  }

  lemma {:induction false} RunKeepsBoundInv(ttl: int, steps: seq<Step>, w: Watch, gap: int)
    requires 0 < ttl && gap < ttl && IsRun(ttl, steps) && TimelyRun(ttl, steps, w, gap)
    ensures BoundInv(After(ttl, steps), w)
  {
    if steps != [] {
      var before := steps[..|steps| - 1];
      RunKeepsBoundInv(ttl, before, w, gap);
      RunKeepsLeaseInv(ttl, before);
      RunKeepsLocalInv(ttl, before);
      StepKeepsBoundInv(After(ttl, before), steps[|steps| - 1], w, gap);
    }
  }

  /** Attention at most a gap below the TTL apart keeps every agent on one core, even when renews raise,
      replies get lost, the heartbeat forgets an agent that keeps running, and processes crash. */
  lemma TimelyRunIsExclusive(ttl: int, steps: seq<Step>, w: Watch, gap: int)
    requires 0 < ttl && gap < ttl && IsRun(ttl, steps) && TimelyRun(ttl, steps, w, gap)
    ensures Exclusive(After(ttl, steps), w.interest)
  {
    var s := After(ttl, steps);
    RunKeepsBoundInv(ttl, steps, w, gap);
    RunKeepsLeaseInv(ttl, steps);
    forall a, c, d | Bound(s, w, c, a) && Bound(s, w, d, a)
      ensures c == d
    {
      BoundOwns(s, w, c, a, gap);
      BoundOwns(s, w, d, a, gap);
    }
  }

  // ------------------------------------------------------------------ the condition is exact

  /** A possible timely run, and where it leads. */
  ghost predicate Reaches(ttl: int, steps: seq<Step>, w: Watch, gap: int, s: Cluster) {
    IsRun(ttl, steps) && TimelyRun(ttl, steps, w, gap) && After(ttl, steps) == s
  }

  lemma Extend(ttl: int, steps: seq<Step>, step: Step, w: Watch, gap: int, s: Cluster)
    requires Reaches(ttl, steps, w, gap, s) && Enabled(s, step) && Timely(Next(s, step), w, gap)
    ensures Reaches(ttl, steps + [step], w, gap, Next(s, step))
  {
    var more := steps + [step];
    assert more[..|more| - 1] == steps;
  }

  lemma StillTimely(s: Cluster, t: Cluster, c: string, a: string, w: Watch, gap: int)
    requires SameElsewhere(s, t, c, a) && t.now == s.now && 0 <= gap
    requires Bound(t, w, c, a) ==> Since(t, w, c, a) == s.now
    ensures Timely(s, w, gap) ==> Timely(t, w, gap)
  {
    if Timely(s, w, gap) {
      forall d, b | Bound(t, w, d, b)
        ensures t.now <= Since(t, w, d, b) + gap
      {
        assert (d, b) == (c, a) || Bound(s, w, d, b);
      }
    }
  }

  /** A step of one core on one agent that leaves it freshly attended. */
  lemma ExtendAt(ttl: int, steps: seq<Step>, step: Step, w: Watch, gap: int, s: Cluster) returns (t: Cluster)
    requires Reaches(ttl, steps, w, gap, s) && Enabled(s, step) && 0 <= gap && OnSlot(step)
    requires Bound(Next(s, step), w, step.c, step.a) ==> Since(Next(s, step), w, step.c, step.a) == s.now
    ensures t == Next(s, step) && t.now == s.now && Reaches(ttl, steps + [step], w, gap, t)
    ensures Timely(s, w, 0) ==> Timely(t, w, 0)
    ensures SameElsewhere(s, t, step.c, step.a)
  {
    t := Next(s, step);
    OtherSlotsUntouched(s, step);
    StillTimely(s, t, step.c, step.a, w, gap);
    StillTimely(s, t, step.c, step.a, w, 0);
    Extend(ttl, steps, step, w, gap, s);
  }

  lemma ClaimFree(s: Cluster, c: string, a: string)
    requires s.PhaseOf(c) == Up && s.Owner(a) == None && s.SlotOf(c, a) == FRESH
    ensures Enabled(s, SyncClaim(c, a))
    ensures var t := Next(s, SyncClaim(c, a));
      && t.store == s.store[OwnerKey(a) := Redis.Entry(c, s.now + s.ttl)]
      && t.SlotOf(c, a) == Slot(false, None, ClaimReply(true), HbIdle, s.now, s.now, s.now + s.ttl)
  {
  }

  /** An idle core claims a free agent, creates its runtime and starts it. */
  lemma Acquire(ttl: int, steps: seq<Step>, w: Watch, gap: int, s: Cluster, c: string, a: string)
    returns (more: seq<Step>, t: Cluster)
    requires Reaches(ttl, steps, w, gap, s) && 0 <= gap
    requires s.PhaseOf(c) == Up && s.Owner(a) == None && s.SlotOf(c, a) == FRESH
    ensures Reaches(ttl, more, w, gap, t) && t.now == s.now
    ensures Timely(s, w, 0) ==> Timely(t, w, 0)
    ensures t.SlotOf(c, a) == Slot(true, Some(Running), SyncIdle, HbIdle, s.now, s.now, s.now + s.ttl)
    ensures OwnerKey(a) in t.store && t.store[OwnerKey(a)] == Redis.Entry(c, s.now + s.ttl)
    ensures SameElsewhere(s, t, c, a)
  {
    ClaimFree(s, c, a);
    var s1 := ExtendAt(ttl, steps, SyncClaim(c, a), w, gap, s);
    var s2 := ExtendAt(ttl, steps + [SyncClaim(c, a)], SyncApply(c, a), w, gap, s1);
    more := steps + [SyncClaim(c, a)] + [SyncApply(c, a)];
    t := ExtendAt(ttl, more, SyncStart(c, a), w, gap, s2);
    more := more + [SyncStart(c, a)];
  }

  /** A renew raises: on_lost still reads this core as the owner, so the runtime is left running. */
  lemma Forget(ttl: int, steps: seq<Step>, w: Watch, gap: int, s: Cluster, c: string, a: string)
    returns (more: seq<Step>, t: Cluster)
    requires Reaches(ttl, steps, w, gap, s) && 0 <= gap
    requires s.Serving(c, a) && s.Owner(a) == Some(c) && s.SlotOf(c, a).hb == HbIdle
    requires s.SlotOf(c, a).lastClaim == s.SlotOf(c, a).lastTry == s.now
    ensures Reaches(ttl, more, w, gap, t) && t.now == s.now && t.store == s.store
    ensures Timely(s, w, 0) ==> Timely(t, w, 0)
    ensures t.SlotOf(c, a) == s.SlotOf(c, a).(owned := false)
    ensures SameElsewhere(s, t, c, a)
  {
    var s1 := ExtendAt(ttl, steps, HbRenewRaises(c, a, false), w, gap, s);
    var s2 := ExtendAt(ttl, steps + [HbRenewRaises(c, a, false)], HbReadOwner(c, a), w, gap, s1);
    more := steps + [HbRenewRaises(c, a, false)] + [HbReadOwner(c, a)];
    t := ExtendAt(ttl, more, HbStop(c, a), w, gap, s2);
    more := more + [HbStop(c, a)];
  }

  /** Two cores come up. */
  lemma BootTwo(ttl: int, w: Watch, gap: int, c: string, d: string) returns (steps: seq<Step>, s: Cluster)
    requires c != d && 0 <= gap
    ensures Reaches(ttl, steps, w, gap, s) && Timely(s, w, 0)
    ensures s.now == 0 && s.ttl == ttl && s.store == EMPTY && s.PhaseOf(c) == Up && s.PhaseOf(d) == Up
    ensures forall e, b :: s.SlotOf(e, b) == FRESH
  {
    steps, s := [], Init(ttl);
    Extend(ttl, steps, Boot(c), w, gap, s);
    steps, s := steps + [Boot(c)], Next(s, Boot(c));
    Extend(ttl, steps, Boot(d), w, gap, s);
    steps, s := steps + [Boot(d)], Next(s, Boot(d));
  }

  /** Once a whole TTL may pass unattended, another core claims and starts the agent in between.
      For a served agent one raising renew is enough: the heartbeat forgets it, the runtime goes on. */
  lemma SplitBrain(ttl: int, w: Watch, gap: int) returns (steps: seq<Step>)
    requires 0 < ttl <= gap
    ensures IsRun(ttl, steps) && TimelyRun(ttl, steps, w, gap)
    ensures !Exclusive(After(ttl, steps), w.interest)
  {
    var c, d, a := "core-1", "core-2", "a";
    assert c[5] != d[5];
    var s: Cluster;
    steps, s := BootTwo(ttl, w, gap, c, d);
    steps, s := Acquire(ttl, steps, w, gap, s, c, a);
    if w.interest == Serves {
      steps, s := Forget(ttl, steps, w, gap, s, c, a);
    }
    var t := Next(s, Tick(ttl));
    assert forall e, b :: t.SlotOf(e, b) == s.SlotOf(e, b) && Bound(t, w, e, b) == Bound(s, w, e, b);
    Extend(ttl, steps, Tick(ttl), w, gap, s);
    steps, s := Acquire(ttl, steps + [Tick(ttl)], w, gap, t, d, a);
    assert s.SlotOf(c, a) == t.SlotOf(c, a);
    if w.interest == Serves {
      assert s.Serving(c, a) && s.Serving(d, a);
    } else {
      assert s.SlotOf(c, a).owned && s.SlotOf(d, a).owned;
    }
  }

  /** Renewing often does not help: however small the gap at which every core claims or renews each agent in its
      owned set, in some run two cores serve one agent. One raising renew takes the agent out of the owned set and
      leaves its runtime on, and nothing renews the lease it runs on any more. */
  lemma RenewingIsNotEnough(ttl: int, gap: int) returns (steps: seq<Step>)
    requires 0 < ttl && 0 <= gap
    ensures IsRun(ttl, steps) && TimelyRun(ttl, steps, Watch(Holds, ClaimsAndRenews), gap)
    ensures !Exclusive(After(ttl, steps), Serves)
  {
    var w := Watch(Holds, ClaimsAndRenews);
    var c, d, a := "core-1", "core-2", "a";
    assert c[5] != d[5];
    var s: Cluster;
    steps, s := BootTwo(ttl, w, gap, c, d);
    steps, s := Acquire(ttl, steps, w, gap, s, c, a);
    steps, s := Forget(ttl, steps, w, gap, s, c, a);
    var t := Next(s, Tick(ttl));
    assert forall e, b :: t.SlotOf(e, b) == s.SlotOf(e, b) && !Bound(t, w, e, b);
    Extend(ttl, steps, Tick(ttl), w, gap, s);
    steps, s := Acquire(ttl, steps + [Tick(ttl)], w, gap, t, d, a);
    assert s.SlotOf(c, a) == t.SlotOf(c, a);
    assert s.Serving(c, a) && s.Serving(d, a);
  }

  /** The exact condition on the configured intervals: a gap is safe if and only if it is below the TTL. */
  lemma SafeIffGapBelowTtl(ttl: int, w: Watch, gap: int)
    requires 0 < ttl
    ensures (forall steps :: IsRun(ttl, steps) && TimelyRun(ttl, steps, w, gap) ==>
               Exclusive(After(ttl, steps), w.interest))
            <==> gap < ttl
  {
    if gap < ttl {
      forall steps | IsRun(ttl, steps) && TimelyRun(ttl, steps, w, gap)
        ensures Exclusive(After(ttl, steps), w.interest)
      {
        TimelyRunIsExclusive(ttl, steps, w, gap);
      }
    } else {
      var steps := SplitBrain(ttl, w, gap);
    }
  }

  // ------------------------------------------------------------------ bounded takeover

  lemma {:induction false} PrefixIsRun(ttl: int, steps: seq<Step>, k: nat)
    requires IsRun(ttl, steps) && k <= |steps|
    ensures IsRun(ttl, steps[..k])
  {
    if k == |steps| {
      assert steps[..k] == steps;
    } else {
      PrefixIsRun(ttl, steps[..|steps| - 1], k);
      assert steps[..|steps| - 1][..k] == steps[..k];
    }
  }

  /** Throughout the run, from its k-th state on, core d is up and claims agent a at least every gap,
      and core c stays down. */
  ghost predicate Waiting(ttl: int, steps: seq<Step>, k: nat, c: string, d: string, a: string, gap: int) {
    && k <= |steps|
    && (var s := After(ttl, steps);
        && s.PhaseOf(c) == Down
        && s.PhaseOf(d) == Up
        && s.now <= s.SlotOf(d, a).lastClaim + gap)
    && (k < |steps| ==> Waiting(ttl, steps[..|steps| - 1], k, c, d, a, gap))
  }

  /** The j-th step is a claim by another core than c that wins, between the old expiry and one gap later. */
  ghost predicate TakesOver(ttl: int, steps: seq<Step>, j: nat, c: string, a: string, expiry: int, gap: int) {
    && j < |steps| && steps[j].SyncClaim? && steps[j].a == a && steps[j].c != c
    && (var s := After(ttl, steps[..j]);
        && expiry <= s.now <= expiry + gap
        && Next(s, steps[j]).SlotOf(steps[j].c, a).sync == ClaimReply(true))
  }

  lemma TakesOverPrefix(ttl: int, steps: seq<Step>, j: nat, c: string, a: string, expiry: int, gap: int)
    requires steps != [] && TakesOver(ttl, steps[..|steps| - 1], j, c, a, expiry, gap)
    ensures TakesOver(ttl, steps, j, c, a, expiry, gap)
  {
    assert steps[..|steps| - 1][..j] == steps[..j];
  }

  /** The crashed owner's entry is still the one in Redis. */
  predicate StillHeld(s: Cluster, c: string, a: string, expiry: int) {
    OwnerKey(a) in s.store && s.store[OwnerKey(a)] == Redis.Entry(c, expiry)
  }

  /** Only a claim after the expiry displaces the entry of a core that is down. */
  lemma OnlyClaimDisplaces(s: Cluster, step: Step, c: string, a: string, expiry: int)
    requires StillHeld(s, c, a, expiry) && s.PhaseOf(c) == Down && Enabled(s, step)
    ensures !StillHeld(Next(s, step), c, a, expiry) ==>
      step.SyncClaim? && step.a == a && step.c != c && expiry <= s.now
    ensures step.SyncClaim? && step.a == a ==>
      (Next(s, step).SlotOf(step.c, a).sync == ClaimReply(true) <==> expiry <= s.now)
  {
    if OnSlot(step) {
      OwnerKeyInjective(a, step.a);
    }
  }

  /** A step changes core d's last claim of agent a only by claiming it. */
  lemma OnlyClaimRefreshes(s: Cluster, step: Step, d: string, a: string)
    ensures step == SyncClaim(d, a) || Next(s, step).SlotOf(d, a).lastClaim == s.SlotOf(d, a).lastClaim
  {
  }

  /** Until a takeover, the dead owner's entry stays, and the waiting core has not claimed since it expired. */
  lemma {:induction false} HeldUntilTakeover(ttl: int, steps: seq<Step>, k: nat, c: string, d: string, a: string,
                                             expiry: int, gap: int)
    requires 0 < ttl && IsRun(ttl, steps) && Waiting(ttl, steps, k, c, d, a, gap)
    requires StillHeld(After(ttl, steps[..k]), c, a, expiry) && After(ttl, steps[..k]).now < expiry
    ensures (exists j :: k <= j && TakesOver(ttl, steps, j, c, a, expiry, gap))
            || (StillHeld(After(ttl, steps), c, a, expiry) && After(ttl, steps).SlotOf(d, a).lastClaim < expiry)
  {
    if k == |steps| {
      assert steps[..k] == steps;
      RunKeepsLocalInv(ttl, steps);
      assert LocalOk(After(ttl, steps), d, a);
    } else {
      var n := |steps| - 1;
      var before := steps[..n];
      assert before[..k] == steps[..k];
      HeldUntilTakeover(ttl, before, k, c, d, a, expiry, gap);
      if j :| k <= j && TakesOver(ttl, before, j, c, a, expiry, gap) {
        TakesOverPrefix(ttl, steps, j, c, a, expiry, gap);
      } else {
        var s := After(ttl, before);
        OnlyClaimDisplaces(s, steps[n], c, a, expiry);
        OnlyClaimRefreshes(s, steps[n], d, a);
        if steps[n].SyncClaim? && steps[n].a == a && expiry <= s.now {
          assert TakesOver(ttl, steps, n, c, a, expiry, gap);
        }
      }
    }
  }

  /** If an owner is down and stays down while a live core claims its agent at least every gap, then by
      the time the lease's expiry (at most one TTL away) is a gap past, a live core has claimed the agent:
      after the expiry, and at most one gap after it. */
  lemma BoundedTakeover(ttl: int, steps: seq<Step>, k: nat, c: string, d: string, a: string, gap: int)
    returns (expiry: int)
    requires 0 < ttl && IsRun(ttl, steps) && Waiting(ttl, steps, k, c, d, a, gap)
    requires After(ttl, steps[..k]).Owner(a) == Some(c)
    ensures After(ttl, steps[..k]).now < expiry <= After(ttl, steps[..k]).now + ttl
    ensures After(ttl, steps).now >= expiry + gap ==>
      exists j :: k <= j && TakesOver(ttl, steps, j, c, a, expiry, gap)
  {
    var s := After(ttl, steps[..k]);
    PrefixIsRun(ttl, steps, k);
    RunKeepsLocalInv(ttl, steps[..k]);
    RunKeepsLeaseInv(ttl, steps[..k]);
    assert LocalOk(s, c, a);
    expiry := s.store[OwnerKey(a)].expiry;
    assert s.SlotOf(c, a).deadline == expiry by {
      assert s.now < s.SlotOf(c, a).deadline <==> s.Owner(a) == Some(c);
    }
    HeldUntilTakeover(ttl, steps, k, c, d, a, expiry, gap);
  }
}
