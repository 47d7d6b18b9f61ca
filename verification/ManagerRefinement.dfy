/** agent/manager.py and cluster/core_ownership.py: the manager's resync pass and its heartbeat pass, with any
    steps of other processes at their awaits, are runs of the lease protocol, so what holds of every run of
    the protocol holds of the classes. */
module ManagerRefinement {
  import opened Prelude
  import opened Lifecycle
  import opened LeaseSteps
  import opened AgentManager
  import opened Heartbeat
  import LP = LeaseProtocol
  import LT = LeaseTheorems
  import Redis

  // ------------------------------------------------------------------ stretches of a run

  /** A stretch of a run, from a given state. */
  function Taken(s: LP.Cluster, steps: seq<LP.Step>): LP.Cluster {
    if steps == [] then s else LP.Next(Taken(s, steps[..|steps| - 1]), steps[|steps| - 1])
  }

  ghost predicate Possible(s: LP.Cluster, steps: seq<LP.Step>) {
    steps == [] ||
    (Possible(s, steps[..|steps| - 1]) && LP.Enabled(Taken(s, steps[..|steps| - 1]), steps[|steps| - 1]))
  }

  lemma TakenMore(s: LP.Cluster, steps: seq<LP.Step>, step: LP.Step)
    requires Possible(s, steps) && LP.Enabled(Taken(s, steps), step)
    ensures Possible(s, steps + [step]) && Taken(s, steps + [step]) == LP.Next(Taken(s, steps), step)
  {
    assert (steps + [step])[..|steps|] == steps;
  }

  lemma TakenOne(s: LP.Cluster, one: LP.Step)
    requires LP.Enabled(s, one)
    ensures Possible(s, [one]) && Taken(s, [one]) == LP.Next(s, one)
  {
    TakenMore(s, [], one);
    assert [] + [one] == [one];
  }

  lemma TakenTwo(s: LP.Cluster, one: LP.Step, two: LP.Step)
    requires LP.Enabled(s, one) && LP.Enabled(LP.Next(s, one), two)
    ensures Possible(s, [one, two]) && Taken(s, [one, two]) == LP.Next(LP.Next(s, one), two)
  {
    TakenOne(s, one);
    TakenMore(s, [one], two);
    assert [one] + [two] == [one, two];
  }

  // The last step of a stretch.
  lemma TakenLast(s: LP.Cluster, steps: seq<LP.Step>)
    requires Possible(s, steps) && steps != []
    ensures var n := |steps| - 1;
      && Possible(s, steps[..n]) && LP.Enabled(Taken(s, steps[..n]), steps[n])
      && Taken(s, steps) == LP.Next(Taken(s, steps[..n]), steps[n])
  {
  }

  lemma {:induction false} TakenConcat(s: LP.Cluster, first: seq<LP.Step>, second: seq<LP.Step>)
    requires Possible(s, first) && Possible(Taken(s, first), second)
    ensures Possible(s, first + second) && Taken(s, first + second) == Taken(Taken(s, first), second)
  {
    if second == [] {
      assert first + second == first;
    } else {
      var front, last := second[..|second| - 1], second[|second| - 1];
      TakenLast(Taken(s, first), second);
      TakenConcat(s, first, front);
      TakenMore(s, first + front, last);
      assert first + second == first + front + [last];
    }
  }

  lemma {:induction false} RunContinues(ttl: int, run: seq<LP.Step>, steps: seq<LP.Step>)
    requires LP.IsRun(ttl, run) && Possible(LP.After(ttl, run), steps)
    ensures LP.IsRun(ttl, run + steps) && LP.After(ttl, run + steps) == Taken(LP.After(ttl, run), steps)
  {
    if steps == [] {
      assert run + steps == run;
    } else {
      var n := |steps| - 1;
      RunContinues(ttl, run, steps[..n]);
      assert (run + steps)[..|run + steps| - 1] == run + steps[..n];
    }
  }

  lemma {:induction false} RunEndsIn(ttl: int, run: seq<LP.Step>, steps: seq<LP.Step>)
    requires LP.IsRun(ttl, run + steps)
    ensures Possible(LP.After(ttl, run), steps)
    ensures LP.After(ttl, run + steps) == Taken(LP.After(ttl, run), steps)
  {
    if steps == [] {
      assert run + steps == run;
    } else {
      var n := |steps| - 1;
      assert (run + steps)[..|run + steps| - 1] == run + steps[..n];
      RunEndsIn(ttl, run, steps[..n]);
    }
  }

  // ------------------------------------------------------------------ one core's part of a cluster

  /** The cluster is in the state that the core's manager and its Redis show, for agent a. The agents in lost
      have had their renew fail and await the owner read. */
  predicate Shows(s: LP.Cluster, w: World, core: Core, a: string, lost: set<string>) {
    && s.store == w.redis.store && s.now == w.redis.now && s.ttl == core.ttl && s.PhaseOf(core.id) == LP.Up
    && (s.SlotOf(core.id, a).owned <==> a in w.owned)
    && s.SlotOf(core.id, a).instance == StateIn(w.table, a)
    && s.SlotOf(core.id, a).sync == LP.SyncIdle
    && s.SlotOf(core.id, a).hb == if a in lost then LP.LostLease else LP.HbIdle
  }

  ghost predicate ShowsBut(s: LP.Cluster, w: World, core: Core, lost: set<string>) {
    forall a :: Shows(s, w, core, a, lost)
  }

  ghost predicate ShowsAll(s: LP.Cluster, w: World, core: Core) {
    ShowsBut(s, w, core, {})
  }

  /** A step of the clock or of another core. */
  predicate Foreign(step: LP.Step, c: string) {
    match step
    case Tick(_) => true
    case _ => step.c != c
  }

  predicate AllForeign(steps: seq<LP.Step>, c: string) {
    forall i | 0 <= i < |steps| :: Foreign(steps[i], c)
  }

  /** While core c awaits, the others take these steps, and leave Redis as the awaited call finds it. */
  ghost predicate Leads(s: LP.Cluster, steps: seq<LP.Step>, c: string, at: Redis.Moment) {
    && Possible(s, steps) && AllForeign(steps, c)
    && Taken(s, steps).store == at.store && Taken(s, steps).now == at.now
  }

  lemma ForeignStep(s: LP.Cluster, step: LP.Step, c: string, a: string)
    requires Foreign(step, c)
    ensures LP.Next(s, step).SlotOf(c, a) == s.SlotOf(c, a)
    ensures LP.Next(s, step).PhaseOf(c) == s.PhaseOf(c) && LP.Next(s, step).ttl == s.ttl
  {
    if LT.OnSlot(step) {
      LT.OtherSlotsUntouched(s, step);
    }
  }

  lemma {:induction false} ForeignSteps(s: LP.Cluster, steps: seq<LP.Step>, c: string, a: string)
    requires AllForeign(steps, c)
    ensures Taken(s, steps).SlotOf(c, a) == s.SlotOf(c, a)
    ensures Taken(s, steps).PhaseOf(c) == s.PhaseOf(c) && Taken(s, steps).ttl == s.ttl
  {
    if steps != [] {
      var n := |steps| - 1;
      ForeignSteps(s, steps[..n], c, a);
      ForeignStep(Taken(s, steps[..n]), steps[n], c, a);
    }
  }

  lemma LeadsShows(s: LP.Cluster, w: World, core: Core, lost: set<string>, steps: seq<LP.Step>, at: Redis.Moment)
    requires ShowsBut(s, w, core, lost) && Leads(s, steps, core.id, at)
    ensures ShowsBut(Taken(s, steps), w.(redis := at), core, lost)
  {
    forall a
      ensures Shows(Taken(s, steps), w.(redis := at), core, a, lost)
    {
      assert Shows(s, w, core, a, lost);
      ForeignSteps(s, steps, core.id, a);
    }
  }

  predicate OnlyOn(steps: seq<LP.Step>, c: string, a: string) {
    forall i | 0 <= i < |steps| :: LT.OnSlot(steps[i]) && steps[i].c == c && steps[i].a == a
  }

  lemma {:induction false} OthersStay(s: LP.Cluster, steps: seq<LP.Step>, c: string, a: string, b: string)
    requires OnlyOn(steps, c, a) && b != a
    ensures Taken(s, steps).SlotOf(c, b) == s.SlotOf(c, b)
  {
    if steps != [] {
      var n := |steps| - 1;
      OthersStay(s, steps[..n], c, a, b);
      LT.OtherSlotsUntouched(Taken(s, steps[..n]), steps[n]);
    }
  }

  /** Steps on one agent that bring it where the new world has it, with the other agents as they were there,
      bring the whole core there. */
  lemma TurnShows(s: LP.Cluster, w: World, core: Core, lost: set<string>, steps: seq<LP.Step>, a: string,
                  w': World, lost': set<string>)
    requires ShowsBut(s, w, core, lost) && OnlyOn(steps, core.id, a)
    requires Shows(Taken(s, steps), w', core, a, lost')
    requires forall b :: b != a ==>
               (b in w'.owned <==> b in w.owned) && StateIn(w'.table, b) == StateIn(w.table, b) &&
               (b in lost' <==> b in lost)
    ensures ShowsBut(Taken(s, steps), w', core, lost')
  {
    forall b ensures Shows(Taken(s, steps), w', core, b, lost') {
      if b != a {
        assert Shows(s, w, core, b, lost);
        OthersStay(s, steps, core.id, a, b);
      }
    }
  }

  // ------------------------------------------------------------------ the resync pass

  /** The steps of one agent's turn: the claim, its reply, and for an owned agent the start, or nothing when
      there is nothing to start or the creation or the update raises. */
  function SyncSteps(p: Pass, core: Core, config: Config, at: Redis.Moment, faults: Faults): seq<LP.Step> {
    var c, a := core.id, config.agentId;
    if a in faults.claim then
      if a in faults.executed then [LP.SyncClaim(c, a), LP.SyncReplyLost(c, a)] else []
    else
      [LP.SyncClaim(c, a), LP.SyncApply(c, a)] +
      if !ClaimWins(at, core, a) then []
      else if StateIn(SyncLocal(p.world.table, config, faults).table, a) == StateIn(p.world.table, a)
      then [LP.SyncCreateFails(c, a)]
      else [LP.SyncStart(c, a)]
  }

  /** The manager's local turn changes an instance's state by starting it, or not at all. */
  lemma LocalTurnStarts(table: map<string, Local>, config: Config, faults: Faults)
    ensures var a := config.agentId;
      var before, after := StateIn(table, a), StateIn(SyncLocal(table, config, faults).table, a);
      after == before || after == CreateAndStart(before)
  {
  }

  lemma OwnTurnIsSteps(s: LP.Cluster, p: Pass, core: Core, config: Config, at: Redis.Moment, faults: Faults)
    requires Shows(s, p.world.(redis := at), core, config.agentId, {})
    ensures Possible(s, SyncSteps(p, core, config, at, faults))
    ensures Shows(Taken(s, SyncSteps(p, core, config, at, faults)),
                  SyncClaimed(p, core, config, at, faults).world, core, config.agentId, {})
  {
    var c, a := core.id, config.agentId;
    var steps := SyncSteps(p, core, config, at, faults);
    if a in faults.claim {
      if a in faults.executed {
        TakenTwo(s, LP.SyncClaim(c, a), LP.SyncReplyLost(c, a));
      }
    } else {
      var front := [LP.SyncClaim(c, a), LP.SyncApply(c, a)];
      TakenTwo(s, front[0], front[1]);
      LocalTurnStarts(p.world.table, config, faults);
      if ClaimWins(at, core, a) {
        assert steps == front + [steps[2]];
        TakenMore(s, front, steps[2]);
      } else {
        assert steps == front;
      }
    }
  }

  /** One agent's turn in the manager is at most three steps of the protocol. */
  lemma TurnIsSteps(s: LP.Cluster, p: Pass, core: Core, config: Config, at: Redis.Moment, faults: Faults)
    requires ShowsAll(s, p.world.(redis := at), core)
    ensures Possible(s, SyncSteps(p, core, config, at, faults))
    ensures ShowsAll(Taken(s, SyncSteps(p, core, config, at, faults)),
                     SyncClaimed(p, core, config, at, faults).world, core)
  {
    var w' := SyncClaimed(p, core, config, at, faults).world;
    assert Shows(s, p.world.(redis := at), core, config.agentId, {});
    OwnTurnIsSteps(s, p, core, config, at, faults);
    forall b | b != config.agentId
      ensures (b in w'.owned <==> b in p.world.owned) && StateIn(w'.table, b) == StateIn(p.world.table, b)
    {
      SyncOneFrame(p, core, config, at, faults, b);
    }
    TurnShows(s, p.world.(redis := at), core, {}, SyncSteps(p, core, config, at, faults), config.agentId, w', {});
  }

  /** The steps of the first n turns, each after what the others do while its claim is awaited. */
  function PassSteps(w: World, x: Resync, core: Core, between: seq<seq<LP.Step>>, n: nat): seq<LP.Step>
    requires n <= |x.configs| == |between|
  {
    if n == 0 then []
    else
      PassSteps(w, x, core, between, n - 1) +
      if SyncTo(w, x, n - 1).raised then []
      else between[n - 1] +
           SyncSteps(SyncTo(w, x, n - 1), core, x.configs[n - 1], FoundBy(w, x, n - 1), x.faults)
  }

  /** While the n-th claim is awaited, others take steps that leave Redis as the claim finds it. */
  ghost predicate ClaimAmong(s: LP.Cluster, w: World, x: Resync, core: Core, between: seq<seq<LP.Step>>, n: nat)
    requires n < |x.configs| == |between|
  {
    !SyncTo(w, x, n).raised ==>
      Leads(Taken(s, PassSteps(w, x, core, between, n)), between[n], core.id, FoundBy(w, x, n))
  }

  ghost predicate PassAmong(s: LP.Cluster, w: World, x: Resync, core: Core, between: seq<seq<LP.Step>>) {
    |x.configs| == |between| && forall i | 0 <= i < |between| :: ClaimAmong(s, w, x, core, between, i)
  }

  lemma TurnContinues(s: LP.Cluster, steps: seq<LP.Step>, p: Pass, core: Core, others: seq<LP.Step>, config: Config,
                      at: Redis.Moment, faults: Faults)
    requires Possible(s, steps) && ShowsAll(Taken(s, steps), p.world, core)
    requires Leads(Taken(s, steps), others, core.id, at)
    ensures var longer := steps + (others + SyncSteps(p, core, config, at, faults));
      Possible(s, longer) && ShowsAll(Taken(s, longer), SyncClaimed(p, core, config, at, faults).world, core)
  {
    var there, turn := Taken(s, steps), SyncSteps(p, core, config, at, faults);
    LeadsShows(there, p.world, core, {}, others, at);
    TurnIsSteps(Taken(there, others), p, core, config, at, faults);
    TakenConcat(there, others, turn);
    TakenConcat(s, steps, others + turn);
  }

  ghost predicate PassShows(s: LP.Cluster, w: World, x: Resync, core: Core, between: seq<seq<LP.Step>>, n: nat)
    requires n <= |x.configs| == |between|
  {
    var there := Taken(s, PassSteps(w, x, core, between, n));
    Possible(s, PassSteps(w, x, core, between, n)) && ShowsAll(there, SyncTo(w, x, n).world, core)
  }

  lemma PassShowsNext(s: LP.Cluster, w: World, x: Resync, core: Core, between: seq<seq<LP.Step>>, n: nat)
    requires x.core == Some(core) && n < |x.configs| == |between| && PassShows(s, w, x, core, between, n)
    requires ClaimAmong(s, w, x, core, between, n)
    ensures PassShows(s, w, x, core, between, n + 1)
  {
    var before, steps := SyncTo(w, x, n), PassSteps(w, x, core, between, n);
    if before.raised {
      assert steps + [] == steps;
    } else {
      TurnContinues(s, steps, before, core, between[n], x.configs[n], FoundBy(w, x, n), x.faults);
    }
  }

  lemma PassShowsNone(s: LP.Cluster, w: World, x: Resync, core: Core, between: seq<seq<LP.Step>>)
    requires ShowsAll(s, w, core) && |x.configs| == |between|
    ensures PassShows(s, w, x, core, between, 0)
  {
  }

  lemma PassShowsMore(s: LP.Cluster, w: World, x: Resync, core: Core, between: seq<seq<LP.Step>>, k: nat, n: nat)
    requires x.core == Some(core) && PassAmong(s, w, x, core, between) && n == k + 1 <= |between|
    requires PassShows(s, w, x, core, between, k)
    ensures PassShows(s, w, x, core, between, n)
  {
    assert ClaimAmong(s, w, x, core, between, k);
    PassShowsNext(s, w, x, core, between, k);
  }

  lemma {:induction false} PassIsSteps(s: LP.Cluster, w: World, x: Resync, core: Core, between: seq<seq<LP.Step>>,
                                       n: nat)
    requires x.core == Some(core) && ShowsAll(s, w, core) && PassAmong(s, w, x, core, between) && n <= |between|
    ensures PassShows(s, w, x, core, between, n)
  {
    if n == 0 {
      PassShowsNone(s, w, x, core, between);
    } else {
      var k := n - 1;
      PassIsSteps(s, w, x, core, between, k);
      PassShowsMore(s, w, x, core, between, k, n);
    }
  }

  /** Wherever a run of the protocol has come to: if the manager and its Redis show that state, the manager's
      resync pass, with any steps of other processes at its awaits, continues the run, and manager and Redis
      show the state that the longer run comes to. */
  lemma PassContinuesRun(ttl: int, run: seq<LP.Step>, w: World, x: Resync, core: Core, between: seq<seq<LP.Step>>)
    requires LP.IsRun(ttl, run) && ShowsAll(LP.After(ttl, run), w, core)
    requires x.core == Some(core) && PassAmong(LP.After(ttl, run), w, x, core, between)
    ensures var longer := run + PassSteps(w, x, core, between, |between|);
      LP.IsRun(ttl, longer) && ShowsAll(LP.After(ttl, longer), SyncAll(w, x).world, core)
  {
    PassIsSteps(LP.After(ttl, run), w, x, core, between, |between|);
    RunContinues(ttl, run, PassSteps(w, x, core, between, |between|));
  }

  // ------------------------------------------------------------------ the heartbeat pass

  function RenewSteps(core: Core, a: string, faults: RedisFaults): seq<LP.Step> {
    if a in faults.renew then [LP.HbRenewRaises(core.id, a, a in faults.executed)]
    else [LP.HbRenew(core.id, a), LP.HbApply(core.id, a)]
  }

  function ReadSteps(core: Core, a: string, faults: RedisFaults): seq<LP.Step> {
    if a in faults.read then [LP.HbReadRaises(core.id, a)]
    else [LP.HbReadOwner(core.id, a), LP.HbStop(core.id, a)]
  }

  /** The world after one renew. */
  function Renewed(w: World, core: Core, a: string, faults: RedisFaults): World {
    World(AfterRenew(w.redis, core, a, faults),
          if Loses(w.redis, core, a, faults) then w.owned - {a} else w.owned, w.table)
  }

  function LostBy(w: World, core: Core, a: string, faults: RedisFaults): set<string> {
    if Loses(w.redis, core, a, faults) then {a} else {}
  }

  lemma RenewIsSteps(s: LP.Cluster, w: World, core: Core, a: string, faults: RedisFaults)
    requires ShowsAll(s, w, core)
    ensures Possible(s, RenewSteps(core, a, faults))
    ensures ShowsBut(Taken(s, RenewSteps(core, a, faults)), Renewed(w, core, a, faults), core,
                     LostBy(w, core, a, faults))
  {
    assert Shows(s, w, core, a, {});
    var steps := RenewSteps(core, a, faults);
    if a in faults.renew {
      TakenOne(s, steps[0]);
    } else {
      TakenTwo(s, steps[0], steps[1]);
    }
    TurnShows(s, w, core, {}, steps, a, Renewed(w, core, a, faults), LostBy(w, core, a, faults));
  }

  /** The world after the owner read. */
  function Checked(w: World, core: Core, a: string, faults: RedisFaults): World {
    w.(table := if Stops(w.redis, core, a, faults) then StoppedIn(w.table, a) else w.table)
  }

  lemma ReadIsSteps(s: LP.Cluster, w: World, core: Core, a: string, faults: RedisFaults)
    requires ShowsBut(s, w, core, {a})
    ensures Possible(s, ReadSteps(core, a, faults))
    ensures ShowsAll(Taken(s, ReadSteps(core, a, faults)), Checked(w, core, a, faults), core)
  {
    assert Shows(s, w, core, a, {a});
    var steps := ReadSteps(core, a, faults);
    if a in faults.read {
      TakenOne(s, steps[0]);
    } else {
      TakenTwo(s, steps[0], steps[1]);
    }
    TurnShows(s, w, core, {a}, steps, a, Checked(w, core, a, faults), {});
  }

  /** What the others do while an agent's renew is awaited, and while the owner read after it is. */
  datatype Gap = Gap(beforeRenew: seq<LP.Step>, beforeRead: seq<LP.Step>)

  function TurnSteps(w: World, x: Beat, gap: Gap, i: nat): seq<LP.Step>
    requires i < |x.agents|
  {
    gap.beforeRenew + RenewSteps(x.core, x.agents[i], x.faults) +
    if Loses(AtRenew(w, x, i), x.core, x.agents[i], x.faults)
    then gap.beforeRead + ReadSteps(x.core, x.agents[i], x.faults) else []
  }

  function BeatSteps(w: World, x: Beat, between: seq<Gap>, n: nat): seq<LP.Step>
    requires n <= |x.agents| == |between|
  {
    if n == 0 then [] else BeatSteps(w, x, between, n - 1) + TurnSteps(w, x, between[n - 1], n - 1)
  }

  /** The steps of the first n turns and of the renew after them. */
  function RenewedSteps(w: World, x: Beat, between: seq<Gap>, n: nat): seq<LP.Step>
    requires n < |x.agents| == |between|
  {
    BeatSteps(w, x, between, n) + (between[n].beforeRenew + RenewSteps(x.core, x.agents[n], x.faults))
  }

  ghost predicate TurnAmong(s: LP.Cluster, w: World, x: Beat, gap: Gap, i: nat)
    requires i < |x.agents|
  {
    && Leads(s, gap.beforeRenew, x.core.id, AtRenew(w, x, i))
    && (Loses(AtRenew(w, x, i), x.core, x.agents[i], x.faults) ==>
          Leads(Taken(s, gap.beforeRenew + RenewSteps(x.core, x.agents[i], x.faults)), gap.beforeRead, x.core.id,
                AtRead(w, x, i)))
  }

  ghost predicate BeatAmong(s: LP.Cluster, w: World, x: Beat, between: seq<Gap>) {
    && |x.agents| == |between|
    && forall i | 0 <= i < |between| :: TurnAmong(Taken(s, BeatSteps(w, x, between, i)), w, x, between[i], i)
  }

  /** The world after the i-th agent's renew. */
  function RenewedAt(w: World, x: Beat, i: nat): World
    requires i < |x.agents|
  {
    Renewed(BeatTo(w, x, i).(redis := AtRenew(w, x, i)), x.core, x.agents[i], x.faults)
  }

  /** The first half of a turn, up to the owner read. */
  lemma RenewTurnIsSteps(s: LP.Cluster, w: World, x: Beat, gap: Gap, i: nat)
    requires i < |x.agents| && ShowsAll(s, BeatTo(w, x, i), x.core) && TurnAmong(s, w, x, gap, i)
    ensures var front := gap.beforeRenew + RenewSteps(x.core, x.agents[i], x.faults);
      && Possible(s, front)
      && ShowsBut(Taken(s, front), RenewedAt(w, x, i), x.core,
                  if Loses(AtRenew(w, x, i), x.core, x.agents[i], x.faults) then {x.agents[i]} else {})
  {
    var core, a, faults := x.core, x.agents[i], x.faults;
    LeadsShows(s, BeatTo(w, x, i), core, {}, gap.beforeRenew, AtRenew(w, x, i));
    RenewIsSteps(Taken(s, gap.beforeRenew), BeatTo(w, x, i).(redis := AtRenew(w, x, i)), core, a, faults);
    TakenConcat(s, gap.beforeRenew, RenewSteps(core, a, faults));
  }

  /** One agent's turn in a heartbeat pass is a stretch of the protocol. */
  lemma BeatTurnIsSteps(s: LP.Cluster, w: World, x: Beat, gap: Gap, i: nat)
    requires i < |x.agents| && ShowsAll(s, BeatTo(w, x, i), x.core) && TurnAmong(s, w, x, gap, i)
    ensures Possible(s, TurnSteps(w, x, gap, i))
    ensures ShowsAll(Taken(s, TurnSteps(w, x, gap, i)), BeatTo(w, x, i + 1), x.core)
  {
    var core, a, faults := x.core, x.agents[i], x.faults;
    var front := gap.beforeRenew + RenewSteps(core, a, faults);
    RenewTurnIsSteps(s, w, x, gap, i);
    if Loses(AtRenew(w, x, i), core, a, faults) {
      var there := Taken(s, front);
      LeadsShows(there, RenewedAt(w, x, i), core, {a}, gap.beforeRead, AtRead(w, x, i));
      var read := RenewedAt(w, x, i).(redis := AtRead(w, x, i));
      ReadIsSteps(Taken(there, gap.beforeRead), read, core, a, faults);
      TakenConcat(there, gap.beforeRead, ReadSteps(core, a, faults));
      TakenConcat(s, front, gap.beforeRead + ReadSteps(core, a, faults));
    } else {
      assert front + [] == front;
    }
  }

  ghost predicate BeatShows(s: LP.Cluster, w: World, x: Beat, between: seq<Gap>, n: nat)
    requires n <= |x.agents| == |between|
  {
    && Possible(s, BeatSteps(w, x, between, n))
    && ShowsAll(Taken(s, BeatSteps(w, x, between, n)), BeatTo(w, x, n), x.core)
  }

  lemma BeatShowsNext(s: LP.Cluster, w: World, x: Beat, between: seq<Gap>, n: nat)
    requires n < |x.agents| == |between| && BeatShows(s, w, x, between, n)
    requires TurnAmong(Taken(s, BeatSteps(w, x, between, n)), w, x, between[n], n)
    ensures BeatShows(s, w, x, between, n + 1)
  {
    var steps, turn := BeatSteps(w, x, between, n), TurnSteps(w, x, between[n], n);
    BeatTurnIsSteps(Taken(s, steps), w, x, between[n], n);
    TakenConcat(s, steps, turn);
    assert BeatSteps(w, x, between, n + 1) == steps + turn;
  }

  lemma {:induction false} BeatIsSteps(s: LP.Cluster, w: World, x: Beat, between: seq<Gap>, n: nat)
    requires ShowsAll(s, w, x.core) && BeatAmong(s, w, x, between) && n <= |between|
    ensures BeatShows(s, w, x, between, n)
  {
    if n > 0 {
      BeatIsSteps(s, w, x, between, n - 1);
      BeatShowsNext(s, w, x, between, n - 1);
    }
  }

  /** So does its heartbeat pass. */
  lemma BeatContinuesRun(ttl: int, run: seq<LP.Step>, w: World, x: Beat, between: seq<Gap>)
    requires LP.IsRun(ttl, run) && ShowsAll(LP.After(ttl, run), w, x.core)
    requires BeatAmong(LP.After(ttl, run), w, x, between)
    ensures var longer := run + BeatSteps(w, x, between, |between|);
      LP.IsRun(ttl, longer) && ShowsAll(LP.After(ttl, longer), BeatAll(w, x), x.core)
  {
    BeatIsSteps(LP.After(ttl, run), w, x, between, |between|);
    RunContinues(ttl, run, BeatSteps(w, x, between, |between|));
  }

  // ------------------------------------------------------------------ what that gives

  /** The manager's table shows which runtimes the core has, wherever its own passes stand. */
  ghost predicate ShowsTable(s: LP.Cluster, table: map<string, Local>, core: Core) {
    s.PhaseOf(core.id) == LP.Up && forall a :: s.SlotOf(core.id, a).instance == StateIn(table, a)
  }

  lemma TableOf(s: LP.Cluster, w: World, core: Core, lost: set<string>)
    requires ShowsBut(s, w, core, lost)
    ensures ShowsTable(s, w.table, core)
  {
    assert Shows(s, w, core, "", lost);
    forall a ensures s.SlotOf(core.id, a).instance == StateIn(w.table, a) {
      assert Shows(s, w, core, a, lost);
    }
  }

  // At an await nothing the others do changes it.
  lemma AwaitKeepsTable(s: LP.Cluster, steps: seq<LP.Step>, table: map<string, Local>, core: Core)
    requires ShowsTable(s, table, core) && AllForeign(steps, core.id)
    ensures ShowsTable(Taken(s, steps), table, core)
  {
    ForeignSteps(s, steps, core.id, "");
    forall a ensures Taken(s, steps).SlotOf(core.id, a).instance == StateIn(table, a) {
      ForeignSteps(s, steps, core.id, a);
    }
  }

  /** A resync pass that begins where the run has come to. */
  ghost predicate PassFrom(ttl: int, run: seq<LP.Step>, w: World, x: Resync, core: Core, between: seq<seq<LP.Step>>) {
    && LP.IsRun(ttl, run) && x.core == Some(core)
    && ShowsAll(LP.After(ttl, run), w, core) && PassAmong(LP.After(ttl, run), w, x, core, between)
  }

  /** And a heartbeat pass. */
  ghost predicate BeatFrom(ttl: int, run: seq<LP.Step>, w: World, x: Beat, between: seq<Gap>) {
    && LP.IsRun(ttl, run)
    && ShowsAll(LP.After(ttl, run), w, x.core) && BeatAmong(LP.After(ttl, run), w, x, between)
  }

  /** At every await of a resync pass, while the claim of turn n is awaited and the others have got as far as
      these steps, the table is that of the pass up to there. */
  lemma TableDuringPass(ttl: int, run: seq<LP.Step>, w: World, x: Resync, core: Core, between: seq<seq<LP.Step>>,
                        n: nat, others: seq<LP.Step>)
    requires PassFrom(ttl, run, w, x, core, between) && n <= |between|
    requires AllForeign(others, core.id) && LP.IsRun(ttl, run + PassSteps(w, x, core, between, n) + others)
    ensures ShowsTable(LP.After(ttl, run + PassSteps(w, x, core, between, n) + others),
                       SyncTo(w, x, n).world.table, core)
  {
    var steps := PassSteps(w, x, core, between, n);
    PassIsSteps(LP.After(ttl, run), w, x, core, between, n);
    RunContinues(ttl, run, steps);
    RunEndsIn(ttl, run + steps, others);
    TableOf(LP.After(ttl, run + steps), SyncTo(w, x, n).world, core, {});
    AwaitKeepsTable(LP.After(ttl, run + steps), others, SyncTo(w, x, n).world.table, core);
  }

  /** And at every await of a heartbeat pass: the renew of turn n, */
  lemma TableDuringBeat(ttl: int, run: seq<LP.Step>, w: World, x: Beat, between: seq<Gap>, n: nat,
                        others: seq<LP.Step>)
    requires BeatFrom(ttl, run, w, x, between) && n <= |between|
    requires AllForeign(others, x.core.id) && LP.IsRun(ttl, run + BeatSteps(w, x, between, n) + others)
    ensures ShowsTable(LP.After(ttl, run + BeatSteps(w, x, between, n) + others), BeatTo(w, x, n).table, x.core)
  {
    var steps := BeatSteps(w, x, between, n);
    BeatIsSteps(LP.After(ttl, run), w, x, between, n);
    RunContinues(ttl, run, steps);
    RunEndsIn(ttl, run + steps, others);
    TableOf(LP.After(ttl, run + steps), BeatTo(w, x, n), x.core, {});
    AwaitKeepsTable(LP.After(ttl, run + steps), others, BeatTo(w, x, n).table, x.core);
  }

  /** and the owner read after it: a lost lease does not change the table before its owner is read. */
  lemma TableDuringRead(ttl: int, run: seq<LP.Step>, w: World, x: Beat, between: seq<Gap>, n: nat,
                        others: seq<LP.Step>)
    requires BeatFrom(ttl, run, w, x, between) && n < |between|
    requires Loses(AtRenew(w, x, n), x.core, x.agents[n], x.faults)
    requires AllForeign(others, x.core.id) && LP.IsRun(ttl, run + RenewedSteps(w, x, between, n) + others)
    ensures ShowsTable(LP.After(ttl, run + RenewedSteps(w, x, between, n) + others), BeatTo(w, x, n).table, x.core)
  {
    var s, steps := LP.After(ttl, run), BeatSteps(w, x, between, n);
    var there, turn := Taken(s, steps), between[n].beforeRenew + RenewSteps(x.core, x.agents[n], x.faults);
    BeatIsSteps(s, w, x, between, n);
    RenewTurnIsSteps(there, w, x, between[n], n);
    TakenConcat(s, steps, turn);
    RunContinues(ttl, run, steps + turn);
    RunEndsIn(ttl, run + (steps + turn), others);
    TableOf(Taken(there, turn), RenewedAt(w, x, n), x.core, {x.agents[n]});
    AwaitKeepsTable(Taken(there, turn), others, BeatTo(w, x, n).table, x.core);
  }

  /** Two managers of different cores never both run an agent: at every moment of every run that claims the agents
      it serves at most a gap below the TTL apart, and so at every await of their passes. */
  lemma ManagersExclusive(ttl: int, run: seq<LP.Step>, gap: int, table: map<string, Local>, core: Core,
                          otherTable: map<string, Local>, other: Core, a: string)
    requires 0 < ttl && gap < ttl && core.id != other.id
    requires LP.IsRun(ttl, run) && LT.TimelyRun(ttl, run, LT.Watch(LT.Serves, LT.Claims), gap)
    requires ShowsTable(LP.After(ttl, run), table, core) && ShowsTable(LP.After(ttl, run), otherTable, other)
    ensures !(RuntimeActive(StateIn(table, a)) && RuntimeActive(StateIn(otherTable, a)))
  {
    var s := LP.After(ttl, run);
    LT.TimelyRunIsExclusive(ttl, run, LT.Watch(LT.Serves, LT.Claims), gap);
    assert s.Serving(core.id, a) ==> !s.Serving(other.id, a);
  }

  /** So while a resync pass has done n of its turns and awaits the next claim, whatever the others have done by
      then, no other manager runs what this one does. */
  lemma ExclusiveDuringPass(ttl: int, run: seq<LP.Step>, gap: int, w: World, x: Resync, core: Core,
                            between: seq<seq<LP.Step>>, n: nat, others: seq<LP.Step>,
                            otherTable: map<string, Local>, other: Core, a: string)
    requires 0 < ttl && gap < ttl && core.id != other.id
    requires PassFrom(ttl, run, w, x, core, between) && n <= |between|
    requires AllForeign(others, core.id)
    requires var longer := run + PassSteps(w, x, core, between, n) + others;
      && LP.IsRun(ttl, longer)
      && LT.TimelyRun(ttl, longer, LT.Watch(LT.Serves, LT.Claims), gap)
      && ShowsTable(LP.After(ttl, longer), otherTable, other)
    ensures !(RuntimeActive(StateIn(SyncTo(w, x, n).world.table, a)) && RuntimeActive(StateIn(otherTable, a)))
  {
    TableDuringPass(ttl, run, w, x, core, between, n, others);
    ManagersExclusive(ttl, run + PassSteps(w, x, core, between, n) + others, gap, SyncTo(w, x, n).world.table, core,
                      otherTable, other, a);
  }

  /** And while a heartbeat pass awaits the renew of turn n. */
  lemma ExclusiveDuringBeat(ttl: int, run: seq<LP.Step>, gap: int, w: World, x: Beat, between: seq<Gap>, n: nat,
                            others: seq<LP.Step>, otherTable: map<string, Local>, other: Core, a: string)
    requires 0 < ttl && gap < ttl && x.core.id != other.id
    requires BeatFrom(ttl, run, w, x, between) && n <= |between| && AllForeign(others, x.core.id)
    requires var longer := run + BeatSteps(w, x, between, n) + others;
      && LP.IsRun(ttl, longer)
      && LT.TimelyRun(ttl, longer, LT.Watch(LT.Serves, LT.Claims), gap)
      && ShowsTable(LP.After(ttl, longer), otherTable, other)
    ensures !(RuntimeActive(StateIn(BeatTo(w, x, n).table, a)) && RuntimeActive(StateIn(otherTable, a)))
  {
    TableDuringBeat(ttl, run, w, x, between, n, others);
    ManagersExclusive(ttl, run + BeatSteps(w, x, between, n) + others, gap, BeatTo(w, x, n).table, x.core,
                      otherTable, other, a);
  }
}
