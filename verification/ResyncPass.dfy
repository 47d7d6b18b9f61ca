/** agent/manager.py, sync_from_configs: which agents a resync pass leaves running, with which configuration, what
    it counts and when it raises, said of the instances' states and configurations themselves. */
module ResyncPass {
  import opened Prelude
  import opened Lifecycle
  import opened LeaseSteps
  import opened AgentManager
  import Redis

  // ------------------------------------------------------------------ one turn

  /** Another configuration in all but when and from where it was loaded. */
  predicate ReallyDiffers(a: Config, b: Config) {
    a.agentId != b.agentId || a.body != b.body
  }

  /** The instance would have to be initialised again for the configuration, and that raises. */
  predicate UpdateRaises(table: map<string, Local>, config: Config, faults: Faults) {
    && config.agentId in table && config.agentId in faults.update
    && ReallyDiffers(table[config.agentId].config, config)
  }

  /** The instance cannot be started. */
  predicate Unstartable(table: map<string, Local>, a: string) {
    a in table && table[a].state in {Draining, Deleted}
  }

  /** The local half of a turn raises exactly if updating does or the instance is draining or deleted. */
  lemma LocalTurnRaisesIff(table: map<string, Local>, config: Config, faults: Faults)
    ensures SyncLocal(table, config, faults).raised <==>
            UpdateRaises(table, config, faults) || Unstartable(table, config.agentId)
  {
    if config.agentId in table {
      match table[config.agentId].state
      case Created =>
      case Running =>
      case Paused =>
      case Draining =>
      case Stopped =>
      case Deleted =>
    }
  }

  /** And if it does not raise, the agent then runs, or is paused if it was, with a configuration that really is
      the one given, and the turn counts; only an instance that could not be created is passed over. */
  lemma LocalTurnRuns(table: map<string, Local>, config: Config, faults: Faults)
    requires !SyncLocal(table, config, faults).raised
    ensures var a, t := config.agentId, SyncLocal(table, config, faults);
      if a !in table && a in faults.create then t.table == table && !t.counted
      else
        && t.counted && a in t.table
        && t.table[a].state == (if a in table && table[a].state == Paused then Paused else Running)
        && t.table[a].config ==
           if a in table && !ReallyDiffers(table[a].config, config) then table[a].config else config
  {
    LocalTurnRaisesIff(table, config, faults);
  }

  // ------------------------------------------------------------------ a whole pass

  /** When its turn comes the agent is this core's to run: its claim wins, or there are no leases. */
  predicate Mine(w: World, x: Resync, i: nat)
    requires i < |x.configs|
  {
    x.core.None? || ClaimWins(FoundBy(w, x, i), x.core.value, x.configs[i].agentId)
  }

  predicate ClaimRaises(x: Resync, i: nat)
    requires i < |x.configs|
  {
    x.core.Some? && x.configs[i].agentId in x.faults.claim
  }

  /** The i-th turn raises: its claim, or on an agent to run here the update or the start. */
  predicate TurnRaises(w: World, x: Resync, i: nat)
    requires i < |x.configs|
  {
    var table := SyncTo(w, x, i).world.table;
    || ClaimRaises(x, i)
    || (Mine(w, x, i) && (UpdateRaises(table, x.configs[i], x.faults) || Unstartable(table, x.configs[i].agentId)))
  }

  // The world as the claim of the i-th turn leaves it.
  lemma TurnIsLocal(w: World, x: Resync, i: nat)
    requires i < |x.configs| && !SyncTo(w, x, i).raised
    ensures var before, after := SyncTo(w, x, i), SyncTo(w, x, i + 1);
      var local := SyncLocal(before.world.table, x.configs[i], x.faults);
      if ClaimRaises(x, i) then after.raised && after.world.table == before.world.table
      else if !Mine(w, x, i) then
        && !after.raised && after.synced == before.synced
        && after.world.table == StoppedIn(before.world.table, x.configs[i].agentId)
      else
        && after.raised == local.raised && after.world.table == local.table
        && after.synced == before.synced + if local.counted then 1 else 0
  {
    assert SyncTo(w, x, i + 1) == SyncOne(SyncTo(w, x, i), x.core, x.configs[i], x.others, i, x.faults);
  }

  /** A pass raises if and only if one of the turns it comes to does. */
  lemma {:induction false} PassRaisesIff(w: World, x: Resync, n: nat)
    requires n <= |x.configs|
    ensures SyncTo(w, x, n).raised <==> exists i | 0 <= i < n :: !SyncTo(w, x, i).raised && TurnRaises(w, x, i)
  {
    if n > 0 {
      PassRaisesIff(w, x, n - 1);
      if !SyncTo(w, x, n - 1).raised {
        TurnIsLocal(w, x, n - 1);
        LocalTurnRaisesIff(SyncTo(w, x, n - 1).world.table, x.configs[n - 1], x.faults);
      }
    }
  }

  predicate AllStartable(table: map<string, Local>) {
    forall a | a in table :: !Unstartable(table, a)
  }

  lemma LocalTurnKeepsStartable(table: map<string, Local>, config: Config, faults: Faults)
    requires AllStartable(table)
    ensures AllStartable(SyncLocal(table, config, faults).table)
  {
    var after := SyncLocal(table, config, faults).table;
    forall a | a in after ensures !Unstartable(after, a) {
      assert a in table ==> !Unstartable(table, a);
    }
  }

  lemma StopKeepsStartable(table: map<string, Local>, agent: string)
    requires AllStartable(table)
    ensures AllStartable(StoppedIn(table, agent))
  {
    var after := StoppedIn(table, agent);
    forall a | a in after ensures !Unstartable(after, a) {
      assert !Unstartable(table, a);
    }
  }

  predicate FaultFree(faults: Faults) {
    faults.claim == faults.create == faults.update == {}
  }

  /** Without faults, and with no instance draining or deleted, no turn raises. */
  lemma {:induction false} FaultFreePass(w: World, x: Resync, n: nat)
    requires FaultFree(x.faults) && AllStartable(w.table) && n <= |x.configs|
    ensures !SyncTo(w, x, n).raised && AllStartable(SyncTo(w, x, n).world.table)
  {
    if n > 0 {
      var table, config := SyncTo(w, x, n - 1).world.table, x.configs[n - 1];
      FaultFreePass(w, x, n - 1);
      TurnIsLocal(w, x, n - 1);
      if Mine(w, x, n - 1) {
        LocalTurnRaisesIff(table, config, x.faults);
        LocalTurnKeepsStartable(table, config, x.faults);
      } else {
        StopKeepsStartable(table, config.agentId);
      }
    }
  }

  // A later turn is another agent's.
  lemma LaterTurnLeaves(w: World, x: Resync, i: nat, a: string)
    requires i < |x.configs| && !SyncTo(w, x, i).raised && x.configs[i].agentId != a
    ensures var table, after := SyncTo(w, x, i).world.table, SyncTo(w, x, i + 1).world.table;
      (a in after <==> a in table) && (a in table ==> after[a] == table[a])
  {
    TurnIsLocal(w, x, i);
  }

  lemma StoppedIsInactive(table: map<string, Local>, a: string)
    ensures !RuntimeActive(StateIn(StoppedIn(table, a), a))
  {
  }

  /** After a pass that did not raise, whether an instance was new, running, paused or stopped before: an agent runs
      here if and only if it was this core's to run at its last turn, and then with the configuration given. */
  lemma {:induction false} PassServes(w: World, x: Resync, n: nat, i: nat, a: string)
    requires n <= |x.configs| && LastTurn(x, n, i, a) && a !in x.faults.create && !SyncTo(w, x, n).raised
    ensures var table := SyncTo(w, x, n).world.table;
      && (RuntimeActive(StateIn(table, a)) <==> Mine(w, x, i))
      && (Mine(w, x, i) ==> a in table && !ReallyDiffers(table[a].config, x.configs[i]))
  {
    if i < n - 1 {
      PassServes(w, x, n - 1, i, a);
      LaterTurnLeaves(w, x, n - 1, a);
    } else {
      var table := SyncTo(w, x, i).world.table;
      TurnIsLocal(w, x, i);
      if Mine(w, x, i) {
        LocalTurnRuns(table, x.configs[i], x.faults);
      } else {
        StoppedIsInactive(table, a);
      }
    }
  }

  /** So a fault-free pass over instances none of which is draining or deleted goes through to its end and leaves
      running here exactly the agents that are this core's to run. */
  lemma FaultFreePassServes(w: World, x: Resync, i: nat, a: string)
    requires FaultFree(x.faults) && AllStartable(w.table) && LastTurn(x, |x.configs|, i, a)
    ensures !SyncAll(w, x).raised
    ensures RuntimeActive(StateIn(SyncAll(w, x).world.table, a)) <==> Mine(w, x, i)
  {
    FaultFreePass(w, x, |x.configs|);
    PassServes(w, x, |x.configs|, i, a);
  }

  /** How many of the first n turns served their agent: it was to run here and could be created if need be. */
  function Served(w: World, x: Resync, n: nat): nat
    requires n <= |x.configs|
  {
    if n == 0 then 0
    else
      var a := x.configs[n - 1].agentId;
      var here := Mine(w, x, n - 1) && (a in SyncTo(w, x, n - 1).world.table || a !in x.faults.create);
      Served(w, x, n - 1) + if here then 1 else 0
  }

  /** That is what the pass counts. */
  lemma {:induction false} PassCounts(w: World, x: Resync, n: nat)
    requires n <= |x.configs| && !SyncTo(w, x, n).raised
    ensures SyncTo(w, x, n).synced == Served(w, x, n)
  {
    if n > 0 {
      PassCounts(w, x, n - 1);
      TurnIsLocal(w, x, n - 1);
      if Mine(w, x, n - 1) {
        LocalTurnRuns(SyncTo(w, x, n - 1).world.table, x.configs[n - 1], x.faults);
      }
    }
  }
}
