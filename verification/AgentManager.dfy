/** agent/manager.py: the local runtimes of one core, driven by the outcome of its leases. */
module AgentManager {
  import opened Prelude
  import opened Lifecycle
  import opened LeaseSteps
  import opened Ownership
  import Redis

  /** body is everything a runtime depends on; stamp is the load time and path, which it ignores. */
  datatype Config = Config(agentId: string, body: string, stamp: int)

  predicate EquivalentForRuntime(a: Config, b: Config) {
    a.(stamp := 0) == b.(stamp := 0)
  }

  class AgentInstance {
    var config: Config
    const lifecycle: StateMachine

    constructor (config: Config)
      ensures this.config == config && fresh(lifecycle) && lifecycle.current == Created
    {
      this.config := config;
      this.lifecycle := new StateMachine();
    }
  }

  // ------------------------------------------------------------------ what a resync pass does

  /** Which agents' calls raise during a pass: the claim (executed: after the script ran), creating the
      runtime, and initialising it again. */
  datatype Faults = Faults(claim: set<string>, executed: set<string>, create: set<string>, update: set<string>)

  /** An instance as the manager's table shows it. */
  datatype Local = Local(config: Config, state: InstanceState)

  /** The lease identity of a core: its id and TTL. Without one the manager runs everything. */
  datatype Core = Core(id: string, ttl: int)

  /** One core and the server it uses. */
  datatype World = World(redis: Redis.Moment, owned: set<string>, table: map<string, Local>)

  datatype Pass = Pass(world: World, synced: nat, raised: bool)

  /** A resync pass: who runs it over which configurations, what others do at its awaits, and what raises. */
  datatype Resync = Resync(core: Option<Core>, configs: seq<Config>, others: Redis.Others, faults: Faults)

  function StateIn(table: map<string, Local>, a: string): Option<InstanceState> {
    if a in table then Some(table[a].state) else None
  }

  /** One agent's turn on the local table: the table after it, and whether it counted or raised. */
  datatype Turn = Turn(table: map<string, Local>, counted: bool, raised: bool)

  /** The local half of syncing one agent, once it is this core's to run. */
  function SyncLocal(table: map<string, Local>, config: Config, faults: Faults): Turn {
    var a := config.agentId;
    if a !in table then
      if a in faults.create then Turn(table, false, false)
      else Turn(table[a := Local(config, Running)], true, false)
    else
      var changed := !EquivalentForRuntime(table[a].config, config);
      var local := if changed then table[a].(config := config) else table[a];
      if changed && a in faults.update then Turn(table[a := local], false, true)
      else if Active(local.state) then Turn(table[a := local], true, false)
      else match Target(local.state, Start)
        case None => Turn(table[a := local], false, true)
        case Some(state) => Turn(table[a := local.(state := state)], true, false)
  }

  predicate ClaimWins(at: Redis.Moment, core: Core, a: string) {
    Redis.Claim(at.store, at.now, OwnerKey(a), core.id, core.ttl).ok
  }

  function AfterClaim(at: Redis.Moment, core: Core, a: string): Redis.Moment {
    Redis.Moment(Redis.Claim(at.store, at.now, OwnerKey(a), core.id, core.ttl).store, at.now)
  }

  /** An agent that is this core's to run: the local half of its turn, in the world its claim left. */
  function RunHere(w: World, synced: nat, config: Config, faults: Faults): Pass {
    var turn := SyncLocal(w.table, config, faults);
    Pass(w.(table := turn.table), if turn.counted then synced + 1 else synced, turn.raised)
  }

  /** One agent's turn: at is what its claim finds in Redis. */
  function SyncClaimed(p: Pass, core: Core, config: Config, at: Redis.Moment, faults: Faults): Pass {
    var a, w := config.agentId, p.world;
    if a in faults.claim then
      Pass(w.(redis := if a in faults.executed then AfterClaim(at, core, a) else at), p.synced, true)
    else if ClaimWins(at, core, a) then
      RunHere(World(AfterClaim(at, core, a), w.owned + {a}, w.table), p.synced, config, faults)
    else Pass(World(AfterClaim(at, core, a), w.owned - {a}, StoppedIn(w.table, a)), p.synced, false)
  }

  function SyncOne(p: Pass, core: Option<Core>, config: Config, others: Redis.Others, n: nat, faults: Faults): Pass {
    if core.None? then RunHere(p.world, p.synced, config, faults)
    else SyncClaimed(p, core.value, config, Redis.Found(others, n, p.world.redis), faults)
  }

  function StoppedIn(table: map<string, Local>, a: string): map<string, Local> {
    if a in table then table[a := table[a].(state := Fire(table[a].state, Stop))] else table
  }

  /** The pass over the first n configurations, up to the first exception that escapes. */
  function SyncTo(w: World, x: Resync, n: nat): Pass
    requires n <= |x.configs|
  {
    if n == 0 then Pass(w, 0, false)
    else
      var before := SyncTo(w, x, n - 1);
      if before.raised then before else SyncOne(before, x.core, x.configs[n - 1], x.others, n - 1, x.faults)
  }

  function SyncAll(w: World, x: Resync): Pass {
    SyncTo(w, x, |x.configs|)
  }

  // ------------------------------------------------------------------ what a resync pass guarantees

  function OwnerIn(w: World, a: string): Option<string> {
    Redis.Get(w.redis.store, w.redis.now, OwnerKey(a))
  }

  /** What the claim of the i-th configuration finds in Redis. */
  function FoundBy(w: World, x: Resync, i: nat): Redis.Moment
    requires i <= |x.configs|
  {
    Redis.Found(x.others, i, SyncTo(w, x, i).world.redis)
  }

  /** How many turns the pass began: all of them, or those up to the one that raised. */
  function Begun(w: World, x: Resync, n: nat): (m: nat)
    requires n <= |x.configs|
    ensures m <= n && (m == 0 || !SyncTo(w, x, m - 1).raised) && SyncTo(w, x, m) == SyncTo(w, x, n)
  {
    if n > 0 && SyncTo(w, x, n - 1).raised then Begun(w, x, n - 1) else n
  }

  /** Configuration i is the last of agent a's among the first n. */
  predicate LastTurn(x: Resync, n: nat, i: nat, a: string)
    requires n <= |x.configs|
  {
    i < n && x.configs[i].agentId == a && forall j | i < j < n :: x.configs[j].agentId != a
  }

  /** Syncing one agent leaves every other agent's key, ownership and runtime as its claim found them. */
  lemma SyncOneFrame(p: Pass, core: Core, config: Config, at: Redis.Moment, faults: Faults, b: string)
    requires b != config.agentId
    ensures var w, w' := p.world, SyncClaimed(p, core, config, at, faults).world;
      && OwnerIn(w', b) == Redis.Get(at.store, at.now, OwnerKey(b))
      && (b in w'.owned <==> b in w.owned)
      && (b in w'.table <==> b in w.table)
      && (b in w.table ==> w'.table[b] == w.table[b])
  {
    OwnerKeyInjective(b, config.agentId);
  }

  lemma TurnRunsOnLease(p: Pass, core: Core, config: Config, at: Redis.Moment, faults: Faults)
    requires 0 < core.ttl && config.agentId !in faults.claim
    ensures var a, w' := config.agentId, SyncClaimed(p, core, config, at, faults).world;
      && (a in w'.owned <==> ClaimWins(at, core, a))
      && (RuntimeActive(StateIn(w'.table, a)) ==> ClaimWins(at, core, a))
      && (OwnerIn(w', a) == Some(core.id) <==> ClaimWins(at, core, a))
  {
  }

  /** However a pass ends, and whatever others do meanwhile: an agent it came to (unless the claim itself
      raised) is in the owned set exactly if its last claim won, and runs here only if it won. Where nobody
      interferes, that is exactly who holds the lease when the pass is over. */
  lemma PassRunsOnLeases(w: World, x: Resync, core: Core, i: nat, a: string)
    requires x.core == Some(core) && 0 < core.ttl
    requires LastTurn(x, Begun(w, x, |x.configs|), i, a) && a !in x.faults.claim
    ensures var w' := SyncAll(w, x).world;
      && (a in w'.owned <==> ClaimWins(FoundBy(w, x, i), core, a))
      && (RuntimeActive(StateIn(w'.table, a)) ==> ClaimWins(FoundBy(w, x, i), core, a))
      && (Redis.Quiet(x.others) ==> (OwnerIn(w', a) == Some(core.id) <==> ClaimWins(FoundBy(w, x, i), core, a)))
  {
    BegunRunsOnLeases(w, x, core, Begun(w, x, |x.configs|), i, a);
  }

  lemma {:induction false} BegunRunsOnLeases(w: World, x: Resync, core: Core, n: nat, i: nat, a: string)
    requires x.core == Some(core) && 0 < core.ttl && 0 < n <= |x.configs| && !SyncTo(w, x, n - 1).raised
    requires LastTurn(x, n, i, a) && a !in x.faults.claim
    ensures var w' := SyncTo(w, x, n).world;
      && (a in w'.owned <==> ClaimWins(FoundBy(w, x, i), core, a))
      && (RuntimeActive(StateIn(w'.table, a)) ==> ClaimWins(FoundBy(w, x, i), core, a))
      && (Redis.Quiet(x.others) ==> (OwnerIn(w', a) == Some(core.id) <==> ClaimWins(FoundBy(w, x, i), core, a)))
  {
    var before, at := SyncTo(w, x, n - 1), FoundBy(w, x, n - 1);
    if i == n - 1 {
      TurnRunsOnLease(before, core, x.configs[i], at, x.faults);
    } else {
      BegunRunsOnLeases(w, x, core, n - 1, i, a);
      SyncOneFrame(before, core, x.configs[n - 1], at, x.faults, a);
    }
  }

  /** And an agent whose turn went through without raising runs here if and only if its claim won, unless
      its runtime could not be created. */
  lemma {:induction false} PassRunsExactlyLeases(w: World, x: Resync, core: Core, n: nat, i: nat, a: string)
    requires x.core == Some(core) && 0 < core.ttl && n <= |x.configs| && a !in x.faults.create
    requires LastTurn(x, n, i, a) && !SyncTo(w, x, n).raised
    ensures var w' := SyncTo(w, x, n).world;
      && (RuntimeActive(StateIn(w'.table, a)) <==> ClaimWins(FoundBy(w, x, i), core, a))
      && (a in w'.owned <==> ClaimWins(FoundBy(w, x, i), core, a))
      && (Redis.Quiet(x.others) ==> (RuntimeActive(StateIn(w'.table, a)) <==> OwnerIn(w', a) == Some(core.id)))
  {
    if i < n - 1 {
      PassRunsExactlyLeases(w, x, core, n - 1, i, a);
      SyncOneFrame(SyncTo(w, x, n - 1), core, x.configs[n - 1], FoundBy(w, x, n - 1), x.faults, a);
    }
  }

  predicate HeldByOther(at: Redis.Moment, core: Core, key: string) {
    Redis.Get(at.store, at.now, key).Some? && Redis.Get(at.store, at.now, key) != Some(core.id)
  }

  /** No claim of a pass takes a live lease from another core: what it finds there stays. */
  lemma {:induction false} PassDisplacesNobody(w: World, x: Resync, core: Core, n: nat, key: string)
    requires x.core == Some(core) && n < |x.configs| && !SyncTo(w, x, n).raised
    requires HeldByOther(FoundBy(w, x, n), core, key)
    ensures var store := SyncTo(w, x, n + 1).world.redis.store;
      key in store && store[key] == FoundBy(w, x, n).store[key]
  {
  }

  /** So if nobody interferes, another core's lease outlasts the whole pass. */
  lemma {:induction false} QuietPassDisplacesNobody(w: World, x: Resync, core: Core, n: nat, key: string)
    requires x.core == Some(core) && n <= |x.configs| && Redis.Quiet(x.others)
    requires HeldByOther(w.redis, core, key)
    ensures var r := SyncTo(w, x, n).world.redis;
      r.now == w.redis.now && key in r.store && r.store[key] == w.redis.store[key]
  {
    if n > 0 {
      QuietPassDisplacesNobody(w, x, core, n - 1, key);
      if !SyncTo(w, x, n - 1).raised {
        PassDisplacesNobody(w, x, core, n - 1, key);
      }
    }
  }

  /** Nothing follows the first exception. */
  lemma {:induction false} RaisedSticks(w: World, x: Resync, k: nat, n: nat)
    requires k <= n <= |x.configs| && SyncTo(w, x, k).raised
    ensures SyncTo(w, x, n) == SyncTo(w, x, k)
  {
    if k < n {
      RaisedSticks(w, x, k, n - 1);
    }
  }

  // ------------------------------------------------------------------ the manager

  class AgentManager {
    var instances: map<string, AgentInstance>
    const ownership: CoreOwnership?

    constructor (ownership: CoreOwnership?)
      ensures this.ownership == ownership && instances == map[] && Valid()
    {
      this.ownership := ownership;
      instances := map[];
    }

    /** No two agents share an instance or a state machine. */
    ghost predicate Valid()
      reads this
    {
      forall a, b :: a in instances && b in instances && a != b ==>
        instances[a] != instances[b] && instances[a].lifecycle != instances[b].lifecycle
    }

    ghost function Instances(): set<AgentInstance>
      reads this
    {
      set a | a in instances :: instances[a]
    }

    ghost function Machines(): set<StateMachine>
      reads this
    {
      set a | a in instances :: instances[a].lifecycle
    }

    /** Every instance is still there, and the others are new, with state machines of their own. */
    twostate predicate Extends()
      reads this
    {
      && (forall a :: a in old(instances) ==> a in instances && instances[a] == old(instances)[a])
      && (forall a :: a in instances && a !in old(instances) ==> fresh(instances[a]) && fresh(instances[a].lifecycle))
    }

    ghost function Table(): map<string, Local>
      reads this, Instances(), Machines()
    {
      map a | a in instances :: Local(instances[a].config, instances[a].lifecycle.current)
    }

    /** The lease coordinator and the server behind it, when there is one. */
    ghost function Shared(): set<object> {
      if ownership == null then {} else {ownership, ownership.redis}
    }

    ghost function View(): World
      reads this, Instances(), Machines(), Shared()
    {
      if ownership == null then World(Redis.Moment(map[], 0), {}, Table())
      else World(ownership.redis.Here(), ownership.owned, Table())
    }

    ghost function Identity(): Option<Core>
    {
      if ownership == null then None else Some(Core(ownership.coreId, ownership.leaseTtlMs))
    }

    /** create_agent: None when the agent already exists, Some(whether the runtime came up) otherwise. */
    method CreateAgent(config: Config, initializeRaises: bool) returns (created: Option<bool>)
      requires Valid()
      modifies this`instances
      ensures Valid() && Extends()
      ensures created == if config.agentId in old(Table()) then None else Some(!initializeRaises)
      ensures Table() == if created == Some(true) then old(Table())[config.agentId := Local(config, Created)]
                         else old(Table())
    {
      if config.agentId in instances {
        return None;
      }
      var instance := new AgentInstance(config);
      if initializeRaises {
        return Some(false);
      }
      instances := instances[config.agentId := instance];
      created := Some(true);
    }

    /** One lifecycle event for one agent; None when the table has no entry for it. */
    method FireAgent(agent: string, event: Event) returns (state: Option<InstanceState>)
      requires Valid() && agent in instances
      modifies instances[agent].lifecycle
      ensures Valid() && instances == old(instances)
      ensures state == Target(old(Table())[agent].state, event)
      ensures Table() == old(Table())[agent := old(Table())[agent].(state := Fire(old(Table())[agent].state, event))]
    {
      state := instances[agent].lifecycle.Transition(event);
    }

    /** update_config: whether it raised, for want of the agent or because initialising the runtime again did; in
        the second case the new configuration is in place by then, and stays. */
    method UpdateConfig(agent: string, config: Config, initializeRaises: bool) returns (raised: bool)
      requires Valid()
      modifies if agent in instances then {instances[agent]} else {}
      ensures Valid() && instances == old(instances)
      ensures Table() == if agent in old(Table()) then old(Table())[agent := old(Table())[agent].(config := config)]
                         else old(Table())
      ensures raised == (agent !in old(Table()) || initializeRaises)
    {
      if agent !in instances {
        return true;
      }
      instances[agent].config := config;
      raised := initializeRaises;
    }

    method StopLocalRuntime(agent: string)
      requires Valid()
      modifies Machines()
      ensures Valid() && instances == old(instances) && Table() == StoppedIn(old(Table()), agent)
    {
      if agent in instances {
        var state := FireAgent(agent, Stop);
      }
    }

    /** The instance is re-initialised only when its configuration really changed. */
    method RefreshConfig(config: Config, updateRaises: bool) returns (raised: bool)
      requires Valid() && config.agentId in instances
      modifies instances[config.agentId]
      ensures Valid() && instances == old(instances)
      ensures var was := old(Table())[config.agentId];
        var changed := !EquivalentForRuntime(was.config, config);
        && Table() == old(Table())[config.agentId := if changed then was.(config := config) else was]
        && raised == (changed && updateRaises)
    {
      raised := false;
      if !EquivalentForRuntime(instances[config.agentId].config, config) {
        raised := UpdateConfig(config.agentId, config, updateRaises);
      }
    }

    /** start_agent, when the instance is not active already. */
    method StartIfInactive(agent: string) returns (refused: bool)
      requires Valid() && agent in instances
      modifies instances[agent].lifecycle
      ensures Valid() && instances == old(instances)
      ensures var was := old(Table())[agent];
        && Table() == old(Table())[agent := if Active(was.state) then was else was.(state := Fire(was.state, Start))]
        && refused == (!Active(was.state) && Target(was.state, Start).None?)
    {
      refused := false;
      if !Active(instances[agent].lifecycle.current) {
        var state := FireAgent(agent, Start);
        refused := state.None?;
      }
    }

    /** The turn of an agent that already has an instance. */
    method SyncExisting(config: Config, faults: Faults) returns (raised: bool)
      requires Valid() && config.agentId in instances
      modifies instances[config.agentId], instances[config.agentId].lifecycle
      ensures Valid() && instances == old(instances)
      ensures Turn(Table(), !raised, raised) == SyncLocal(old(Table()), config, faults)
    {
      raised := RefreshConfig(config, config.agentId in faults.update);
      if !raised {
        assert config.agentId in Table();
        raised := StartIfInactive(config.agentId);
      }
    }

    /** The local half of one agent's turn in a resync pass. */
    method SyncAgentLocally(config: Config, faults: Faults) returns (counted: bool, raised: bool)
      requires Valid()
      modifies this`instances, Instances(), Machines()
      ensures Valid() && Extends()
      ensures Turn(Table(), counted, raised) == SyncLocal(old(Table()), config, faults)
    {
      counted, raised := false, false;
      var created := CreateAgent(config, config.agentId in faults.create);
      if created.None? {
        assert config.agentId in Table();
        raised := SyncExisting(config, faults);
        counted := !raised;
      } else if created.value {
        assert config.agentId in Table();
        raised := StartIfInactive(config.agentId);
        counted := true;
      }
    }

    /** The lease gate of one agent's turn: none when the claim raised. */
    method ClaimLease(agent: string, others: Redis.Others, n: nat, faults: Faults) returns (owned: Option<bool>)
      requires ownership != null
      modifies Shared()
      ensures var at := Redis.Found(others, n, old(ownership.redis.Here()));
        var core := Identity().value;
        if agent in faults.claim then
          && owned == None && ownership.owned == old(ownership.owned)
          && ownership.redis.Here() == (if agent in faults.executed then AfterClaim(at, core, agent) else at)
        else
          && owned == Some(ClaimWins(at, core, agent)) && ownership.redis.Here() == AfterClaim(at, core, agent)
          && ownership.owned ==
             if ClaimWins(at, core, agent) then old(ownership.owned) + {agent} else old(ownership.owned) - {agent}
    {
      ownership.redis.Await(others, n);
      if agent in faults.claim {
        if agent in faults.executed {
          var reply := ownership.redis.EvalClaim(OwnerKey(agent), ownership.coreId, ownership.leaseTtlMs);
        }
        return None;
      }
      var ok := ownership.Claim(agent);
      return Some(ok);
    }

    /** One agent's turn in a resync pass: the lease gate, then the local half. */
    method SyncAgent(config: Config, others: Redis.Others, n: nat, faults: Faults, synced: nat)
      returns (total: nat, raised: bool)
      requires Valid()
      modifies this`instances, Instances(), Machines(), Shared()
      ensures Valid() && Extends()
      ensures Pass(View(), total, raised) ==
              SyncOne(Pass(old(View()), synced, false), Identity(), config, others, n, faults)
    {
      total, raised := synced, false;
      if ownership != null {
        var owned := ClaimLease(config.agentId, others, n, faults);
        assert Table() == old(Table());
        if owned.None? {
          raised := true;
          return;
        }
        if !owned.value {
          StopLocalRuntime(config.agentId);
          return;
        }
      }
      var counted;
      counted, raised := SyncAgentLocally(config, faults);
      if counted {
        total := synced + 1;
      }
    }

    /** One round of the loop of sync_from_configs. */
    method SyncNext(ghost start: World, configs: seq<Config>, others: Redis.Others, faults: Faults, i: nat, synced: nat)
      returns (total: nat, raised: bool)
      requires Valid() && i < |configs|
      requires Pass(View(), synced, false) == SyncTo(start, Resync(Identity(), configs, others, faults), i)
      modifies this`instances, Instances(), Machines(), Shared()
      ensures Valid() && Extends()
      ensures Pass(View(), total, raised) == SyncTo(start, Resync(Identity(), configs, others, faults), i + 1)
    {
      total, raised := SyncAgent(configs[i], others, i, faults, synced);
    }

    /** sync_from_configs: others says what happens at the await of each claim. */
    method SyncFromConfigs(configs: seq<Config>, others: Redis.Others, faults: Faults)
      returns (synced: nat, raised: bool)
      requires Valid()
      modifies this`instances, Instances(), Machines(), Shared()
      ensures Valid() && Extends()
      ensures Pass(View(), synced, raised) == SyncAll(old(View()), Resync(Identity(), configs, others, faults))
    {
      synced, raised := 0, false;
      ghost var start, pass := View(), Resync(Identity(), configs, others, faults);
      var i := 0;
      while i < |configs| && !raised
        invariant 0 <= i <= |configs|
        invariant Valid() && Extends()
        invariant Pass(View(), synced, raised) == SyncTo(start, pass, i)
        decreases |configs| - i, !raised
      {
        synced, raised := SyncNext(start, configs, others, faults, i, synced);
        i := i + 1;
      }
      if raised {
        RaisedSticks(start, pass, i, |configs|);
      }
    }
  }
}
