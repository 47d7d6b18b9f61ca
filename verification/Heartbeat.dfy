/** cluster/core_ownership.py, _heartbeat_loop, with its callback stop_agent_if_owned of agent/manager.py. */
module Heartbeat {
  import opened Prelude
  import opened Lifecycle
  import opened LeaseSteps
  import opened Ownership
  import opened AgentManager
  import Redis

  /** Which Redis calls raise during a pass. executed: the renew ran before its reply was lost. */
  datatype RedisFaults = RedisFaults(renew: set<string>, executed: set<string>, read: set<string>)

  /** A heartbeat pass: who runs it over which agents, in the order of list(self._owned), what others do at
      its awaits (2i before the i-th renew, 2i + 1 before the owner read that may follow), and what raises. */
  datatype Beat = Beat(core: Core, agents: seq<string>, others: Redis.Others, faults: RedisFaults)

  // ------------------------------------------------------------------ what a pass does

  /** The renew raises, or what it finds in Redis does not name this core as the live owner. */
  predicate Loses(at: Redis.Moment, core: Core, a: string, faults: RedisFaults) {
    a in faults.renew || Redis.Get(at.store, at.now, OwnerKey(a)) != Some(core.id)
  }

  function AfterRenew(at: Redis.Moment, core: Core, a: string, faults: RedisFaults): Redis.Moment {
    if a in faults.renew && a !in faults.executed then at
    else Redis.Moment(Redis.Renew(at.store, at.now, OwnerKey(a), core.id, core.ttl).store, at.now)
  }

  /** The owner read goes through and finds another core, or nobody. */
  predicate Stops(at: Redis.Moment, core: Core, a: string, faults: RedisFaults) {
    a !in faults.read && Redis.Get(at.store, at.now, OwnerKey(a)) != Some(core.id)
  }

  /** One agent's turn: at is what its renew finds, and read what an owner read after it would find. */
  function Turned(w: World, core: Core, a: string, at: Redis.Moment, read: Redis.Moment, faults: RedisFaults): World {
    if Loses(at, core, a, faults)
    then World(read, w.owned - {a}, if Stops(read, core, a, faults) then StoppedIn(w.table, a) else w.table)
    else w.(redis := AfterRenew(at, core, a, faults))
  }

  function BeatOne(w: World, core: Core, a: string, others: Redis.Others, i: nat, faults: RedisFaults): World {
    var at := Redis.Found(others, 2 * i, w.redis);
    Turned(w, core, a, at, Redis.Found(others, 2 * i + 1, AfterRenew(at, core, a, faults)), faults)
  }

  /** The pass over the first n agents. */
  function BeatTo(w: World, x: Beat, n: nat): World
    requires n <= |x.agents|
  {
    if n == 0 then w else BeatOne(BeatTo(w, x, n - 1), x.core, x.agents[n - 1], x.others, n - 1, x.faults)
  }

  function BeatAll(w: World, x: Beat): World {
    BeatTo(w, x, |x.agents|)
  }

  /** What the renew of the i-th agent finds in Redis. */
  function AtRenew(w: World, x: Beat, i: nat): Redis.Moment
    requires i <= |x.agents|
  {
    Redis.Found(x.others, 2 * i, BeatTo(w, x, i).redis)
  }

  /** What the owner read after it finds, if there is one. */
  function AtRead(w: World, x: Beat, i: nat): Redis.Moment
    requires i < |x.agents|
  {
    Redis.Found(x.others, 2 * i + 1, AfterRenew(AtRenew(w, x, i), x.core, x.agents[i], x.faults))
  }

  predicate Distinct(agents: seq<string>) {
    forall i, j | 0 <= i < j < |agents| :: agents[i] != agents[j]
  }

  // ------------------------------------------------------------------ what a pass guarantees

  lemma TurnedFrame(w: World, core: Core, a: string, at: Redis.Moment, read: Redis.Moment, faults: RedisFaults,
                    b: string)
    requires b != a
    ensures var w' := Turned(w, core, a, at, read, faults);
      && (b in w'.owned <==> b in w.owned)
      && (b in w'.table <==> b in w.table)
      && (b in w.table ==> w'.table[b] == w.table[b])
  {
  }

  /** An agent that is not among those the pass goes through stays as it is. */
  lemma {:induction false} BeatLeavesOthers(w: World, x: Beat, n: nat, b: string)
    requires n <= |x.agents| && forall i | 0 <= i < n :: x.agents[i] != b
    ensures var w' := BeatTo(w, x, n);
      && (b in w'.owned <==> b in w.owned)
      && (b in w'.table <==> b in w.table)
      && (b in w.table ==> w'.table[b] == w.table[b])
  {
    if n > 0 {
      BeatLeavesOthers(w, x, n - 1, b);
      TurnedFrame(BeatTo(w, x, n - 1), x.core, x.agents[n - 1], AtRenew(w, x, n - 1), AtRead(w, x, n - 1),
                  x.faults, b);
    }
  }

  /** Whatever others do between its calls: a pass drops an agent from the owned set exactly if its renew
      raised or found the lease no longer this core's, and stops its runtime exactly if it was dropped and
      the owner read then went through and found another core or nobody. */
  lemma {:induction false} BeatDropsExactlyLost(w: World, x: Beat, n: nat, i: nat)
    requires Distinct(x.agents) && i < n <= |x.agents| && x.agents[i] in w.owned
    ensures var a, w' := x.agents[i], BeatTo(w, x, n);
      && (a in w'.owned <==> !Loses(AtRenew(w, x, i), x.core, a, x.faults))
      && (a in w'.table <==> a in w.table)
      && (a in w.table ==>
            w'.table[a] == if Loses(AtRenew(w, x, i), x.core, a, x.faults) &&
                              Stops(AtRead(w, x, i), x.core, a, x.faults)
                           then StoppedIn(w.table, a)[a] else w.table[a])
  {
    var a := x.agents[i];
    if i == n - 1 {
      BeatLeavesOthers(w, x, i, a);
    } else {
      BeatDropsExactlyLost(w, x, n - 1, i);
      TurnedFrame(BeatTo(w, x, n - 1), x.core, x.agents[n - 1], AtRenew(w, x, n - 1), AtRead(w, x, n - 1),
                  x.faults, a);
    }
  }

  /** The key holds what it held at an earlier moment of the same time. */
  predicate SameEntry(was: Redis.Moment, at: Redis.Moment, key: string) {
    at.now == was.now && key in was.store && key in at.store && at.store[key] == was.store[key]
  }

  /** Whatever others do between its calls: a renew leaves a key that another core holds as it found it, and the
      pass goes on with what that renew left or the owner read after it found. */
  lemma TurnDisplacesNobody(w: World, x: Beat, i: nat, key: string)
    requires i < |x.agents| && HeldByOther(AtRenew(w, x, i), x.core, key)
    ensures SameEntry(AtRenew(w, x, i), AfterRenew(AtRenew(w, x, i), x.core, x.agents[i], x.faults), key)
    ensures BeatTo(w, x, i + 1).redis ==
            if Loses(AtRenew(w, x, i), x.core, x.agents[i], x.faults) then AtRead(w, x, i)
            else AfterRenew(AtRenew(w, x, i), x.core, x.agents[i], x.faults)
  {
    assert BeatTo(w, x, i + 1) == BeatOne(BeatTo(w, x, i), x.core, x.agents[i], x.others, i, x.faults);
  }

  /** So if nobody interferes, another core's lease outlasts the whole pass, whatever it renews, loses and
      stops, and whichever of its calls raise. */
  lemma {:induction false} QuietBeatDisplacesNobody(w: World, x: Beat, n: nat, key: string)
    requires n <= |x.agents| && Redis.Quiet(x.others) && HeldByOther(w.redis, x.core, key)
    ensures SameEntry(w.redis, BeatTo(w, x, n).redis, key)
  {
    if n > 0 {
      QuietBeatDisplacesNobody(w, x, n - 1, key);
      TurnDisplacesNobody(w, x, n - 1, key);
    }
  }

  // ------------------------------------------------------------------ the loop and its callback

  /** The renew of one agent when its turn comes; any failure forgets the agent. */
  method RenewInTurn(ownership: CoreOwnership, agent: string, others: Redis.Others, n: nat, faults: RedisFaults)
    returns (lost: bool)
    modifies ownership`owned, ownership.redis
    ensures var core := Core(ownership.coreId, ownership.leaseTtlMs);
      var at := Redis.Found(others, n, old(ownership.redis.Here()));
      && lost == Loses(at, core, agent, faults)
      && ownership.redis.Here() == AfterRenew(at, core, agent, faults)
      && ownership.owned == if lost then old(ownership.owned) - {agent} else old(ownership.owned)
  {
    lost := true;
    ownership.redis.Await(others, n);
    if agent in faults.renew {
      if agent in faults.executed {
        var reply := ownership.redis.EvalRenew(OwnerKey(agent), ownership.coreId, ownership.leaseTtlMs);
      }
    } else {
      var ok := ownership.Renew(agent);
      lost := !ok;
    }
    if lost {
      ownership.owned := ownership.owned - {agent};
    }
  }

  /** The owner read of the callback: whether it went through and found another core, or nobody. */
  method FindsOther(ownership: CoreOwnership, agent: string, others: Redis.Others, n: nat, faults: RedisFaults)
    returns (other: bool)
    modifies ownership.redis
    ensures var read := Redis.Found(others, n, old(ownership.redis.Here()));
      && ownership.redis.Here() == read
      && other == Stops(read, Core(ownership.coreId, ownership.leaseTtlMs), agent, faults)
  {
    ownership.redis.Await(others, n);
    if agent in faults.read {
      return false;
    }
    var current := ownership.CurrentOwner(agent);
    return current != Some(ownership.coreId);
  }

  /** stop_agent_if_owned, the on_lost callback. */
  method OnLost(manager: AgentManager, agent: string, others: Redis.Others, n: nat, faults: RedisFaults)
    requires manager.Valid() && manager.ownership != null
    modifies manager.Machines(), manager.ownership.redis
    ensures manager.Valid() && manager.instances == old(manager.instances)
    ensures var read := Redis.Found(others, n, old(manager.ownership.redis.Here()));
      && manager.ownership.redis.Here() == read
      && manager.Table() == if Stops(read, manager.Identity().value, agent, faults)
                            then StoppedIn(old(manager.Table()), agent) else old(manager.Table())
  {
    var other := FindsOther(manager.ownership, agent, others, n, faults);
    assert manager.Table() == old(manager.Table());
    if other {
      manager.StopLocalRuntime(agent);
    }
  }

  /** One agent's turn. */
  method HeartbeatOne(manager: AgentManager, agent: string, others: Redis.Others, i: nat, faults: RedisFaults)
    requires manager.Valid() && manager.ownership != null
    modifies manager.Machines(), manager.ownership`owned, manager.ownership.redis
    ensures manager.Valid() && manager.instances == old(manager.instances)
    ensures manager.View() == BeatOne(old(manager.View()), manager.Identity().value, agent, others, i, faults)
  {
    var lost := RenewInTurn(manager.ownership, agent, others, 2 * i, faults);
    assert manager.Table() == old(manager.Table());
    if lost {
      OnLost(manager, agent, others, 2 * i + 1, faults);
    }
  }

  /** One pass of the loop over a snapshot of the owned set; agents gives the snapshot's order. */
  method HeartbeatPass(manager: AgentManager, agents: seq<string>, others: Redis.Others, faults: RedisFaults)
    requires manager.Valid() && manager.ownership != null
    requires Distinct(agents) && (set a | a in agents) == manager.ownership.owned
    modifies manager.Machines(), manager.ownership`owned, manager.ownership.redis
    ensures manager.Valid() && manager.instances == old(manager.instances)
    ensures manager.View() == BeatAll(old(manager.View()), Beat(manager.Identity().value, agents, others, faults))
  {
    ghost var start, pass := manager.View(), Beat(manager.Identity().value, agents, others, faults);
    for i := 0 to |agents|
      invariant manager.Valid() && manager.instances == old(manager.instances)
      invariant manager.View() == BeatTo(start, pass, i)
    {
      HeartbeatOne(manager, agents[i], others, i, faults);
    }
  }
}
