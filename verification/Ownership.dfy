/** cluster/core_ownership.py: one core's lease coordinator. */
module Ownership {
  import opened Prelude
  import opened LeaseSteps
  import Redis

  class CoreOwnership {
    const redis: Redis.Server
    const coreId: string
    const leaseTtlMs: int
    const heartbeatS: int
    var owned: set<string>

    constructor (redis: Redis.Server, coreId: string, leaseTtlS: int, heartbeatS: int)
      ensures this.redis == redis && this.coreId == coreId && owned == {}
      ensures leaseTtlMs == AtLeast(1, leaseTtlS) * 1000 && this.heartbeatS == AtLeast(1, heartbeatS)
    {
      this.redis := redis;
      this.coreId := coreId;
      leaseTtlMs := AtLeast(1, leaseTtlS) * 1000;
      this.heartbeatS := AtLeast(1, heartbeatS);
      owned := {};
    }

    method Claim(agent: string) returns (ok: bool)
      modifies this`owned, redis`store
      ensures Redis.Reply(redis.store, ok) ==
              Redis.Claim(old(redis.store), redis.now, OwnerKey(agent), coreId, leaseTtlMs)
      ensures owned == if ok then old(owned) + {agent} else old(owned) - {agent}
    {
      var result := redis.EvalClaim(OwnerKey(agent), coreId, leaseTtlMs);
      ok := result == 1;
      if ok {
        owned := owned + {agent};
      } else {
        owned := owned - {agent};
      }
    }

    method Renew(agent: string) returns (ok: bool)
      modifies this`owned, redis`store
      ensures Redis.Reply(redis.store, ok) ==
              Redis.Renew(old(redis.store), redis.now, OwnerKey(agent), coreId, leaseTtlMs)
      ensures owned == if ok then old(owned) else old(owned) - {agent}
    {
      var result := redis.EvalRenew(OwnerKey(agent), coreId, leaseTtlMs);
      ok := result == 1;
      if !ok {
        owned := owned - {agent};
      }
    }

    method Release(agent: string)
      modifies this`owned, redis`store
      ensures redis.store == Redis.Release(old(redis.store), redis.now, OwnerKey(agent), coreId).store
      ensures owned == old(owned) - {agent}
    {
      var result := redis.EvalRelease(OwnerKey(agent), coreId);
      owned := owned - {agent};
    }

    /** Deletes exactly the keys of owned agents that are still live in this core's name. */
    method ReleaseAll()
      modifies this`owned, redis`store
      ensures owned == {}
      ensures redis.store == old(redis.store) -
        (set a | a in old(owned) && Redis.Get(old(redis.store), redis.now, OwnerKey(a)) == Some(coreId) :: OwnerKey(a))
    {
      var todo := owned;
      ghost var gone: set<string> := {};
      while todo != {}
        invariant todo <= owned <= old(owned) && owned == todo
        invariant gone ==
          set a | a in old(owned) - todo && Redis.Get(old(redis.store), redis.now, OwnerKey(a)) == Some(coreId) ::
            OwnerKey(a)
        invariant redis.store == old(redis.store) - gone
      {
        var agent :| agent in todo;
        forall b | OwnerKey(b) == OwnerKey(agent)
          ensures b == agent
        {
          OwnerKeyInjective(agent, b);
        }
        assert OwnerKey(agent) !in gone;
        Release(agent);
        if Redis.Get(old(redis.store), redis.now, OwnerKey(agent)) == Some(coreId) {
          gone := gone + {OwnerKey(agent)};
        }
        todo := todo - {agent};
      }
    }

    method CurrentOwner(agent: string) returns (owner: Option<string>)
      ensures owner.Some? <==> OwnerKey(agent) in redis.store && redis.now < redis.store[OwnerKey(agent)].expiry
      ensures owner.Some? ==> owner.value == redis.store[OwnerKey(agent)].value
    {
      owner := Redis.Get(redis.store, redis.now, OwnerKey(agent));
    }
  }
}
