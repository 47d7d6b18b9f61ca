/** The shared Redis instance: string keys with millisecond expiries, a clock, and the
    Lua scripts that the lease and lock code runs as single atomic steps. */
module Redis {
  import opened Prelude

  const KEY_PREFIX := "aip:"

  datatype Entry = Entry(value: string, expiry: int)

  type Store = map<string, Entry>

  /** What one atomic script leaves behind: the new store and whether it answered 1. */
  datatype Reply = Reply(store: Store, ok: bool)

  /** What the server holds at one moment. */
  datatype Moment = Moment(store: Store, now: int)

  /** The other clients and the clock: for the n-th await of a coroutine and the server as the coroutine left
      it, what the server is when the await returns. Where the table has no entry nothing happens. */
  type Others = map<(nat, Moment), Moment>

  function Found(others: Others, n: nat, left: Moment): Moment {
    if (n, left) in others then others[(n, left)] else left
  }

  /** Nobody else writes, and no time passes. */
  ghost predicate Quiet(others: Others) {
    forall n, m :: Found(others, n, m) == m
  }

  /** GET: an entry whose expiry has come is gone. */
  function Get(s: Store, now: int, key: string): Option<string> {
    if key in s && now < s[key].expiry then Some(s[key].value) else None
  }

  /** The claim script: a free or own key is (re)written with a full TTL, another owner's is left alone. */
  function Claim(s: Store, now: int, key: string, me: string, ttl: int): Reply {
    if Get(s, now, key) == None || Get(s, now, key) == Some(me)
    then Reply(s[key := Entry(me, now + ttl)], true)
    else Reply(s, false)
  }

  /** The renew script: only the live owner's TTL is refreshed. */
  function Renew(s: Store, now: int, key: string, me: string, ttl: int): Reply {
    if Get(s, now, key) == Some(me)
    then Reply(s[key := Entry(me, now + ttl)], true)
    else Reply(s, false)
  }

  /** The release script: only the live owner's key is deleted. */
  function Release(s: Store, now: int, key: string, me: string): Reply {
    if Get(s, now, key) == Some(me)
    then Reply(s - {key}, true)
    else Reply(s, false)
  }

  /** SET key value NX PX ttl. */
  function SetNx(s: Store, now: int, key: string, value: string, ttl: int): Reply {
    if Get(s, now, key) == None
    then Reply(s[key := Entry(value, now + ttl)], true)
    else Reply(s, false)
  }

  /** One Redis server. The scripts below are the Lua texts, command by command. */
  class Server {
    var store: Store
    var now: int

    constructor (now: int)
      ensures store == map[] && this.now == now
    {
      store := map[];
      this.now := now;
    }

    method Set(key: string, value: string, px: int)
      modifies this`store
      ensures store == old(store)[key := Entry(value, now + px)]
    {
      store := store[key := Entry(value, now + px)];
    }

    /** PEXPIRE answers 0 and changes nothing when the key is not there. */
    method PExpire(key: string, px: int)
      modifies this`store
      ensures store == match Get(old(store), now, key)
                       case None => old(store)
                       case Some(v) => old(store)[key := Entry(v, now + px)]
    {
      if Get(store, now, key).Some? {
        store := store[key := Entry(store[key].value, now + px)];
      }
    }

    method EvalClaim(key: string, me: string, ttl: int) returns (r: int)
      modifies this`store
      ensures Reply(store, r == 1) == Claim(old(store), now, key, me, ttl)
    {
      var cur := Get(store, now, key);
      if cur == Some(me) {
        PExpire(key, ttl);
        return 1;
      }
      if cur.Some? && cur != Some(me) {
        return 0;
      }
      Set(key, me, ttl);
      return 1;
    }

    method EvalRenew(key: string, me: string, ttl: int) returns (r: int)
      modifies this`store
      ensures Reply(store, r == 1) == Renew(old(store), now, key, me, ttl)
    {
      if Get(store, now, key) == Some(me) {
        PExpire(key, ttl);
        return 1;
      }
      return 0;
    }

    method EvalRelease(key: string, me: string) returns (r: int)
      modifies this`store
      ensures Reply(store, r == 1) == Release(old(store), now, key, me)
    {
      if Get(store, now, key) == Some(me) {
        store := store - {key};
        return 1;
      }
      return 0;
    }

    method EvalSetNx(key: string, value: string, ttl: int) returns (ok: bool)
      modifies this`store
      ensures Reply(store, ok) == SetNx(old(store), now, key, value, ttl)
    {
      ok := Get(store, now, key).None?;
      if ok {
        Set(key, value, ttl);
      }
    }

    function Here(): Moment
      reads this
    {
      Moment(store, now)
    }

    /** The n-th await of a coroutine. */
    method Await(others: Others, n: nat)
      modifies this
      ensures Here() == Found(others, n, old(Here()))
    {
      var found := Found(others, n, Here());
      store, now := found.store, found.now;
    }
  }
}
