/** What single steps of the lease code do to a key and to a local runtime. */
module LeaseSteps {
  import opened Prelude
  import opened Lifecycle
  import Redis

  /** aip:agent:{agentId}:owner */
  function OwnerKey(agent: string): string {
    Redis.KEY_PREFIX + "agent:" + agent + ":owner"
  }

  /** Different agents have different lease keys. */
  lemma OwnerKeyInjective(a: string, b: string)
    ensures OwnerKey(a) == OwnerKey(b) ==> a == b
  {
    var head, tail := Redis.KEY_PREFIX + "agent:", ":owner";
    assert OwnerKey(a) == head + a + tail && OwnerKey(b) == head + b + tail;
    if OwnerKey(a) == OwnerKey(b) {
      assert |a| == |b|;
      assert a == OwnerKey(a)[|head|..|head| + |a|];
      assert b == OwnerKey(b)[|head|..|head| + |b|];
    }
  }

  predicate RuntimeActive(instance: Option<InstanceState>) {
    instance.Some? && Active(instance.value)
  }

  /** An event offered to an instance, if there is one; AgentStateError changes nothing. */
  function FireOn(instance: Option<InstanceState>, event: Event): Option<InstanceState> {
    match instance
    case None => None
    case Some(state) => Some(Fire(state, event))
  }

  /** _stop_local: STOP is offered and a refusal is logged. */
  function StopLocal(instance: Option<InstanceState>): Option<InstanceState> {
    FireOn(instance, Stop)
  }

  /** The tail of a resync pass for an owned agent: create what is missing, start what is not active. */
  function CreateAndStart(instance: Option<InstanceState>): Option<InstanceState> {
    var state := if instance.Some? then instance.value else Created;
    Some(if Active(state) then state else Fire(state, Start))
  }

  /** Stopping always leaves the runtime inactive; pausing and resuming never make an inactive one active. */
  lemma OnlyStartActivates(instance: Option<InstanceState>)
    ensures !RuntimeActive(StopLocal(instance))
    ensures RuntimeActive(FireOn(instance, Pause)) ==> RuntimeActive(instance)
    ensures RuntimeActive(FireOn(instance, Resume)) ==> RuntimeActive(instance)
  {
  }
}
