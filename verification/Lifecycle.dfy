/** agent/lifecycle.py: the transition table of an agent instance and the machine that follows it. */
module Lifecycle {
  import opened Prelude

  datatype InstanceState = Created | Running | Paused | Draining | Stopped | Deleted

  datatype Event = Start | Pause | Resume | Drain | Stop | Delete

  /** The transition table; None where it has no entry. */
  function Target(state: InstanceState, event: Event): Option<InstanceState> {
    match (state, event)
    case (Created, Start) => Some(Running)
    case (Created, Delete) => Some(Deleted)
    case (Running, Pause) => Some(Paused)
    case (Running, Drain) => Some(Draining)
    case (Running, Stop) => Some(Stopped)
    case (Paused, Resume) => Some(Running)
    case (Paused, Stop) => Some(Stopped)
    case (Paused, Drain) => Some(Draining)
    case (Draining, Stop) => Some(Stopped)
    case (Stopped, Start) => Some(Running)
    case (Stopped, Delete) => Some(Deleted)
    case _ => None
  }

  predicate Active(state: InstanceState) {
    state == Running || state == Paused
  }

  /** The state after an event is offered: a rejected event (AgentStateError) leaves it alone. */
  function Fire(state: InstanceState, event: Event): InstanceState {
    match Target(state, event)
    case Some(next) => next
    case None => state
  }

  class StateMachine {
    var current: InstanceState

    constructor ()
      ensures current == Created
    {
      current := Created;
    }

    method Transition(event: Event) returns (state: Option<InstanceState>)
      modifies this
      ensures state == Target(old(current), event)
      ensures current == Fire(old(current), event)
    {
      state := Target(current, event);
      if state.Some? {
        current := state.value;
      }
    }
  }

  /** The state a fresh instance is in after a sequence of offered events. */
  function Run(events: seq<Event>): InstanceState {
    if events == [] then Created else Fire(Run(events[..|events| - 1]), events[|events| - 1])
  }

  /** Whether the machine accepts the k-th event of the sequence. */
  predicate Accepts(events: seq<Event>, k: nat)
    requires k < |events|
  {
    Target(Run(events[..k]), events[k]).Some?
  }

  /** What each event does to an instance that has lived through any events: it starts one that is new or stopped,
      pauses one that runs, resumes one that is paused, drains one that runs or is paused, stops one that runs,
      is paused or drains, and deletes one that is new or stopped; everything else it leaves alone. */
  lemma EventLeads(events: seq<Event>, event: Event)
    ensures var was, now := Run(events), Run(events + [event]);
      match event
      case Start => now == if was in {Created, Stopped} then Running else was
      case Pause => now == if was == Running then Paused else was
      case Resume => now == if was == Paused then Running else was
      case Drain => now == if was in {Running, Paused} then Draining else was
      case Stop => now == if was in {Running, Paused, Draining} then Stopped else was
      case Delete => now == if was in {Created, Stopped} then Deleted else was
  {
    assert (events + [event])[..|events|] == events;
  }

  /** A start leaves an instance active exactly if it is not draining and not deleted. */
  lemma StartActivatesIff(events: seq<Event>)
    ensures Active(Run(events + [Start])) <==> Run(events) in {Created, Running, Paused, Stopped}
  {
    EventLeads(events, Start);
  }

  /** So an instance can always be stopped and started again, unless it is deleted. */
  lemma StoppedRestarts(events: seq<Event>)
    ensures Run(events + [Stop] + [Start]) == Running <==> Run(events) != Deleted
  {
    EventLeads(events, Stop);
    EventLeads(events + [Stop], Start);
  }

  /** Position k holds an accepted START and nothing accepted after it but PAUSE and RESUME. */
  ghost predicate StartedAt(events: seq<Event>, k: nat) {
    && k < |events|
    && events[k] == Start
    && Accepts(events, k)
    && forall j :: k < j < |events| && Accepts(events, j) ==> events[j] == Pause || events[j] == Resume
  }

  lemma AcceptsInFront(events: seq<Event>, j: nat)
    requires j < |events| - 1
    ensures Accepts(events[..|events| - 1], j) == Accepts(events, j)
  {
    assert events[..|events| - 1][..j] == events[..j];
  }

  lemma StartedAtBefore(events: seq<Event>, k: nat)
    requires k < |events| - 1
    ensures var n := |events| - 1;
      StartedAt(events, k) <==>
      StartedAt(events[..n], k) && (Accepts(events, n) ==> events[n] == Pause || events[n] == Resume)
  {
    forall j: nat | j < |events| - 1
      ensures Accepts(events[..|events| - 1], j) == Accepts(events, j)
    {
      AcceptsInFront(events, j);
    }
  }

  /** An instance is active exactly when some accepted START has been followed by pauses and resumes only. */
  lemma {:induction false} ActiveIffStarted(events: seq<Event>)
    ensures Active(Run(events)) <==> exists k: nat :: StartedAt(events, k)
  {
    if events != [] {
      var n := |events| - 1;
      ActiveIffStarted(events[..n]);
      if k: nat :| StartedAt(events, k) {
        if k < n {
          StartedAtBefore(events, k);
        }
      } else if k: nat :| StartedAt(events[..n], k) {
        StartedAtBefore(events, k);
      } else {
        assert !StartedAt(events, n);
      }
    }
  }

  /** switch_runtime offers DRAIN and then START: whatever the state, one of the two is rejected. */
  lemma SwitchRuntimeNeverCompletes(state: InstanceState)
    ensures Target(state, Drain).None? || Target(Fire(state, Drain), Start).None?
  {
    match state
    case Created =>
    case Running =>
    case Paused =>
    case Draining =>
    case Stopped =>
    case Deleted =>
  }

  /** DELETED is reachable only through DELETE, and nothing leaves it. */
  lemma {:induction false} DeletedIsFinal(events: seq<Event>, more: seq<Event>)
    requires Run(events) == Deleted
    ensures Run(events + more) == Deleted
  {
    if more == [] {
      assert events + more == events;
    } else {
      var n := |more| - 1;
      DeletedIsFinal(events, more[..n]);
      assert (events + more)[..|events + more| - 1] == events + more[..n];
    }
  }
}
