/** agent/session_timing.py: cutting one turn of a conversation into stages by wall clock. Times are exact
    reals; a snapshot rounds them to whole milliseconds. */
module SessionTiming {
  import opened Prelude

  datatype Event =
    | DispatchTrace(latencyMs: real)   // latencyMs: the rag entries' latencies, summed
    | ToolCall(name: string)
    | ToolResult
    | TextDelta
    | Done
    | Error
    | Other

  datatype Call = Call(name: string, startedAt: real)

  datatype FinishedCall = FinishedCall(name: string, latencyMs: real)

  /** The recorder's fields. */
  datatype Marks = Marks(
    start: real,
    firstExternal: Option<real>, lastExternal: Option<real>,
    firstText: Option<real>, lastText: Option<real>,
    firstToolCall: Option<real>, doneT: Option<real>,
    queue: seq<Call>, toolCallMs: real, toolCalls: seq<FinishedCall>,
    retrievalMs: real, hasRagTrace: bool,
    ended: bool, endT: Option<real>)

  function Fresh(start: real): Marks {
    Marks(start, None, None, None, None, None, None, [], 0.0, [], 0.0, false, false, None)
  }

  function OrElse(o: Option<real>, t: real): Option<real> {
    if o.Some? then o else Some(t)
  }

  function NonNegative(x: real): real {
    if x < 0.0 then 0.0 else x
  }

  function Observed(m: Marks, e: Event, t: real): Marks {
    if m.ended then m
    else
      var marked := m.(firstExternal := OrElse(m.firstExternal, t), lastExternal := Some(t));
      match e
      case DispatchTrace(lat) => marked.(hasRagTrace := true, retrievalMs := m.retrievalMs + lat)
      case ToolCall(name) =>
        marked.(firstToolCall := OrElse(m.firstToolCall, t), queue := m.queue + [Call(name, t)])
      case ToolResult =>
        if m.queue == [] then marked
        else
          var latency := NonNegative(t - m.queue[0].startedAt) * 1000.0;
          marked.(queue := m.queue[1..], toolCallMs := m.toolCallMs + latency,
                  toolCalls := m.toolCalls + [FinishedCall(m.queue[0].name, latency)])
      case TextDelta => m.(firstText := OrElse(m.firstText, t), lastText := Some(t))
      case Done => m.(ended := true, doneT := Some(t))
      case Error => m.(ended := true)
      case Other => m
  }

  /** The three ways a recording is ended, each with the clock's reading. */
  datatype Ending = Completing(now: real) | Failing(now: real) | Closing(now: real)

  function Closed(m: Marks, e: Ending): Marks {
    match e
    case Completing(now) =>
      m.(ended := true, doneT := OrElse(m.doneT, now), endT := if m.endT.Some? then m.endT else OrElse(m.doneT, now))
    case Failing(now) => m.(ended := true, doneT := OrElse(m.doneT, now), endT := OrElse(m.endT, now))
    case Closing(now) => m.(endT := OrElse(m.endT, now))
  }

  function ClosedBy(m: Marks, endings: seq<Ending>): Marks
    decreases |endings|
  {
    if endings == [] then m else ClosedBy(Closed(m, endings[0]), endings[1..])
  }

  /** The stages of a snapshot, in milliseconds, before they are rounded. */
  datatype Stages = Stages(totalMs: real, planningMs: real, retrievalMs: Option<real>, toolCallMs: real,
                           generationMs: Option<real>, postProcessMs: real)

  /** A snapshot: the rounded stages. */
  datatype Snap = Snap(totalMs: int, planningMs: int, retrievalMs: Option<int>, toolCallMs: int,
                       generationMs: Option<int>, postProcessMs: int)

  /** round(): to the nearest integer, and from halfway to the even one. */
  function Round(x: real): int {
    var below := x.Floor;
    var rest := x - below as real;
    if rest < 0.5 || (rest == 0.5 && below % 2 == 0) then below else below + 1
  }

  function RoundSome(x: Option<real>): Option<int> {
    match x
    case None => None
    case Some(r) => Some(Round(r))
  }

  function Rounded(s: Stages): Snap {
    Snap(Round(s.totalMs), Round(s.planningMs), RoundSome(s.retrievalMs), Round(s.toolCallMs),
         RoundSome(s.generationMs), Round(s.postProcessMs))
  }

  function FirstWork(m: Marks): Option<real> {
    if m.firstExternal.Some? then m.firstExternal else m.firstText
  }

  function LastWork(m: Marks): Option<real> {
    if m.lastExternal.Some? then m.lastExternal else m.lastText
  }

  class SessionTimingRecorder {
    const start: real
    var firstExternal: Option<real>
    var lastExternal: Option<real>
    var firstText: Option<real>
    var lastText: Option<real>
    var firstToolCall: Option<real>
    var doneT: Option<real>
    var queue: seq<Call>
    var toolCallMs: real
    var toolCalls: seq<FinishedCall>
    var retrievalMs: real
    var hasRagTrace: bool
    var ended: bool
    var endT: Option<real>

    function View(): Marks
      reads this
    {
      Marks(start, firstExternal, lastExternal, firstText, lastText, firstToolCall, doneT,
            queue, toolCallMs, toolCalls, retrievalMs, hasRagTrace, ended, endT)
    }

    constructor (now: real)
      ensures View() == Fresh(now)
    {
      start := now;
      firstExternal, lastExternal, firstText, lastText := None, None, None, None;
      firstToolCall, doneT, endT := None, None, None;
      queue, toolCallMs, toolCalls := [], 0.0, [];
      retrievalMs, hasRagTrace, ended := 0.0, false, false;
    }

    method MarkExternal(t: real)
      modifies this`firstExternal, this`lastExternal
      ensures firstExternal == OrElse(old(firstExternal), t) && lastExternal == Some(t)
    {
      if firstExternal == None {
        firstExternal := Some(t);
      }
      lastExternal := Some(t);
    }

    /** A result answers the call that has waited longest. */
    method AnswerFirst(t: real)
      requires queue != []
      modifies this`queue, this`toolCallMs, this`toolCalls
      ensures queue == old(queue)[1..]
      ensures var latency := NonNegative(t - old(queue)[0].startedAt) * 1000.0;
        && toolCallMs == old(toolCallMs) + latency
        && toolCalls == old(toolCalls) + [FinishedCall(old(queue)[0].name, latency)]
    {
      var call := queue[0];
      queue := queue[1..];
      var latency := NonNegative(t - call.startedAt) * 1000.0;
      toolCallMs := toolCallMs + latency;
      toolCalls := toolCalls + [FinishedCall(call.name, latency)];
    }

    method Observe(event: Event, t: real)
      modifies this
      ensures View() == Observed(old(View()), event, t)
    {
      if ended {
        return;
      }
      match event {
        case DispatchTrace(lat) =>
          MarkExternal(t);
          hasRagTrace := true;
          retrievalMs := retrievalMs + lat;
        case ToolCall(name) =>
          MarkExternal(t);
          if firstToolCall == None {
            firstToolCall := Some(t);
          }
          queue := queue + [Call(name, t)];
        case ToolResult =>
          MarkExternal(t);
          if queue != [] {
            AnswerFirst(t);
          }
        case TextDelta =>
          if firstText == None {
            firstText := Some(t);
          }
          lastText := Some(t);
        case Done =>
          ended := true;
          doneT := Some(t);
        case Error =>
          ended := true;
        case Other =>
      }
    }

    /** complete(): the end is the done event's time, or now. */
    method Complete(now: real)
      modifies this
      ensures View() == Closed(old(View()), Completing(now))
    {
      ended := true;
      if doneT == None {
        doneT := Some(now);
      }
      if endT == None {
        endT := doneT;
      }
    }

    method Fail(now: real)
      modifies this
      ensures View() == Closed(old(View()), Failing(now))
    {
      ended := true;
      if doneT == None {
        doneT := Some(now);
      }
      if endT == None {
        endT := Some(now);
      }
    }

    /** close(): the window ends now unless an error path has already ended it. */
    method Close(now: real)
      modifies this
      ensures View() == Closed(old(View()), Closing(now))
    {
      if endT == None {
        endT := Some(now);
      }
    }

    method Snapshot(now: real) returns (s: Snap)
      ensures s == Rounded(SnapshotAt(View(), now))
    {
      var end := if endT.Some? then endT.value else now;
      var total := NonNegative(end - start) * 1000.0;
      var firstWork := if firstExternal.Some? then firstExternal else firstText;
      var planning := if firstWork.Some? then (firstWork.value - start) * 1000.0 else 0.0;
      var generation := None;
      if firstText.Some? && lastText.Some? {
        generation := Some(Round(NonNegative(lastText.value - firstText.value) * 1000.0));
      }
      var lastWork := if lastExternal.Some? then lastExternal else lastText;
      var post := if lastWork.Some? then (end - lastWork.value) * 1000.0 else 0.0;
      var retrieval := if hasRagTrace then Some(Round(retrievalMs)) else None;
      s := Snap(Round(total), Round(planning), retrieval, Round(toolCallMs), generation, Round(post));
    }
  }

  function StagesOf(m: Marks, end: real): Stages {
    Stages(NonNegative(end - m.start) * 1000.0,
           match FirstWork(m) case Some(t) => (t - m.start) * 1000.0 case None => 0.0,
           if m.hasRagTrace then Some(m.retrievalMs) else None,
           m.toolCallMs,
           if m.firstText.Some? && m.lastText.Some?
           then Some(NonNegative(m.lastText.value - m.firstText.value) * 1000.0) else None,
           match LastWork(m) case Some(t) => (end - t) * 1000.0 case None => 0.0)
  }

  function SnapshotAt(m: Marks, now: real): Stages {
    StagesOf(m, if m.endT.Some? then m.endT.value else now)
  }

  lemma EndedStays(m: Marks, e: Ending, now: real, later: real)
    requires m.endT.Some?
    ensures Closed(m, e).endT.Some? && SnapshotAt(Closed(m, e), later) == SnapshotAt(m, now)
  {
  }

  /** After complete() or fail() no event is recorded any more; after close() one still is, but the end stays. */
  lemma EndingStopsRecording(m: Marks, e: Ending, event: Event, t: real)
    ensures e.Completing? || e.Failing? ==> Observed(Closed(m, e), event, t) == Closed(m, e)
    ensures Closed(m, e).endT.Some? && Observed(Closed(m, e), event, t).endT == Closed(m, e).endT
    ensures e.Closing? ==> Closed(m, e).ended == m.ended && Closed(m, e).doneT == m.doneT
  {
  }

  /** The first of complete, fail and close fixes the snapshot: whatever comes after it and whenever the
      snapshot is taken, the stages are the same. */
  lemma {:induction false} FirstEndingWins(m: Marks, endings: seq<Ending>, now: real, later: real)
    requires endings != []
    ensures Closed(m, endings[0]).endT.Some?
    ensures SnapshotAt(ClosedBy(m, endings), later) == SnapshotAt(Closed(m, endings[0]), now)
    decreases |endings|
  {
    var first := Closed(m, endings[0]);
    if endings[1..] != [] {
      FirstEndingWins(first, endings[1..], now, later);
      EndedStays(first, endings[1], now, now);
    }
  }

  // ------------------------------------------------------------------ a whole stream of events

  datatype Timed = Timed(event: Event, t: real)

  /** The recorder after a stream. */
  function Record(start: real, stream: seq<Timed>): Marks {
    if stream == [] then Fresh(start)
    else Observed(Record(start, stream[..|stream| - 1]), stream[|stream| - 1].event, stream[|stream| - 1].t)
  }

  predicate Terminal(e: Event) {
    e.Done? || e.Error?
  }

  /** No done or error comes before the i-th event; what comes after one is ignored. */
  ghost predicate Live(stream: seq<Timed>, i: int) {
    0 <= i < |stream| && forall j | 0 <= j < i :: !Terminal(stream[j].event)
  }

  /** The clock never runs backwards, from the start through every event up to the done or error to the end. */
  ghost predicate Monotone(start: real, stream: seq<Timed>, end: real) {
    && start <= end
    && (forall i | Live(stream, i) :: start <= stream[i].t <= end)
    && (forall i, j | 0 <= i < j && Live(stream, j) :: stream[i].t <= stream[j].t)
  }

  datatype Kind = External | Text

  predicate OfKind(e: Event, kind: Kind) {
    match kind
    case External => e.DispatchTrace? || e.ToolCall? || e.ToolResult?
    case Text => e.TextDelta?
  }

  /** The i-th event is of the kind and comes before any done or error. */
  ghost predicate Counts(stream: seq<Timed>, i: int, kind: Kind) {
    Live(stream, i) && OfKind(stream[i].event, kind)
  }

  /** The time of the first event that counts, or None when there is none. */
  ghost predicate IsFirst(stream: seq<Timed>, kind: Kind, o: Option<real>) {
    match o
    case None => forall i :: !Counts(stream, i, kind)
    case Some(t) =>
      exists i :: Counts(stream, i, kind) && stream[i].t == t && forall j | 0 <= j < i :: !Counts(stream, j, kind)
  }

  ghost predicate IsLast(stream: seq<Timed>, kind: Kind, o: Option<real>) {
    match o
    case None => forall i :: !Counts(stream, i, kind)
    case Some(t) =>
      exists i :: Counts(stream, i, kind) && stream[i].t == t && forall j | i < j < |stream| :: !Counts(stream, j, kind)
  }

  lemma CountsInFront(stream: seq<Timed>, i: int, kind: Kind)
    requires stream != [] && i < |stream| - 1
    ensures Counts(stream[..|stream| - 1], i, kind) <==> Counts(stream, i, kind)
  {
  }

  /** What one more event does to a first and a last. */
  lemma FirstAndLastStep(stream: seq<Timed>, kind: Kind, first: Option<real>, last: Option<real>)
    requires stream != []
    requires IsFirst(stream[..|stream| - 1], kind, first) && IsLast(stream[..|stream| - 1], kind, last)
    ensures var n := |stream| - 1;
      if Counts(stream, n, kind)
      then IsFirst(stream, kind, OrElse(first, stream[n].t)) && IsLast(stream, kind, Some(stream[n].t))
      else IsFirst(stream, kind, first) && IsLast(stream, kind, last)
  {
    var n := |stream| - 1;
    var front := stream[..n];
    forall i | i < n
      ensures Counts(front, i, kind) <==> Counts(stream, i, kind)
    {
      CountsInFront(stream, i, kind);
    }
    assert forall i :: n < i ==> !Counts(stream, i, kind);
    if first.Some? {
      var i :| Counts(front, i, kind) && front[i].t == first.value && forall j | 0 <= j < i :: !Counts(front, j, kind);
      assert Counts(stream, i, kind) && stream[i].t == first.value;
    }
    if last.Some? {
      var i :| Counts(front, i, kind) && front[i].t == last.value && forall j | i < j < n :: !Counts(front, j, kind);
      assert Counts(stream, i, kind) && stream[i].t == last.value;
    }
  }

  lemma ObservedEnds(m: Marks, e: Event, t: real)
    ensures var m' := Observed(m, e, t);
      (m'.ended <==> m.ended || Terminal(e)) && m'.start == m.start && m'.endT == m.endT
  {
  }

  lemma {:induction false} EndedIffTerminal(start: real, stream: seq<Timed>)
    ensures Record(start, stream).ended <==> exists i | 0 <= i < |stream| :: Terminal(stream[i].event)
    ensures Record(start, stream).start == start && Record(start, stream).endT == None
  {
    if stream != [] {
      var front := stream[..|stream| - 1];
      EndedIffTerminal(start, front);
      ObservedEnds(Record(start, front), stream[|stream| - 1].event, stream[|stream| - 1].t);
      assert forall i | 0 <= i < |front| :: front[i] == stream[i];
    }
  }

  function FirstMark(m: Marks, kind: Kind): Option<real> {
    if kind == External then m.firstExternal else m.firstText
  }

  function LastMark(m: Marks, kind: Kind): Option<real> {
    if kind == External then m.lastExternal else m.lastText
  }

  lemma ObservedMarks(m: Marks, e: Event, t: real, kind: Kind)
    ensures var m' := Observed(m, e, t);
      if OfKind(e, kind) && !m.ended
      then FirstMark(m', kind) == OrElse(FirstMark(m, kind), t) && LastMark(m', kind) == Some(t)
      else FirstMark(m', kind) == FirstMark(m, kind) && LastMark(m', kind) == LastMark(m, kind)
  {
  }

  lemma CountsAtEnd(start: real, stream: seq<Timed>, kind: Kind)
    requires stream != []
    ensures Counts(stream, |stream| - 1, kind) <==>
            OfKind(stream[|stream| - 1].event, kind) && !Record(start, stream[..|stream| - 1]).ended
  {
    var front := stream[..|stream| - 1];
    EndedIffTerminal(start, front);
    assert forall j | 0 <= j < |front| :: front[j] == stream[j];
  }

  /** What one more event does to the marks. */
  lemma MarksStep(start: real, stream: seq<Timed>, kind: Kind)
    requires stream != []
    ensures var n := |stream| - 1;
      var m, m' := Record(start, stream[..n]), Record(start, stream);
      if Counts(stream, n, kind)
      then FirstMark(m', kind) == OrElse(FirstMark(m, kind), stream[n].t) && LastMark(m', kind) == Some(stream[n].t)
      else FirstMark(m', kind) == FirstMark(m, kind) && LastMark(m', kind) == LastMark(m, kind)
  {
    var n := |stream| - 1;
    CountsAtEnd(start, stream, kind);
    ObservedMarks(Record(start, stream[..n]), stream[n].event, stream[n].t, kind);
  }

  /** Whatever the stream: the recorder's marks are the times of the first and last external event and text
      before the stream's done or error. */
  lemma {:induction false} MarksAreFirstAndLast(start: real, stream: seq<Timed>, kind: Kind)
    ensures IsFirst(stream, kind, FirstMark(Record(start, stream), kind))
    ensures IsLast(stream, kind, LastMark(Record(start, stream), kind))
  {
    if stream != [] {
      var n := |stream| - 1;
      var m := Record(start, stream[..n]);
      MarksAreFirstAndLast(start, stream[..n], kind);
      FirstAndLastStep(stream, kind, FirstMark(m, kind), LastMark(m, kind));
      MarksStep(start, stream, kind);
    }
  }

  lemma FirstBeforeLast(start: real, stream: seq<Timed>, end: real, kind: Kind, first: Option<real>, last: Option<real>)
    requires Monotone(start, stream, end) && IsFirst(stream, kind, first) && IsLast(stream, kind, last)
    ensures first.Some? <==> last.Some?
    ensures first.Some? ==> start <= first.value <= last.value <= end
  {
    if first.Some? && last.Some? {
      var i :| Counts(stream, i, kind) && stream[i].t == first.value &&
               forall j | 0 <= j < i :: !Counts(stream, j, kind);
      var k :| Counts(stream, k, kind) && stream[k].t == last.value &&
               forall j | k < j < |stream| :: !Counts(stream, j, kind);
      assert i <= k;
    }
  }

  /** Conservation of time: with any work at all, planning, the span of the work and post-processing add up
      to the total, and none of them is negative; without any, planning and post-processing are zero. */
  lemma TimeIsConserved(start: real, stream: seq<Timed>, end: real)
    requires Monotone(start, stream, end)
    ensures var m := Record(start, stream);
      var s := StagesOf(m, end);
      && s.totalMs >= 0.0 && s.planningMs >= 0.0 && s.postProcessMs >= 0.0
      && (FirstWork(m).Some? <==> LastWork(m).Some?)
      && (FirstWork(m).Some? ==>
            LastWork(m).value >= FirstWork(m).value &&
            s.planningMs + (LastWork(m).value - FirstWork(m).value) * 1000.0 + s.postProcessMs == s.totalMs)
      && (FirstWork(m).None? ==> s.planningMs == s.postProcessMs == 0.0)
  {
    var m := Record(start, stream);
    MarksAreFirstAndLast(start, stream, External);
    MarksAreFirstAndLast(start, stream, Text);
    EndedIffTerminal(start, stream);
    FirstBeforeLast(start, stream, end, External, m.firstExternal, m.lastExternal);
    FirstBeforeLast(start, stream, end, Text, m.firstText, m.lastText);
  }

  lemma {:induction false} DoneIsLive(start: real, stream: seq<Timed>)
    ensures Record(start, stream).doneT.Some? ==>
      exists i :: Live(stream, i) && stream[i].event.Done? && stream[i].t == Record(start, stream).doneT.value
  {
    if stream != [] {
      var n := |stream| - 1;
      var front := stream[..n];
      DoneIsLive(start, front);
      EndedIffTerminal(start, front);
      assert forall j | 0 <= j < n :: front[j] == stream[j];
      if Record(start, front).doneT.Some? {
        var i :| Live(front, i) && front[i].event.Done? && front[i].t == Record(start, front).doneT.value;
        assert Live(stream, i);
      } else if Record(start, stream).doneT.Some? {
        assert Live(stream, n);
      }
    }
  }

  lemma CompletedStages(m: Marks, now: real)
    requires m.endT.None?
    ensures var m' := Closed(m, Completing(now));
      m'.endT == Some(OrElse(m.doneT, now).value) && SnapshotAt(m', now) == StagesOf(m, m'.endT.value)
  {
  }

  lemma MonotoneToDone(start: real, stream: seq<Timed>, now: real)
    requires Monotone(start, stream, now) && Record(start, stream).doneT.Some?
    ensures Monotone(start, stream, Record(start, stream).doneT.value)
  {
    DoneIsLive(start, stream);
    var d :| Live(stream, d) && stream[d].event.Done? && stream[d].t == Record(start, stream).doneT.value;
    forall i | Live(stream, i) ensures start <= stream[i].t <= stream[d].t {
      assert i <= d;
    }
  }

  /** The end that complete() sets, the done event's time or now, is late enough for all of that, whatever
      comes after the done event. */
  lemma CompleteEndsInTime(start: real, stream: seq<Timed>, now: real)
    requires Monotone(start, stream, now)
    ensures var m := Closed(Record(start, stream), Completing(now));
      && m.endT.Some? && Monotone(start, stream, m.endT.value)
      && SnapshotAt(m, now) == StagesOf(Record(start, stream), m.endT.value)
  {
    EndedIffTerminal(start, stream);
    CompletedStages(Record(start, stream), now);
    if Record(start, stream).doneT.Some? {
      MonotoneToDone(start, stream, now);
    }
  }

  /** A turn that is ended, however often and in whatever ways, has the end of its first ending: for close() and
      fail() that is when they were called, for complete() the done event's time if there was one. Whenever the
      snapshot is taken, the total runs from the start to that end, and planning, the span of the work and
      post-processing are non-negative and add up to it. */
  lemma EndedTurnIsConserved(start: real, stream: seq<Timed>, endings: seq<Ending>, later: real)
    requires endings != [] && Monotone(start, stream, endings[0].now)
    ensures var m := Record(start, stream);
      var end := if endings[0].Completing? && m.doneT.Some? then m.doneT.value else endings[0].now;
      var s := SnapshotAt(ClosedBy(m, endings), later);
      && start <= end && s.totalMs == (end - start) * 1000.0
      && s.planningMs >= 0.0 && s.postProcessMs >= 0.0
      && (FirstWork(m).Some? <==> LastWork(m).Some?)
      && (FirstWork(m).Some? ==>
            && LastWork(m).value >= FirstWork(m).value
            && s.planningMs + (LastWork(m).value - FirstWork(m).value) * 1000.0 + s.postProcessMs == s.totalMs)
      && (FirstWork(m).None? ==> s.planningMs == s.postProcessMs == 0.0)
  {
    var m, now := Record(start, stream), endings[0].now;
    EndedIffTerminal(start, stream);
    FirstEndingWins(m, endings, now, later);
    if endings[0].Completing? && m.doneT.Some? {
      MonotoneToDone(start, stream, now);
      FirstEnd(m, endings[0], m.doneT.value);
      TimeIsConserved(start, stream, m.doneT.value);
    } else {
      FirstEnd(m, endings[0], now);
      TimeIsConserved(start, stream, now);
    }
  }

  lemma FirstEnd(m: Marks, e: Ending, end: real)
    requires m.endT.None? && end == if e.Completing? && m.doneT.Some? then m.doneT.value else e.now
    ensures SnapshotAt(Closed(m, e), e.now) == StagesOf(m, end)
  {
  }

  /** The done mark is the time of the done event, if one comes before any error. */
  lemma DoneIffSeen(start: real, stream: seq<Timed>)
    ensures Record(start, stream).doneT.Some? <==> exists i :: Live(stream, i) && stream[i].event.Done?
    ensures Record(start, stream).doneT.Some? ==>
      exists i :: Live(stream, i) && stream[i].event.Done? && stream[i].t == Record(start, stream).doneT.value
  {
    DoneIsLive(start, stream);
    SeenIsDone(start, stream);
  }

  lemma {:induction false} SeenIsDone(start: real, stream: seq<Timed>)
    ensures (exists i :: Live(stream, i) && stream[i].event.Done?) ==> Record(start, stream).doneT.Some?
  {
    if i :| Live(stream, i) && stream[i].event.Done? {
      var n := |stream| - 1;
      var front := stream[..n];
      EndedIffTerminal(start, front);
      assert forall j | 0 <= j < n :: front[j] == stream[j];
      if i < n {
        assert Live(front, i);
        SeenIsDone(start, front);
      }
    }
  }

  /** With text, the three stages planning, generation and post-processing add up to the total if and only
      if there was no external event or the external events span exactly as long as the text. */
  lemma StagesSumToTotal(start: real, stream: seq<Timed>, end: real)
    requires Monotone(start, stream, end) && Record(start, stream).firstText.Some?
    ensures var m := Record(start, stream);
      var s := StagesOf(m, end);
      && s.generationMs.Some? && s.generationMs.value >= 0.0
      && m.lastText.Some? && (m.firstExternal.Some? <==> m.lastExternal.Some?)
      && (s.planningMs + s.generationMs.value + s.postProcessMs == s.totalMs <==>
            m.firstExternal.None? ||
            m.lastExternal.value - m.firstExternal.value == m.lastText.value - m.firstText.value)
  {
    var m := Record(start, stream);
    TimeIsConserved(start, stream, end);
    MarksAreFirstAndLast(start, stream, External);
    MarksAreFirstAndLast(start, stream, Text);
    EndedIffTerminal(start, stream);
    FirstBeforeLast(start, stream, end, External, m.firstExternal, m.lastExternal);
    FirstBeforeLast(start, stream, end, Text, m.firstText, m.lastText);
  }

  lemma RoundIsNearest(x: real)
    ensures -0.5 <= Round(x) as real - x <= 0.5
    ensures Round(x) as real - x == 0.5 || x - Round(x) as real == 0.5 ==> Round(x) % 2 == 0
    ensures x >= 0.0 ==> Round(x) >= 0
  {
    var below := x.Floor;
    assert below as real <= x < below as real + 1.0;
  }

  /** What a snapshot shows: the rounded stages are up to two milliseconds off the rounded total if the exact
      ones add up to it, and more is proof that they do not. */
  lemma RoundedSumIsClose(start: real, stream: seq<Timed>, end: real)
    requires Monotone(start, stream, end) && Record(start, stream).firstText.Some?
    ensures var s, r := StagesOf(Record(start, stream), end), Rounded(StagesOf(Record(start, stream), end));
      && s.generationMs.Some? && r.generationMs.Some?
      && r.planningMs >= 0 && r.generationMs.value >= 0 && r.postProcessMs >= 0 && r.totalMs >= 0
      && (s.planningMs + s.generationMs.value + s.postProcessMs == s.totalMs ==>
            -2 <= r.planningMs + r.generationMs.value + r.postProcessMs - r.totalMs <= 2)
  {
    var s := StagesOf(Record(start, stream), end);
    TimeIsConserved(start, stream, end);
    StagesSumToTotal(start, stream, end);
    RoundIsNearest(s.totalMs);
    RoundIsNearest(s.planningMs);
    RoundIsNearest(s.generationMs.value);
    RoundIsNearest(s.postProcessMs);
  }

  // ------------------------------------------------------------------ tool latency

  /** The calls that count, in order. */
  function Calls(stream: seq<Timed>): seq<Call> {
    if stream == [] then []
    else
      var n := |stream| - 1;
      var before := Calls(stream[..n]);
      if stream[n].event.ToolCall? && !EndsIn(stream[..n]) then before + [Call(stream[n].event.name, stream[n].t)]
      else before
  }

  predicate EndsIn(stream: seq<Timed>) {
    exists i | 0 <= i < |stream| :: Terminal(stream[i].event)
  }

  /** The times of the results that answer some call: a result with no call outstanding answers none. */
  function Answers(stream: seq<Timed>): seq<real> {
    if stream == [] then []
    else
      var n := |stream| - 1;
      var before := Answers(stream[..n]);
      if stream[n].event.ToolResult? && !EndsIn(stream[..n]) && |before| < |Calls(stream[..n])|
      then before + [stream[n].t] else before
  }

  function StartTimes(calls: seq<Call>): seq<real> {
    seq(|calls|, i requires 0 <= i < |calls| => calls[i].startedAt)
  }

  function Sum(s: seq<real>): real {
    if s == [] then 0.0 else Sum(s[..|s| - 1]) + s[|s| - 1]
  }

  /** The calls are answered first in, first out; the queue holds those still waiting; and the latency
      recorded is what the answers' times exceed their calls' times by. */
  ghost predicate Fifo(m: Marks, calls: seq<Call>, answers: seq<real>) {
    && |answers| <= |calls| && m.queue == calls[|answers|..]
    && |m.toolCalls| == |answers|
    && (forall k | 0 <= k < |answers| ::
          calls[k].startedAt <= answers[k] &&
          m.toolCalls[k] == FinishedCall(calls[k].name, (answers[k] - calls[k].startedAt) * 1000.0))
    && m.toolCallMs == (Sum(answers) - Sum(StartTimes(calls[..|answers|]))) * 1000.0
  }

  lemma {:induction false} CallsAreInStream(stream: seq<Timed>)
    ensures forall c :: c in Calls(stream) ==> exists i :: 0 <= i < |stream| && stream[i].t == c.startedAt
  {
    if stream != [] {
      var n := |stream| - 1;
      CallsAreInStream(stream[..n]);
      forall c | c in Calls(stream)
        ensures exists i :: 0 <= i < |stream| && stream[i].t == c.startedAt
      {
        if c in Calls(stream[..n]) {
          var i :| 0 <= i < n && stream[..n][i].t == c.startedAt;
          assert stream[i].t == c.startedAt;
        } else {
          assert stream[n].t == c.startedAt;
        }
      }
    }
  }

  /** One answer to the head of the queue. */
  lemma AnswerKeepsFifo(m: Marks, calls: seq<Call>, answers: seq<real>, t: real)
    requires Fifo(m, calls, answers) && |answers| < |calls| && !m.ended
    requires calls[|answers|].startedAt <= t
    ensures Fifo(Observed(m, ToolResult, t), calls, answers + [t])
  {
    var k := |answers|;
    var more := answers + [t];
    assert more[..|more| - 1] == answers;
    assert StartTimes(calls[..k + 1])[..k] == StartTimes(calls[..k]);
    assert Sum(StartTimes(calls[..k + 1])) == Sum(StartTimes(calls[..k])) + calls[k].startedAt;
    assert m.queue[0] == calls[k] && m.queue[1..] == calls[k + 1..];
  }

  lemma CallKeepsFifo(m: Marks, calls: seq<Call>, answers: seq<real>, name: string, t: real)
    requires Fifo(m, calls, answers) && !m.ended
    ensures Fifo(Observed(m, ToolCall(name), t), calls + [Call(name, t)], answers)
  {
    var more := calls + [Call(name, t)];
    assert more[..|answers|] == calls[..|answers|];
    assert more[|answers|..] == calls[|answers|..] + [Call(name, t)];
  }

  lemma OthersKeepFifo(m: Marks, calls: seq<Call>, answers: seq<real>, e: Event, t: real)
    requires Fifo(m, calls, answers)
    requires m.ended || !(e.ToolCall? || (e.ToolResult? && |answers| < |calls|))
    ensures Fifo(Observed(m, e, t), calls, answers)
  {
  }

  lemma FifoStep(m: Marks, calls: seq<Call>, answers: seq<real>, e: Event, t: real)
    requires Fifo(m, calls, answers)
    requires !m.ended && |answers| < |calls| ==> calls[|answers|].startedAt <= t
    ensures Fifo(Observed(m, e, t),
                 if e.ToolCall? && !m.ended then calls + [Call(e.name, t)] else calls,
                 if e.ToolResult? && !m.ended && |answers| < |calls| then answers + [t] else answers)
  {
    if m.ended {
      OthersKeepFifo(m, calls, answers, e, t);
    } else if e.ToolCall? {
      CallKeepsFifo(m, calls, answers, e.name, t);
    } else if e.ToolResult? && |answers| < |calls| {
      AnswerKeepsFifo(m, calls, answers, t);
    } else {
      OthersKeepFifo(m, calls, answers, e, t);
    }
  }

  // What one more event does to the calls and answers, by the recorder's own flag.
  lemma CallsAndAnswersStep(start: real, stream: seq<Timed>)
    requires stream != []
    ensures var n := |stream| - 1;
      var e, t, front := stream[n].event, stream[n].t, stream[..n];
      var ended, calls, answers := Record(start, front).ended, Calls(front), Answers(front);
      && Record(start, stream) == Observed(Record(start, front), e, t)
      && Calls(stream) == (if e.ToolCall? && !ended then calls + [Call(e.name, t)] else calls)
      && Answers(stream) == (if e.ToolResult? && !ended && |answers| < |calls| then answers + [t] else answers)
  {
    var front := stream[..|stream| - 1];
    EndedIffTerminal(start, front);
    assert Record(start, front).ended <==> EndsIn(front);
  }

  lemma FrontIsMonotone(start: real, stream: seq<Timed>, end: real)
    requires stream != [] && Monotone(start, stream, end)
    ensures Monotone(start, stream[..|stream| - 1], end)
  {
    var front := stream[..|stream| - 1];
    forall i | Live(front, i)
      ensures Live(stream, i) && front[i] == stream[i]
    {
      assert forall j | 0 <= j < i :: front[j] == stream[j];
    }
  }

  lemma {:induction false} ToolCallsAreFifo(start: real, stream: seq<Timed>, end: real)
    requires Monotone(start, stream, end)
    ensures Fifo(Record(start, stream), Calls(stream), Answers(stream))
  {
    if stream != [] {
      var n := |stream| - 1;
      var front := stream[..n];
      FrontIsMonotone(start, stream, end);
      ToolCallsAreFifo(start, front, end);
      CallsStartBefore(start, stream, end);
      CallsAndAnswersStep(start, stream);
      FifoStep(Record(start, front), Calls(front), Answers(front), stream[n].event, stream[n].t);
    }
  }

  lemma CallsStartBefore(start: real, stream: seq<Timed>, end: real)
    requires stream != [] && Monotone(start, stream, end)
    ensures var front := stream[..|stream| - 1];
      !Record(start, front).ended ==>
        forall k | 0 <= k < |Calls(front)| :: Calls(front)[k].startedAt <= stream[|stream| - 1].t
  {
    var n := |stream| - 1;
    var front := stream[..n];
    var calls := Calls(front);
    CallsAreInStream(front);
    EndedIffTerminal(start, front);
    if !Record(start, front).ended {
      assert Live(stream, n) by {
        assert forall j | 0 <= j < n :: front[j] == stream[j];
      }
      forall k | 0 <= k < |calls| ensures calls[k].startedAt <= stream[n].t {
        assert calls[k] in calls;
        var i :| 0 <= i < n && front[i].t == calls[k].startedAt;
        assert stream[i].t == calls[k].startedAt;
      }
    }
  }

  /** The first tool call's mark is the time of the first call that counts. */
  lemma {:induction false} FirstCallIsMarked(start: real, stream: seq<Timed>)
    ensures Record(start, stream).firstToolCall ==
            if Calls(stream) == [] then None else Some(Calls(stream)[0].startedAt)
  {
    if stream != [] {
      FirstCallIsMarked(start, stream[..|stream| - 1]);
      CallsAndAnswersStep(start, stream);
    }
  }

  function Latency(e: Event): real {
    if e.DispatchTrace? then e.latencyMs else 0.0
  }

  /** The latencies of the traces that count, summed. */
  function TraceLatency(stream: seq<Timed>): real {
    if stream == [] then 0.0
    else
      var n := |stream| - 1;
      TraceLatency(stream[..n]) + if EndsIn(stream[..n]) then 0.0 else Latency(stream[n].event)
  }

  ghost predicate HasTrace(stream: seq<Timed>) {
    exists i :: Live(stream, i) && stream[i].event.DispatchTrace?
  }

  lemma HasTraceStep(stream: seq<Timed>)
    requires stream != []
    ensures var n := |stream| - 1;
      HasTrace(stream) <==> HasTrace(stream[..n]) || (stream[n].event.DispatchTrace? && !EndsIn(stream[..n]))
  {
    var n := |stream| - 1;
    var front := stream[..n];
    assert forall j | 0 <= j < n :: front[j] == stream[j];
    if i :| Live(front, i) && front[i].event.DispatchTrace? {
      assert Live(stream, i);
    }
    if i :| Live(stream, i) && stream[i].event.DispatchTrace? {
      if i < n {
        assert Live(front, i);
      }
    }
    if stream[n].event.DispatchTrace? && !EndsIn(front) {
      assert Live(stream, n);
    }
  }

  lemma {:induction false} TracesAreSummed(start: real, stream: seq<Timed>)
    ensures var m := Record(start, stream);
      (m.hasRagTrace <==> HasTrace(stream)) && m.retrievalMs == TraceLatency(stream)
  {
    if stream != [] {
      var n := |stream| - 1;
      var front := stream[..n];
      TracesAreSummed(start, front);
      EndedIffTerminal(start, front);
      HasTraceStep(stream);
      assert Record(start, stream) == Observed(Record(start, front), stream[n].event, stream[n].t);
    }
  }

  /** The stages of a snapshot that are not cut out of the wall clock: the retrieval is the summed latency of the
      traces before done or error, or none without a trace; the tool stage is the summed latency of the answered
      calls. */
  lemma RetrievalAndToolsAreSummed(start: real, stream: seq<Timed>, end: real)
    requires Monotone(start, stream, end)
    ensures var s, calls, answers := StagesOf(Record(start, stream), end), Calls(stream), Answers(stream);
      && s.retrievalMs == (if HasTrace(stream) then Some(TraceLatency(stream)) else None)
      && |answers| <= |calls|
      && s.toolCallMs == (Sum(answers) - Sum(StartTimes(calls[..|answers|]))) * 1000.0
  {
    TracesAreSummed(start, stream);
    ToolCallsAreFifo(start, stream, end);
  }

  /** Generation is the time from the first to the last text, or none without text. */
  lemma GenerationIsTextSpan(start: real, stream: seq<Timed>, end: real)
    requires Monotone(start, stream, end)
    ensures var s := StagesOf(Record(start, stream), end);
      (s.generationMs.None? && forall i :: !Counts(stream, i, Text)) ||
      (exists first, last :: IsFirst(stream, Text, Some(first)) && IsLast(stream, Text, Some(last)) &&
                             s.generationMs == Some((last - first) * 1000.0))
  {
    var m := Record(start, stream);
    MarksAreFirstAndLast(start, stream, Text);
    FirstBeforeLast(start, stream, end, Text, m.firstText, m.lastText);
    if m.firstText.Some? {
      var first, last := m.firstText.value, m.lastText.value;
      assert IsFirst(stream, Text, Some(first)) && IsLast(stream, Text, Some(last));
    }
  }

  /** One way of matching results to calls: pairs of a call's time and a result's. */
  datatype Pair = Pair(called: real, answered: real)

  function CalledTimes(pairs: seq<Pair>): seq<real> {
    seq(|pairs|, i requires 0 <= i < |pairs| => pairs[i].called)
  }

  function AnsweredTimes(pairs: seq<Pair>): seq<real> {
    seq(|pairs|, i requires 0 <= i < |pairs| => pairs[i].answered)
  }

  function SumLatencies(pairs: seq<Pair>): real {
    if pairs == [] then 0.0
    else SumLatencies(pairs[..|pairs| - 1]) + (pairs[|pairs| - 1].answered - pairs[|pairs| - 1].called) * 1000.0
  }

  lemma {:induction false} LatenciesAreSums(pairs: seq<Pair>)
    ensures SumLatencies(pairs) == (Sum(AnsweredTimes(pairs)) - Sum(CalledTimes(pairs))) * 1000.0
  {
    if pairs != [] {
      var n := |pairs| - 1;
      LatenciesAreSums(pairs[..n]);
      assert AnsweredTimes(pairs)[..n] == AnsweredTimes(pairs[..n]);
      assert CalledTimes(pairs)[..n] == CalledTimes(pairs[..n]);
    }
  }

  lemma {:induction false} SumRemove(s: seq<real>, i: nat)
    requires i < |s|
    ensures Sum(s) == Sum(s[..i] + s[i + 1..]) + s[i]
    decreases |s|
  {
    var n := |s| - 1;
    if i == n {
      assert s[..i] + s[i + 1..] == s[..n];
    } else {
      SumRemove(s[..n], i);
      var rest := s[..i] + s[i + 1..];
      assert rest[..|rest| - 1] == s[..n][..i] + s[..n][i + 1..];
      assert rest[|rest| - 1] == s[n];
    }
  }

  lemma MultisetRemove(s: seq<real>, i: nat)
    requires i < |s|
    ensures multiset(s[..i] + s[i + 1..]) == multiset(s) - multiset{s[i]}
  {
    assert s == s[..i] + [s[i]] + s[i + 1..];
  }

  lemma MultisetFront(s: seq<real>)
    requires s != []
    ensures multiset(s[..|s| - 1]) == multiset(s) - multiset{s[|s| - 1]} && s[|s| - 1] in multiset(s)
  {
    assert s == s[..|s| - 1] + [s[|s| - 1]];
  }

  /** A sum does not depend on the order. */
  lemma {:induction false} SumOfMultiset(s: seq<real>, t: seq<real>)
    requires multiset(s) == multiset(t)
    ensures Sum(s) == Sum(t)
    decreases |s|
  {
    assert |s| == |multiset(s)| == |multiset(t)| == |t|;
    if s != [] {
      MultisetFront(s);
      var last := s[|s| - 1];
      var i :| 0 <= i < |t| && t[i] == last;
      MultisetRemove(t, i);
      SumRemove(t, i);
      SumOfMultiset(s[..|s| - 1], t[..i] + t[i + 1..]);
    }
  }

  /** Once no call is outstanding, the summed tool latency is the same for every other way of matching the
      same results to the same calls. */
  lemma PairingDoesNotMatter(start: real, stream: seq<Timed>, end: real, pairs: seq<Pair>)
    requires Monotone(start, stream, end) && Record(start, stream).queue == []
    requires multiset(CalledTimes(pairs)) == multiset(StartTimes(Calls(stream)))
    requires multiset(AnsweredTimes(pairs)) == multiset(Answers(stream))
    ensures SumLatencies(pairs) == Record(start, stream).toolCallMs
  {
    ToolCallsAreFifo(start, stream, end);
    var calls, answers := Calls(stream), Answers(stream);
    assert calls[..|answers|] == calls;
    LatenciesAreSums(pairs);
    SumOfMultiset(CalledTimes(pairs), StartTimes(calls));
    SumOfMultiset(AnsweredTimes(pairs), answers);
  }
}
