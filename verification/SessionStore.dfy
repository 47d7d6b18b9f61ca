/** agent/session.py and agent/session_store.py: the session in Redis and its projection in PostgreSQL. */
module SessionStore {
  import opened Prelude

  datatype Message = Message(id: string, role: string, content: string, metadata: string, timestamp: int)

  /** A row of the message table; its primary key is the message id. */
  datatype Row = Row(sessionId: string, role: string, content: string, metadata: string, timestamp: int, index: nat)

  type Table = map<string, Row>

  function RowOf(sid: string, m: Message, index: nat): Row {
    Row(sid, if m.role == "" then "unknown" else m.role, m.content, m.metadata, m.timestamp, index)
  }

  // ------------------------------------------------------------------ the write path

  /** INSERT ... ON CONFLICT (id) DO NOTHING, one row. */
  function InsertOne(t: Table, id: string, row: Row): Table {
    if id in t then t else t[id := row]
  }

  /** The table after the messages lo..hi have been inserted; messages without an id are skipped. */
  function Project(t: Table, sid: string, msgs: seq<Message>, lo: nat, hi: nat): Table
    requires hi <= |msgs|
  {
    if hi <= lo then t
    else
      var before := Project(t, sid, msgs, lo, hi - 1);
      if msgs[hi - 1].id == "" then before else InsertOne(before, msgs[hi - 1].id, RowOf(sid, msgs[hi - 1], hi - 1))
  }

  /** Where the window of the last limit messages starts. */
  function WindowStart(total: nat, limit: nat): nat {
    if total < limit then 0 else total - limit
  }

  /** The rows one batch insert carries. */
  function Batch(sid: string, msgs: seq<Message>, lo: nat, hi: nat): seq<(string, Row)>
    requires hi <= |msgs|
  {
    if hi <= lo then []
    else
      var before := Batch(sid, msgs, lo, hi - 1);
      if msgs[hi - 1].id == "" then before else before + [(msgs[hi - 1].id, RowOf(sid, msgs[hi - 1], hi - 1))]
  }

  function InsertAll(t: Table, rows: seq<(string, Row)>): Table {
    if rows == [] then t
    else InsertOne(InsertAll(t, rows[..|rows| - 1]), rows[|rows| - 1].0, rows[|rows| - 1].1)
  }

  lemma {:induction false} BatchInserts(t: Table, sid: string, msgs: seq<Message>, lo: nat, hi: nat)
    requires hi <= |msgs|
    ensures InsertAll(t, Batch(sid, msgs, lo, hi)) == Project(t, sid, msgs, lo, hi)
  {
    if lo < hi {
      BatchInserts(t, sid, msgs, lo, hi - 1);
      var before := Batch(sid, msgs, lo, hi - 1);
      var all := Batch(sid, msgs, lo, hi);
      if msgs[hi - 1].id != "" {
        assert all[..|all| - 1] == before;
      }
    }
  }

  class SessionPgStore {
    var rows: Table
    const limit: nat

    constructor (limit: nat)
      ensures rows == map[] && this.limit == limit
    {
      rows := map[];
      this.limit := limit;
    }

    /** One multi-row INSERT ... ON CONFLICT DO NOTHING. */
    method Execute(batch: seq<(string, Row)>)
      modifies this
      ensures rows == InsertAll(old(rows), batch)
    {
      var i := 0;
      while i < |batch|
        invariant 0 <= i <= |batch|
        invariant rows == InsertAll(old(rows), batch[..i])
      {
        assert batch[..i + 1][..i] == batch[..i];
        if batch[i].0 !in rows {
          rows := rows[batch[i].0 := batch[i].1];
        }
        i := i + 1;
      }
      assert batch[..i] == batch;
    }

    method InsertMessages(sid: string, msgs: seq<Message>)
      modifies this
      ensures rows == Project(old(rows), sid, msgs, WindowStart(|msgs|, limit), |msgs|)
    {
      if msgs == [] {
        return;
      }
      var start := if |msgs| < limit then 0 else |msgs| - limit;
      var batch: seq<(string, Row)> := [];
      var index := start;
      while index < |msgs|
        invariant start <= index <= |msgs|
        invariant batch == Batch(sid, msgs, start, index)
      {
        if msgs[index].id != "" {
          batch := batch + [(msgs[index].id, RowOf(sid, msgs[index], index))];
        }
        index := index + 1;
      }
      BatchInserts(rows, sid, msgs, start, |msgs|);
      if batch != [] {
        Execute(batch);
      }
    }
  }

  /** What the two stores hold at one moment. */
  datatype Stores = Stores(hot: map<string, seq<Message>>, rows: Table)

  /** The other workers: what they make of the stores while a coroutine awaits. Where the table has no entry
      nothing happens. */
  type Others = map<Stores, Stores>

  function Found(others: Others, left: Stores): Stores {
    if left in others then others[left] else left
  }

  /** The hot store: whole sessions by id, written through to the projection. */
  class SessionManager {
    var hot: map<string, seq<Message>>
    const pg: SessionPgStore

    constructor (pg: SessionPgStore)
      ensures this.pg == pg && hot == map[]
    {
      this.pg := pg;
      hot := map[];
    }

    method GetSession(sid: string) returns (msgs: Option<seq<Message>>)
      ensures msgs == if sid in hot then Some(hot[sid]) else None
    {
      msgs := if sid in hot then Some(hot[sid]) else None;
    }

    /** Redis first, then the projection, whose transaction commits or rolls back as a whole. */
    method SaveSession(sid: string, msgs: seq<Message>, pgUp: bool)
      modifies this, pg
      ensures hot == old(hot)[sid := msgs]
      ensures pg.rows == if pgUp then Project(old(pg.rows), sid, msgs, WindowStart(|msgs|, pg.limit), |msgs|)
                         else old(pg.rows)
    {
      hot := hot[sid := msgs];
      if pgUp {
        pg.InsertMessages(sid, msgs);
      }
    }

    function Here(): Stores
      reads this, pg
    {
      Stores(hot, pg.rows)
    }

    /** The await between reading a session and writing it back. */
    method Await(others: Others)
      modifies this, pg
      ensures Here() == Found(others, old(Here()))
    {
      var found := Found(others, Here());
      hot, pg.rows := found.hot, found.rows;
    }

    /** Read the whole session, append, write the whole session, over whatever the others have made of it in the
        meantime; false when there is no such session. */
    method AddMessage(sid: string, m: Message, pgUp: bool, others: Others) returns (found: bool)
      modifies this, pg
      ensures found == (sid in old(hot))
      ensures !found ==> Here() == old(Here())
      ensures found ==> hot == Found(others, old(Here())).hot[sid := old(hot)[sid] + [m]]
      ensures found ==>
        (Mirror(hot[sid], pg.rows)
         == Apply(pg.limit, sid,
                  Apply(pg.limit, sid, Mirror(old(hot)[sid], Found(others, old(Here())).rows), Append(m)), Save(pgUp)))
    {
      var msgs := GetSession(sid);
      found := msgs.Some?;
      if found {
        Await(others);
        SaveSession(sid, msgs.value + [m], pgUp);
      }
    }
  }

  // ------------------------------------------------------------------ the self-healing projection

  /** One session: its messages in Redis and the message table in PostgreSQL. */
  datatype Mirror = Mirror(messages: seq<Message>, rows: Table)

  datatype Op = Append(m: Message) | Save(pgUp: bool)

  function Apply(limit: nat, sid: string, s: Mirror, op: Op): Mirror {
    match op
    case Append(m) => s.(messages := s.messages + [m])
    case Save(pgUp) =>
      if pgUp then s.(rows := Project(s.rows, sid, s.messages, WindowStart(|s.messages|, limit), |s.messages|)) else s
  }

  /** The session after a sequence of appends and saves, over a table that held other rows before. */
  function After(limit: nat, sid: string, initial: Table, ops: seq<Op>): Mirror {
    if ops == [] then Mirror([], initial)
    else Apply(limit, sid, After(limit, sid, initial, ops[..|ops| - 1]), ops[|ops| - 1])
  }

  /** How many messages there were at each successful save. */
  function Successes(ops: seq<Op>): seq<nat> {
    if ops == [] then []
    else
      var before := Successes(ops[..|ops| - 1]);
      if ops[|ops| - 1] == Save(true) then before + [Appended(ops)] else before
  }

  function Appended(ops: seq<Op>): nat {
    if ops == [] then 0 else Appended(ops[..|ops| - 1]) + if ops[|ops| - 1].Append? then 1 else 0
  }

  /** The ids are usable as primary keys: none empty, none repeated, none taken by another row. */
  ghost predicate ProperIds(msgs: seq<Message>, initial: Table) {
    && (forall i :: 0 <= i < |msgs| ==> msgs[i].id != "" && msgs[i].id !in initial)
    && (forall i, j :: 0 <= i < j < |msgs| ==> msgs[i].id != msgs[j].id)
  }

  /** Some successful save had message i in its window. */
  ghost predicate Covered(counts: seq<nat>, limit: nat, i: nat) {
    exists k :: 0 <= k < |counts| && counts[k] - limit <= i < counts[k]
  }

  /** Message i is in the table exactly if covered, with its own content and index. */
  ghost predicate Mirrored(sid: string, s: Mirror, initial: Table, counts: seq<nat>, limit: nat) {
    && (forall i :: 0 <= i < |s.messages| ==> (s.messages[i].id in s.rows <==> Covered(counts, limit, i)))
    && (forall i :: 0 <= i < |s.messages| && s.messages[i].id in s.rows ==>
          s.rows[s.messages[i].id] == RowOf(sid, s.messages[i], i))
    && (forall id :: id in s.rows ==> id in initial || exists i :: 0 <= i < |s.messages| && s.messages[i].id == id)
    && (forall id :: id in initial ==> id in s.rows && s.rows[id] == initial[id])
  }

  /** Message i is the first of its id among lo..hi, and has an id. */
  ghost predicate FirstOfId(msgs: seq<Message>, lo: nat, hi: nat, i: int) {
    lo <= i < hi <= |msgs| && msgs[i].id != "" && forall j :: lo <= j < i ==> msgs[j].id != msgs[i].id
  }

  /** Whatever the ids, repeated, missing or taken: a row that is there stays as it is; a message whose id is new is
      stored with its own content and index, the first where an id repeats; one without an id is left out. */
  lemma {:induction false} ProjectIsFirstWins(t: Table, sid: string, msgs: seq<Message>, lo: nat, hi: nat, id: string)
    requires hi <= |msgs|
    ensures var t' := Project(t, sid, msgs, lo, hi);
      && (id in t ==> id in t' && t'[id] == t[id])
      && (id !in t && id in t' ==>
            exists i :: FirstOfId(msgs, lo, hi, i) && msgs[i].id == id &&
                        t'[id] == Row(sid, if msgs[i].role == "" then "unknown" else msgs[i].role, msgs[i].content,
                                      msgs[i].metadata, msgs[i].timestamp, i))
      && (forall i :: lo <= i < hi && msgs[i].id == id && id != "" ==> id in t')
  {
    if lo < hi {
      ProjectIsFirstWins(t, sid, msgs, lo, hi - 1, id);
      if id !in t {
        ProjectStep(t, sid, msgs, lo, hi, id);
      }
    }
  }

  lemma ProjectStep(t: Table, sid: string, msgs: seq<Message>, lo: nat, hi: nat, id: string)
    requires lo < hi <= |msgs| && id !in t
    requires var before := Project(t, sid, msgs, lo, hi - 1);
      && (id in before ==>
            exists i :: FirstOfId(msgs, lo, hi - 1, i) && msgs[i].id == id && before[id] == RowOf(sid, msgs[i], i))
      && (forall i :: lo <= i < hi - 1 && msgs[i].id == id && id != "" ==> id in before)
    ensures var t' := Project(t, sid, msgs, lo, hi);
      id in t' ==> exists i :: FirstOfId(msgs, lo, hi, i) && msgs[i].id == id && t'[id] == RowOf(sid, msgs[i], i)
  {
    var before, t' := Project(t, sid, msgs, lo, hi - 1), Project(t, sid, msgs, lo, hi);
    if id in before {
      var i :| FirstOfId(msgs, lo, hi - 1, i) && msgs[i].id == id && before[id] == RowOf(sid, msgs[i], i);
      assert FirstOfId(msgs, lo, hi, i);
    } else if id in t' {
      assert FirstOfId(msgs, lo, hi, hi - 1);
    }
  }

  lemma {:induction false} ProjectHas(t: Table, sid: string, msgs: seq<Message>, lo: nat, hi: nat, id: string)
    requires hi <= |msgs| && forall i :: 0 <= i < |msgs| ==> msgs[i].id != ""
    ensures var t' := Project(t, sid, msgs, lo, hi);
      (id in t' <==> id in t || exists i :: lo <= i < hi && msgs[i].id == id) && (id in t ==> t'[id] == t[id])
  {
    if lo < hi {
      ProjectHas(t, sid, msgs, lo, hi - 1, id);
    }
  }

  lemma {:induction false} ProjectNew(t: Table, sid: string, msgs: seq<Message>, lo: nat, hi: nat, initial: Table,
                                      i: nat)
    requires hi <= |msgs| && ProperIds(msgs, initial) && lo <= i < hi && msgs[i].id !in t
    ensures msgs[i].id in Project(t, sid, msgs, lo, hi)
    ensures Project(t, sid, msgs, lo, hi)[msgs[i].id] == RowOf(sid, msgs[i], i)
  {
    if i < hi - 1 {
      ProjectNew(t, sid, msgs, lo, hi - 1, initial, i);
    } else {
      ProjectHas(t, sid, msgs, lo, hi - 1, msgs[i].id);
    }
  }

  /** What a batch does to a table none of whose rows clash with it. */
  lemma {:induction false} ProjectAdds(t: Table, sid: string, msgs: seq<Message>, lo: nat, hi: nat, initial: Table)
    requires hi <= |msgs| && ProperIds(msgs, initial)
    ensures var t' := Project(t, sid, msgs, lo, hi);
      && (forall id :: id in t' <==> id in t || exists i :: lo <= i < hi && msgs[i].id == id)
      && (forall id :: id in t ==> t'[id] == t[id])
      && (forall i :: lo <= i < hi && msgs[i].id !in t ==> t'[msgs[i].id] == RowOf(sid, msgs[i], i))
  {
    var t' := Project(t, sid, msgs, lo, hi);
    forall id
      ensures (id in t' <==> id in t || exists i :: lo <= i < hi && msgs[i].id == id) && (id in t ==> t'[id] == t[id])
    {
      ProjectHas(t, sid, msgs, lo, hi, id);
    }
    forall i | lo <= i < hi && msgs[i].id !in t
      ensures t'[msgs[i].id] == RowOf(sid, msgs[i], i)
    {
      ProjectNew(t, sid, msgs, lo, hi, initial, i);
    }
  }

  lemma {:induction false} CountsBounded(limit: nat, sid: string, initial: Table, ops: seq<Op>)
    ensures |After(limit, sid, initial, ops).messages| == Appended(ops)
    ensures forall k :: 0 <= k < |Successes(ops)| ==> Successes(ops)[k] <= Appended(ops)
    ensures forall j, k :: 0 <= j < k < |Successes(ops)| ==> Successes(ops)[j] <= Successes(ops)[k]
  {
    if ops != [] {
      CountsBounded(limit, sid, initial, ops[..|ops| - 1]);
    }
  }

  lemma CoveredExtends(counts: seq<nat>, n: nat, limit: nat, i: nat)
    ensures Covered(counts + [n], limit, i) <==> Covered(counts, limit, i) || n - limit <= i < n
  {
    var more := counts + [n];
    assert more[|counts|] == n;
    if Covered(counts, limit, i) {
      var k :| 0 <= k < |counts| && counts[k] - limit <= i < counts[k];
      assert more[k] == counts[k];
    }
  }

  lemma SaveKeepsMirrored(sid: string, s: Mirror, initial: Table, counts: seq<nat>, limit: nat)
    requires ProperIds(s.messages, initial) && Mirrored(sid, s, initial, counts, limit)
    ensures Mirrored(sid, Apply(limit, sid, s, Save(true)), initial, counts + [|s.messages|], limit)
  {
    var n := |s.messages|;
    ProjectAdds(s.rows, sid, s.messages, WindowStart(n, limit), n, initial);
    forall i: nat | i < n
      ensures Covered(counts + [n], limit, i) <==> Covered(counts, limit, i) || n - limit <= i
    {
      CoveredExtends(counts, n, limit, i);
    }
  }

  lemma AppendKeepsMirrored(sid: string, s: Mirror, m: Message, initial: Table, counts: seq<nat>, limit: nat)
    requires ProperIds(s.messages + [m], initial) && Mirrored(sid, s, initial, counts, limit)
    requires forall k :: 0 <= k < |counts| ==> counts[k] <= |s.messages|
    ensures Mirrored(sid, Apply(limit, sid, s, Append(m)), initial, counts, limit)
  {
    var after := s.messages + [m];
    assert forall i :: 0 <= i < |s.messages| ==> after[i] == s.messages[i];
    assert after[|s.messages|] == m;
    assert m.id !in s.rows;
  }

  lemma FrontIsProper(limit: nat, sid: string, s: Mirror, op: Op, initial: Table)
    requires ProperIds(Apply(limit, sid, s, op).messages, initial)
    ensures ProperIds(s.messages, initial)
  {
    assert s.messages <= Apply(limit, sid, s, op).messages;
  }

  lemma OpKeepsMirrored(limit: nat, sid: string, s: Mirror, op: Op, initial: Table, counts: seq<nat>)
    requires ProperIds(Apply(limit, sid, s, op).messages, initial) && Mirrored(sid, s, initial, counts, limit)
    requires forall k :: 0 <= k < |counts| ==> counts[k] <= |s.messages|
    ensures Mirrored(sid, Apply(limit, sid, s, op), initial,
                     if op == Save(true) then counts + [|s.messages|] else counts, limit)
  {
    match op
    case Append(m) => AppendKeepsMirrored(sid, s, m, initial, counts, limit);
    case Save(pgUp) =>
      if pgUp {
        SaveKeepsMirrored(sid, s, initial, counts, limit);
      }
  }

  lemma NothingMirrored(limit: nat, sid: string, initial: Table)
    ensures Mirrored(sid, Mirror([], initial), initial, [], limit)
  {
  }

  /** Whatever the appends, saves and failed writes: the table holds exactly the messages that some
      successful save had in its window, each unchanged, and no other row of the table is touched. */
  lemma {:induction false} ProjectionIsExact(limit: nat, sid: string, initial: Table, ops: seq<Op>)
    requires ProperIds(After(limit, sid, initial, ops).messages, initial)
    ensures Mirrored(sid, After(limit, sid, initial, ops), initial, Successes(ops), limit)
  {
    if ops == [] {
      NothingMirrored(limit, sid, initial);
    } else {
      var before, op := ops[..|ops| - 1], ops[|ops| - 1];
      var s := After(limit, sid, initial, before);
      FrontIsProper(limit, sid, s, op, initial);
      ProjectionIsExact(limit, sid, initial, before);
      CountsBounded(limit, sid, initial, before);
      OpKeepsMirrored(limit, sid, s, op, initial, Successes(before));
      assert After(limit, sid, initial, ops) == Apply(limit, sid, s, op);
    }
  }

  /** The count at the success before the k-th, or zero. */
  function Previous(counts: seq<nat>, k: nat): nat
    requires k < |counts|
  {
    if k == 0 then 0 else counts[k - 1]
  }

  /** No two successive successes (counting from an empty session) have more than limit messages between them. */
  ghost predicate NoGap(counts: seq<nat>, limit: nat) {
    forall k :: 0 <= k < |counts| ==> counts[k] <= Previous(counts, k) + limit
  }

  ghost predicate Complete(s: Mirror) {
    forall i :: 0 <= i < |s.messages| ==> s.messages[i].id in s.rows
  }

  /** Without a gap, every index below a count is in some window up to it. */
  lemma {:induction false} NoGapCovers(counts: seq<nat>, limit: nat, k: nat, i: nat)
    requires k < |counts| && i < counts[k] && NoGap(counts, limit)
    ensures Covered(counts, limit, i)
  {
    if k > 0 && i < counts[k - 1] {
      NoGapCovers(counts, limit, k - 1, i);
    } else {
      assert counts[k] <= Previous(counts, k) + limit;
    }
  }

  lemma GapUncovered(counts: seq<nat>, limit: nat, k: nat)
    requires k < |counts| && counts[k] > Previous(counts, k) + limit
    requires forall i, j :: 0 <= i < j < |counts| ==> counts[i] <= counts[j]
    ensures !Covered(counts, limit, Previous(counts, k))
  {
  }

  /** Right after a successful save, the projection is complete if and only if no more than limit messages
      were ever appended between two successive successful saves. */
  lemma CompleteIffNoGap(limit: nat, sid: string, initial: Table, ops: seq<Op>)
    requires ProperIds(After(limit, sid, initial, ops).messages, initial)
    requires ops != [] && ops[|ops| - 1] == Save(true)
    ensures Complete(After(limit, sid, initial, ops)) <==> NoGap(Successes(ops), limit)
  {
    var s := After(limit, sid, initial, ops);
    var counts := Successes(ops);
    ProjectionIsExact(limit, sid, initial, ops);
    CountsBounded(limit, sid, initial, ops);
    assert counts[|counts| - 1] == |s.messages|;
    if NoGap(counts, limit) {
      forall i: nat | i < |s.messages|
        ensures s.messages[i].id in s.rows
      {
        NoGapCovers(counts, limit, |counts| - 1, i);
      }
    } else {
      var k :| 0 <= k < |counts| && counts[k] > Previous(counts, k) + limit;
      GapUncovered(counts, limit, k);
      var i := Previous(counts, k);
      assert s.messages[i].id !in s.rows;
    }
  }

  // ------------------------------------------------------------------ the two read paths

  /** A message as the front end sees it. */
  datatype Wire = Wire(id: string, sessionId: string, role: string, content: string, timestamp: int, metadata: string)

  function WireOfRow(id: string, row: Row): Wire {
    Wire(id, row.sessionId, row.role, row.content, row.timestamp, row.metadata)
  }

  function WireOfMessage(sid: string, m: Message): Wire {
    Wire(m.id, sid, m.role, m.content, m.timestamp, m.metadata)
  }

  predicate OrderedRows(a: Row, b: Row) {
    a.timestamp < b.timestamp || (a.timestamp == b.timestamp && a.index <= b.index)
  }

  /** A result of SELECT ... WHERE session_id = sid ORDER BY timestamp, seq: the ids in order. */
  ghost predicate Listing(t: Table, sid: string, ids: seq<string>) {
    && (forall i :: 0 <= i < |ids| ==> ids[i] in t && t[ids[i]].sessionId == sid)
    && (forall id :: id in t && t[id].sessionId == sid ==> id in ids)
    && (forall i, j :: 0 <= i < j < |ids| ==> ids[i] != ids[j] && OrderedRows(t[ids[i]], t[ids[j]]))
  }

  /** A strictly increasing sequence that holds exactly the numbers below n is 0, 1, ..., n - 1. */
  lemma {:induction false} CountsUp(q: seq<nat>, n: nat)
    requires forall i, j :: 0 <= i < j < |q| ==> q[i] < q[j]
    requires forall x :: x in q <==> 0 <= x < n
    ensures |q| == n && forall i :: 0 <= i < n ==> q[i] == i
  {
    assert q == [] || q[0] in q;
    if n > 0 {
      var last := |q| - 1;
      assert n - 1 in q;
      assert q[last] in q;
      var front := q[..last];
      forall x: nat
        ensures x in front <==> 0 <= x < n - 1
      {
        if x in q && x != q[last] {
          assert x in front;
        }
      }
      CountsUp(front, n - 1);
      assert forall i :: 0 <= i < last ==> q[i] == front[i];
    }
  }

  ghost predicate Timeordered(msgs: seq<Message>) {
    forall i, j :: 0 <= i < j < |msgs| ==> msgs[i].timestamp <= msgs[j].timestamp
  }

  /** A complete projection, and no row of this session that is not one of its messages. */
  ghost predicate FullyProjected(sid: string, s: Mirror) {
    && ProperIds(s.messages, map[]) && Complete(s)
    && (forall i :: 0 <= i < |s.messages| && s.messages[i].id in s.rows ==>
          s.rows[s.messages[i].id] == RowOf(sid, s.messages[i], i))
    && (forall id :: id in s.rows && s.rows[id].sessionId == sid ==>
          exists i :: 0 <= i < |s.messages| && s.messages[i].id == id)
  }

  /** Over a table without earlier rows of this session, every complete run is fully projected. */
  lemma RunFullyProjected(limit: nat, sid: string, initial: Table, ops: seq<Op>)
    requires ProperIds(After(limit, sid, initial, ops).messages, initial)
    requires forall id :: id in initial ==> initial[id].sessionId != sid
    requires Complete(After(limit, sid, initial, ops))
    ensures FullyProjected(sid, After(limit, sid, initial, ops))
  {
    ProjectionIsExact(limit, sid, initial, ops);
  }

  function Indexes(t: Table, ids: seq<string>): seq<nat>
    requires forall i :: 0 <= i < |ids| ==> ids[i] in t
  {
    seq(|ids|, i requires 0 <= i < |ids| => t[ids[i]].index)
  }

  // Each row listed is a message, at the message's own index.
  lemma ListedIsMessage(sid: string, s: Mirror, ids: seq<string>, i: nat)
    requires FullyProjected(sid, s) && Listing(s.rows, sid, ids) && i < |ids|
    ensures var x := s.rows[ids[i]].index; x < |s.messages| && s.messages[x].id == ids[i]
    ensures s.rows[ids[i]].timestamp == s.messages[s.rows[ids[i]].index].timestamp
  {
    assert ids[i] in s.rows;
    var x: nat :| x < |s.messages| && s.messages[x].id == ids[i];
    assert s.rows[ids[i]] == RowOf(sid, s.messages[x], x);
  }

  lemma IndexesRise(sid: string, s: Mirror, ids: seq<string>, i: nat, j: nat)
    requires FullyProjected(sid, s) && Timeordered(s.messages) && Listing(s.rows, sid, ids) && i < j < |ids|
    ensures s.rows[ids[i]].index < s.rows[ids[j]].index
  {
    ListedIsMessage(sid, s, ids, i);
    ListedIsMessage(sid, s, ids, j);
    assert OrderedRows(s.rows[ids[i]], s.rows[ids[j]]);
  }

  /** ORDER BY timestamp, seq has only one answer: the messages in their own order. */
  lemma {:induction false} ListingIsMessages(sid: string, s: Mirror, ids: seq<string>)
    requires FullyProjected(sid, s) && Timeordered(s.messages) && Listing(s.rows, sid, ids)
    ensures |ids| == |s.messages| && forall i :: 0 <= i < |ids| ==> ids[i] == s.messages[i].id
  {
    var q := Indexes(s.rows, ids);
    forall i: nat, j: nat | i < j < |q|
      ensures q[i] < q[j]
    {
      IndexesRise(sid, s, ids, i, j);
    }
    forall i: nat | i < |ids|
      ensures q[i] < |s.messages| && s.messages[q[i]].id == ids[i]
    {
      ListedIsMessage(sid, s, ids, i);
    }
    forall x: nat
      ensures x in q <==> 0 <= x < |s.messages|
    {
      if x < |s.messages| {
        MessageIsListed(sid, s, ids, x);
      }
    }
    CountsUp(q, |s.messages|);
  }

  lemma MessageIsListed(sid: string, s: Mirror, ids: seq<string>, x: nat)
    requires FullyProjected(sid, s) && Listing(s.rows, sid, ids) && x < |s.messages|
    ensures x in Indexes(s.rows, ids)
  {
    assert s.messages[x].id in ids;
    var i :| 0 <= i < |ids| && ids[i] == s.messages[x].id;
    assert Indexes(s.rows, ids)[i] == x;
  }

  /** max(page - 1, 0) * size. */
  function PageStart(page: int, size: nat): nat {
    if page < 1 then 0 else MulNat(page - 1, size)
  }

  /** OFFSET start LIMIT size, and the Python slice [start : start + size]. */
  function Window<T>(all: seq<T>, start: nat, size: nat): seq<T> {
    if |all| <= start then [] else if |all| <= start + size then all[start..] else all[start..start + size]
  }

  function PageOf<T>(all: seq<T>, page: int, size: nat): seq<T> {
    Window(all, PageStart(page, size), size)
  }

  lemma PageAt<T>(all: seq<T>, page: int, size: nat)
    ensures |PageOf(all, page, size)| ==
      if |all| <= PageStart(page, size) then 0 else Least(size, |all| - PageStart(page, size))
    ensures forall k :: 0 <= k < |PageOf(all, page, size)| ==>
              PageOf(all, page, size)[k] == all[PageStart(page, size) + k]
  {
  }

  function Least(a: nat, b: nat): nat {
    if a < b then a else b
  }

  function MulNat(a: nat, b: nat): nat {
    a * b
  }

  /** The rows of the listing, as the front end sees them. */
  function Cold(t: Table, ids: seq<string>): seq<Wire>
    requires forall i :: 0 <= i < |ids| ==> ids[i] in t
  {
    seq(|ids|, i requires 0 <= i < |ids| => WireOfRow(ids[i], t[ids[i]]))
  }

  /** The messages in Redis, as the front end sees them. */
  function Hot(sid: string, msgs: seq<Message>): seq<Wire> {
    seq(|msgs|, i requires 0 <= i < |msgs| => WireOfMessage(sid, msgs[i]))
  }

  datatype MessagePage = MessagePage(items: seq<Wire>, total: nat, page: int, pageSize: nat)

  /** list_session_messages: PostgreSQL unless it raises (none) or has no row of the session, Redis otherwise, where
      a session that has expired has no messages. */
  function ListMessages(sid: string, s: Mirror, pg: Option<seq<string>>, page: int, size: nat): MessagePage
    requires pg.Some? ==> forall i :: 0 <= i < |pg.value| ==> pg.value[i] in s.rows
  {
    if pg.Some? && |pg.value| > 0 then MessagePage(PageOf(Cold(s.rows, pg.value), page, size), |pg.value|, page, size)
    else MessagePage(PageOf(Hot(sid, s.messages), page, size), |s.messages|, page, size)
  }

  /** How many of total items a page has that starts at start. */
  predicate PageHas(count: nat, start: nat, size: nat, total: nat) {
    count <= size && (start < total ==> count == size || start + count == total) && (total <= start ==> count == 0)
  }

  function Skipped(page: int): nat {
    if page < 1 then 0 else page - 1
  }

  lemma PageParts<T>(all: seq<T>, page: int, size: nat)
    ensures var start := MulNat(Skipped(page), size);
      && PageHas(|PageOf(all, page, size)|, start, size, |all|)
      && forall k | 0 <= k < |PageOf(all, page, size)| ::
           start + k < |all| && PageOf(all, page, size)[k] == all[start + k]
  {
    PageAt(all, page, size);
  }

  predicate ShowsRow(item: Wire, sid: string, id: string, row: Row) {
    && item.id == id && item.sessionId == sid && item.role == row.role && item.content == row.content
    && item.metadata == row.metadata && item.timestamp == row.timestamp
  }

  predicate ShowsMessage(item: Wire, sid: string, m: Message) {
    && item.id == m.id && item.sessionId == sid && item.role == m.role && item.content == m.content
    && item.metadata == m.metadata && item.timestamp == m.timestamp
  }

  lemma ColdShowsRows(t: Table, sid: string, ids: seq<string>)
    requires Listing(t, sid, ids)
    ensures |Cold(t, ids)| == |ids| && forall i | 0 <= i < |ids| :: ShowsRow(Cold(t, ids)[i], sid, ids[i], t[ids[i]])
  {
  }

  lemma HotShowsMessages(sid: string, msgs: seq<Message>)
    ensures |Hot(sid, msgs)| == |msgs| && forall i | 0 <= i < |msgs| :: ShowsMessage(Hot(sid, msgs)[i], sid, msgs[i])
  {
  }

  /** Whatever Redis holds, and whether or not the projection is complete: if PostgreSQL answers with any row, the
      page is of its rows, each as it is stored there. */
  lemma PageShowsRows(sid: string, s: Mirror, ids: seq<string>, page: int, size: nat)
    requires Listing(s.rows, sid, ids) && ids != []
    ensures var r, start := ListMessages(sid, s, Some(ids), page, size), MulNat(Skipped(page), size);
      && r.total == |ids| && r.page == page && r.pageSize == size && PageHas(|r.items|, start, size, |ids|)
      && forall k | 0 <= k < |r.items| ::
           start + k < |ids| && ShowsRow(r.items[k], sid, ids[start + k], s.rows[ids[start + k]])
  {
    ColdShowsRows(s.rows, sid, ids);
    PageParts(Cold(s.rows, ids), page, size);
  }

  /** Whatever PostgreSQL holds: if it raises or has no row, the page is of the messages in Redis. */
  lemma PageShowsMessages(sid: string, s: Mirror, pg: Option<seq<string>>, page: int, size: nat)
    requires pg.None? || pg == Some([])
    ensures var r, start := ListMessages(sid, s, pg, page, size), MulNat(Skipped(page), size);
      && r.total == |s.messages| && r.page == page && r.pageSize == size
      && PageHas(|r.items|, start, size, |s.messages|)
      && forall k | 0 <= k < |r.items| ::
           start + k < |s.messages| && ShowsMessage(r.items[k], sid, s.messages[start + k])
  {
    HotShowsMessages(sid, s.messages);
    PageParts(Hot(sid, s.messages), page, size);
  }

  ghost predicate RolesSet(msgs: seq<Message>) {
    forall i :: 0 <= i < |msgs| ==> msgs[i].role != ""
  }

  /** The i-th row listed shows the i-th message, but for an empty role. */
  lemma {:induction false} ColdShowsHot(sid: string, s: Mirror, ids: seq<string>)
    requires FullyProjected(sid, s) && Timeordered(s.messages) && Listing(s.rows, sid, ids)
    ensures |Cold(s.rows, ids)| == |Hot(sid, s.messages)| == |s.messages|
    ensures forall i | 0 <= i < |s.messages| ::
      var role := if s.messages[i].role == "" then "unknown" else s.messages[i].role;
      Cold(s.rows, ids)[i] == Hot(sid, s.messages)[i].(role := role)
  {
    ListingIsMessages(sid, s, ids);
  }

  /** Whether PostgreSQL answers or not, a page holds the same messages. */
  lemma ReadPathsAgree(sid: string, s: Mirror, ids: seq<string>, page: int, size: nat)
    requires FullyProjected(sid, s) && Timeordered(s.messages) && Listing(s.rows, sid, ids) && RolesSet(s.messages)
    ensures ListMessages(sid, s, Some(ids), page, size) == ListMessages(sid, s, None, page, size)
  {
    ColdShowsHot(sid, s, ids);
    assert Cold(s.rows, ids) == Hot(sid, s.messages);
  }

  /** A difference at index i shows on the page that index i is on. */
  lemma DifferenceShows<T>(all: seq<T>, other: seq<T>, size: nat, i: nat) returns (page: int)
    requires i < |all| == |other| && 0 < size && all[i] != other[i]
    ensures PageOf(all, page, size) != PageOf(other, page, size)
  {
    page := i / size + 1;
    var k := i % size;
    assert PageStart(page, size) + k == i;
    PageAt(all, page, size);
    PageAt(other, page, size);
    assert PageOf(all, page, size)[k] == all[i];
    assert PageOf(other, page, size)[k] == other[i];
  }

  /** A message with an empty role reads differently on some page. */
  lemma {:induction false} EmptyRoleShows(sid: string, s: Mirror, ids: seq<string>, size: nat) returns (page: int)
    requires FullyProjected(sid, s) && Timeordered(s.messages) && Listing(s.rows, sid, ids) && 0 < size
    requires !RolesSet(s.messages)
    ensures |Cold(s.rows, ids)| > 0 && PageOf(Cold(s.rows, ids), page, size) != PageOf(Hot(sid, s.messages), page, size)
  {
    ColdShowsHot(sid, s, ids);
    var i: nat :| i < |s.messages| && s.messages[i].role == "";
    assert Hot(sid, s.messages)[i].role == "";
    page := DifferenceShows(Cold(s.rows, ids), Hot(sid, s.messages), size, i);
  }

  /** The write path stores an empty role as "unknown", the Redis path shows it as it is: the two read
      paths agree on every page if and only if no message has an empty role. */
  lemma ReadPathsAgreeIffRolesSet(sid: string, s: Mirror, ids: seq<string>, size: nat)
    requires FullyProjected(sid, s) && Timeordered(s.messages) && Listing(s.rows, sid, ids) && 0 < size
    ensures (forall page :: PageOf(Cold(s.rows, ids), page, size) == PageOf(Hot(sid, s.messages), page, size))
            <==> RolesSet(s.messages)
  {
    if RolesSet(s.messages) {
      ColdShowsHot(sid, s, ids);
      assert Cold(s.rows, ids) == Hot(sid, s.messages);
    } else {
      var page := EmptyRoleShows(sid, s, ids, size);
    }
  }

  /** Pages 1..k of a sequence, one after the other. */
  function Pages<T>(all: seq<T>, size: nat, k: nat): seq<T> {
    if k == 0 then [] else Pages(all, size, k - 1) + PageOf(all, k, size)
  }

  lemma NextPage<T>(all: seq<T>, size: nat, start: nat)
    ensures all[..Least(start, |all|)] + Window(all, start, size) == all[..Least(start + size, |all|)]
  {
  }

  /** The first k pages are the first k * size elements: no gap and no repeat. */
  lemma {:induction false} PagesArePrefix<T>(all: seq<T>, size: nat, k: nat)
    ensures Pages(all, size, k) == all[..Least(MulNat(k, size), |all|)]
  {
    if k > 0 {
      PagesArePrefix(all, size, k - 1);
      assert MulNat(k, size) == MulNat(k - 1, size) + size;
      NextPage(all, size, MulNat(k - 1, size));
    }
  }

  /** Enough pages give everything back. */
  lemma {:induction false} PagesAreAll<T>(all: seq<T>, size: nat, k: nat)
    requires |all| <= MulNat(k, size)
    ensures Pages(all, size, k) == all
  {
    PagesArePrefix(all, size, k);
  }

  /** The items of pages 1..k, one page after the other, as list_session_messages gives them. */
  function Browsed(sid: string, s: Mirror, pg: Option<seq<string>>, size: nat, k: nat): seq<Wire>
    requires pg.Some? ==> forall i :: 0 <= i < |pg.value| ==> pg.value[i] in s.rows
  {
    if k == 0 then [] else Browsed(sid, s, pg, size, k - 1) + ListMessages(sid, s, pg, k, size).items
  }

  lemma {:induction false} BrowsedIsPages(sid: string, s: Mirror, ids: seq<string>, size: nat, k: nat)
    requires ids != [] && forall i :: 0 <= i < |ids| ==> ids[i] in s.rows
    ensures Browsed(sid, s, Some(ids), size, k) == Pages(Cold(s.rows, ids), size, k)
  {
    if k > 0 {
      BrowsedIsPages(sid, s, ids, size, k - 1);
    }
  }

  /** A session that Redis no longer holds can still be read in full: enough pages show every row of it once, in
      the order of the listing. */
  lemma ExpiredIsStillListed(sid: string, s: Mirror, ids: seq<string>, size: nat, k: nat)
    requires s.messages == [] && Listing(s.rows, sid, ids) && ids != [] && |ids| <= MulNat(k, size)
    ensures var all := Browsed(sid, s, Some(ids), size, k);
      && |all| == |ids|
      && (forall i | 0 <= i < |ids| :: ShowsRow(all[i], sid, ids[i], s.rows[ids[i]]))
      && (forall id | id in s.rows && s.rows[id].sessionId == sid :: exists i | 0 <= i < |all| :: all[i].id == id)
  {
    BrowsedIsPages(sid, s, ids, size, k);
    ColdShowsRows(s.rows, sid, ids);
    PagesAreAll(Cold(s.rows, ids), size, k);
    var all := Browsed(sid, s, Some(ids), size, k);
    forall id | id in s.rows && s.rows[id].sessionId == sid ensures exists i | 0 <= i < |all| :: all[i].id == id {
      assert id in ids;
      var i :| 0 <= i < |ids| && ids[i] == id;
      assert all[i].id == id;
    }
  }
}
