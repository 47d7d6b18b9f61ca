/** agent/session_timing.py, RedisTimingStore: the ring of the most recent turns of a session. */
module TimingStore {
  const TIMING_RING_SIZE: nat := 50

  /** One turn's snapshot under its key. sampledAt orders as the ISO strings of one time zone do. */
  datatype Turn = Turn(key: string, sampledAt: int, payload: string)

  /** A Python dict: turns in insertion order, each key once. */
  type Ring = seq<Turn>

  predicate KeysDistinct(d: Ring) {
    forall i, j | 0 <= i < j < |d| :: d[i].key != d[j].key
  }

  predicate HasKey(d: Ring, key: string) {
    exists i | 0 <= i < |d| :: d[i].key == key
  }

  /** mapping[key] = turn: in place if the key is there, at the end otherwise. */
  function Put(d: Ring, e: Turn): Ring {
    if d == [] then [e] else if d[0].key == e.key then [e] + d[1..] else [d[0]] + Put(d[1..], e)
  }

  /** Stable insertion into a list sorted by sampledAt. */
  function Insert(s: Ring, e: Turn): Ring {
    if s == [] then [e]
    else if e.sampledAt < s[|s| - 1].sampledAt then Insert(s[..|s| - 1], e) + [s[|s| - 1]]
    else s + [e]
  }

  /** sorted(..., key=sampled_at). */
  function Sorted(d: Ring): Ring {
    if d == [] then [] else Insert(Sorted(d[..|d| - 1]), d[|d| - 1])
  }

  function Trimmed(d: Ring, size: nat): Ring {
    if |d| > size then LastOf(Sorted(d), size) else d
  }

  function LastOf(d: Ring, size: nat): Ring {
    if |d| > size then d[|d| - size..] else d
  }

  class RedisTimingStore {
    var maps: map<string, Ring>

    constructor ()
      ensures maps == map[]
    {
      maps := map[];
    }

    /** save: read the session's map, put the turn, trim to the ring size, write it back. */
    method Save(sid: string, turn: Turn)
      modifies this
      ensures var e := if turn.key == "" then turn.(key := sid + ":latest") else turn;
        maps == old(maps)[sid := Trimmed(Put(if sid in old(maps) then old(maps)[sid] else [], e), TIMING_RING_SIZE)]
    {
      var e := turn;
      if e.key == "" {
        e := e.(key := sid + ":latest");
      }
      var mapping := if sid in maps then maps[sid] else [];
      mapping := Put(mapping, e);
      if |mapping| > TIMING_RING_SIZE {
        mapping := LastOf(Sorted(mapping), TIMING_RING_SIZE);
      }
      maps := maps[sid := mapping];
    }
  }

  /** The session's map after a sequence of saves. */
  function After(saves: seq<Turn>, size: nat): Ring {
    if saves == [] then [] else Trimmed(Put(After(saves[..|saves| - 1], size), saves[|saves| - 1]), size)
  }

  // ------------------------------------------------------------------ sorting

  lemma MultisetSize(a: Ring, b: Ring)
    requires multiset(a) == multiset(b)
    ensures |a| == |b|
  {
    assert |multiset(a)| == |a| && |multiset(b)| == |b|;
  }

  lemma MultisetSnoc(front: Ring, last: Turn)
    ensures multiset(front + [last]) == multiset(front) + multiset{last}
  {
  }

  lemma {:induction false} InsertIsPermutation(s: Ring, e: Turn)
    ensures multiset(Insert(s, e)) == multiset(s) + multiset{e}
  {
    if s != [] {
      var front, last := s[..|s| - 1], s[|s| - 1];
      InsertIsPermutation(front, e);
      assert s == front + [last];
    }
  }

  lemma SortedWith(front: Ring, last: Turn)
    requires multiset(Sorted(front)) == multiset(front)
    ensures multiset(Sorted(front + [last])) == multiset(front + [last])
  {
    assert (front + [last])[..|front|] == front;
    InsertIsPermutation(Sorted(front), last);
    MultisetSnoc(front, last);
  }

  lemma {:induction false} SortedIsPermutation(d: Ring)
    ensures multiset(Sorted(d)) == multiset(d)
  {
    if d != [] {
      var front, last := d[..|d| - 1], d[|d| - 1];
      assert d == front + [last];
      SortedIsPermutation(front);
      SortedWith(front, last);
    }
  }

  predicate Ascending(s: Ring) {
    forall i, j | 0 <= i < j < |s| :: s[i].sampledAt <= s[j].sampledAt
  }

  lemma {:induction false} InsertKeepsAscending(s: Ring, e: Turn)
    requires Ascending(s)
    ensures Ascending(Insert(s, e))
  {
    if s != [] && e.sampledAt < s[|s| - 1].sampledAt {
      var front, last := s[..|s| - 1], s[|s| - 1];
      InsertKeepsAscending(front, e);
      InsertIsPermutation(front, e);
      forall x | x in Insert(front, e)
        ensures x.sampledAt <= last.sampledAt
      {
        assert x in multiset(Insert(front, e));
        assert x in front || x == e;
      }
    }
  }

  lemma {:induction false} SortedAscends(d: Ring)
    ensures Ascending(Sorted(d))
  {
    if d != [] {
      SortedAscends(d[..|d| - 1]);
      InsertKeepsAscending(Sorted(d[..|d| - 1]), d[|d| - 1]);
    }
  }

  /** Trimming one turn too many drops the one oldest turn. */
  lemma TrimDropsOldest(d: Ring, oldest: Turn, size: nat)
    requires |d| == size + 1 && oldest in d && forall e :: e in d && e != oldest ==> oldest.sampledAt < e.sampledAt
    ensures multiset(Trimmed(d, size)) == multiset(d) - multiset{oldest}
  {
    var s := Sorted(d);
    SortedIsPermutation(d);
    SortedAscends(d);
    MultisetSize(s, d);
    assert s[0] in multiset(d) && oldest in multiset(s);
    var i :| 0 <= i < |s| && s[i] == oldest;
    assert s[0] == oldest;
    assert s == [s[0]] + s[1..];
    assert s[|s| - size..] == s[1..];
  }

  // ------------------------------------------------------------------ the most recently saved turns

  /** The list without the turn of this key. */
  function Without(d: Ring, key: string): Ring {
    if d == [] then [] else if d[0].key == key then d[1..] else [d[0]] + Without(d[1..], key)
  }

  /** Every key's latest turn, in the order of their latest saves. */
  function Recency(saves: seq<Turn>): Ring {
    if saves == [] then []
    else Without(Recency(saves[..|saves| - 1]), saves[|saves| - 1].key) + [saves[|saves| - 1]]
  }

  /** Save i is the latest of its key. */
  ghost predicate Latest(saves: seq<Turn>, i: int) {
    0 <= i < |saves| && forall j | i < j < |saves| :: saves[j].key != saves[i].key
  }

  predicate StrictlyLater(saves: seq<Turn>) {
    forall i, j | 0 <= i < j < |saves| :: saves[i].sampledAt < saves[j].sampledAt
  }

  predicate FirstWithKey(d: Ring, key: string, i: nat) {
    i < |d| && d[i].key == key && forall j | 0 <= j < i :: d[j].key != key
  }

  lemma {:induction false} WithoutAt(d: Ring, key: string, i: nat)
    requires FirstWithKey(d, key, i)
    ensures Without(d, key) == Cut(d, i)
  {
    if i > 0 {
      WithoutAt(d[1..], key, i - 1);
      assert d[..i] == [d[0]] + d[1..][..i - 1];
    }
  }

  lemma {:induction false} WithoutNone(d: Ring, key: string)
    requires !HasKey(d, key)
    ensures Without(d, key) == d
  {
    if d != [] {
      WithoutNone(d[1..], key);
    }
  }

  lemma {:induction false} PutAt(d: Ring, e: Turn, i: nat)
    requires FirstWithKey(d, e.key, i)
    ensures Put(d, e) == d[i := e]
  {
    if i > 0 {
      PutAt(d[1..], e, i - 1);
    }
  }

  lemma {:induction false} PutNone(d: Ring, e: Turn)
    requires !HasKey(d, e.key)
    ensures Put(d, e) == d + [e]
  {
    if d != [] {
      PutNone(d[1..], e);
    }
  }

  /** The list without its i-th turn. */
  function Cut(d: Ring, i: nat): (r: Ring)
    requires i < |d|
    ensures |r| == |d| - 1 && forall k | 0 <= k < |r| :: r[k] == d[if k < i then k else k + 1]
  {
    d[..i] + d[i + 1..]
  }

  lemma CutKeepsOrder(d: Ring, i: nat)
    requires i < |d| && KeysDistinct(d)
    ensures KeysDistinct(Cut(d, i))
    ensures StrictlyLater(d) ==> StrictlyLater(Cut(d, i))
  {
  }

  lemma CutMembers(d: Ring, i: nat, x: Turn)
    requires i < |d| && KeysDistinct(d)
    ensures x in Cut(d, i) <==> x in d && x.key != d[i].key
  {
    if x in d && x.key != d[i].key {
      var k: nat :| k < |d| && d[k] == x;
      assert Cut(d, i)[if k < i then k else k - 1] == x;
    }
  }

  lemma CutMultiset(d: Ring, i: nat)
    requires i < |d|
    ensures multiset(Cut(d, i)) == multiset(d) - multiset{d[i]}
  {
    assert d == d[..i] + [d[i]] + d[i + 1..];
  }

  lemma AppendKeepsOrder(d: Ring, e: Turn)
    requires KeysDistinct(d) && StrictlyLater(d) && forall x :: x in d ==> x.sampledAt < e.sampledAt && x.key != e.key
    ensures KeysDistinct(d + [e]) && StrictlyLater(d + [e])
  {
  }

  /** The list after one more save: the turn of the same key is cut, and the new one goes to the end. */
  lemma RecencyStep(rec: Ring, e: Turn)
    requires KeysDistinct(rec) && StrictlyLater(rec) && forall x :: x in rec ==> x.sampledAt < e.sampledAt
    ensures KeysDistinct(Without(rec, e.key) + [e]) && StrictlyLater(Without(rec, e.key) + [e])
    ensures forall x :: x in Without(rec, e.key) <==> x in rec && x.key != e.key
  {
    if i: nat :| i < |rec| && rec[i].key == e.key {
      WithoutAt(rec, e.key, i);
      CutKeepsOrder(rec, i);
      forall x
        ensures x in Cut(rec, i) <==> x in rec && x.key != e.key
      {
        CutMembers(rec, i, x);
      }
    } else {
      WithoutNone(rec, e.key);
    }
    AppendKeepsOrder(Without(rec, e.key), e);
  }

  lemma LatestStep(saves: seq<Turn>, i: nat)
    requires i < |saves| - 1
    ensures Latest(saves, i) <==> Latest(saves[..|saves| - 1], i) && saves[i].key != saves[|saves| - 1].key
  {
    var n := |saves| - 1;
    if Latest(saves[..n], i) && saves[i].key != saves[n].key {
      forall j | i < j < |saves|
        ensures saves[j].key != saves[i].key
      {
        assert j < n ==> saves[..n][j] == saves[j];
      }
    }
    if Latest(saves, i) {
      assert forall j | i < j < n :: saves[..n][j] == saves[j];
    }
  }

  /** Recency lists exactly the latest saves, in the order of their times. */
  lemma {:induction false} RecencyListsLatest(saves: seq<Turn>)
    requires StrictlyLater(saves)
    ensures KeysDistinct(Recency(saves)) && StrictlyLater(Recency(saves))
    ensures forall e :: e in Recency(saves) <==> exists i :: Latest(saves, i) && saves[i] == e
  {
    if saves != [] {
      var n := |saves| - 1;
      var front := saves[..n];
      RecencyListsLatest(front);
      forall x | x in Recency(front)
        ensures x.sampledAt < saves[n].sampledAt
      {
        var i :| Latest(front, i) && front[i] == x;
      }
      RecencyStep(Recency(front), saves[n]);
      forall e
        ensures e in Recency(saves) <==> exists i :: Latest(saves, i) && saves[i] == e
      {
        LatestAfterStep(saves, e);
      }
    }
  }

  /** The latest saves are the last one, and the earlier latest ones of other keys. */
  lemma LatestAfterStep(saves: seq<Turn>, e: Turn)
    requires saves != []
    ensures (exists i :: Latest(saves, i) && saves[i] == e) <==>
      var n := |saves| - 1;
      e == saves[n] || (e.key != saves[n].key && exists i :: Latest(saves[..n], i) && saves[..n][i] == e)
  {
    var n := |saves| - 1;
    if i :| Latest(saves, i) && saves[i] == e {
      if i < n {
        LatestStep(saves, i);
      }
    }
    if e == saves[n] {
      assert Latest(saves, n);
    }
    if i :| Latest(saves[..n], i) && saves[..n][i] == e && e.key != saves[n].key {
      LatestStep(saves, i);
    }
  }

  // ------------------------------------------------------------------ the ring is that cache

  /** The ring and the list hold the same turns. */
  ghost predicate SameTurns(d: Ring, rec: Ring, size: nat) {
    KeysDistinct(d) && multiset(d) == multiset(LastOf(rec, size))
  }

  lemma SameMembers(a: Ring, b: Ring, e: Turn)
    requires multiset(a) == multiset(b)
    ensures e in a <==> e in b
  {
    assert e in multiset(a) <==> e in a;
    assert e in multiset(b) <==> e in b;
  }

  lemma PutReplaces(d: Ring, e: Turn, i: nat)
    requires KeysDistinct(d) && i < |d| && d[i].key == e.key
    ensures Put(d, e) == d[i := e] && KeysDistinct(d[i := e])
  {
    PutAt(d, e, i);
  }

  lemma CutOfConcat(a: Ring, b: Ring, k: nat)
    requires k < |b|
    ensures Cut(a + b, |a| + k) == a + Cut(b, k)
  {
  }

  /** Cutting one of the last turns and appending keeps the others among the last. */
  lemma {:induction false} LastOfCut(rec: Ring, size: nat, e: Turn, k: nat)
    requires k < |LastOf(rec, size)|
    ensures var last := LastOf(rec, size);
      |rec| - |last| + k < |rec| && LastOf(Cut(rec, |rec| - |last| + k) + [e], size) == Cut(last, k) + [e]
  {
    var last := LastOf(rec, size);
    var early := rec[..|rec| - |last|];
    SplitLast(rec, size);
    CutOfConcat(early, last, k);
    AppendToTail(early, Cut(last, k), e);
    LastOfConcat(early, Cut(last, k) + [e], size);
  }

  lemma SplitLast(rec: Ring, size: nat)
    ensures rec == rec[..|rec| - |LastOf(rec, size)|] + LastOf(rec, size)
  {
  }

  lemma AppendToTail(early: Ring, tail: Ring, e: Turn)
    ensures early + tail + [e] == early + (tail + [e])
  {
  }

  lemma LastOfConcat(early: Ring, tail: Ring, size: nat)
    requires |tail| == size || (early == [] && |tail| < size)
    ensures LastOf(early + tail, size) == tail
  {
  }

  // Replacing a turn in one place or taking it out and adding the new one at the end.
  lemma ReplaceInBoth(d: Ring, last: Ring, i: nat, k: nat, e: Turn)
    requires multiset(d) == multiset(last) && i < |d| && k < |last| && last[k] == d[i]
    ensures multiset(d[i := e]) == multiset(Cut(last, k) + [e])
  {
    assert d == d[..i] + [d[i]] + d[i + 1..];
    assert d[i := e] == d[..i] + [e] + d[i + 1..];
    CutMultiset(last, k);
    MultisetSnoc(Cut(last, k), e);
  }

  /** A key that the ring holds: its turn is replaced in both. */
  lemma {:induction false} ReplaceKeepsSame(d: Ring, rec: Ring, size: nat, e: Turn, i: nat)
    requires SameTurns(d, rec, size) && KeysDistinct(rec) && i < |d| && d[i].key == e.key
    ensures SameTurns(Trimmed(Put(d, e), size), Without(rec, e.key) + [e], size)
  {
    var last := LastOf(rec, size);
    PutReplaces(d, e, i);
    SameMembers(d, last, d[i]);
    MultisetSize(d, last);
    var k: nat :| k < |last| && last[k] == d[i];
    LastOfCut(rec, size, e, k);
    ReplaceInBoth(d, last, i, k, e);
    WithoutLast(rec, size, e.key, k);
  }

  lemma WithoutLast(rec: Ring, size: nat, key: string, k: nat)
    requires KeysDistinct(rec) && k < |LastOf(rec, size)| && LastOf(rec, size)[k].key == key
    ensures var i := |rec| - |LastOf(rec, size)| + k; i < |rec| && Without(rec, key) == Cut(rec, i)
  {
    var i := |rec| - |LastOf(rec, size)| + k;
    assert rec[i] == LastOf(rec, size)[k];
    WithoutAt(rec, key, i);
  }

  /** A new key while there is room: it is added to both. */
  lemma {:induction false} AddKeepsSame(d: Ring, rec: Ring, size: nat, e: Turn)
    requires SameTurns(d, rec, size) && !HasKey(d, e.key) && |d| < size
    ensures SameTurns(Trimmed(Put(d, e), size), Without(rec, e.key) + [e], size)
  {
    MultisetSize(d, LastOf(rec, size));
    PutNone(d, e);
    forall x | x in rec
      ensures x.key != e.key
    {
      SameMembers(d, rec, x);
    }
    WithoutNone(rec, e.key);
  }

  lemma LastOfAppend(rec: Ring, size: nat, e: Turn)
    requires 0 < size <= |rec|
    ensures LastOf(rec + [e], size) == LastOf(rec, size)[1..] + [e]
  {
  }

  lemma LastOfCutBefore(rec: Ring, size: nat, i: nat)
    requires 0 < size && i < |rec| - size
    ensures LastOf(Cut(rec, i), size) == LastOf(rec, size)
  {
  }

  /** The list after a save whose key is not among its last ones: those move up by one. */
  lemma {:induction false} LastMovesUp(rec: Ring, size: nat, e: Turn)
    requires 0 < size <= |rec| && KeysDistinct(rec) && !HasKey(LastOf(rec, size), e.key)
    ensures LastOf(Without(rec, e.key) + [e], size) == LastOf(rec, size)[1..] + [e]
  {
    if i: nat :| i < |rec| && rec[i].key == e.key {
      NotAmongLast(rec, size, e.key, i);
      WithoutAt(rec, e.key, i);
      LastOfCutBefore(rec, size, i);
      LastOfAppend(Cut(rec, i), size, e);
    } else {
      WithoutNone(rec, e.key);
      LastOfAppend(rec, size, e);
    }
  }

  lemma NotAmongLast(rec: Ring, size: nat, key: string, i: nat)
    requires size <= |rec| && !HasKey(LastOf(rec, size), key) && i < |rec| && rec[i].key == key
    ensures i < |rec| - size
  {
    var skip := |rec| - size;
    forall k | skip <= k < |rec|
      ensures rec[k].key != key
    {
      assert LastOf(rec, size)[k - skip] == rec[k];
    }
  }

  lemma SameKeys(d: Ring, last: Ring, key: string)
    requires multiset(d) == multiset(last)
    ensures HasKey(d, key) <==> HasKey(last, key)
  {
    if i: nat :| i < |d| && d[i].key == key {
      SameMembers(d, last, d[i]);
    }
    if i: nat :| i < |last| && last[i].key == key {
      SameMembers(d, last, last[i]);
    }
  }

  lemma OldestOfLast(rec: Ring, size: nat, e: Turn, d: Ring)
    requires 0 < size <= |rec| && StrictlyLater(rec) && (forall x :: x in rec ==> x.sampledAt < e.sampledAt)
    requires multiset(d) == multiset(LastOf(rec, size))
    ensures var oldest := LastOf(rec, size)[0];
      oldest in d + [e] && forall x :: x in d + [e] && x != oldest ==> oldest.sampledAt < x.sampledAt
  {
    var last := LastOf(rec, size);
    SameMembers(d, last, last[0]);
    forall x | x in d + [e] && x != last[0]
      ensures last[0].sampledAt < x.sampledAt
    {
      if x in d {
        SameMembers(d, last, x);
      }
      assert last[0] in rec;
    }
  }

  /** A new key when the ring is full: both drop their oldest turn. */
  lemma {:induction false} RotateKeepsSame(d: Ring, rec: Ring, size: nat, e: Turn)
    requires SameTurns(d, rec, size) && !HasKey(d, e.key) && |d| == size && 0 < size
    requires KeysDistinct(rec) && StrictlyLater(rec) && forall x :: x in rec ==> x.sampledAt < e.sampledAt
    ensures multiset(Trimmed(Put(d, e), size)) == multiset(LastOf(Without(rec, e.key) + [e], size))
  {
    var last := LastOf(rec, size);
    MultisetSize(d, last);
    PutNone(d, e);
    SameKeys(d, last, e.key);
    LastMovesUp(rec, size, e);
    OldestOfLast(rec, size, e, d);
    TrimDropsOldest(d + [e], last[0], size);
    DropFirst(d, last, e);
  }

  lemma DropFirst(d: Ring, last: Ring, e: Turn)
    requires multiset(d) == multiset(last) && last != []
    ensures multiset(d + [e]) - multiset{last[0]} == multiset(last[1..] + [e])
  {
    assert last == [last[0]] + last[1..];
    MultisetSnoc(d, e);
    MultisetSnoc(last[1..], e);
  }

  lemma OnceInMultiset(b: Ring, x: Turn)
    requires KeysDistinct(b)
    ensures multiset(b)[x] <= 1
  {
    if k: nat :| k < |b| && b[k] == x {
      CutMultiset(b, k);
      CutMembers(b, k, x);
      assert x !in multiset(Cut(b, k));
    }
  }

  lemma DistinctByMultiset(a: Ring, b: Ring)
    requires multiset(a) == multiset(b) && KeysDistinct(b)
    ensures KeysDistinct(a)
  {
    forall i: nat, j: nat | i < j < |a|
      ensures a[i].key != a[j].key
    {
      SameMembers(a, b, a[i]);
      SameMembers(a, b, a[j]);
      OnceInMultiset(b, a[i]);
      if a[i] == a[j] {
        TwiceInMultiset(a, i, j);
      }
    }
  }

  lemma TwiceInMultiset(a: Ring, i: nat, j: nat)
    requires i < j < |a| && a[i] == a[j]
    ensures multiset(a)[a[i]] >= 2
  {
    assert a == a[..i] + [a[i]] + a[i + 1..j] + [a[j]] + a[j + 1..];
  }

  /** Serial saves at strictly increasing times leave in the ring exactly the most recently saved turns:
      the last size keys in the order of their latest saves, each with its latest snapshot. */
  lemma {:induction false} RingIsMostRecentCache(saves: seq<Turn>, size: nat)
    requires StrictlyLater(saves) && 0 < size
    ensures SameTurns(After(saves, size), Recency(saves), size)
  {
    if saves != [] {
      var n := |saves| - 1;
      var front, e := saves[..n], saves[n];
      var d, rec := After(front, size), Recency(front);
      RingIsMostRecentCache(front, size);
      RecencyListsLatest(front);
      RecencyListsLatest(saves);
      forall x | x in rec
        ensures x.sampledAt < e.sampledAt
      {
        var i :| Latest(front, i) && front[i] == x;
      }
      MultisetSize(d, LastOf(rec, size));
      if i: nat :| i < |d| && d[i].key == e.key {
        ReplaceKeepsSame(d, rec, size, e, i);
      } else if |d| < size {
        AddKeepsSame(d, rec, size, e);
      } else {
        RotateKeepsSame(d, rec, size, e);
        DistinctByMultiset(After(saves, size), LastOf(Recency(saves), size));
      }
    }
  }
}
