/** coordinator/brief.py: the first half of sanitize_page_context, which sorts the raw page context, keeps
    its allowed keys and sanitizes their values. */
module ContextEntries {
  import opened Prelude
  import opened Json
  import opened PageContext
  import Greedy

  // ------------------------------------------------------------------ sorted(raw.keys(), key=str)

  predicate Leq(a: string, b: string) {
    a == "" || (b != "" && (a[0] < b[0] || (a[0] == b[0] && Leq(a[1..], b[1..]))))
  }

  lemma {:induction false} LeqIsTotalOrder(a: string, b: string)
    ensures Leq(a, a)
    ensures Leq(a, b) || Leq(b, a)
    ensures Leq(a, b) && Leq(b, a) ==> a == b
  {
    if a != "" {
      LeqIsTotalOrder(a[1..], if b == "" then "" else b[1..]);
      assert a == [a[0]] + a[1..];
      if b != "" {
        assert b == [b[0]] + b[1..];
      }
    }
  }

  /** The two agree before n, and there a ends or has the smaller character. */
  predicate Before(a: string, b: string, n: nat) {
    n <= |a| && n <= |b| && a[..n] == b[..n] && (n == |a| || (n < |b| && a[n] < b[n]))
  }

  lemma BeforeInTail(a: string, b: string, n: nat)
    requires a != "" && b != "" && a[0] == b[0]
    ensures Before(a, b, n + 1) <==> Before(a[1..], b[1..], n)
  {
    if n < |a| && n < |b| {
      assert a[..n + 1] == [a[0]] + a[1..][..n] && b[..n + 1] == [b[0]] + b[1..][..n];
    }
  }

  lemma BeforeSharesHead(a: string, b: string, n: nat)
    requires 0 < n && Before(a, b, n)
    ensures a[0] == b[0]
  {
    assert a[..n][0] == b[..n][0];
  }

  /** The order of strings: by the first character in which they differ, and a prefix before what it is one of. */
  lemma {:induction false} LeqIsLexicographic(a: string, b: string)
    ensures Leq(a, b) <==> exists n: nat :: Before(a, b, n)
  {
    assert Before(a, b, 0) <==> a == "" || (b != "" && a[0] < b[0]);
    if a != "" && b != "" && a[0] == b[0] {
      LeqIsLexicographic(a[1..], b[1..]);
      if n: nat :| Before(a[1..], b[1..], n) {
        BeforeInTail(a, b, n);
      }
    }
    if n: nat :| 0 < n && Before(a, b, n) {
      BeforeSharesHead(a, b, n);
      BeforeInTail(a, b, n - 1);
    }
  }

  lemma {:induction false} LeqTransitive(a: string, b: string, c: string)
    requires Leq(a, b) && Leq(b, c)
    ensures Leq(a, c)
  {
    if a != "" && a[0] == b[0] == c[0] {
      LeqTransitive(a[1..], b[1..], c[1..]);
    }
  }

  function Insert(e: Entry, sorted: seq<Entry>): seq<Entry> {
    if sorted == [] then [e]
    else if Leq(e.key, sorted[0].key) then [e] + sorted
    else [sorted[0]] + Insert(e, sorted[1..])
  }

  function SortByKey(entries: seq<Entry>): seq<Entry> {
    if entries == [] then [] else Insert(entries[0], SortByKey(entries[1..]))
  }

  predicate Sorted(entries: seq<Entry>) {
    forall i, j | 0 <= i < j < |entries| :: Leq(entries[i].key, entries[j].key)
  }

  /** The value of the last entry with the key: what the key ends up with when all are put into a dict. */
  function Lookup(entries: seq<Entry>, key: string): Option<Value> {
    if entries == [] then None
    else
      var later := Lookup(entries[1..], key);
      if later.Some? then later
      else if entries[0].key == key then Some(entries[0].value)
      else None
  }

  lemma SortedTail(entries: seq<Entry>)
    requires Sorted(entries) && entries != []
    ensures Sorted(entries[1..])
    ensures forall j | 0 <= j < |entries[1..]| :: Leq(entries[0].key, entries[1..][j].key)
  {
    var rest := entries[1..];
    forall i, j | 0 <= i < j < |rest| ensures Leq(rest[i].key, rest[j].key) {
      assert rest[i] == entries[i + 1] && rest[j] == entries[j + 1];
    }
  }

  lemma SortedCons(e: Entry, rest: seq<Entry>)
    requires Sorted(rest) && forall j | 0 <= j < |rest| :: Leq(e.key, rest[j].key)
    ensures Sorted([e] + rest)
  {
  }

  lemma {:induction false} InsertPermutes(e: Entry, sorted: seq<Entry>)
    ensures multiset(Insert(e, sorted)) == multiset(sorted) + multiset{e}
  {
    if sorted != [] {
      assert sorted == [sorted[0]] + sorted[1..];
      InsertPermutes(e, sorted[1..]);
    }
  }

  lemma {:induction false} InsertSorts(e: Entry, sorted: seq<Entry>)
    requires Sorted(sorted)
    ensures Sorted(Insert(e, sorted))
  {
    if sorted != [] {
      var rest := sorted[1..];
      SortedTail(sorted);
      LeqIsTotalOrder(e.key, sorted[0].key);
      if Leq(e.key, sorted[0].key) {
        forall j | 0 <= j < |sorted| ensures Leq(e.key, sorted[j].key) {
          if j > 0 {
            LeqTransitive(e.key, sorted[0].key, sorted[j].key);
          }
        }
        SortedCons(e, sorted);
      } else {
        InsertSorts(e, rest);
        InsertPermutes(e, rest);
        var tail := Insert(e, rest);
        forall j | 0 <= j < |tail| ensures Leq(sorted[0].key, tail[j].key) {
          assert tail[j] in multiset(tail);
        }
        SortedCons(sorted[0], tail);
      }
    }
  }

  lemma {:induction false} InsertLookup(e: Entry, sorted: seq<Entry>, key: string)
    ensures Lookup(Insert(e, sorted), key) == Lookup([e] + sorted, key)
  {
    if sorted != [] && !Leq(e.key, sorted[0].key) {
      assert sorted == [sorted[0]] + sorted[1..];
      LeqIsTotalOrder(e.key, sorted[0].key);
      InsertLookup(e, sorted[1..], key);
      SwapLookup(sorted[0], e, sorted[1..], Insert(e, sorted[1..]), key);
    }
  }

  // Two entries with different keys can change places.
  lemma SwapLookup(a: Entry, b: Entry, rest: seq<Entry>, tail: seq<Entry>, key: string)
    requires a.key != b.key && Lookup(tail, key) == Lookup([b] + rest, key)
    ensures Lookup([a] + tail, key) == Lookup([b] + ([a] + rest), key)
  {
    assert ([a] + tail)[1..] == tail;
    assert ([b] + rest)[1..] == rest;
    assert ([a] + rest)[1..] == rest;
    assert ([b] + ([a] + rest))[1..] == [a] + rest;
  }

  /** The sort orders the entries, loses none, and keeps entries with the same key in their order. */
  lemma {:induction false} SortIsStable(entries: seq<Entry>)
    ensures Sorted(SortByKey(entries))
    ensures multiset(SortByKey(entries)) == multiset(entries)
    ensures forall key :: Lookup(SortByKey(entries), key) == Lookup(entries, key)
  {
    if entries != [] {
      var rest := entries[1..];
      assert entries == [entries[0]] + rest;
      SortIsStable(rest);
      InsertSorts(entries[0], SortByKey(rest));
      InsertPermutes(entries[0], SortByKey(rest));
      forall key ensures Lookup(SortByKey(entries), key) == Lookup(entries, key) {
        InsertLookup(entries[0], SortByKey(rest), key);
        assert ([entries[0]] + SortByKey(rest))[1..] == SortByKey(rest);
      }
    }
  }

  // ------------------------------------------------------------------ allowed keys, sanitized values

  predicate Passes(py: Python, key: string) {
    key in ALLOW_KEYS && !IsDenied(py, key)
  }

  function Cleaned(py: Python, entries: seq<Entry>): seq<Entry> {
    if entries == [] then []
    else
      var last := entries[|entries| - 1];
      var init := Cleaned(py, entries[..|entries| - 1]);
      if Passes(py, last.key) then Put(init, last.key, Sanitize(py, last.value, 1)) else init
  }

  predicate StrictlySorted(entries: seq<Entry>) {
    Sorted(entries) && DistinctKeys(entries)
  }

  function BeforeKey(entries: seq<Entry>, key: string): seq<Entry> {
    if entries != [] && entries[|entries| - 1].key == key then entries[..|entries| - 1] else entries
  }

  lemma OnlyLastHasKey(entries: seq<Entry>, key: string)
    requires StrictlySorted(entries) && forall i | 0 <= i < |entries| :: Leq(entries[i].key, key)
    ensures forall i | 0 <= i < |BeforeKey(entries, key)| :: entries[i].key != key
  {
    var n := |entries| - 1;
    forall i | 0 <= i < n ensures entries[i].key != key {
      assert Leq(entries[i].key, entries[n].key) && Leq(entries[n].key, key);
      LeqIsTotalOrder(entries[n].key, key);
    }
  }

  lemma {:induction false} PutReplacesLast(init: seq<Entry>, last: Entry, value: Value)
    requires forall i | 0 <= i < |init| :: init[i].key != last.key
    ensures Put(init + [last], last.key, value) == init + [Entry(last.key, value)]
  {
    if init != [] {
      PutReplacesLast(init[1..], last, value);
      assert (init + [last])[1..] == init[1..] + [last];
      assert init == [init[0]] + init[1..];
    }
  }

  // A key at least as great as all the others replaces the last entry, or comes after it.
  lemma {:induction false} PutLast(entries: seq<Entry>, key: string, value: Value)
    requires StrictlySorted(entries) && forall i | 0 <= i < |entries| :: Leq(entries[i].key, key)
    ensures Put(entries, key, value) == BeforeKey(entries, key) + [Entry(key, value)]
  {
    OnlyLastHasKey(entries, key);
    var init := BeforeKey(entries, key);
    if init == entries {
      PutAppends(entries, key, value);
    } else {
      assert entries == init + [entries[|entries| - 1]];
      PutReplacesLast(init, entries[|entries| - 1], value);
    }
  }

  lemma PutLastKeepsOrder(entries: seq<Entry>, key: string, value: Value)
    requires StrictlySorted(entries) && forall i | 0 <= i < |entries| :: Leq(entries[i].key, key)
    ensures Sorted(Put(entries, key, value))
  {
    PutLast(entries, key, value);
  }

  lemma {:induction false} LookupSnoc(entries: seq<Entry>, e: Entry, key: string)
    ensures Lookup(entries + [e], key) == if e.key == key then Some(e.value) else Lookup(entries, key)
  {
    if entries == [] {
      assert entries + [e] == [e];
    } else {
      LookupSnoc(entries[1..], e, key);
      assert (entries + [e])[1..] == entries[1..] + [e];
    }
  }

  lemma {:induction false} LookupPut(entries: seq<Entry>, key: string, value: Value, other: string)
    requires DistinctKeys(entries)
    ensures Lookup(Put(entries, key, value), other) == if other == key then Some(value) else Lookup(entries, other)
  {
    if entries != [] {
      var rest := entries[1..];
      assert entries == [entries[0]] + rest;
      if entries[0].key == key {
        assert ([Entry(key, value)] + rest)[1..] == rest;
        if other == key {
          AbsentKey(rest, key);
        }
      } else {
        LookupPut(rest, key, value, other);
        assert ([entries[0]] + Put(rest, key, value))[1..] == Put(rest, key, value);
      }
    }
  }

  lemma {:induction false} AbsentKey(entries: seq<Entry>, key: string)
    requires forall i | 0 <= i < |entries| :: entries[i].key != key
    ensures Lookup(entries, key) == None
  {
    if entries != [] {
      AbsentKey(entries[1..], key);
    }
  }

  lemma {:induction false} CleanedIsClean(py: Python, entries: seq<Entry>)
    ensures EntriesClean(py, Cleaned(py, entries), 1)
    ensures Keys(Cleaned(py, entries)) <= Keys(entries) * ALLOW_KEYS
  {
    if entries != [] {
      var n := |entries| - 1;
      var last, init := entries[n], Cleaned(py, entries[..n]);
      CleanedIsClean(py, entries[..n]);
      if Passes(py, last.key) {
        SanitizeCleans(py, last.value, 1);
        PutKeeps(py, init, last.key, Sanitize(py, last.value, 1), 1);
        PutKeys(init, last.key, Sanitize(py, last.value, 1));
      }
    }
  }

  // The keys of the sorted entries stay in order.
  lemma {:induction false} CleanedIsSorted(py: Python, entries: seq<Entry>)
    requires Sorted(entries)
    ensures StrictlySorted(Cleaned(py, entries))
  {
    CleanedIsClean(py, entries);
    if entries != [] {
      var n := |entries| - 1;
      var last, init := entries[n], Cleaned(py, entries[..n]);
      CleanedIsSorted(py, entries[..n]);
      CleanedIsClean(py, entries[..n]);
      if Passes(py, last.key) {
        forall i | 0 <= i < |init| ensures Leq(init[i].key, last.key) {
          assert init[i].key in Keys(init);
        }
        PutLastKeepsOrder(init, last.key, Sanitize(py, last.value, 1));
      }
    }
  }

  lemma {:induction false} CleanedLookup(py: Python, entries: seq<Entry>, key: string)
    requires Sorted(entries)
    ensures Lookup(Cleaned(py, entries), key) ==
            match Lookup(entries, key)
            case Some(v) => if Passes(py, key) then Some(Sanitize(py, v, 1)) else None
            case None => None
  {
    if entries != [] {
      var n := |entries| - 1;
      var last := entries[n];
      CleanedLookup(py, entries[..n], key);
      CleanedIsSorted(py, entries[..n]);
      assert entries == entries[..n] + [last];
      LookupSnoc(entries[..n], last, key);
      LookupPut(Cleaned(py, entries[..n]), last.key, Sanitize(py, last.value, 1), key);
    }
  }

  /** The entries before truncation: in the order of their keys, each key once, every allowed key that the
      page has, with the sanitized value that the page gave it last, and nothing else. */
  lemma CleanedIsTheAllowedPart(py: Python, raw: seq<Entry>)
    ensures StrictlySorted(Cleaned(py, SortByKey(raw)))
    ensures |Cleaned(py, SortByKey(raw))| <= 8
    ensures forall i | 0 <= i < |Cleaned(py, SortByKey(raw))| ::
              EntryClean(py, Cleaned(py, SortByKey(raw))[i], 1) && Cleaned(py, SortByKey(raw))[i].key in ALLOW_KEYS
    ensures forall key :: Lookup(Cleaned(py, SortByKey(raw)), key) ==
              match Lookup(raw, key)
              case Some(v) => if Passes(py, key) then Some(Sanitize(py, v, 1)) else None
              case None => None
  {
    SortIsStable(raw);
    var sorted := SortByKey(raw);
    var cleaned := Cleaned(py, sorted);
    CleanedIsSorted(py, sorted);
    CleanedIsClean(py, sorted);
    forall key ensures Lookup(cleaned, key) ==
                       match Lookup(raw, key)
                       case Some(v) => if Passes(py, key) then Some(Sanitize(py, v, 1)) else None
                       case None => None
    {
      CleanedLookup(py, sorted, key);
    }
    forall i | 0 <= i < |cleaned| ensures cleaned[i].key in ALLOW_KEYS {
      assert cleaned[i].key in Keys(cleaned);
    }
    AtMostEight(cleaned);
  }

  lemma {:induction false} DistinctKeysCount(entries: seq<Entry>)
    requires DistinctKeys(entries)
    ensures |Keys(entries)| == |entries|
  {
    if entries != [] {
      var rest := entries[1..];
      assert entries == [entries[0]] + rest;
      KeysOfCons(entries[0], rest);
      DistinctKeysCount(rest);
      assert entries[0].key !in Keys(rest);
    }
  }

  lemma AtMostEight(entries: seq<Entry>)
    requires DistinctKeys(entries) && Keys(entries) <= ALLOW_KEYS
    ensures |entries| <= 8
  {
    DistinctKeysCount(entries);
    Greedy.SubsetIsSmaller(Keys(entries), ALLOW_KEYS);
  }
}
