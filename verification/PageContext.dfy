/** coordinator/brief.py: _is_denied_key, _sanitize_value and sanitize_page_context. */
module PageContext {
  import opened Prelude
  import opened Json
  import opened TextMask

  const ALLOW_KEYS: set<string> :=
    {"pageId", "pageName", "formCode", "formName", "moduleCode", "selectedRowIds", "visibleFields", "currentTab"}

  const DENY_HINTS: seq<string> :=
    ["token", "secret", "password", "idcard", "mobile", "phone", "bankcard", "salary", "authorization", "cookie"]

  const MAX_DEPTH := 4
  const MAX_LIST_ITEMS := 50
  const TRUNCATED_KEY := "_truncated"
  const UNSERIALIZABLE := "<unserializable>"

  /** What the code takes from Python: the digits of \d, str() of an object, and str.lower(). */
  datatype Python = Python(digits: Digits, str: Value -> string, lower: string -> string)

  // ------------------------------------------------------------------ one value

  function Without(s: string, dropped: set<char>): string {
    if s == "" then ""
    else (if s[0] in dropped then "" else [s[0]]) + Without(s[1..], dropped)
  }

  predicate IsDenied(py: Python, key: string) {
    var lowered := Without(py.lower(key), {'_', '-'});
    exists i | 0 <= i < |DENY_HINTS| :: Contains(lowered, DENY_HINTS[i])
  }

  /** cleaned[key] = value on a dict in insertion order. */
  function Put(entries: seq<Entry>, key: string, value: Value): seq<Entry> {
    if entries == [] then [Entry(key, value)]
    else if entries[0].key == key then [Entry(key, value)] + entries[1..]
    else [entries[0]] + Put(entries[1..], key, value)
  }

  function Digest(py: Python, v: Value): Value {
    Str(MaskText(py.digits, py.str(v)))
  }

  function Sanitize(py: Python, v: Value, depth: nat): Value
    decreases v
  {
    match v
    case Null => v
    case Bool(_) => v
    case Number(_) => v
    case Str(s) => Str(MaskText(py.digits, s))
    case Dict(entries) =>
      if depth >= MAX_DEPTH then Digest(py, v) else Dict(SanitizeEntries(py, entries, depth + 1))
    case Many(_, items) =>
      if depth >= MAX_DEPTH then Digest(py, v) else Many(ListKind, SanitizeItems(py, items, depth + 1))
    case Other(_) => Digest(py, v)
  }

  function SanitizeEntries(py: Python, entries: seq<Entry>, depth: nat): seq<Entry>
    decreases entries
  {
    if entries == [] then []
    else
      var last := entries[|entries| - 1];
      var init := SanitizeEntries(py, entries[..|entries| - 1], depth);
      if IsDenied(py, last.key) then init else Put(init, last.key, Sanitize(py, last.value, depth))
  }

  function Shortened(items: seq<Value>): seq<Value> {
    if |items| <= MAX_LIST_ITEMS then items else items[..MAX_LIST_ITEMS]
  }

  function SanitizeItems(py: Python, items: seq<Value>, depth: nat): seq<Value>
    decreases items
  {
    seq(|Shortened(items)|, i requires 0 <= i < |Shortened(items)| => Sanitize(py, items[i], depth))
  }

  // ------------------------------------------------------------------ what a sanitized value is

  predicate DistinctKeys(entries: seq<Entry>) {
    forall i, j | 0 <= i < j < |entries| :: entries[i].key != entries[j].key
  }

  ghost predicate HasNumber(d: Digits, s: string) {
    exists r: Rule, i: nat, n: nat :: Matches(d, r, s, i, n)
  }

  /** Nothing below depth 4, no list over 50, no denied key, no number left in a text. */
  ghost predicate IsClean(py: Python, v: Value, depth: nat)
    decreases v
  {
    match v
    case Null => true
    case Bool(_) => true
    case Number(_) => true
    case Str(s) => !HasNumber(py.digits, s)
    case Dict(entries) => depth < MAX_DEPTH && EntriesClean(py, entries, depth + 1)
    case Many(kind, items) =>
      && depth < MAX_DEPTH && kind == ListKind && |items| <= MAX_LIST_ITEMS
      && forall i | 0 <= i < |items| :: IsClean(py, items[i], depth + 1)
    case Other(_) => false
  }

  ghost predicate EntriesClean(py: Python, entries: seq<Entry>, depth: nat)
    decreases entries
  {
    && DistinctKeys(entries)
    && forall i | 0 <= i < |entries| :: EntryClean(py, entries[i], depth)
  }

  ghost predicate EntryClean(py: Python, e: Entry, depth: nat)
    decreases e
  {
    !IsDenied(py, e.key) && IsClean(py, e.value, depth)
  }

  function Keys(entries: seq<Entry>): set<string> {
    set i | 0 <= i < |entries| :: entries[i].key
  }

  lemma KeysOfCons(e: Entry, rest: seq<Entry>)
    ensures Keys([e] + rest) == {e.key} + Keys(rest)
  {
    var all := [e] + rest;
    forall k | k in {e.key} + Keys(rest) ensures k in Keys(all) {
      if k == e.key {
        assert all[0].key == k;
      } else {
        var i :| 0 <= i < |rest| && rest[i].key == k;
        assert all[i + 1].key == k;
      }
    }
  }

  lemma {:induction false} PutKeys(entries: seq<Entry>, key: string, value: Value)
    ensures Keys(Put(entries, key, value)) == Keys(entries) + {key}
  {
    if entries == [] {
      KeysOfCons(Entry(key, value), []);
    } else {
      var rest := entries[1..];
      assert entries == [entries[0]] + rest;
      KeysOfCons(entries[0], rest);
      KeysOfCons(Entry(key, value), rest);
      PutKeys(rest, key, value);
      KeysOfCons(entries[0], Put(rest, key, value));
    }
  }

  lemma {:induction false} PutKeeps(py: Python, entries: seq<Entry>, key: string, value: Value, depth: nat)
    requires EntriesClean(py, entries, depth) && EntryClean(py, Entry(key, value), depth)
    ensures EntriesClean(py, Put(entries, key, value), depth)
  {
    if entries != [] && entries[0].key != key {
      var rest := entries[1..];
      PutKeeps(py, rest, key, value, depth);
      PutKeys(rest, key, value);
      var tail := Put(rest, key, value);
      forall j | 0 <= j < |tail| ensures tail[j].key != entries[0].key {
        assert tail[j].key in Keys(tail);
      }
    }
  }

  lemma DigestIsClean(py: Python, s: string)
    ensures !HasNumber(py.digits, MaskText(py.digits, s))
  {
    MaskComplete(py.digits, s);
  }

  /** What comes out of sanitizing is clean. */
  lemma {:induction false} SanitizeCleans(py: Python, v: Value, depth: nat)
    ensures IsClean(py, Sanitize(py, v, depth), depth)
    decreases v
  {
    match v
    case Str(s) => DigestIsClean(py, s);
    case Other(_) => DigestIsClean(py, py.str(v));
    case Dict(entries) =>
      DigestIsClean(py, py.str(v));
      SanitizeEntriesCleans(py, entries, depth + 1);
    case Many(_, items) =>
      DigestIsClean(py, py.str(v));
      forall i | 0 <= i < |Shortened(items)| ensures IsClean(py, Sanitize(py, items[i], depth + 1), depth + 1) {
        SanitizeCleans(py, items[i], depth + 1);
      }
    case _ =>
  }

  lemma {:induction false} SanitizeEntriesCleans(py: Python, entries: seq<Entry>, depth: nat)
    ensures EntriesClean(py, SanitizeEntries(py, entries, depth), depth)
    decreases entries
  {
    if entries != [] {
      var last := entries[|entries| - 1];
      var init := SanitizeEntries(py, entries[..|entries| - 1], depth);
      SanitizeEntriesCleans(py, entries[..|entries| - 1], depth);
      if !IsDenied(py, last.key) {
        SanitizeCleans(py, last.value, depth);
        PutKeeps(py, init, last.key, Sanitize(py, last.value, depth), depth);
      }
    }
  }

  // Putting a key that is not there yet appends it.
  lemma {:induction false} PutAppends(entries: seq<Entry>, key: string, value: Value)
    requires forall i | 0 <= i < |entries| :: entries[i].key != key
    ensures Put(entries, key, value) == entries + [Entry(key, value)]
  {
    if entries != [] {
      PutAppends(entries[1..], key, value);
      assert entries == [entries[0]] + entries[1..];
    }
  }

  lemma {:induction false} CleanStays(py: Python, v: Value, depth: nat)
    requires IsClean(py, v, depth)
    ensures Sanitize(py, v, depth) == v
    decreases v
  {
    match v
    case Str(s) => MaskIsIdentity(py.digits, s);
    case Dict(entries) => CleanEntriesStay(py, entries, depth + 1);
    case Many(_, items) =>
      forall i | 0 <= i < |items| ensures Sanitize(py, items[i], depth + 1) == items[i] {
        CleanStays(py, items[i], depth + 1);
      }
      assert SanitizeItems(py, items, depth + 1) == items;
    case _ =>
  }

  lemma {:induction false} CleanEntriesStay(py: Python, entries: seq<Entry>, depth: nat)
    requires EntriesClean(py, entries, depth)
    ensures SanitizeEntries(py, entries, depth) == entries
    decreases entries
  {
    if entries != [] {
      var init, last := entries[..|entries| - 1], entries[|entries| - 1];
      assert EntryClean(py, last, depth);
      CleanEntriesStay(py, init, depth);
      CleanStays(py, last.value, depth);
      PutAppends(init, last.key, last.value);
      assert entries == init + [last];
    }
  }

  /** The values sanitizing leaves alone are exactly the clean ones. */
  lemma SanitizeFixesExactlyClean(py: Python, v: Value, depth: nat)
    ensures Sanitize(py, v, depth) == v <==> IsClean(py, v, depth)
  {
    SanitizeCleans(py, v, depth);
    if IsClean(py, v, depth) {
      CleanStays(py, v, depth);
    }
  }

  /** Sanitizing twice is sanitizing once. */
  lemma SanitizeIdempotent(py: Python, v: Value, depth: nat)
    ensures Sanitize(py, Sanitize(py, v, depth), depth) == Sanitize(py, v, depth)
  {
    SanitizeCleans(py, v, depth);
    CleanStays(py, Sanitize(py, v, depth), depth);
  }
}
