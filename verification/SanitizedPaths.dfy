/** coordinator/brief.py, _is_denied_key and _sanitize_value: value by value, what sanitizing keeps, what it drops
    and what it makes of the rest. */
module SanitizedPaths {
  import opened Prelude
  import opened Json
  import opened TextMask
  import opened PageContext
  import opened ContextEntries

  // ------------------------------------------------------------------ which keys are denied

  /** The text spells the hint: its characters in order, with underscores and hyphens anywhere between them. */
  predicate Spells(text: string, hint: string) {
    if text == "" then hint == ""
    else if text[0] == '_' || text[0] == '-' then Spells(text[1..], hint)
    else hint != "" && text[0] == hint[0] && Spells(text[1..], hint[1..])
  }

  lemma {:induction false} SpellsIsWithout(text: string, hint: string)
    ensures Spells(text, hint) <==> Without(text, {'_', '-'}) == hint
  {
    if text != "" {
      if text[0] == '_' || text[0] == '-' {
        SpellsIsWithout(text[1..], hint);
      } else if hint != "" {
        SpellsIsWithout(text[1..], hint[1..]);
        assert hint == [hint[0]] + hint[1..];
      }
    }
  }

  lemma WithoutCons(c: char, t: string, dropped: set<char>)
    ensures Without([c] + t, dropped) == (if c in dropped then "" else [c]) + Without(t, dropped)
  {
    assert ([c] + t)[1..] == t;
  }

  lemma Assoc(a: string, b: string, c: string)
    ensures a + b + c == a + (b + c)
  {
  }

  lemma {:induction false} WithoutConcat(a: string, b: string, dropped: set<char>)
    ensures Without(a + b, dropped) == Without(a, dropped) + Without(b, dropped)
  {
    if a == "" {
      assert a + b == b;
    } else {
      var c, rest := a[0], a[1..];
      WithoutConcat(rest, b, dropped);
      WithoutCons(c, rest, dropped);
      WithoutCons(c, rest + b, dropped);
      Assoc([c], rest, b);
      assert a == [c] + rest;
      Assoc(if c in dropped then "" else [c], Without(rest, dropped), Without(b, dropped));
    }
  }

  /** Where the first n of the characters that stay end. */
  lemma {:induction false} WithoutSplits(s: string, dropped: set<char>, n: nat) returns (k: nat)
    requires n <= |Without(s, dropped)|
    ensures k <= |s| && Without(s[..k], dropped) == Without(s, dropped)[..n]
    ensures Without(s[k..], dropped) == Without(s, dropped)[n..]
  {
    if n == 0 {
      k := 0;
      assert s[..0] == "" && s[0..] == s;
    } else {
      var m := if s[0] in dropped then n else n - 1;
      var j := WithoutSplits(s[1..], dropped, m);
      k := j + 1;
      assert s[..k] == [s[0]] + s[1..][..j] && s[k..] == s[1..][j..];
      assert s[..k][0] == s[0] && s[..k][1..] == s[1..][..j];
    }
  }

  /** Some stretch of the text spells the hint. */
  ghost predicate SpelledIn(text: string, hint: string) {
    exists pre: string, mid: string, post: string :: text == pre + mid + post && Spells(mid, hint)
  }

  lemma SpelledIffContained(text: string, hint: string)
    ensures SpelledIn(text, hint) <==> Contains(Without(text, {'_', '-'}), hint)
  {
    var dropped := {'_', '-'};
    var all := Without(text, dropped);
    if pre: string, mid: string, post: string :| text == pre + mid + post && Spells(mid, hint) {
      WithoutConcat(pre + mid, post, dropped);
      WithoutConcat(pre, mid, dropped);
      SpellsIsWithout(mid, hint);
      var i := |Without(pre, dropped)|;
      assert all == Without(pre, dropped) + hint + Without(post, dropped);
      assert OccursAt(all, hint, i);
    }
    if i: nat :| i <= |all| && OccursAt(all, hint, i) {
      SpelledAt(text, hint, i);
    }
  }

  lemma SpelledAt(text: string, hint: string, i: nat)
    requires OccursAt(Without(text, {'_', '-'}), hint, i)
    ensures SpelledIn(text, hint)
  {
    var all := Without(text, {'_', '-'});
    var a := WithoutSplits(text, {'_', '-'}, i);
    assert all[i..][..|hint|] == hint;
    SpelledAhead(text[..a], text[a..], hint);
    assert text == text[..a] + text[a..];
  }

  lemma SpelledAhead(pre: string, rest: string, hint: string)
    requires |hint| <= |Without(rest, {'_', '-'})| && Without(rest, {'_', '-'})[..|hint|] == hint
    ensures SpelledIn(pre + rest, hint)
  {
    var b := WithoutSplits(rest, {'_', '-'}, |hint|);
    SpellsIsWithout(rest[..b], hint);
    assert rest == rest[..b] + rest[b..];
    Assoc(pre, rest[..b], rest[b..]);
    assert Spells(rest[..b], hint);
  }

  /** Denied are exactly the keys in whose lower-case form some stretch spells a hint. */
  lemma DeniedIffSpelled(py: Python, key: string)
    ensures IsDenied(py, key) <==>
            exists h | 0 <= h < |DENY_HINTS| :: SpelledIn(py.lower(key), DENY_HINTS[h])
  {
    forall h | 0 <= h < |DENY_HINTS|
      ensures SpelledIn(py.lower(key), DENY_HINTS[h]) <==>
              Contains(Without(py.lower(key), {'_', '-'}), DENY_HINTS[h])
    {
      SpelledIffContained(py.lower(key), DENY_HINTS[h]);
    }
  }

  // ------------------------------------------------------------------ what is kept

  datatype Step = Field(key: string) | Item(index: nat)

  /** One step down; of entries with the same text for a key, the last counts. */
  function Down(v: Value, step: Step): Option<Value> {
    match step
    case Field(key) => if v.Dict? then Lookup(v.entries, key) else None
    case Item(i) => if v.Many? && i < |v.items| then Some(v.items[i]) else None
  }

  /** The value at the end of a path. */
  function At(v: Value, path: seq<Step>): Option<Value>
    decreases |path|
  {
    if path == [] then Some(v)
    else
      match Down(v, path[0])
      case None => None
      case Some(u) => At(u, path[1..])
  }

  /** What a step must be to lead anywhere after sanitizing. */
  ghost predicate Allowed(py: Python, step: Step) {
    match step
    case Field(key) => !IsDenied(py, key)
    case Item(i) => i < 50
  }

  lemma {:induction false} SanitizedField(py: Python, entries: seq<Entry>, depth: nat, key: string)
    ensures Lookup(SanitizeEntries(py, entries, depth), key) ==
            match Lookup(entries, key)
            case Some(v) => if IsDenied(py, key) then None else Some(Sanitize(py, v, depth))
            case None => None
  {
    if entries != [] {
      var front, last := entries[..|entries| - 1], entries[|entries| - 1];
      SanitizedField(py, front, depth, key);
      SanitizeEntriesCleans(py, front, depth);
      assert entries == front + [last];
      LookupSnoc(front, last, key);
      if !IsDenied(py, last.key) {
        LookupPut(SanitizeEntries(py, front, depth), last.key, Sanitize(py, last.value, depth), key);
      }
    }
  }

  /** One step down in what sanitizing leaves. */
  lemma DownSanitized(py: Python, v: Value, depth: nat, step: Step)
    ensures Down(Sanitize(py, v, depth), step) ==
            match Down(v, step)
            case Some(u) => if depth < 4 && Allowed(py, step) then Some(Sanitize(py, u, depth + 1)) else None
            case None => None
  {
    if depth < 4 && v.Dict? && step.Field? {
      SanitizedField(py, v.entries, depth + 1, step.key);
    }
  }

  ghost predicate AllAllowed(py: Python, path: seq<Step>) {
    forall i | 0 <= i < |path| :: Allowed(py, path[i])
  }

  lemma AllowedStepByStep(py: Python, path: seq<Step>)
    requires path != []
    ensures AllAllowed(py, path) <==> Allowed(py, path[0]) && AllAllowed(py, path[1..])
  {
    assert path == [path[0]] + path[1..];
  }

  /** The value at the path is one that sanitizing keeps. */
  ghost predicate Stays(py: Python, depth: nat, path: seq<Step>) {
    path == [] || (depth + |path| <= 4 && AllAllowed(py, path))
  }

  lemma StaysStepByStep(py: Python, depth: nat, path: seq<Step>)
    requires path != []
    ensures Stays(py, depth, path) <==> depth < 4 && Allowed(py, path[0]) && Stays(py, depth + 1, path[1..])
  {
    AllowedStepByStep(py, path);
  }

  /** At every depth: a value is kept, in its place and sanitized in its turn, exactly if it lies at most four levels
      deep, under no denied key and among the first fifty items of every list above it. */
  lemma {:induction false} SanitizeKeepsExactly(py: Python, v: Value, depth: nat, path: seq<Step>)
    ensures At(Sanitize(py, v, depth), path) ==
            match At(v, path)
            case Some(u) => if Stays(py, depth, path) then Some(Sanitize(py, u, depth + |path|)) else None
            case None => None
    decreases |path|
  {
    if path != [] {
      DownSanitized(py, v, depth, path[0]);
      StaysStepByStep(py, depth, path);
      if Down(v, path[0]).Some? {
        SanitizeKeepsExactly(py, Down(v, path[0]).value, depth + 1, path[1..]);
      }
    }
  }

  /** What a value turns into where it stands: text has its numbers masked, numbers, bools and null stay, a dict stays
      one, every other collection becomes a list of its first fifty items; below four levels, and for any other
      object, there is only its masked text. */
  lemma SanitizedInPlace(py: Python, v: Value, depth: nat)
    ensures var r := Sanitize(py, v, depth);
      match v
      case Null => r == v
      case Bool(_) => r == v
      case Number(_) => r == v
      case Str(s) => r == Str(MaskText(py.digits, s))
      case Other(_) => r == Str(MaskText(py.digits, py.str(v)))
      case Dict(_) => if depth < 4 then r.Dict? else r == Str(MaskText(py.digits, py.str(v)))
      case Many(_, items) =>
        if depth < 4 then r.Many? && r.kind == ListKind && |r.items| == (if |items| < 50 then |items| else 50)
        else r == Str(MaskText(py.digits, py.str(v)))
  {
  }
}
