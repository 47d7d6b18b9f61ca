/** config_manager/file_service.py: masking the secrets of a YAML document for reading, and putting a
    document back on writing. */
module SecretMask {
  import opened Prelude

  /** A mapping key: a string, or any other scalar. */
  datatype Key = Name(s: string) | OtherKey(id: int)

  datatype Entry = Entry(key: Key, value: Yaml)

  /** A loaded document. Stamp stands for the scalars that are neither str, int, float, bool nor None (dates). */
  datatype Yaml = Null | Bool(b: bool) | Int(i: int) | Float(r: real) | Str(s: string) | Stamp(t: int)
                | List(items: seq<Yaml>) | Dict(entries: seq<Entry>)

  const MASKED_VALUE := "***masked***"

  const SECRET_KEY_HINTS: seq<string> := [
    "secret", "token", "api_key", "apikey", "password", "passwd", "private_key",
    "access_key", "client_secret", "auth_key"
  ]

  function LowerChar(c: char): char {
    if 'A' <= c <= 'Z' then (c as int + 32) as char else c
  }

  function Lower(s: string): string {
    seq(|s|, i requires 0 <= i < |s| => LowerChar(s[i]))
  }

  predicate IsSecretKey(key: Key) {
    key.Name? && exists i | 0 <= i < |SECRET_KEY_HINTS| :: Contains(Lower(key.s), SECRET_KEY_HINTS[i])
  }

  /** A value that is hidden under a secret key: a non-empty str, an int, a float, or a bool (which is an int). */
  predicate Hideable(value: Yaml) {
    (value.Str? && value.s != "") || value.Int? || value.Float? || value.Bool?
  }

  /** Python dicts hold each key once. */
  predicate KeysDistinct(entries: seq<Entry>) {
    forall i, j | 0 <= i < j < |entries| :: entries[i].key != entries[j].key
  }

  predicate WellFormed(d: Yaml) {
    match d
    case List(items) => forall i | 0 <= i < |items| :: WellFormed(items[i])
    case Dict(entries) => KeysDistinct(entries) && forall i | 0 <= i < |entries| :: WellFormed(entries[i].value)
    case _ => true
  }

  // ------------------------------------------------------------------ masking

  function Mask(d: Yaml): Yaml {
    match d
    case List(items) => List(seq(|items|, i requires 0 <= i < |items| => Mask(items[i])))
    case Dict(entries) => Dict(seq(|entries|, i requires 0 <= i < |entries| => MaskEntry(entries[i])))
    case _ => d
  }

  function MaskEntry(e: Entry): Entry {
    if IsSecretKey(e.key) && Hideable(e.value) then Entry(e.key, Str(MASKED_VALUE)) else Entry(e.key, Mask(e.value))
  }

  /** Some secret key of the document has a value worth hiding. */
  predicate HasSecret(d: Yaml) {
    match d
    case List(items) => exists i | 0 <= i < |items| :: HasSecret(items[i])
    case Dict(entries) => exists i | 0 <= i < |entries| :: EntryHasSecret(entries[i])
    case _ => false
  }

  predicate EntryHasSecret(e: Entry) {
    (IsSecretKey(e.key) && Hideable(e.value)) || HasSecret(e.value)
  }

  /** mask_secrets: the loops over dict items and list items, with the flag they accumulate. */
  method MaskSecrets(data: Yaml) returns (result: Yaml, masked: bool)
    ensures result == Mask(data) && masked == HasSecret(data)
    decreases data
  {
    masked := false;
    match data {
      case Dict(entries) =>
        var out: seq<Entry> := [];
        var i := 0;
        while i < |entries|
          invariant 0 <= i <= |entries| == i + |entries[i..]| && |out| == i
          invariant forall k | 0 <= k < i :: out[k] == MaskEntry(entries[k])
          invariant masked <==> exists k | 0 <= k < i :: EntryHasSecret(entries[k])
        {
          var key, value := entries[i].key, entries[i].value;
          if IsSecretKey(key) && Hideable(value) {
            out := out + [Entry(key, Str(MASKED_VALUE))];
            masked := true;
          } else {
            var child, childMasked := MaskSecrets(value);
            out := out + [Entry(key, child)];
            masked := masked || childMasked;
          }
          i := i + 1;
        }
        result := Dict(out);
      case List(items) =>
        var out: seq<Yaml> := [];
        var i := 0;
        while i < |items|
          invariant 0 <= i <= |items| && |out| == i
          invariant forall k | 0 <= k < i :: out[k] == Mask(items[k])
          invariant masked <==> exists k | 0 <= k < i :: HasSecret(items[k])
        {
          var child, childMasked := MaskSecrets(items[i]);
          out := out + [child];
          masked := masked || childMasked;
          i := i + 1;
        }
        result := List(out);
      case _ =>
        result := data;
    }
  }

  predicate ContainsMasked(d: Yaml) {
    match d
    case Str(s) => s == MASKED_VALUE
    case Dict(entries) => exists i | 0 <= i < |entries| :: ContainsMasked(entries[i].value)
    case List(items) => exists i | 0 <= i < |items| :: ContainsMasked(items[i])
    case _ => false
  }

  // ------------------------------------------------------------------ restoring

  /** dict.get(key): Null when the key is missing. */
  function Get(entries: seq<Entry>, key: Key): Yaml {
    if entries == [] then Null else if entries[0].key == key then entries[0].value else Get(entries[1..], key)
  }

  predicate HasKey(entries: seq<Entry>, key: Key) {
    exists i | 0 <= i < |entries| :: entries[i].key == key
  }

  function Shorter(a: nat, b: nat): nat {
    if a < b then a else b
  }

  function Restore(original: Yaml, incoming: Yaml): Yaml
    decreases incoming
  {
    match (original, incoming)
    case (Dict(was), Dict(now)) =>
      Dict(seq(|now|, i requires 0 <= i < |now| => RestoreEntry(was, now[i])))
    case (List(was), List(now)) =>
      List(seq(Shorter(|was|, |now|), i requires 0 <= i < Shorter(|was|, |now|) => Restore(was[i], now[i])))
    case _ => incoming
  }

  function RestoreEntry(was: seq<Entry>, e: Entry): Entry
    decreases e
  {
    if e.value == Str(MASKED_VALUE) && HasKey(was, e.key) then Entry(e.key, Get(was, e.key))
    else Entry(e.key, Restore(Get(was, e.key), e.value))
  }

  // ------------------------------------------------------------------ round trips

  lemma {:induction false} GetFinds(entries: seq<Entry>, i: nat)
    requires i < |entries| && KeysDistinct(entries)
    ensures Get(entries, entries[i].key) == entries[i].value && HasKey(entries, entries[i].key)
  {
    if i > 0 {
      assert entries[0].key != entries[i].key;
      GetFinds(entries[1..], i - 1);
    }
  }

  /** Submitting a masked document unchanged gives back the original, whatever the document. */
  lemma {:induction false} RestoreUndoesMask(d: Yaml)
    requires WellFormed(d)
    ensures Restore(d, Mask(d)) == d
  {
    match d
    case List(items) =>
      forall i | 0 <= i < |items|
        ensures Restore(items[i], Mask(items[i])) == items[i]
      {
        RestoreUndoesMask(items[i]);
      }
    case Dict(entries) =>
      forall i | 0 <= i < |entries|
        ensures RestoreEntry(entries, MaskEntry(entries[i])) == entries[i]
      {
        GetFinds(entries, i);
        RestoreUndoesMask(entries[i].value);
      }
    case _ =>
  }

  lemma ScalarStays(original: Yaml, incoming: Yaml)
    requires !incoming.Dict? && !incoming.List?
    ensures Restore(original, incoming) == incoming
  {
    match original
    case Dict(_) =>
    case List(_) =>
    case _ =>
  }

  /** Restoring entry by entry: a placeholder gives way to what the original has under its key, and stays where the
      original has nothing there; a value that is neither list nor mapping stays as submitted. */
  lemma RestoredEntry(was: seq<Entry>, now: seq<Entry>, i: nat)
    requires i < |now| && KeysDistinct(was)
    ensures Restore(Dict(was), Dict(now)).Dict? && |Restore(Dict(was), Dict(now)).entries| == |now|
    ensures var value, restored := now[i].value, Restore(Dict(was), Dict(now)).entries[i];
      && restored.key == now[i].key
      && (value == Str("***masked***") ==>
            && (forall j | 0 <= j < |was| && was[j].key == now[i].key :: restored.value == was[j].value)
            && ((forall j | 0 <= j < |was| :: was[j].key != now[i].key) ==> restored.value == value))
      && (value != Str("***masked***") && !value.Dict? && !value.List? ==> restored.value == value)
  {
    forall j | 0 <= j < |was| && was[j].key == now[i].key ensures Get(was, now[i].key) == was[j].value {
      GetFinds(was, j);
    }
    if !now[i].value.Dict? && !now[i].value.List? {
      ScalarStays(Get(was, now[i].key), now[i].value);
    }
    assert Restore(Dict(was), Dict(now)).entries[i] == RestoreEntry(was, now[i]);
  }

  /** Wherever a secret key stands, its value is not one worth hiding, or is the placeholder. */
  predicate NothingVisible(d: Yaml) {
    match d
    case List(items) => forall i | 0 <= i < |items| :: NothingVisible(items[i])
    case Dict(entries) => forall i | 0 <= i < |entries| ::
      && (IsSecretKey(entries[i].key) && Hideable(entries[i].value) ==> entries[i].value == Str(MASKED_VALUE))
      && NothingVisible(entries[i].value)
    case _ => true
  }

  lemma {:induction false} MaskHidesSecrets(d: Yaml)
    ensures NothingVisible(Mask(d))
  {
    match d
    case List(items) =>
      forall i | 0 <= i < |items|
        ensures NothingVisible(Mask(items[i]))
      {
        MaskHidesSecrets(items[i]);
      }
    case Dict(entries) =>
      forall i | 0 <= i < |entries|
        ensures var e := MaskEntry(entries[i]);
          (IsSecretKey(e.key) && Hideable(e.value) ==> e.value == Str(MASKED_VALUE)) && NothingVisible(e.value)
      {
        MaskHidesSecrets(entries[i].value);
        MaskedKind(entries[i].value);
      }
    case _ =>
  }

  /** Masking never makes a value worth hiding out of one that is not. */
  lemma MaskedKind(d: Yaml)
    ensures Hideable(Mask(d)) <==> Hideable(d)
  {
  }

  // ------------------------------------------------------------------ which values are hidden

  /** The character c, in lower or in upper case where it is an ASCII letter. */
  predicate Spells(k: char, c: char) {
    k == c || ('a' <= c <= 'z' && k as int == c as int - 32)
  }

  /** The name holds the hint there, in any mixture of upper and lower case. */
  predicate HintAt(name: string, hint: string, at: nat) {
    at + |hint| <= |name| && forall i | 0 <= i < |hint| :: Spells(name[at + i], hint[i])
  }

  predicate Hinted(name: string, hint: string) {
    exists at | 0 <= at <= |name| :: HintAt(name, hint, at)
  }

  predicate HoldsHint(key: Key) {
    key.Name? && exists h | 0 <= h < |SECRET_KEY_HINTS| :: Hinted(key.s, SECRET_KEY_HINTS[h])
  }

  predicate LowerText(s: string) {
    forall i | 0 <= i < |s| :: 'a' <= s[i] <= 'z' || s[i] == '_'
  }

  lemma SpelledIsLowered(name: string, hint: string, at: nat)
    requires LowerText(hint)
    ensures OccursAt(Lower(name), hint, at) <==> HintAt(name, hint, at)
  {
    if at + |hint| <= |name| {
      var part := Lower(name)[at..at + |hint|];
      assert forall i | 0 <= i < |hint| :: part[i] == LowerChar(name[at + i]);
      if part == hint {
        forall i | 0 <= i < |hint| ensures Spells(name[at + i], hint[i]) {
          assert part[i] == hint[i];
        }
      }
    }
  }

  lemma HintsAreLower()
    ensures forall h | 0 <= h < |SECRET_KEY_HINTS| :: LowerText(SECRET_KEY_HINTS[h])
  {
  }

  lemma HintedIsContained(name: string, hint: string)
    requires LowerText(hint)
    ensures Contains(Lower(name), hint) <==> Hinted(name, hint)
  {
    forall at: nat ensures OccursAt(Lower(name), hint, at) <==> HintAt(name, hint, at) {
      SpelledIsLowered(name, hint, at);
    }
  }

  /** Secret are exactly the keys that hold a hint, wherever in the name and in whatever case. */
  lemma SecretIffHoldsHint(key: Key)
    ensures IsSecretKey(key) <==> HoldsHint(key)
  {
    HintsAreLower();
    if key.Name? {
      forall h | 0 <= h < |SECRET_KEY_HINTS|
        ensures Contains(Lower(key.s), SECRET_KEY_HINTS[h]) <==> Hinted(key.s, SECRET_KEY_HINTS[h])
      {
        HintedIsContained(key.s, SECRET_KEY_HINTS[h]);
      }
    }
  }

  /** The value at the end of a path: at each step, which item of a list or which entry of a mapping. */
  function At(d: Yaml, path: seq<nat>): Option<Yaml> {
    if path == [] then Some(d)
    else
      match d
      case List(items) => if path[0] < |items| then At(items[path[0]], path[1..]) else None
      case Dict(entries) => if path[0] < |entries| then At(entries[path[0]].value, path[1..]) else None
      case _ => None
  }

  /** The key under which it stands, if it stands in a mapping. */
  function KeyAt(d: Yaml, path: seq<nat>): Option<Key> {
    if path == [] then None
    else
      match d
      case List(items) => if path[0] < |items| then KeyAt(items[path[0]], path[1..]) else None
      case Dict(entries) =>
        if path[0] >= |entries| then None
        else if |path| == 1 then Some(entries[path[0]].key)
        else KeyAt(entries[path[0]].value, path[1..])
      case _ => None
  }

  /** What masking makes of a value under a key. */
  predicate MaskedTo(key: Option<Key>, v: Yaml, masked: Yaml) {
    match v
    case List(items) => masked.List? && |masked.items| == |items|
    case Dict(entries) =>
      && masked.Dict? && |masked.entries| == |entries|
      && forall i | 0 <= i < |entries| :: masked.entries[i].key == entries[i].key
    case Null => masked == v
    case Stamp(_) => masked == v
    case Str(s) => masked == if s != "" && key.Some? && HoldsHint(key.value) then Str("***masked***") else v
    case _ => masked == if key.Some? && HoldsHint(key.value) then Str("***masked***") else v
  }

  lemma MaskedHere(key: Key, v: Yaml)
    ensures MaskedTo(Some(key), v, MaskEntry(Entry(key, v)).value)
  {
    SecretIffHoldsHint(key);
  }

  /** Masking value by value, at every depth: a non-empty string, a number or a bool under a key that holds a hint,
      in whatever case, becomes the placeholder; every other value and every key stay. */
  lemma {:induction false} MaskHidesExactly(d: Yaml, path: seq<nat>)
    requires At(d, path).Some?
    ensures At(Mask(d), path).Some? && MaskedTo(KeyAt(d, path), At(d, path).value, At(Mask(d), path).value)
    decreases |path|
  {
    if path != [] {
      if d.List? {
        MaskHidesExactly(d.items[path[0]], path[1..]);
      } else {
        var e := d.entries[path[0]];
        if |path| == 1 {
          MaskedHere(e.key, e.value);
        } else {
          MaskHidesExactly(e.value, path[1..]);
        }
      }
    }
  }

  lemma {:induction false} MaskIdempotent(d: Yaml)
    ensures Mask(Mask(d)) == Mask(d)
  {
    match d
    case List(items) =>
      forall i | 0 <= i < |items|
        ensures Mask(Mask(items[i])) == Mask(items[i])
      {
        MaskIdempotent(items[i]);
      }
    case Dict(entries) =>
      forall i | 0 <= i < |entries|
        ensures MaskEntry(MaskEntry(entries[i])) == MaskEntry(entries[i])
      {
        MaskIdempotent(entries[i].value);
      }
    case _ =>
  }

  /** A masked document holds the placeholder exactly when a secret was hidden or the placeholder was there. */
  lemma {:induction false} MaskedIffPlaceholder(d: Yaml)
    ensures ContainsMasked(Mask(d)) <==> HasSecret(d) || ContainsMasked(d)
  {
    match d
    case List(items) =>
      forall i | 0 <= i < |items|
        ensures ContainsMasked(Mask(items[i])) <==> HasSecret(items[i]) || ContainsMasked(items[i])
      {
        MaskedIffPlaceholder(items[i]);
      }
      ListPlaceholder(items);
    case Dict(entries) =>
      forall i | 0 <= i < |entries|
        ensures ContainsMasked(MaskEntry(entries[i]).value) <==>
                EntryHasSecret(entries[i]) || ContainsMasked(entries[i].value)
      {
        MaskedIffPlaceholder(entries[i].value);
      }
      DictPlaceholder(entries);
    case _ =>
  }

  lemma ListPlaceholder(items: seq<Yaml>)
    ensures ContainsMasked(Mask(List(items))) <==> exists i | 0 <= i < |items| :: ContainsMasked(Mask(items[i]))
  {
    var masked := Mask(List(items)).items;
    assert forall i | 0 <= i < |items| :: masked[i] == Mask(items[i]);
  }

  lemma DictPlaceholder(entries: seq<Entry>)
    ensures ContainsMasked(Mask(Dict(entries))) <==>
            exists i | 0 <= i < |entries| :: ContainsMasked(MaskEntry(entries[i]).value)
  {
    var masked := Mask(Dict(entries)).entries;
    assert forall i | 0 <= i < |entries| :: masked[i] == MaskEntry(entries[i]);
  }

  /** No list of the incoming document is longer than the list of the original it lines up with. */
  predicate ListsFit(original: Yaml, incoming: Yaml)
    decreases incoming
  {
    match (original, incoming)
    case (Dict(was), Dict(now)) => forall i | 0 <= i < |now| :: ListsFit(Get(was, now[i].key), now[i].value)
    case (List(was), List(now)) => |now| <= |was| && forall i | 0 <= i < |now| :: ListsFit(was[i], now[i])
    case _ => true
  }

  /** On a document without placeholders, which is all that write_config_file lets through, restoring
      changes nothing if and only if no list has grown: the tail of a longer list is dropped. */
  lemma {:induction false} RestoreKeepsIffListsFit(original: Yaml, incoming: Yaml)
    requires !ContainsMasked(incoming)
    ensures Restore(original, incoming) == incoming <==> ListsFit(original, incoming)
    decreases incoming
  {
    match (original, incoming)
    case (Dict(was), Dict(now)) =>
      var result := Restore(original, incoming).entries;
      forall i | 0 <= i < |now|
        ensures result[i] == now[i] <==> ListsFit(Get(was, now[i].key), now[i].value)
      {
        assert !ContainsMasked(now[i].value);
        RestoreKeepsIffListsFit(Get(was, now[i].key), now[i].value);
        assert result[i] == RestoreEntry(was, now[i]) == Entry(now[i].key, Restore(Get(was, now[i].key), now[i].value));
      }
      assert Restore(original, incoming) == incoming <==> forall i | 0 <= i < |now| :: result[i] == now[i];
    case (List(was), List(now)) =>
      var result := Restore(original, incoming).items;
      forall i | 0 <= i < Shorter(|was|, |now|)
        ensures result[i] == now[i] <==> ListsFit(was[i], now[i])
      {
        assert !ContainsMasked(now[i]);
        RestoreKeepsIffListsFit(was[i], now[i]);
      }
      assert Restore(original, incoming) == incoming <==>
        |now| <= |was| && forall i | 0 <= i < |now| :: result[i] == now[i];
    case _ =>
  }

  // ------------------------------------------------------------------ reading and writing a file

  datatype WriteResult = Saved(document: Yaml) | NotMappingOrSequence | PlaceholderLeft | Invalid

  /** yaml.safe_load(...) or {}: every falsy document reads as an empty mapping. */
  function OrEmpty(d: Yaml): Yaml {
    if d == Null || d == Bool(false) || d == Int(0) || d == Float(0.0) || d == Str("") || d == List([]) then Dict([])
    else d
  }

  /** read_config_file, from the parsed file to the document it dumps. */
  function ReadDocument(file: Yaml): (Yaml, bool) {
    (Mask(OrEmpty(file)), HasSecret(OrEmpty(file)))
  }

  /** write_config_file, from the parsed submission to the document it dumps. file is None when there is
      none yet; valid is the structural validator's verdict. */
  function WriteDocument(file: Option<Yaml>, incoming: Yaml, valid: bool): WriteResult {
    if !incoming.Dict? && !incoming.List? then NotMappingOrSequence
    else if ContainsMasked(incoming) then PlaceholderLeft
    else if !valid then Invalid
    else Saved(if file.Some? then Restore(OrEmpty(file.value), incoming) else incoming)
  }

  /** A file that was read with secrets hidden cannot be saved as it was shown: the placeholder check comes
      before the restoring step. */
  lemma MaskedReadIsNotSaved(file: Yaml, valid: bool)
    requires ReadDocument(file).1
    ensures WriteDocument(Some(file), ReadDocument(file).0, valid) == PlaceholderLeft
  {
    MaskedIffPlaceholder(OrEmpty(file));
  }

  /** A file that is read and saved as shown comes back as it was if and only if it hides no secret and does
      not hold the placeholder itself. */
  lemma SavedAsShownIffNothingHidden(file: Yaml)
    requires WellFormed(file) && (file.Dict? || file.List?)
    ensures WriteDocument(Some(file), ReadDocument(file).0, true) == Saved(OrEmpty(file)) <==>
            !HasSecret(OrEmpty(file)) && !ContainsMasked(OrEmpty(file))
  {
    MaskedIffPlaceholder(OrEmpty(file));
    RestoreUndoesMask(OrEmpty(file));
  }

  /** A submission is saved as submitted if and only if none of its lists has outgrown the file's. */
  lemma SavedAsSubmittedIffListsFit(file: Yaml, incoming: Yaml)
    requires (incoming.Dict? || incoming.List?) && !ContainsMasked(incoming)
    ensures WriteDocument(Some(file), incoming, true) == Saved(incoming) <==> ListsFit(OrEmpty(file), incoming)
  {
    RestoreKeepsIffListsFit(OrEmpty(file), incoming);
  }

  /** What becomes of a submission: refused if it is neither mapping nor sequence, then if the placeholder stands
      anywhere in it, then if it is not valid, and saved otherwise; where there is no file yet, as it is. */
  lemma WriteOutcome(file: Option<Yaml>, incoming: Yaml, valid: bool)
    ensures var r := WriteDocument(file, incoming, valid);
      && (r == NotMappingOrSequence <==> !incoming.Dict? && !incoming.List?)
      && (r == PlaceholderLeft <==>
            && (incoming.Dict? || incoming.List?)
            && exists path: seq<nat> :: At(incoming, path) == Some(Str("***masked***")))
      && (r.Saved? ==> valid) && (r == Invalid ==> !valid)
      && (file.None? && r.Saved? ==> r.document == incoming)
  {
    PlaceholderIsSomewhere(incoming);
  }

  lemma {:induction false} PlaceholderIsSomewhere(d: Yaml)
    ensures ContainsMasked(d) <==> exists path: seq<nat> :: At(d, path) == Some(Str("***masked***"))
  {
    if ContainsMasked(d) {
      var path := PlaceholderPath(d);
    }
    if path: seq<nat> :| At(d, path) == Some(Str("***masked***")) {
      PathHoldsPlaceholder(d, path);
    }
  }

  lemma {:induction false} PlaceholderPath(d: Yaml) returns (path: seq<nat>)
    requires ContainsMasked(d)
    ensures At(d, path) == Some(Str("***masked***"))
  {
    match d
    case List(items) =>
      var i: nat :| i < |items| && ContainsMasked(items[i]);
      var rest := PlaceholderPath(items[i]);
      path := [i] + rest;
      assert path[1..] == rest;
    case Dict(entries) =>
      var i: nat :| i < |entries| && ContainsMasked(entries[i].value);
      var rest := PlaceholderPath(entries[i].value);
      path := [i] + rest;
      assert path[1..] == rest;
    case _ => path := [];
  }

  lemma {:induction false} PathHoldsPlaceholder(d: Yaml, path: seq<nat>)
    requires At(d, path) == Some(Str("***masked***"))
    ensures ContainsMasked(d)
    decreases |path|
  {
    if path != [] {
      if d.List? {
        PathHoldsPlaceholder(d.items[path[0]], path[1..]);
      } else {
        PathHoldsPlaceholder(d.entries[path[0]].value, path[1..]);
      }
    }
  }

  /** An empty file, or one that holds nothing but a null, a zero, false or an empty text or list, reads as an empty
      mapping and takes every submission as it is. */
  lemma EmptyFileTakesAnything(file: Yaml, incoming: Yaml)
    requires file in {Null, Bool(false), Int(0), Float(0.0), Str(""), List([]), Dict([])}
    requires (incoming.Dict? || incoming.List?) && !ContainsMasked(incoming)
    ensures ReadDocument(file) == (Dict([]), false)
    ensures WriteDocument(Some(file), incoming, true) == Saved(incoming)
  {
    SavedAsSubmittedIffListsFit(file, incoming);
    assert OrEmpty(file) == Dict([]) && Mask(Dict([])).entries == [];
  }
}
