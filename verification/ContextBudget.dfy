/** coordinator/brief.py: sanitize_page_context with its length budget, and the length of what comes out. */
module ContextBudget {
  import opened Prelude
  import opened Json
  import opened PageContext
  import opened ContextEntries
  import opened Greedy

  // ------------------------------------------------------------------ one entry in the budget

  predicate Broken(e: Entry) {
    Dump(Dict([e])).None?
  }

  /** json.dumps({name: value})[1:-1], or the stand-in when that raises. */
  function Piece(e: Entry): string {
    var d := Dump(Dict([e]));
    if d.Some? then d.value[1..|d.value| - 1] else "\"" + e.key + "\":\"" + UNSERIALIZABLE + "\""
  }

  /** The entry as it goes into the result. */
  function Written(e: Entry): Entry {
    if Broken(e) then Entry(e.key, Str(UNSERIALIZABLE)) else e
  }

  function WrittenAll(entries: seq<Entry>): seq<Entry> {
    seq(|entries|, i requires 0 <= i < |entries| => Written(entries[i]))
  }

  function PieceLength(e: Entry): nat {
    |Piece(e)|
  }

  const MARKER := Entry(TRUNCATED_KEY, Bool(true))

  function Slice(cleaned: seq<Entry>, limit: nat): seq<Entry> {
    var kept := Kept(PieceLength, cleaned, limit);
    WrittenAll(kept) + if |kept| < |cleaned| then [MARKER] else []
  }

  function Limit(maxChars: int): (limit: nat)
    ensures maxChars <= limit && limit in {0, maxChars}
  {
    if maxChars < 0 then 0 else maxChars
  }

  /** What stands in the slice: the kept entries in order, each as it is if json can write it, and with the stand-in
      for its value if not; and after them at most the marker. */
  lemma SliceHolds(cleaned: seq<Entry>, limit: nat, i: nat)
    requires i < |Slice(cleaned, limit)|
    ensures var kept, slice := Kept(PieceLength, cleaned, limit), Slice(cleaned, limit);
      && |kept| <= |slice| <= |kept| + 1
      && slice[i] ==
         if i == |kept| then Entry("_truncated", Bool(true))
         else if Dump(kept[i].value).Some? then kept[i]
         else Entry(kept[i].key, Str("<unserializable>"))
  {
    var kept := Kept(PieceLength, cleaned, limit);
    if i < |kept| {
      DumpSingle(kept[i]);
    }
  }

  // ------------------------------------------------------------------ the loops

  lemma MappedIsWritten(entries: seq<Entry>)
    ensures Mapped(Written, entries) == WrittenAll(entries)
  {
  }

  /** max_chars below 0 counts as 0. */
  method Truncate(cleaned: seq<Entry>, maxChars: int) returns (result: seq<Entry>)
    ensures result == Slice(cleaned, Limit(maxChars))
  {
    var truncated: bool;
    result, truncated := KeepWhatFits(PieceLength, Written, cleaned, Limit(maxChars));
    MappedIsWritten(Kept(PieceLength, cleaned, Limit(maxChars)));
    if truncated {
      result := result + [MARKER];
    } else {
      assert result + [] == result;
    }
  }

  /** raw is none when it is not a dict. */
  method SanitizePageContext(py: Python, raw: Option<seq<Entry>>, maxChars: int) returns (result: seq<Entry>)
    ensures raw.None? ==> result == []
    ensures raw.Some? ==> result == Slice(Cleaned(py, SortByKey(raw.value)), Limit(maxChars))
  {
    if raw.None? || raw.value == [] {
      return [];
    }
    var sorted := SortByKey(raw.value);
    var cleaned: seq<Entry> := [];
    for i := 0 to |sorted|
      invariant cleaned == Cleaned(py, sorted[..i])
    {
      assert sorted[..i + 1][..i] == sorted[..i];
      var name := sorted[i].key;
      if name !in ALLOW_KEYS {
        continue;
      }
      if IsDenied(py, name) {
        continue;
      }
      cleaned := Put(cleaned, name, Sanitize(py, sorted[i].value, 1));
    }
    assert sorted[..|sorted|] == sorted;
    if cleaned == [] {
      return [];
    }
    result := Truncate(cleaned, maxChars);
  }

  // ------------------------------------------------------------------ the marker

  lemma WrittenKeepsKeys(entries: seq<Entry>)
    ensures Keys(WrittenAll(entries)) == Keys(entries)
  {
    var written := WrittenAll(entries);
    assert forall i | 0 <= i < |entries| :: written[i].key == entries[i].key;
  }

  /** The marker is there exactly if an entry was dropped; without it, every entry is there. */
  lemma {:induction false} MarkerIffDropped(cleaned: seq<Entry>, limit: nat)
    requires TRUNCATED_KEY !in Keys(cleaned)
    ensures TRUNCATED_KEY in Keys(Slice(cleaned, limit)) <==>
            exists e :: e in cleaned && e !in Kept(PieceLength, cleaned, limit)
    ensures TRUNCATED_KEY !in Keys(Slice(cleaned, limit)) <==> Slice(cleaned, limit) == WrittenAll(cleaned)
    requires forall i, j | 0 <= i < j < |cleaned| :: cleaned[i] != cleaned[j]
  {
    var kept, slice := Kept(PieceLength, cleaned, limit), Slice(cleaned, limit);
    KeptFits(PieceLength, cleaned, limit);
    DroppedIffFewer(PieceLength, cleaned, limit);
    WrittenKeepsKeys(cleaned);
    if |kept| < |cleaned| {
      assert slice[|kept|].key == TRUNCATED_KEY;
    } else {
      assert WrittenAll(cleaned) + [] == WrittenAll(cleaned);
    }
  }

  // ------------------------------------------------------------------ the length of the output

  function BrokenCount(entries: seq<Entry>): nat {
    if entries == [] then 0
    else BrokenCount(entries[..|entries| - 1]) + if Broken(entries[|entries| - 1]) then 1 else 0
  }

  lemma DumpSingle(e: Entry)
    ensures Dump(Dict([e])) == (match DumpEntry(e) case Some(m) => Some("{" + m + "}") case None => None)
    ensures DumpEntry(e).Some? ==> Piece(e) == DumpEntry(e).value
  {
    var es := [e];
    assert es[..0] == [];
    if DumpEntry(e).Some? {
      var m := DumpEntry(e).value;
      assert DumpEntries(es) == Some("" + "" + m);
      assert "" + "" + m == m;
      assert ("{" + m + "}")[1..|m| + 1] == m;
    }
  }

  // A piece has the length of the member it stands for; the stand-in lacks the blank after its colon.
  lemma WrittenLength(e: Entry)
    requires PlainText(e.key)
    ensures DumpEntry(Written(e)).Some?
    ensures |DumpEntry(Written(e)).value| == |Piece(e)| + if Broken(e) then 1 else 0
  {
    DumpSingle(e);
    if Broken(e) {
      PlainNeedsNoEscape(e.key);
      assert PlainText(UNSERIALIZABLE);
      PlainNeedsNoEscape(UNSERIALIZABLE);
    }
  }

  lemma DumpSnoc(entries: seq<Entry>, e: Entry)
    requires DumpEntries(entries).Some? && DumpEntry(e).Some?
    ensures DumpEntries(entries + [e]).Some?
    ensures |DumpEntries(entries + [e]).value| ==
            |DumpEntries(entries).value| + |DumpEntry(e).value| + if entries == [] then 0 else 2
  {
    var all := entries + [e];
    assert all[..|all| - 1] == entries && all[|all| - 1] == e;
  }

  predicate AllPlain(entries: seq<Entry>) {
    forall i | 0 <= i < |entries| :: PlainText(entries[i].key)
  }

  lemma BrokenCountWith(entries: seq<Entry>, e: Entry)
    ensures BrokenCount(entries + [e]) == BrokenCount(entries) + if Broken(e) then 1 else 0
  {
    var all := entries + [e];
    assert all[..|all| - 1] == entries && all[|all| - 1] == e;
  }

  lemma WrittenWith(entries: seq<Entry>, e: Entry)
    ensures WrittenAll(entries + [e]) == WrittenAll(entries) + [Written(e)]
  {
  }

  predicate LengthIsCharged(entries: seq<Entry>) {
    && DumpEntries(WrittenAll(entries)).Some?
    && |DumpEntries(WrittenAll(entries)).value| ==
       Total(PieceLength, entries) + BrokenCount(entries) + if entries == [] then 0 else 2 * (|entries| - 1)
  }

  lemma LengthWith(entries: seq<Entry>, e: Entry)
    requires LengthIsCharged(entries) && PlainText(e.key)
    ensures LengthIsCharged(entries + [e])
  {
    WrittenLength(e);
    WrittenWith(entries, e);
    DumpSnoc(WrittenAll(entries), Written(e));
    TotalWith(PieceLength, entries, e);
    BrokenCountWith(entries, e);
  }

  lemma {:induction false} WrittenLengths(entries: seq<Entry>)
    requires AllPlain(entries)
    ensures LengthIsCharged(entries)
  {
    if entries == [] {
      assert WrittenAll(entries) == [];
    } else {
      var front, last := entries[..|entries| - 1], entries[|entries| - 1];
      assert entries == front + [last];
      WrittenLengths(front);
      LengthWith(front, last);
    }
  }

  lemma PlainPart(entries: seq<Entry>, kept: seq<Entry>)
    requires AllPlain(entries) && forall e :: e in kept ==> e in entries
    ensures AllPlain(kept)
  {
    forall i | 0 <= i < |kept| ensures PlainText(kept[i].key) {
      assert kept[i] in entries;
    }
  }

  lemma QuotedLength(s: string)
    requires PlainText(s)
    ensures |Quote(s)| == |s| + 2
  {
    PlainNeedsNoEscape(s);
  }

  lemma MarkerIsPlain()
    ensures PlainText(TRUNCATED_KEY) && |TRUNCATED_KEY| == 10
  {
  }

  lemma FlagLength(key: string)
    requires PlainText(key)
    ensures DumpEntry(Entry(key, Bool(true))).Some? && |DumpEntry(Entry(key, Bool(true))).value| == |key| + 8
  {
    QuotedLength(key);
  }

  lemma MarkerLength()
    ensures DumpEntry(MARKER).Some? && |DumpEntry(MARKER).value| == 18
  {
    MarkerIsPlain();
    FlagLength(TRUNCATED_KEY);
  }

  lemma KeptIsCharged(cleaned: seq<Entry>, limit: nat)
    requires AllPlain(cleaned)
    ensures LengthIsCharged(Kept(PieceLength, cleaned, limit))
  {
    var kept := Kept(PieceLength, cleaned, limit);
    KeptFits(PieceLength, cleaned, limit);
    PlainPart(cleaned, kept);
    WrittenLengths(kept);
  }

  lemma LengthWithMarker(kept: seq<Entry>)
    requires LengthIsCharged(kept)
    ensures DumpEntries(WrittenAll(kept) + [MARKER]).Some?
    ensures |DumpEntries(WrittenAll(kept) + [MARKER]).value| ==
            |DumpEntries(WrittenAll(kept)).value| + if kept == [] then 18 else 20
  {
    MarkerLength();
    DumpSnoc(WrittenAll(kept), MARKER);
  }

  lemma DumpBraces(entries: seq<Entry>)
    requires DumpEntries(entries).Some?
    ensures Dump(Dict(entries)).Some? && |Dump(Dict(entries)).value| == |DumpEntries(entries).value| + 2
  {
  }

  /** What the loop does not charge: a blank for each stand-in and for each separator, and the marker. */
  function Uncharged(cleaned: seq<Entry>, limit: nat): nat {
    var kept := Kept(PieceLength, cleaned, limit);
    BrokenCount(kept) + (if kept == [] then 0 else |kept| - 1)
    + if |kept| >= |cleaned| then 0 else if kept == [] then 18 else 20
  }

  /** The output can always be written, and its length is what was charged, one more for each further
      separator, one for each stand-in, and the marker. */
  lemma {:induction false} OutputLength(cleaned: seq<Entry>, limit: nat)
    requires AllPlain(cleaned)
    ensures Dump(Dict(Slice(cleaned, limit))).Some?
    ensures |Dump(Dict(Slice(cleaned, limit))).value| ==
            Used(PieceLength, Kept(PieceLength, cleaned, limit)) + Uncharged(cleaned, limit)
  {
    var kept := Kept(PieceLength, cleaned, limit);
    KeptIsCharged(cleaned, limit);
    if |kept| < |cleaned| {
      LengthWithMarker(kept);
    } else {
      assert WrittenAll(kept) + [] == WrittenAll(kept);
    }
    DumpBraces(Slice(cleaned, limit));
  }

  lemma AllowedKeysArePlain(key: string)
    requires key in ALLOW_KEYS
    ensures PlainText(key) && key != TRUNCATED_KEY
  {
    assert TRUNCATED_KEY[0] == '_';
  }

  function Output(py: Python, raw: seq<Entry>, maxChars: int): seq<Entry> {
    Slice(Cleaned(py, SortByKey(raw)), Limit(maxChars))
  }

  lemma CleanedIsPlain(py: Python, raw: seq<Entry>)
    ensures AllPlain(Cleaned(py, SortByKey(raw))) && |Cleaned(py, SortByKey(raw))| <= 8
    ensures TRUNCATED_KEY !in Keys(Cleaned(py, SortByKey(raw)))
  {
    CleanedIsTheAllowedPart(py, raw);
    var cleaned := Cleaned(py, SortByKey(raw));
    forall i | 0 <= i < |cleaned| ensures PlainText(cleaned[i].key) && cleaned[i].key != TRUNCATED_KEY {
      AllowedKeysArePlain(cleaned[i].key);
    }
  }

  /** The exact condition: the text keeps to max_chars if and only if what the kept entries have left of it covers
      the stand-ins, separators and marker that are not charged. */
  lemma {:induction false} FitsIffUnchargedIsCovered(py: Python, raw: seq<Entry>, maxChars: int)
    ensures var cleaned, limit := Cleaned(py, SortByKey(raw)), Limit(maxChars);
      && Dump(Dict(Output(py, raw, maxChars))).Some?
      && (|Dump(Dict(Output(py, raw, maxChars))).value| <= limit <==>
            Uncharged(cleaned, limit) <= limit - Used(PieceLength, Kept(PieceLength, cleaned, limit)))
  {
    CleanedIsPlain(py, raw);
    OutputLength(Cleaned(py, SortByKey(raw)), Limit(maxChars));
  }

  /** For every page context and every max_chars, the JSON text of the slice is at most 26 characters over
      the limit, and one more for every value that json could not write; the 26 are reached exactly if seven
      of eight entries use up the limit. */
  lemma {:induction false} LengthBudget(py: Python, raw: seq<Entry>, maxChars: int)
    ensures Dump(Dict(Output(py, raw, maxChars))).Some?
    ensures |Dump(Dict(Output(py, raw, maxChars))).value| <=
            Limit(maxChars) + 26 + BrokenCount(Kept(PieceLength, Cleaned(py, SortByKey(raw)), Limit(maxChars)))
    ensures |Dump(Dict(Output(py, raw, maxChars))).value| ==
            Limit(maxChars) + 26 + BrokenCount(Kept(PieceLength, Cleaned(py, SortByKey(raw)), Limit(maxChars)))
            <==>
            var cleaned := Cleaned(py, SortByKey(raw));
            var kept := Kept(PieceLength, cleaned, Limit(maxChars));
            |cleaned| == 8 && |kept| == 7 && Used(PieceLength, kept) == Limit(maxChars)
  {
    var cleaned, limit := Cleaned(py, SortByKey(raw)), Limit(maxChars);
    CleanedIsPlain(py, raw);
    OutputLength(cleaned, limit);
    KeptFits(PieceLength, cleaned, limit);
    assert Used(PieceLength, []) == 2;
  }

  lemma MarkerMeansDropped(cleaned: seq<Entry>, limit: nat)
    requires TRUNCATED_KEY !in Keys(cleaned) && TRUNCATED_KEY in Keys(Slice(cleaned, limit))
    ensures |Kept(PieceLength, cleaned, limit)| < |cleaned|
  {
    KeptFits(PieceLength, cleaned, limit);
    WrittenKeepsKeys(cleaned);
    assert WrittenAll(cleaned) + [] == WrittenAll(cleaned);
  }

  /** max_chars is not a bound: under 20 it is always exceeded when something is dropped, because the marker
      itself is not charged. */
  lemma {:induction false} MarkerOverruns(py: Python, raw: seq<Entry>, maxChars: int)
    requires maxChars < 20 && TRUNCATED_KEY in Keys(Output(py, raw, maxChars))
    ensures Dump(Dict(Output(py, raw, maxChars))).Some?
    ensures |Dump(Dict(Output(py, raw, maxChars))).value| > Limit(maxChars)
  {
    var cleaned, limit := Cleaned(py, SortByKey(raw)), Limit(maxChars);
    CleanedIsPlain(py, raw);
    OutputLength(cleaned, limit);
    MarkerMeansDropped(cleaned, limit);
    KeptFits(PieceLength, cleaned, limit);
  }

  /** The marker in the slice of a page context. */
  lemma {:induction false} MarkerInOutput(py: Python, raw: seq<Entry>, maxChars: int)
    ensures var cleaned := Cleaned(py, SortByKey(raw));
            && (TRUNCATED_KEY in Keys(Output(py, raw, maxChars)) <==>
                exists e :: e in cleaned && e !in Kept(PieceLength, cleaned, Limit(maxChars)))
            && (TRUNCATED_KEY !in Keys(Output(py, raw, maxChars)) <==>
                Output(py, raw, maxChars) == WrittenAll(cleaned))
  {
    var cleaned := Cleaned(py, SortByKey(raw));
    CleanedIsTheAllowedPart(py, raw);
    CleanedIsPlain(py, raw);
    MarkerIffDropped(cleaned, Limit(maxChars));
  }
}
