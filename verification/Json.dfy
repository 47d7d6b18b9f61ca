/** Python values as coordinator/brief.py meets them, and the text json.dumps gives them with
    ensure_ascii=False and the default separators ", " and ": ". */
module Json {
  import opened Prelude

  datatype Kind = ListKind | TupleKind | SetKind

  /** Number carries its JSON text, or none if json refuses to write it (an int of too many digits).
      Keys of a dict are given as text. Other is any object of another type. */
  datatype Value =
    | Null
    | Bool(b: bool)
    | Number(text: Option<string>)
    | Str(s: string)
    | Dict(entries: seq<Entry>)
    | Many(kind: Kind, items: seq<Value>)
    | Other(id: int)

  datatype Entry = Entry(key: string, value: Value)

  function HexDigit(n: nat): char
    requires n < 16
  {
    if n < 10 then '0' + n as char else 'a' + (n - 10) as char
  }

  function EscapeChar(c: char): string {
    match c
    case '\"' => ['\\', '\"']
    case '\\' => ['\\', '\\']
    case '\n' => ['\\', 'n']
    case '\r' => ['\\', 'r']
    case '\t' => ['\\', 't']
    case _ =>
      if c == 8 as char then ['\\', 'b']
      else if c == 12 as char then ['\\', 'f']
      else if c < ' ' then ['\\', 'u', '0', '0', HexDigit(c as int / 16), HexDigit(c as int % 16)]
      else [c]
  }

  function Escape(s: string): string {
    if s == "" then "" else EscapeChar(s[0]) + Escape(s[1..])
  }

  function Quote(s: string): string {
    ['\"'] + Escape(s) + ['\"']
  }

  /** What json.dumps returns, or none if it raises. */
  function Dump(v: Value): Option<string> {
    match v
    case Null => Some("null")
    case Bool(b) => Some(if b then "true" else "false")
    case Number(text) => text
    case Str(s) => Some(Quote(s))
    case Dict(entries) =>
      var inner := DumpEntries(entries);
      if inner.Some? then Some("{" + inner.value + "}") else None
    case Many(kind, items) =>
      var inner := DumpItems(items);
      if kind != SetKind && inner.Some? then Some("[" + inner.value + "]") else None
    case Other(_) => None
  }

  /** The entries with ", " between them. */
  function DumpEntries(entries: seq<Entry>): Option<string> {
    if entries == [] then Some("")
    else
      var init := DumpEntries(entries[..|entries| - 1]);
      var member := DumpEntry(entries[|entries| - 1]);
      if init.None? || member.None? then None
      else Some(init.value + (if |entries| == 1 then "" else ", ") + member.value)
  }

  function DumpEntry(e: Entry): Option<string> {
    var text := Dump(e.value);
    if text.Some? then Some(Quote(e.key) + ": " + text.value) else None
  }

  function DumpItems(items: seq<Value>): Option<string> {
    if items == [] then Some("")
    else
      var init := DumpItems(items[..|items| - 1]);
      var item := Dump(items[|items| - 1]);
      if init.None? || item.None? then None
      else Some(init.value + (if |items| == 1 then "" else ", ") + item.value)
  }

  predicate PlainChar(c: char) {
    'a' <= c <= 'z' || 'A' <= c <= 'Z' || c in {'_', '<', '>'}
  }

  predicate PlainText(s: string) {
    forall i | 0 <= i < |s| :: PlainChar(s[i])
  }

  lemma {:induction false} PlainNeedsNoEscape(s: string)
    requires PlainText(s)
    ensures Escape(s) == s
  {
    if s != "" {
      assert PlainChar(s[0]);
      PlainNeedsNoEscape(s[1..]);
    }
  }
}
