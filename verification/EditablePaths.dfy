/** config_manager/file_service.py: which files the whitelist and the read-only list name. */
module EditablePaths {
  import opened Patterns = Glob

  // ------------------------------------------------------------------ stretches of a pattern

  /** A literal stretch of a pattern takes itself and nothing else. */
  lemma {:induction false} LiteralPart(pattern: string, i: nat, n: nat, path: string)
    requires i + n <= |pattern| && Literal(pattern[i..i + n])
    ensures Glob(pattern, i, path) <==> pattern[i..i + n] <= path && Glob(pattern, i + n, path[n..])
    decreases n
  {
    if n > 0 {
      var part := pattern[i..i + n];
      assert part[0] == pattern[i] && pattern[i] in part;
      assert part[1..] == pattern[i + 1..i + n] && part == [part[0]] + part[1..];
      if path != [] && path[0] == pattern[i] {
        LiteralPart(pattern, i + 1, n - 1, path[1..]);
        assert path == [path[0]] + path[1..];
        assert n <= |path| ==> path[1..][n - 1..] == path[n..];
      }
    }
  }

  predicate NoSlash(s: string) {
    '/' !in s
  }

  /** The first n characters hold no slash, and the pattern goes on behind them. */
  ghost predicate StarTakes(pattern: string, i: nat, path: string, n: nat)
    requires i < |pattern|
  {
    n <= |path| && NoSlash(path[..n]) && Glob(pattern, i + 1, path[n..])
  }

  lemma StarTakesMore(pattern: string, i: nat, path: string, n: nat)
    requires i < |pattern| && path != [] && path[0] != '/'
    ensures StarTakes(pattern, i, path, n + 1) <==> StarTakes(pattern, i, path[1..], n)
  {
    if n < |path| {
      assert path[..n + 1] == [path[0]] + path[1..][..n];
      assert path[1..][n..] == path[n + 1..];
    }
  }

  lemma StarTakesNone(pattern: string, i: nat, path: string)
    requires i < |pattern|
    ensures StarTakes(pattern, i, path, 0) <==> Glob(pattern, i + 1, path)
  {
    assert path[0..] == path;
  }

  lemma StarStops(pattern: string, i: nat, path: string, n: nat)
    requires i < |pattern| && 0 < n && StarTakes(pattern, i, path, n)
    ensures path[0] != '/'
  {
    assert path[..n][0] == path[0];
  }

  /** One star takes a stretch without a slash. */
  lemma {:induction false} StarPart(pattern: string, i: nat, path: string)
    requires i < |pattern| && Scan(pattern, i) == (SegRun, i + 1)
    ensures Glob(pattern, i, path) <==> exists n: nat :: StarTakes(pattern, i, path, n)
    decreases |path|
  {
    GlobByPiece(pattern, i, path);
    StarTakesNone(pattern, i, path);
    if path != [] && path[0] != '/' {
      StarPart(pattern, i, path[1..]);
      if n: nat :| StarTakes(pattern, i, path[1..], n) {
        StarTakesMore(pattern, i, path, n);
      }
      if n: nat :| StarTakes(pattern, i, path, n) && 0 < n {
        StarTakesMore(pattern, i, path, n - 1);
      }
    } else if n: nat :| StarTakes(pattern, i, path, n) && 0 < n {
      StarStops(pattern, i, path, n);
    }
  }

  /** Two stars take any stretch. */
  lemma {:induction false} StarsPart(pattern: string, i: nat, next: nat, path: string)
    requires i < |pattern| && Scan(pattern, i) == (AnyRun, next)
    ensures Glob(pattern, i, path) <==> exists n | 0 <= n <= |path| :: Glob(pattern, next, path[n..])
    decreases |path|
  {
    GlobByPiece(pattern, i, path);
    assert path[0..] == path;
    if path != [] {
      var rest := path[1..];
      StarsPart(pattern, i, next, rest);
      forall n: nat | n <= |rest| ensures rest[n..] == path[n + 1..] {
      }
      if n :| 0 <= n <= |rest| && Glob(pattern, next, rest[n..]) {
        assert Glob(pattern, next, path[n + 1..]);
      }
      if n :| 0 < n <= |path| && Glob(pattern, next, path[n..]) {
        assert Glob(pattern, next, rest[n - 1..]);
      }
    }
    if Glob(pattern, next, path) {
      assert Glob(pattern, next, path[0..]);
    }
  }

  // ------------------------------------------------------------------ whole patterns

  lemma LiteralToEnd(pattern: string, i: nat, path: string)
    requires i <= |pattern| && Literal(pattern[i..])
    ensures Glob(pattern, i, path) <==> path == pattern[i..]
  {
    var n := |pattern| - i;
    assert pattern[i..i + n] == pattern[i..];
    LiteralPart(pattern, i, n, path);
    if pattern[i..] <= path && path[n..] == [] {
      assert path == path[..n] + path[n..];
    }
    if path == pattern[i..] {
      assert path[n..] == [];
    }
  }

  /** A pattern without wildcards names one file. */
  lemma NamesOne(pattern: string, path: string)
    requires Literal(pattern)
    ensures Glob(pattern, 0, path) <==> path == pattern
  {
    assert pattern[0..] == pattern;
    LiteralToEnd(pattern, 0, path);
  }

  /** The path is head, a stretch without a slash, tail. */
  ghost predicate Between(path: string, head: string, tail: string) {
    exists mid: string :: NoSlash(mid) && path == head + mid + tail
  }

  lemma StarThenLiteral(pattern: string, i: nat, rest: string)
    requires i < |pattern| && pattern[i] == '*' && Literal(pattern[i + 1..])
    ensures Glob(pattern, i, rest) <==> Between(rest, "", pattern[i + 1..])
  {
    var tail := pattern[i + 1..];
    assert i + 1 < |pattern| ==> tail[0] == pattern[i + 1] && tail[0] in tail;
    StarPart(pattern, i, rest);
    forall n: nat | n <= |rest| ensures Glob(pattern, i + 1, rest[n..]) <==> rest[n..] == tail {
      LiteralToEnd(pattern, i + 1, rest[n..]);
    }
    if n: nat :| StarTakes(pattern, i, rest, n) {
      assert rest == "" + rest[..n] + tail;
    }
    if mid: string :| NoSlash(mid) && rest == "" + mid + tail {
      assert rest[..|mid|] == mid && rest[|mid|..] == tail;
      assert StarTakes(pattern, i, rest, |mid|);
    }
  }

  lemma BetweenBelow(path: string, head: string, tail: string)
    ensures Between(path, head, tail) <==> head <= path && Between(path[|head|..], "", tail)
  {
    if mid: string :| NoSlash(mid) && path == head + mid + tail {
      assert path[|head|..] == "" + mid + tail;
    }
    if head <= path {
      if mid: string :| NoSlash(mid) && path[|head|..] == "" + mid + tail {
        assert path == head + path[|head|..];
        assert path == head + mid + tail;
      }
    }
  }

  /** A pattern with one star names the files between its two halves. */
  lemma NamesBetween(head: string, tail: string, path: string)
    requires Literal(head) && Literal(tail)
    ensures Glob(head + "*" + tail, 0, path) <==> Between(path, head, tail)
  {
    var pattern, star := head + "*" + tail, |head|;
    assert pattern[0..0 + star] == head && pattern[star] == '*' && pattern[star + 1..] == tail;
    LiteralPart(pattern, 0, star, path);
    BetweenBelow(path, head, tail);
    if star <= |path| {
      StarThenLiteral(pattern, star, path[star..]);
    }
  }

  // ------------------------------------------------------------------ the one pattern with two stars and options

  const FACTS := "memory/facts/**/*.{yaml,md}"

  predicate Ordinary(s: string) {
    forall i | 0 <= i < |s| :: 'a' <= s[i] <= 'z' || s[i] == '/' || s[i] == '.' || s[i] == '-'
  }

  lemma OrdinaryIsLiteral(s: string)
    requires Ordinary(s)
    ensures Literal(s)
  {
  }

  const KINDS := ["yaml", "md"]

  /** How such a pattern is scanned. */
  ghost predicate Shape(pattern: string, head: string, options: seq<string>) {
    var i := |head|;
    && i + 5 < |pattern| && Literal(head) && pattern[0..0 + i] == head
    && Scan(pattern, i) == (AnyRun, i + 3) && Scan(pattern, i + 3) == (SegRun, i + 4)
    && Scan(pattern, i + 4) == (Char('.'), i + 5) && Scan(pattern, i + 5) == (Alt(options), |pattern|)
    && (forall k | 0 <= k < |pattern| && pattern[k] == '{' :: k == i + 5)
    && (forall o | o in options :: PlainOption(o))
  }

  lemma ScanStars(pattern: string, i: nat)
    requires i + 3 < |pattern| && pattern[i] == '*' && pattern[i + 1] == '*' && pattern[i + 2] == '/'
    ensures Scan(pattern, i) == (AnyRun, i + 3)
  {
  }

  lemma ScanStar(pattern: string, i: nat)
    requires i + 1 < |pattern| && pattern[i] == '*' && pattern[i + 1] != '*'
    ensures Scan(pattern, i) == (SegRun, i + 1)
  {
  }

  lemma ScanBrace(pattern: string, i: nat, body: string)
    requires i + |body| + 2 == |pattern| && pattern[i] == '{' && pattern[|pattern| - 1] == '}'
    requires pattern[i + 1..|pattern| - 1] == body && '}' !in body
    ensures Scan(pattern, i) == (Alt(Split(body, ',')), |pattern|)
  {
    var end := |pattern| - 1;
    forall j | i <= j < end ensures pattern[j] != '}' {
      assert i < j ==> body[j - i - 1] == pattern[j];
    }
    FindFirst(pattern, '}', i, end);
  }

  lemma FactsText()
    ensures |FACTS| == 27 && FACTS[0..0 + 13] == "memory/facts/" && FACTS[19..26] == "yaml,md"
    ensures FACTS[18] == '{' && FACTS[26] == '}'
    ensures FACTS[13] == '*' && FACTS[14] == '*' && FACTS[15] == '/' && FACTS[16] == '*' && FACTS[17] == '.'
  {
  }

  lemma FactsHasOneBrace()
    ensures |FACTS| == 27 && forall k | 0 <= k < |FACTS| && FACTS[k] == '{' :: k == 18
  {
  }

  lemma OptionsSplit()
    ensures Split("yaml,md", ',') == KINDS
  {
    var s := "yaml,md";
    assert s[0..4] == "yaml" && s[..4] == "yaml" && s[5..] == "md";
    FindFirst(s, ',', 0, 4);
    FindFirst("md", ',', 0, 2);
    assert Split("md", ',') == ["md"];
  }

  lemma KindsArePlain()
    ensures forall o | o in KINDS :: PlainOption(o)
    ensures Literal("memory/facts/") && '}' !in "yaml,md"
  {
    OrdinaryIsLiteral("memory/facts/");
  }

  lemma ShapeOf(pattern: string, head: string, body: string)
    requires |pattern| == |head| + 5 + |body| + 2 && Literal(head) && pattern[0..0 + |head|] == head && '}' !in body
    requires pattern[|head|] == '*' && pattern[|head| + 1] == '*' && pattern[|head| + 2] == '/'
    requires pattern[|head| + 3] == '*' && pattern[|head| + 4] == '.'
    requires pattern[|head| + 5] == '{' && pattern[|pattern| - 1] == '}'
    requires pattern[|head| + 6..|pattern| - 1] == body
    requires forall k | 0 <= k < |pattern| && pattern[k] == '{' :: k == |head| + 5
    requires forall o | o in Split(body, ',') :: PlainOption(o)
    ensures Shape(pattern, head, Split(body, ','))
  {
    var i := |head|;
    ScanStars(pattern, i);
    ScanStar(pattern, i + 3);
    ScanBrace(pattern, i + 5, body);
    assert Scan(pattern, i + 4) == (Char('.'), i + 5);
  }

  lemma FactsShape()
    ensures Shape(FACTS, "memory/facts/", KINDS)
  {
    FactsText();
    FactsHasOneBrace();
    KindsArePlain();
    OptionsSplit();
    ShapeOf(FACTS, "memory/facts/", "yaml,md");
  }

  lemma WholeOption(pattern: string, option: string, path: string)
    ensures option <= path && Glob(pattern, |pattern|, path[|option|..]) <==> path == option
  {
    if option <= path && path[|option|..] == [] {
      assert path == path[..|option|] + path[|option|..];
    }
    if path == option {
      assert path[|option|..] == [];
    }
  }

  /** A brace at the end of a pattern takes one of its options. */
  lemma OptionsAtEnd(pattern: string, i: nat, options: seq<string>, path: string)
    requires i < |pattern| && Scan(pattern, i) == (Alt(options), |pattern|)
    ensures Glob(pattern, i, path) <==> path in options
  {
    GlobByPiece(pattern, i, path);
    forall k | 0 <= k < |options|
      ensures options[k] <= path && Glob(pattern, |pattern|, path[|options[k]|..]) <==> path == options[k]
    {
      WholeOption(pattern, options[k], path);
    }
  }

  /** The rest of a path is a dot and one of the options. */
  predicate DotOption(rest: string, options: seq<string>) {
    rest != [] && rest[0] == '.' && rest[1..] in options
  }

  lemma DotThenOptions(pattern: string, i: nat, options: seq<string>, path: string)
    requires i + 1 < |pattern| && Scan(pattern, i) == (Char('.'), i + 1)
    requires Scan(pattern, i + 1) == (Alt(options), |pattern|)
    ensures Glob(pattern, i, path) <==> DotOption(path, options)
  {
    GlobByPiece(pattern, i, path);
    if path != [] {
      OptionsAtEnd(pattern, i + 1, options, path[1..]);
    }
  }

  predicate EndsSo(path: string, n: nat, options: seq<string>) {
    n <= |path| && DotOption(path[n..], options)
  }

  lemma StarDotOptions(pattern: string, i: nat, options: seq<string>, path: string)
    requires i + 2 < |pattern| && Scan(pattern, i) == (SegRun, i + 1) && Scan(pattern, i + 1) == (Char('.'), i + 2)
    requires Scan(pattern, i + 2) == (Alt(options), |pattern|)
    ensures Glob(pattern, i, path) ==> exists n: nat :: EndsSo(path, n, options)
    ensures DotOption(path, options) ==> Glob(pattern, i, path)
  {
    StarPart(pattern, i, path);
    if n: nat :| StarTakes(pattern, i, path, n) {
      DotThenOptions(pattern, i + 1, options, path[n..]);
      assert EndsSo(path, n, options);
    }
    if DotOption(path, options) {
      DotThenOptions(pattern, i + 1, options, path);
      StarTakesNone(pattern, i, path);
    }
  }

  /** Two stars, a slash, a star, a dot and options: any file of one of these kinds, at any depth. */
  lemma AnyDepth(pattern: string, i: nat, options: seq<string>, path: string)
    requires i + 5 < |pattern| && Scan(pattern, i) == (AnyRun, i + 3) && Scan(pattern, i + 3) == (SegRun, i + 4)
    requires Scan(pattern, i + 4) == (Char('.'), i + 5) && Scan(pattern, i + 5) == (Alt(options), |pattern|)
    ensures Glob(pattern, i, path) <==> exists n: nat :: EndsSo(path, n, options)
  {
    StarsPart(pattern, i, i + 3, path);
    if n :| 0 <= n <= |path| && Glob(pattern, i + 3, path[n..]) {
      StarDotOptions(pattern, i + 3, options, path[n..]);
      var m: nat :| EndsSo(path[n..], m, options);
      assert path[n..][m..] == path[n + m..];
      assert EndsSo(path, n + m, options);
    }
    if n: nat :| EndsSo(path, n, options) {
      StarDotOptions(pattern, i + 3, options, path[n..]);
      assert Glob(pattern, i + 3, path[n..]);
    }
  }

  /** The path starts with head and ends in .yaml or .md. */
  ghost predicate Document(path: string, head: string) {
    exists mid: string :: path == head + mid + ".yaml" || path == head + mid + ".md"
  }

  lemma EndsInOption(rest: string)
    ensures (exists n: nat :: EndsSo(rest, n, ["yaml", "md"])) <==> Document(rest, "")
  {
    if n: nat :| EndsSo(rest, n, ["yaml", "md"]) {
      var mid, kind := rest[..n], rest[n..][1..];
      assert rest[n..] == "." + kind && rest == "" + mid + ("." + kind);
      assert "." + "yaml" == ".yaml" && "." + "md" == ".md";
      assert rest == "" + mid + ".yaml" || rest == "" + mid + ".md";
    }
    if mid: string :| rest == "" + mid + ".yaml" || rest == "" + mid + ".md" {
      var kind := rest[|mid|..];
      assert kind == ".yaml" || kind == ".md";
      assert kind[1..] == "yaml" || kind[1..] == "md";
      assert EndsSo(rest, |mid|, ["yaml", "md"]);
    }
  }

  lemma DocumentBelow(path: string, head: string)
    ensures Document(path, head) <==> head <= path && Document(path[|head|..], "")
  {
    if mid: string :| path == head + mid + ".yaml" || path == head + mid + ".md" {
      assert path[|head|..] == "" + mid + ".yaml" || path[|head|..] == "" + mid + ".md";
    }
    if head <= path {
      if mid: string :| path[|head|..] == "" + mid + ".yaml" || path[|head|..] == "" + mid + ".md" {
        assert path == head + path[|head|..];
        assert path == head + mid + ".yaml" || path == head + mid + ".md";
      }
    }
  }

  lemma NamesDocuments(pattern: string, head: string, path: string)
    requires Shape(pattern, head, ["yaml", "md"])
    ensures Glob(pattern, 0, path) <==> Document(path, head)
  {
    LiteralPart(pattern, 0, |head|, path);
    DocumentBelow(path, head);
    if |head| <= |path| {
      AnyDepth(pattern, |head|, ["yaml", "md"], path[|head|..]);
      EndsInOption(path[|head|..]);
    }
  }

  lemma {:induction false} OneBraceIsPlain(pattern: string, i: nat, b: nat, options: seq<string>)
    requires i <= |pattern| && b < |pattern| && Scan(pattern, b).0 == Alt(options)
    requires forall k | i <= k < |pattern| && pattern[k] == '{' :: k == b
    requires forall o | o in options :: PlainOption(o)
    ensures PlainOptions(CompileFrom(pattern, i))
    decreases |pattern| - i
  {
    if i < |pattern| {
      OneBraceIsPlain(pattern, Scan(pattern, i).1, b, options);
    }
  }

  // ------------------------------------------------------------------ the two lists

  /** The pattern is compiled to something that accepts the path. */
  ghost predicate Takes(pattern: string, path: string) {
    Accepts(CompileFrom(pattern, 0), path)
  }

  lemma PlainTakes(pattern: string, path: string)
    requires '{' !in pattern && '\n' !in path
    ensures Takes(pattern, path) <==> Glob(pattern, 0, path)
  {
    NoBracesIsPlain(pattern, 0);
    CompiledAcceptsGlob(pattern);
  }

  lemma FileTaken(file: string, path: string)
    requires Literal(file) && '\n' !in path
    ensures Takes(file, path) <==> path == file
  {
    PlainTakes(file, path);
    NamesOne(file, path);
  }

  lemma BetweenTaken(head: string, tail: string, path: string)
    requires Literal(head) && Literal(tail) && '\n' !in path
    ensures Takes(head + "*" + tail, path) <==> Between(path, head, tail)
  {
    PlainTakes(head + "*" + tail, path);
    NamesBetween(head, tail, path);
  }

  lemma DocumentsTaken(pattern: string, head: string, path: string)
    requires Shape(pattern, head, ["yaml", "md"]) && '\n' !in path
    ensures Takes(pattern, path) <==> Document(path, head)
  {
    OneBraceIsPlain(pattern, 0, |head| + 5, ["yaml", "md"]);
    CompiledAcceptsGlob(pattern);
    NamesDocuments(pattern, head, path);
  }

  /** The path is head, one character that is no slash, tail. */
  ghost predicate OneBetween(path: string, head: string, tail: string) {
    exists c: char :: c != '/' && path == head + [c] + tail
  }

  lemma OneBetweenBelow(path: string, head: string, tail: string)
    ensures OneBetween(path, head, tail) <==>
            head < path && path[|head|] != '/' && path[|head| + 1..] == tail
  {
    if c: char :| c != '/' && path == head + [c] + tail {
      assert path[|head|] == c && path[|head| + 1..] == tail;
    }
    if head < path && path[|head| + 1..] == tail {
      assert path == head + [path[|head|]] + tail;
    }
  }

  /** A question mark takes any one character but a slash. */
  lemma OneCharacterTaken(head: string, tail: string, path: string)
    requires Literal(head) && Literal(tail) && '\n' !in path
    ensures Takes(head + "?" + tail, path) <==> OneBetween(path, head, tail)
  {
    var pattern, mark := head + "?" + tail, |head|;
    PlainTakes(pattern, path);
    OneBetweenBelow(path, head, tail);
    assert pattern[0..0 + mark] == head && pattern[mark] == '?' && pattern[mark + 1..] == tail;
    LiteralPart(pattern, 0, mark, path);
    if mark < |path| {
      LiteralToEnd(pattern, mark + 1, path[mark + 1..]);
      assert path[mark..][1..] == path[mark + 1..];
    }
  }

  /** What an operator may edit: five single files, the YAML files right in identity, memory and system, the prompts,
      and every YAML and Markdown file anywhere below memory/facts. */
  ghost predicate Editable(path: string) {
    || path in {"agent.yaml", "metadata.yaml", "memory/personality.md", "runtime/runtime.yaml",
                "skills/enabled-skills.yaml"}
    || Between(path, "identity/", ".yaml") || Between(path, "memory/", ".yaml") || Between(path, "system/", ".yaml")
    || Between(path, "runtime/prompts/", ".md") || Document(path, "memory/facts/")
  }

  ghost predicate Protected(path: string) {
    Between(path, "identity/", ".yaml") || path == "system/mcp-servers.yaml"
  }

  /** What one pattern of the lists names: a file, the files between two literals, or documents at any depth. */
  datatype Named = One(file: string) | Some(head: string, tail: string) | Documents(head: string, pattern: string)

  function PatternOf(named: Named): string {
    match named
    case One(file) => file
    case Some(head, tail) => head + "*" + tail
    case Documents(_, pattern) => pattern
  }

  ghost predicate Simple(named: Named) {
    match named
    case One(file) => Literal(file)
    case Some(head, tail) => Literal(head) && Literal(tail)
    case Documents(head, pattern) => Shape(pattern, head, ["yaml", "md"])
  }

  ghost predicate Names(named: Named, path: string) {
    match named
    case One(file) => path == file
    case Some(head, tail) => Between(path, head, tail)
    case Documents(head, _) => Document(path, head)
  }

  lemma NamedTaken(named: Named, path: string)
    requires Simple(named) && '\n' !in path
    ensures Takes(PatternOf(named), path) <==> Names(named, path)
  {
    match named
    case One(file) => FileTaken(file, path);
    case Some(head, tail) => BetweenTaken(head, tail, path);
    case Documents(head, pattern) => DocumentsTaken(pattern, head, path);
  }

  ghost predicate PatternsOf(patterns: seq<string>, names: seq<Named>) {
    && |patterns| == |names|
    && forall i | 0 <= i < |names| :: Simple(names[i]) && patterns[i] == PatternOf(names[i])
  }

  lemma ListTakes(patterns: seq<string>, names: seq<Named>, path: string)
    requires PatternsOf(patterns, names) && '\n' !in path
    ensures MatchesSome(patterns, path) <==> exists i | 0 <= i < |names| :: Names(names[i], path)
  {
    forall i | 0 <= i < |names| ensures Takes(patterns[i], path) <==> Names(names[i], path) {
      NamedTaken(names[i], path);
    }
    assert MatchesSome(patterns, path) <==> exists i | 0 <= i < |patterns| :: Takes(patterns[i], path);
  }

  const WHITELISTED: seq<Named> := [
    One("agent.yaml"), One("metadata.yaml"), Some("identity/", ".yaml"), Some("memory/", ".yaml"),
    One("memory/personality.md"), Documents("memory/facts/", FACTS), One("runtime/runtime.yaml"),
    Some("runtime/prompts/", ".md"), One("skills/enabled-skills.yaml"), Some("system/", ".yaml")
  ]

  const READONLY: seq<Named> := [Some("identity/", ".yaml"), One("system/mcp-servers.yaml")]

  lemma StarredPatterns()
    ensures "identity/" + "*" + ".yaml" == "identity/*.yaml"
    ensures "memory/" + "*" + ".yaml" == "memory/*.yaml"
    ensures "runtime/prompts/" + "*" + ".md" == "runtime/prompts/*.md"
  {
  }

  lemma SystemPatterns()
    ensures "system/" + "*" + ".yaml" == WHITELIST_PATTERNS[9]
    ensures "system/mcp-servers.yaml" == READONLY_PATTERNS[1]
  {
  }

  lemma ShortFilesAreLiteral()
    ensures Literal("agent.yaml") && Literal("metadata.yaml") && Literal("memory/personality.md")
  {
    OrdinaryIsLiteral("agent.yaml");
    OrdinaryIsLiteral("metadata.yaml");
    OrdinaryIsLiteral("memory/personality.md");
  }

  lemma LongFilesAreLiteral()
    ensures Literal("runtime/runtime.yaml") && Literal("skills/enabled-skills.yaml")
  {
    OrdinaryIsLiteral("runtime/runtime.yaml");
    OrdinaryIsLiteral("skills/enabled-skills.yaml");
  }

  lemma HalvesAreLiteral()
    ensures Literal("identity/") && Literal("memory/") && Literal("runtime/prompts/") && Literal("system/")
    ensures Literal(".yaml") && Literal(".md")
  {
    OrdinaryIsLiteral("identity/");
    OrdinaryIsLiteral("memory/");
    OrdinaryIsLiteral("runtime/prompts/");
    OrdinaryIsLiteral("system/");
    OrdinaryIsLiteral(".yaml");
    OrdinaryIsLiteral(".md");
  }

  lemma WhitelistIsNamed()
    ensures PatternsOf(WHITELIST_PATTERNS, WHITELISTED)
  {
    ShortFilesAreLiteral();
    LongFilesAreLiteral();
    HalvesAreLiteral();
    FactsShape();
    StarredPatterns();
    SystemPatterns();
  }

  lemma ReadonlyIsNamed()
    ensures PatternsOf(READONLY_PATTERNS, READONLY)
  {
    OrdinaryIsLiteral("system/mcp-servers.yaml");
    HalvesAreLiteral();
    StarredPatterns();
    SystemPatterns();
  }

  /** The whitelist accepts exactly the editable files, for every path of one line. */
  lemma WhitelistedIffEditable(path: string)
    requires '\n' !in path
    ensures IsWhitelisted(path) <==> Editable(path)
  {
    WhitelistIsNamed();
    ListTakes(WHITELIST_PATTERNS, WHITELISTED, path);
    NamedIsEditable(path);
  }

  lemma NamedIsEditable(path: string)
    ensures (exists i | 0 <= i < |WHITELISTED| :: Names(WHITELISTED[i], path)) <==> Editable(path)
  {
    var n := WHITELISTED;
    assert Editable(path) <==>
      || Names(n[0], path) || Names(n[1], path) || Names(n[2], path) || Names(n[3], path) || Names(n[4], path)
      || Names(n[5], path) || Names(n[6], path) || Names(n[7], path) || Names(n[8], path) || Names(n[9], path);
  }

  /** And the read-only list exactly the protected ones. */
  lemma ReadonlyIffProtected(path: string)
    requires '\n' !in path
    ensures IsReadonly(path) <==> Protected(path)
  {
    ReadonlyIsNamed();
    ListTakes(READONLY_PATTERNS, READONLY, path);
    assert Protected(path) <==> Names(READONLY[0], path) || Names(READONLY[1], path);
  }
}
