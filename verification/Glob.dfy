/** config_manager/file_service.py: compiling path patterns to regular expressions. */
module Glob {
  // ------------------------------------------------------------------ the compiled form

  /** One piece of the regular expression. Chars are the escaped literals, AnyRun is .*, SegRun is [^/]*,
      SegChar is [^/], and Alt is (?:a|b) with its options copied in unescaped. */
  datatype Piece = Char(c: char) | AnyRun | SegRun | SegChar | Alt(options: seq<string>)

  type Regex = seq<Piece>

  /** An option as a regular expression, for options whose only special character is the dot. */
  predicate OptionMatches(option: string, w: string) {
    |option| == |w| && forall i | 0 <= i < |w| :: if option[i] == '.' then w[i] != '\n' else w[i] == option[i]
  }

  predicate PieceMatches(p: Piece, w: string) {
    match p
    case Char(c) => w == [c]
    case AnyRun => '\n' !in w
    case SegRun => '/' !in w
    case SegChar => |w| == 1 && w[0] != '/'
    case Alt(options) => exists i | 0 <= i < |options| :: OptionMatches(options[i], w)
  }

  /** The language of a regular expression: a word that splits into one match per piece. */
  ghost predicate Matches(r: Regex, w: string) {
    if r == [] then w == []
    else exists k | 0 <= k <= |w| :: PieceMatches(r[0], w[..k]) && Matches(r[1..], w[k..])
  }

  /** re.match with ^ and $: $ also matches just before a final newline. */
  ghost predicate Accepts(r: Regex, path: string) {
    Matches(r, path) || (path != [] && path[|path| - 1] == '\n' && Matches(r, path[..|path| - 1]))
  }

  // ------------------------------------------------------------------ the compiler

  /** The first index from i on that holds c, or the length. */
  function Find(s: string, c: char, i: nat): (j: nat)
    requires i <= |s|
    ensures i <= j <= |s|
    ensures j < |s| ==> s[j] == c
    ensures c !in s[i..j]
    decreases |s| - i
  {
    if i == |s| || s[i] == c then i else Find(s, c, i + 1)
  }

  function Join(parts: seq<string>, sep: char): string {
    if parts == [] then [] else if |parts| == 1 then parts[0] else parts[0] + [sep] + Join(parts[1..], sep)
  }

  /** str.split: separator-free parts that join back to the string. */
  function Split(s: string, sep: char): (parts: seq<string>)
    ensures |parts| >= 1 && Join(parts, sep) == s && forall k :: 0 <= k < |parts| ==> sep !in parts[k]
  {
    var j := Find(s, sep, 0);
    assert s[0..j] == s[..j];
    if j == |s| then [s]
    else
      assert s == s[..j] + [sep] + s[j + 1..];
      [s[..j]] + Split(s[j + 1..], sep)
  }

  /** Where the scan of a pattern goes next, and the piece it emits on the way. */
  function Scan(pattern: string, i: nat): (r: (Piece, nat))
    requires i < |pattern|
    ensures i < r.1 <= |pattern|
  {
    var c := pattern[i];
    if c == '*' then
      if i + 1 < |pattern| && pattern[i + 1] == '*' then
        (AnyRun, if i + 2 < |pattern| && pattern[i + 2] == '/' then i + 3 else i + 2)
      else (SegRun, i + 1)
    else if c == '?' then (SegChar, i + 1)
    else if c == '{' && Find(pattern, '}', i) < |pattern| then
      var end := Find(pattern, '}', i);
      (Alt(Split(pattern[i + 1..end], ',')), end + 1)
    else (Char(c), i + 1)
  }

  /** The pieces emitted from position i to the end. */
  function CompileFrom(pattern: string, i: nat): Regex
    requires i <= |pattern|
    decreases |pattern| - i
  {
    if i == |pattern| then [] else [Scan(pattern, i).0] + CompileFrom(pattern, Scan(pattern, i).1)
  }

  // ------------------------------------------------------------------ what a pattern means

  /** pattern[i..] matches the path, read character by character: a wildcard takes nothing, or takes one
      character and stays; two stars also swallow a slash of the pattern right behind them; a brace that is
      closed takes one of its comma-separated parts. */
  ghost predicate Glob(pattern: string, i: nat, path: string)
    requires i <= |pattern|
    decreases |pattern| - i, |path|
  {
    if i == |pattern| then path == []
    else if "**/" <= pattern[i..] then Glob(pattern, i + 3, path) || (path != [] && Glob(pattern, i, path[1..]))
    else if "**" <= pattern[i..] then Glob(pattern, i + 2, path) || (path != [] && Glob(pattern, i, path[1..]))
    else if pattern[i] == '*' then
      Glob(pattern, i + 1, path) || (path != [] && path[0] != '/' && Glob(pattern, i, path[1..]))
    else if pattern[i] == '?' then path != [] && path[0] != '/' && Glob(pattern, i + 1, path[1..])
    else if pattern[i] == '{' && Find(pattern, '}', i) < |pattern| then
      var end := Find(pattern, '}', i);
      var options := Split(pattern[i + 1..end], ',');
      exists k | 0 <= k < |options| :: options[k] <= path && Glob(pattern, end + 1, path[|options[k]|..])
    else path != [] && path[0] == pattern[i] && Glob(pattern, i + 1, path[1..])
  }

  const META: set<char> := {'.', '^', '$', '*', '+', '?', '(', ')', '[', ']', '{', '}', '|', '\\'}

  predicate PlainOption(option: string) {
    forall c :: c in option ==> c !in META
  }

  /** No brace option has a character that means something to a regular expression. */
  ghost predicate PlainOptions(r: Regex) {
    forall p, o :: p in r && p.Alt? && o in p.options ==> PlainOption(o)
  }

  // ------------------------------------------------------------------ compilation preserves meaning

  lemma PlainOptionMatches(option: string, w: string)
    requires PlainOption(option)
    ensures OptionMatches(option, w) <==> w == option
  {
    if OptionMatches(option, w) {
      forall i | 0 <= i < |w|
        ensures w[i] == option[i]
      {
        assert option[i] in option;
      }
    }
  }

  function Stop(run: Piece): char {
    if run == AnyRun then '\n' else '/'
  }

  // What a run that matched anything has taken off the front can be put back in two ways.
  lemma RunTakes(r: Regex, w: string)
    requires r != [] && (r[0] == AnyRun || r[0] == SegRun) && Matches(r, w)
    ensures Matches(r[1..], w) || (w != [] && w[0] != Stop(r[0]) && Matches(r, w[1..]))
  {
    var k :| 0 <= k <= |w| && PieceMatches(r[0], w[..k]) && Matches(r[1..], w[k..]);
    if k == 0 {
      assert w[0..] == w;
    } else {
      assert w[0] in w[..k];
      assert w[..k][1..] == w[1..][..k - 1] && w[1..][k - 1..] == w[k..];
      assert PieceMatches(r[0], w[1..][..k - 1]);
    }
  }

  lemma RunGives(r: Regex, w: string)
    requires r != [] && (r[0] == AnyRun || r[0] == SegRun)
    requires w != [] && w[0] != Stop(r[0]) && Matches(r, w[1..])
    ensures Matches(r, w)
  {
    var k :| 0 <= k <= |w[1..]| && PieceMatches(r[0], w[1..][..k]) && Matches(r[1..], w[1..][k..]);
    assert w[..k + 1] == [w[0]] + w[1..][..k] && w[1..][k..] == w[k + 1..];
    assert PieceMatches(r[0], w[..k + 1]);
  }

  /** A run at the head matches nothing, or takes one character and stays. */
  lemma RunUnfolds(r: Regex, w: string)
    requires r != [] && (r[0] == AnyRun || r[0] == SegRun)
    ensures Matches(r, w) <==> Matches(r[1..], w) || (w != [] && w[0] != Stop(r[0]) && Matches(r, w[1..]))
  {
    if Matches(r, w) {
      RunTakes(r, w);
    }
    if Matches(r[1..], w) {
      assert w[..0] == [] && w[0..] == w;
      assert PieceMatches(r[0], w[..0]);
    }
    if w != [] && w[0] != Stop(r[0]) && Matches(r, w[1..]) {
      RunGives(r, w);
    }
  }

  /** A piece for one character takes exactly one. */
  lemma CharUnfolds(r: Regex, w: string)
    requires r != [] && (r[0].Char? || r[0] == SegChar)
    ensures Matches(r, w) <==> w != [] && PieceMatches(r[0], w[..1]) && Matches(r[1..], w[1..])
  {
    if Matches(r, w) {
      var k :| 0 <= k <= |w| && PieceMatches(r[0], w[..k]) && Matches(r[1..], w[k..]);
      assert k == 1;
    }
  }

  /** An alternation of plain options takes one of them. */
  lemma AltUnfolds(r: Regex, w: string)
    requires r != [] && r[0].Alt? && PlainOptions(r)
    ensures Matches(r, w) <==>
      exists i | 0 <= i < |r[0].options| :: r[0].options[i] <= w && Matches(r[1..], w[|r[0].options[i]|..])
  {
    var options := r[0].options;
    assert r[0] in r;
    if Matches(r, w) {
      var k :| 0 <= k <= |w| && PieceMatches(r[0], w[..k]) && Matches(r[1..], w[k..]);
      var i :| 0 <= i < |options| && OptionMatches(options[i], w[..k]);
      assert options[i] in options;
      PlainOptionMatches(options[i], w[..k]);
    }
    if i :| 0 <= i < |options| && options[i] <= w && Matches(r[1..], w[|options[i]|..]) {
      assert options[i] in options;
      PlainOptionMatches(options[i], w[..|options[i]|]);
      assert PieceMatches(r[0], w[..|options[i]|]);
    }
  }

  lemma StarsAhead(pattern: string, i: nat)
    requires i < |pattern|
    ensures "**" <= pattern[i..] <==> pattern[i] == '*' && i + 1 < |pattern| && pattern[i + 1] == '*'
    ensures "**/" <= pattern[i..] <==> "**" <= pattern[i..] && i + 2 < |pattern| && pattern[i + 2] == '/'
  {
  }

  /** What the pattern means at i, by the piece the scan emits there. */
  lemma {:induction false} GlobByPiece(pattern: string, i: nat, path: string)
    requires i < |pattern|
    ensures var (piece, next) := Scan(pattern, i);
      Glob(pattern, i, path) <==>
      match piece
      case AnyRun => Glob(pattern, next, path) || (path != [] && Glob(pattern, i, path[1..]))
      case SegRun => Glob(pattern, next, path) || (path != [] && path[0] != '/' && Glob(pattern, i, path[1..]))
      case SegChar => path != [] && path[0] != '/' && Glob(pattern, next, path[1..])
      case Char(c) => path != [] && path[0] == c && Glob(pattern, next, path[1..])
      case Alt(options) =>
        exists k | 0 <= k < |options| :: options[k] <= path && Glob(pattern, next, path[|options[k]|..])
  {
    StarsAhead(pattern, i);
  }

  /** The compiled pattern matches a newline-free path exactly when the pattern does. */
  lemma {:induction false} CompiledMeansGlob(pattern: string, i: nat, path: string)
    requires i <= |pattern| && PlainOptions(CompileFrom(pattern, i)) && '\n' !in path
    ensures Matches(CompileFrom(pattern, i), path) <==> Glob(pattern, i, path)
    decreases |pattern| - i, |path|
  {
    if i < |pattern| {
      var r := CompileFrom(pattern, i);
      var (piece, next) := Scan(pattern, i);
      assert r[1..] == CompileFrom(pattern, next);
      GlobByPiece(pattern, i, path);
      if path != [] {
        assert path[0] in path;
      }
      match piece
      case AnyRun =>
        RunUnfolds(r, path);
        CompiledMeansGlob(pattern, next, path);
        if path != [] {
          CompiledMeansGlob(pattern, i, path[1..]);
        }
      case SegRun =>
        RunUnfolds(r, path);
        CompiledMeansGlob(pattern, next, path);
        if path != [] {
          CompiledMeansGlob(pattern, i, path[1..]);
        }
      case SegChar =>
        CharUnfolds(r, path);
        if path != [] {
          CompiledMeansGlob(pattern, next, path[1..]);
        }
      case Char(c) =>
        CharUnfolds(r, path);
        if path != [] {
          CompiledMeansGlob(pattern, next, path[1..]);
        }
      case Alt(options) =>
        AltUnfolds(r, path);
        forall k | 0 <= k < |options| && options[k] <= path
          ensures Matches(r[1..], path[|options[k]|..]) <==> Glob(pattern, next, path[|options[k]|..])
        {
          CompiledMeansGlob(pattern, next, path[|options[k]|..]);
        }
    }
  }

  lemma CompiledAcceptsGlob(pattern: string)
    ensures PlainOptions(CompileFrom(pattern, 0)) ==>
      forall path :: '\n' !in path ==> (Accepts(CompileFrom(pattern, 0), path) <==> Glob(pattern, 0, path))
  {
    forall path | PlainOptions(CompileFrom(pattern, 0)) && '\n' !in path
      ensures Accepts(CompileFrom(pattern, 0), path) <==> Glob(pattern, 0, path)
    {
      CompiledMeansGlob(pattern, 0, path);
      if path != [] {
        assert path[|path| - 1] in path;
      }
    }
  }

  lemma Emitted(pattern: string, i: nat, done: Regex, out: Regex)
    requires i < |pattern| && out == done + [Scan(pattern, i).0]
    ensures done + CompileFrom(pattern, i) == out + CompileFrom(pattern, Scan(pattern, i).1)
  {
  }

  /** _pattern_to_regex: the loop over the pattern, one piece per appended string. The result accepts a
      newline-free path exactly when the pattern matches it. */
  method PatternToRegex(pattern: string) returns (out: Regex)
    ensures out == CompileFrom(pattern, 0)
    ensures PlainOptions(out) ==> forall path :: '\n' !in path ==> (Accepts(out, path) <==> Glob(pattern, 0, path))
  {
    out := [];
    var i, n := 0, |pattern|;
    while i < n
      invariant 0 <= i <= n
      invariant out + CompileFrom(pattern, i) == CompileFrom(pattern, 0)
    {
      ghost var done, at := out, i;
      var ch := pattern[i];
      if ch == '*' {
        if i + 1 < n && pattern[i + 1] == '*' {
          out := out + [AnyRun];
          i := i + 2;
          if i < n && pattern[i] == '/' {
            i := i + 1;
          }
        } else {
          out := out + [SegRun];
          i := i + 1;
        }
      } else if ch == '?' {
        out := out + [SegChar];
        i := i + 1;
      } else if ch == '{' {
        var end := Find(pattern, '}', i);
        if end == n {
          out := out + [Char(ch)];
          i := i + 1;
        } else {
          out := out + [Alt(Split(pattern[i + 1..end], ','))];
          i := end + 1;
        }
      } else {
        out := out + [Char(ch)];
        i := i + 1;
      }
      Emitted(pattern, at, done, out);
    }
    CompiledAcceptsGlob(pattern);
  }

  // ------------------------------------------------------------------ where it does not

  /** Appending a newline to a matched path keeps it accepted, because $ also matches before one. */
  lemma TrailingNewlineSlipsThrough(pattern: string, path: string)
    requires PlainOptions(CompileFrom(pattern, 0)) && '\n' !in path && Glob(pattern, 0, path)
    ensures Accepts(CompileFrom(pattern, 0), path + ['\n'])
  {
    CompiledMeansGlob(pattern, 0, path);
    assert (path + ['\n'])[..|path|] == path;
  }

  // '?' for everything but a slash: the pattern of all paths of the same shape.
  function Shape(path: string): (pattern: string)
    ensures '{' !in pattern && |pattern| == |path|
  {
    seq(|path|, i requires 0 <= i < |path| => if path[i] == '/' then '/' else '?')
  }

  lemma {:induction false} ShapeMatches(path: string, i: nat)
    requires i <= |path|
    ensures Matches(CompileFrom(Shape(path), i), path[i..])
    decreases |path| - i
  {
    if i < |path| {
      ShapeMatches(path, i + 1);
      assert path[i..][1..] == path[i + 1..] && path[i..][..1] == [path[i]];
      CharUnfolds(CompileFrom(Shape(path), i), path[i..]);
    }
  }

  lemma {:induction false} ShapeTakesItsLength(path: string, i: nat, w: string)
    requires i <= |path| && Glob(Shape(path), i, w)
    ensures |w| == |path| - i
    decreases |path| - i
  {
    if i < |path| {
      GlobByPiece(Shape(path), i, w);
      ShapeTakesItsLength(path, i + 1, w[1..]);
    }
  }

  const STARS := "**"

  lemma {:induction false} StarsMatchAll(path: string)
    ensures Glob(STARS, 0, path)
  {
    GlobByPiece(STARS, 0, path);
    if path != [] {
      StarsMatchAll(path[1..]);
    }
  }

  /** A single piece takes the whole word. */
  lemma SinglePiece(p: Piece, w: string)
    ensures Matches([p], w) <==> PieceMatches(p, w)
  {
    assert w[..|w|] == w && [p][1..] == [];
    if PieceMatches(p, w) {
      assert Matches([p][1..], w[|w|..]);
    } else {
      forall k | 0 <= k <= |w| && PieceMatches(p, w[..k]) ensures k != |w| {
      }
    }
  }

  /** Some pattern without braces goes wrong on every path with a newline: at the end the compiled pattern lets
      it through, elsewhere two stars do not take it. */
  lemma NewlineMisleads(path: string) returns (pattern: string)
    requires '\n' in path
    ensures PlainOptions(CompileFrom(pattern, 0))
    ensures !(Accepts(CompileFrom(pattern, 0), path) <==> Glob(pattern, 0, path))
  {
    var n := |path| - 1;
    if path[n] == '\n' {
      var front := path[..n];
      pattern := Shape(front);
      ShapeMatches(front, 0);
      assert front[0..] == front;
      if Glob(pattern, 0, path) {
        ShapeTakesItsLength(front, 0, path);
      }
    } else {
      pattern := STARS;
      StarsMatchAll(path);
      assert CompileFrom(STARS, 0) == [AnyRun];
      SinglePiece(AnyRun, path);
    }
    NoBracesIsPlain(pattern, 0);
  }

  /** The paths on which every pattern with plain options means what it is compiled to are exactly those
      without a newline. */
  lemma FaithfulIffNoNewline(path: string)
    ensures (forall pattern :: PlainOptions(CompileFrom(pattern, 0)) ==>
               (Accepts(CompileFrom(pattern, 0), path) <==> Glob(pattern, 0, path)))
            <==> '\n' !in path
  {
    if '\n' in path {
      var pattern := NewlineMisleads(path);
    } else {
      forall pattern | PlainOptions(CompileFrom(pattern, 0))
        ensures Accepts(CompileFrom(pattern, 0), path) <==> Glob(pattern, 0, path)
      {
        CompiledAcceptsGlob(pattern);
      }
    }
  }

  /** One option on a line of its own, whose only special character may be the dot. */
  predicate OneOption(option: string) {
    ',' !in option && '\n' !in option && forall c | c in option && c in META :: c == '.'
  }

  function Braced(option: string): string {
    ['{'] + option + ['}']
  }

  lemma {:induction false} FindFirst(s: string, c: char, i: nat, j: nat)
    requires i <= j <= |s| && c !in s[i..j] && (j < |s| ==> s[j] == c)
    ensures Find(s, c, i) == j
    decreases j - i
  {
    if i < j {
      assert s[i] in s[i..j];
      assert s[i + 1..j] == s[i..j][1..];
      FindFirst(s, c, i + 1, j);
    }
  }

  lemma BracedCompiles(option: string)
    requires OneOption(option)
    ensures Scan(Braced(option), 0) == (Alt([option]), |Braced(option)|)
    ensures CompileFrom(Braced(option), 0) == [Alt([option])]
  {
    var pattern, n := Braced(option), |option| + 1;
    assert '}' !in option;
    assert pattern[0..n] == ['{'] + option && pattern[1..n] == option;
    FindFirst(pattern, '}', 0, n);
    FindFirst(option, ',', 0, |option|);
    assert Split(option, ',') == [option];
    assert CompileFrom(pattern, |pattern|) == [];
  }

  lemma BracedMeans(option: string, path: string)
    requires OneOption(option) && '\n' !in path
    ensures Accepts(CompileFrom(Braced(option), 0), path) <==> OptionMatches(option, path)
    ensures Glob(Braced(option), 0, path) <==> path == option
  {
    BracedCompiles(option);
    GlobByPiece(Braced(option), 0, path);
    SinglePiece(Alt([option]), path);
    assert [option][0] == option;
    if path != [] {
      assert path[|path| - 1] in path;
    }
    if option <= path && path[|option|..] == [] {
      assert path == option;
    }
    assert path == option ==> path[|option|..] == [];
  }

  /** A dot in a brace option is copied unescaped: a pattern of one option means what it is compiled to, on all
      paths without a newline, if and only if the option has no dot. */
  lemma OptionFaithfulIffNoDot(option: string)
    requires OneOption(option)
    ensures (forall path :: '\n' !in path ==>
               (Accepts(CompileFrom(Braced(option), 0), path) <==> Glob(Braced(option), 0, path)))
            <==> '.' !in option
  {
    if i :| 0 <= i < |option| && option[i] == '.' {
      var path := option[i := 'x'];
      BracedMeans(option, path);
    } else {
      forall path | '\n' !in path
        ensures Accepts(CompileFrom(Braced(option), 0), path) <==> Glob(Braced(option), 0, path)
      {
        BracedMeans(option, path);
        assert OptionMatches(option, path) <==> path == option;
      }
    }
  }

  // ------------------------------------------------------------------ the two lists

  const SYSTEM_DIR := "system/"
  const YAML := ".yaml"

  const WHITELIST_PATTERNS: seq<string> := [
    "agent.yaml", "metadata.yaml", "identity/*.yaml", "memory/*.yaml", "memory/personality.md",
    "memory/facts/**/*.{yaml,md}", "runtime/runtime.yaml", "runtime/prompts/*.md",
    "skills/enabled-skills.yaml", SYSTEM_DIR + "*" + YAML
  ]

  const READONLY_PATTERNS: seq<string> := ["identity/*.yaml", SYSTEM_DIR + "mcp-servers" + YAML]

  ghost predicate MatchesSome(patterns: seq<string>, path: string) {
    exists i | 0 <= i < |patterns| :: Accepts(CompileFrom(patterns[i], 0), path)
  }

  ghost predicate IsWhitelisted(path: string) {
    MatchesSome(WHITELIST_PATTERNS, path)
  }

  ghost predicate IsReadonly(path: string) {
    MatchesSome(READONLY_PATTERNS, path)
  }

  predicate Literal(pattern: string) {
    '*' !in pattern && '?' !in pattern && '{' !in pattern
  }

  /** A pattern without wildcards matches itself only. */
  lemma {:induction false} LiteralMatchesItself(pattern: string, i: nat, w: string)
    requires i <= |pattern| && Literal(pattern)
    ensures Matches(CompileFrom(pattern, i), w) ==> w == pattern[i..]
    decreases |pattern| - i
  {
    if i < |pattern| && Matches(CompileFrom(pattern, i), w) {
      assert pattern[i] in pattern;
      CharUnfolds(CompileFrom(pattern, i), w);
      LiteralMatchesItself(pattern, i + 1, w[1..]);
      assert pattern[i..] == [pattern[i]] + pattern[i + 1..];
    }
  }

  /** A literal stretch of a pattern takes the same stretch of the path. */
  lemma {:induction false} LiteralStretch(pattern: string, i: nat, n: nat, path: string)
    requires i + n <= |pattern| && n <= |path| && Literal(pattern[i..i + n]) && path[..n] == pattern[i..i + n]
    requires Glob(pattern, i + n, path[n..])
    ensures Glob(pattern, i, path)
    decreases n
  {
    if n > 0 {
      assert pattern[i..i + n][0] == pattern[i] && path[..n][0] == path[0];
      assert pattern[i] in pattern[i..i + n];
      assert pattern[i + 1..i + n] == pattern[i..i + n][1..] && path[1..][..n - 1] == path[..n][1..];
      assert path[1..][n - 1..] == path[n..];
      LiteralStretch(pattern, i + 1, n - 1, path[1..]);
    }
  }

  /** A single star takes any stretch without a slash. */
  lemma {:induction false} StarStretch(pattern: string, i: nat, n: nat, path: string)
    requires i < |pattern| && Scan(pattern, i) == (SegRun, i + 1) && n <= |path| && '/' !in path[..n]
    requires Glob(pattern, i + 1, path[n..])
    ensures Glob(pattern, i, path)
  {
    if n > 0 {
      assert path[..n][0] == path[0] && path[1..][..n - 1] == path[..n][1..] && path[1..][n - 1..] == path[n..];
      StarStretch(pattern, i, n - 1, path[1..]);
    }
  }

  lemma LiteralTail(pattern: string, i: nat)
    requires i <= |pattern| && Literal(pattern[i..])
    ensures Glob(pattern, i, pattern[i..])
  {
    var tail := pattern[i..];
    assert pattern[i..i + |tail|] == tail && tail[..|tail|] == tail && tail[|tail|..] == [];
    LiteralStretch(pattern, i, |tail|, tail);
  }

  lemma StarThenTail(pattern: string, i: nat, mid: string)
    requires i < |pattern| && pattern[i] == '*' && Literal(pattern[i + 1..]) && '/' !in mid
    ensures Glob(pattern, i, mid + pattern[i + 1..])
  {
    var path := mid + pattern[i + 1..];
    assert i + 1 < |pattern| ==> pattern[i + 1..][0] == pattern[i + 1] && pattern[i + 1] in pattern[i + 1..];
    LiteralTail(pattern, i + 1);
    assert path[..|mid|] == mid && path[|mid|..] == pattern[i + 1..];
    StarStretch(pattern, i, |mid|, path);
  }

  /** One star between two literals takes whatever has no slash. */
  lemma StarBetween(head: string, mid: string, tail: string)
    requires Literal(head) && Literal(tail) && '/' !in mid
    ensures Glob(head + "*" + tail, 0, head + mid + tail)
  {
    var pattern, path, star := head + "*" + tail, head + mid + tail, |head|;
    assert pattern[star] == '*' && pattern[star + 1..] == tail;
    StarThenTail(pattern, star, mid);
    assert path[star..] == mid + tail && pattern[0..0 + star] == head == path[..star];
    LiteralStretch(pattern, 0, star, path);
  }

  lemma {:induction false} NoBracesIsPlain(pattern: string, i: nat)
    requires i <= |pattern| && '{' !in pattern
    ensures PlainOptions(CompileFrom(pattern, i))
    decreases |pattern| - i
  {
    if i < |pattern| {
      assert pattern[i] in pattern;
      NoBracesIsPlain(pattern, Scan(pattern, i).1);
    }
  }

  /** A pattern that names one file accepts nothing that the same pattern with a star for the name rejects. */
  lemma StarAcceptsName(head: string, mid: string, tail: string, path: string)
    requires Literal(head) && Literal(tail) && Literal(mid) && '/' !in mid && '\n' !in head + mid + tail
    requires Accepts(CompileFrom(head + mid + tail, 0), path)
    ensures Accepts(CompileFrom(head + "*" + tail, 0), path)
  {
    var file, pattern := head + mid + tail, head + "*" + tail;
    assert file[0..] == file;
    LiteralMatchesItself(file, 0, path);
    if path != [] {
      LiteralMatchesItself(file, 0, path[..|path| - 1]);
    }
    StarBetween(head, mid, tail);
    NoBracesIsPlain(pattern, 0);
    CompiledMeansGlob(pattern, 0, file);
  }

  /** One pattern accepts everything another one does: they are the same, or it has a star for a file's name. */
  ghost predicate Covers(wide: string, narrow: string) {
    || wide == narrow
    || exists head, mid, tail |
         Literal(head) && Literal(tail) && Literal(mid) && '/' !in mid && '\n' !in head + mid + tail ::
         wide == head + "*" + tail && narrow == head + mid + tail
  }

  ghost predicate AllCovered(wide: seq<string>, narrow: seq<string>) {
    forall i | 0 <= i < |narrow| :: exists j | 0 <= j < |wide| :: Covers(wide[j], narrow[i])
  }

  lemma CoveredMatches(wide: seq<string>, narrow: seq<string>, path: string)
    requires AllCovered(wide, narrow) && MatchesSome(narrow, path)
    ensures MatchesSome(wide, path)
  {
    var i :| 0 <= i < |narrow| && Accepts(CompileFrom(narrow[i], 0), path);
    var j :| 0 <= j < |wide| && Covers(wide[j], narrow[i]);
    if wide[j] != narrow[i] {
      var head, mid, tail :|
        Literal(head) && Literal(tail) && Literal(mid) && '/' !in mid && '\n' !in head + mid + tail &&
        wide[j] == head + "*" + tail && narrow[i] == head + mid + tail;
      StarAcceptsName(head, mid, tail, path);
    }
    assert Accepts(CompileFrom(wide[j], 0), path);
  }

  lemma ReadonlyCovered()
    ensures AllCovered(WHITELIST_PATTERNS, READONLY_PATTERNS)
  {
    assert Covers(WHITELIST_PATTERNS[2], READONLY_PATTERNS[0]);
    assert WHITELIST_PATTERNS[9] == SYSTEM_DIR + "*" + YAML;
    assert READONLY_PATTERNS[1] == SYSTEM_DIR + "mcp-servers" + YAML;
    assert Covers(WHITELIST_PATTERNS[9], READONLY_PATTERNS[1]);
  }

  /** Every read-only path is whitelisted. */
  lemma {:induction false} ReadonlyIsWhitelisted(path: string)
    ensures IsReadonly(path) ==> IsWhitelisted(path)
  {
    if IsReadonly(path) {
      ReadonlyCovered();
      CoveredMatches(WHITELIST_PATTERNS, READONLY_PATTERNS, path);
    }
  }
}
