/** coordinator/brief.py: _mask_text, three regular-expression substitutions one after the other. */
module TextMask {
  /** What \d matches: the ten ASCII digits and whatever other decimal digits there are. */
  type Digits = d: set<char> |
    {'0', '1', '2', '3', '4', '5', '6', '7', '8', '9'} <= d && d !! {'*', 'X', 'x'}
    witness {'0', '1', '2', '3', '4', '5', '6', '7', '8', '9'}

  datatype Rule = IdCard | BankCard | Mobile

  function Head(r: Rule): nat {
    match r
    case IdCard => 6
    case BankCard => 4
    case Mobile => 3
  }

  const TAIL := 4

  // ------------------------------------------------------------------ the patterns

  /** (?<!\d) at i. */
  predicate NoDigitBefore(d: Digits, s: string, i: nat)
    requires i <= |s|
  {
    i == 0 || s[i - 1] !in d
  }

  /** (?!\d) at i. */
  predicate NoDigitAt(d: Digits, s: string, i: nat)
    requires i <= |s|
  {
    i == |s| || s[i] !in d
  }

  predicate AllDigits(d: Digits, s: string, lo: nat, hi: nat)
    requires lo <= hi <= |s|
  {
    forall k | lo <= k < hi :: s[k] in d
  }

  /** The n characters at i fit the pattern between its two lookarounds. */
  predicate Fits(d: Digits, r: Rule, s: string, i: nat, n: nat)
    requires i + n <= |s|
  {
    match r
    case IdCard => n == 18 && AllDigits(d, s, i, i + 17) && (s[i + 17] in d || s[i + 17] in {'X', 'x'})
    case BankCard => 16 <= n <= 19 && AllDigits(d, s, i, i + n)
    case Mobile => n == 11 && s[i] == '1' && '3' <= s[i + 1] <= '9' && AllDigits(d, s, i, i + n)
  }

  predicate Matches(d: Digits, r: Rule, s: string, i: nat, n: nat) {
    i + n <= |s| && NoDigitBefore(d, s, i) && Fits(d, r, s, i, n) && NoDigitAt(d, s, i + n)
  }

  /** The length of the match at i, the longest first as {16,19} does; 0 when there is none. */
  function MatchLength(d: Digits, r: Rule, s: string, i: nat): (n: nat)
    ensures n > 0 ==> Matches(d, r, s, i, n)
    ensures n == 0 ==> forall m: nat :: !Matches(d, r, s, i, m)
  {
    match r
    case IdCard => if Matches(d, r, s, i, 18) then 18 else 0
    case Mobile => if Matches(d, r, s, i, 11) then 11 else 0
    case BankCard =>
      if Matches(d, r, s, i, 19) then 19
      else if Matches(d, r, s, i, 18) then 18
      else if Matches(d, r, s, i, 17) then 17
      else if Matches(d, r, s, i, 16) then 16
      else 0
  }

  function Stars(n: nat): (t: string)
    ensures |t| == n && forall k | 0 <= k < n :: t[k] == '*'
  {
    seq(n, _ => '*')
  }

  function Replacement(r: Rule, m: string): string
    requires |m| >= Head(r) + TAIL
  {
    m[..Head(r)] + Stars(|m| - Head(r) - TAIL) + m[|m| - TAIL..]
  }

  /** re.sub from position i on: leftmost matches first, looking behind and ahead in the text given to it. */
  function Sub(d: Digits, r: Rule, s: string, i: nat): string
    requires i <= |s|
    decreases |s| - i
  {
    if i == |s| then ""
    else
      var n := MatchLength(d, r, s, i);
      if n > 0 then Replacement(r, s[i..i + n]) + Sub(d, r, s, i + n)
      else [s[i]] + Sub(d, r, s, i + 1)
  }

  function Pass(d: Digits, r: Rule, s: string): string {
    Sub(d, r, s, 0)
  }

  function MaskText(d: Digits, s: string): string {
    Pass(d, Mobile, Pass(d, BankCard, Pass(d, IdCard, s)))
  }

  // ------------------------------------------------------------------ what one pass does to each character

  /** k is in the middle of some match, between the characters that are kept. */
  ghost predicate Hidden(d: Digits, r: Rule, s: string, k: nat) {
    exists i: nat, n: nat :: Matches(d, r, s, i, n) && i + Head(r) <= k < i + n - TAIL
  }

  ghost predicate PassedFrom(d: Digits, r: Rule, s: string, out: string, i: nat) {
    && i <= |s|
    && |out| == |s| - i
    && forall k | i <= k < |s| :: out[k - i] == if Hidden(d, r, s, k) then '*' else s[k]
  }

  /** Two matches, of any rules, that share a position start together. */
  lemma ShareStart(d: Digits, r: Rule, q: Rule, s: string, i: nat, n: nat, j: nat, m: nat, k: nat)
    requires Matches(d, r, s, i, n) && Matches(d, q, s, j, m)
    requires i <= k < i + n && j <= k < j + m
    ensures i == j
  {
  }

  /** A match of one rule has one length. */
  lemma OneLength(d: Digits, r: Rule, s: string, i: nat, n: nat, m: nat)
    requires Matches(d, r, s, i, n) && Matches(d, r, s, i, m)
    ensures n == m
  {
  }

  // Within a match, only its own middle is hidden.
  lemma HiddenInMatch(d: Digits, r: Rule, s: string, i: nat, n: nat, k: nat)
    requires Matches(d, r, s, i, n) && i <= k < i + n
    ensures Hidden(d, r, s, k) <==> i + Head(r) <= k < i + n - TAIL
  {
    if Hidden(d, r, s, k) {
      var j: nat, m: nat :| Matches(d, r, s, j, m) && j + Head(r) <= k < j + m - TAIL;
      ShareStart(d, r, r, s, i, n, j, m, k);
      OneLength(d, r, s, i, n, m);
    }
  }

  // A match at i starts what the pass makes of the text from i on.
  lemma GlueMatch(d: Digits, r: Rule, s: string, i: nat, n: nat, rest: string)
    requires Matches(d, r, s, i, n) && PassedFrom(d, r, s, rest, i + n)
    ensures PassedFrom(d, r, s, Replacement(r, s[i..i + n]) + rest, i)
  {
    var piece := Replacement(r, s[i..i + n]);
    forall k | i <= k < i + n ensures (piece + rest)[k - i] == if Hidden(d, r, s, k) then '*' else s[k] {
      HiddenInMatch(d, r, s, i, n, k);
    }
  }

  // No match starting before i reaches past i, and none starts at i: the character at i stays.
  lemma GlueChar(d: Digits, r: Rule, s: string, i: nat, rest: string)
    requires i < |s| && PassedFrom(d, r, s, rest, i + 1)
    requires forall j: nat, n: nat :: Matches(d, r, s, j, n) && j <= i ==> j + n <= i
    ensures PassedFrom(d, r, s, [s[i]] + rest, i)
  {
    assert !Hidden(d, r, s, i);
  }

  lemma MatchesEndBy(d: Digits, r: Rule, s: string, i: nat, n: nat, j: nat, m: nat)
    requires Matches(d, r, s, i, n) && Matches(d, r, s, j, m) && i <= j < i + n
    ensures j + m <= i + n
  {
    ShareStart(d, r, r, s, i, n, j, m, j);
    OneLength(d, r, s, i, n, m);
  }

  lemma {:induction false} SubHides(d: Digits, r: Rule, s: string, i: nat)
    requires i <= |s|
    requires forall j: nat, n: nat :: Matches(d, r, s, j, n) && j < i ==> j + n <= i
    ensures PassedFrom(d, r, s, Sub(d, r, s, i), i)
    decreases |s| - i
  {
    if i < |s| {
      var n := MatchLength(d, r, s, i);
      if n > 0 {
        forall j: nat, m: nat | Matches(d, r, s, j, m) && j < i + n ensures j + m <= i + n {
          if i <= j {
            MatchesEndBy(d, r, s, i, n, j, m);
          }
        }
        SubHides(d, r, s, i + n);
        GlueMatch(d, r, s, i, n, Sub(d, r, s, i + n));
      } else {
        SubHides(d, r, s, i + 1);
        GlueChar(d, r, s, i, Sub(d, r, s, i + 1));
      }
    }
  }

  /** The left-to-right substitution is the same as hiding the middle of every match at once. */
  lemma PassHides(d: Digits, r: Rule, s: string)
    ensures PassedFrom(d, r, s, Pass(d, r, s), 0)
  {
    SubHides(d, r, s, 0);
  }

  // ------------------------------------------------------------------ a pass makes no new match

  lemma NothingNewBefore(d: Digits, r: Rule, s: string, out: string, i: nat)
    requires PassedFrom(d, r, s, out, 0)
    requires i + 10 <= |s| && AllDigits(d, out, i, i + 10) && NoDigitBefore(d, out, i)
    ensures NoDigitBefore(d, s, i)
  {
    // A hidden i - 1 would leave at i just the four characters a match keeps at its end.
    assert out[i] in d && !Hidden(d, r, s, i);
    assert out[i + TAIL] in d && s[i + TAIL] in d;
  }

  lemma NothingNewAfter(d: Digits, r: Rule, s: string, out: string, i: nat, e: nat)
    requires PassedFrom(d, r, s, out, 0)
    requires i + 11 <= e <= |s| && AllDigits(d, out, i, e - 1) && !Hidden(d, r, s, e - 1) && NoDigitAt(d, out, e)
    ensures NoDigitAt(d, s, e)
  {
    // A hidden e would leave before it the at most six characters a match keeps at its start.
  }

  lemma FitHasNoStar(d: Digits, q: Rule, s: string, i: nat, n: nat)
    requires i + n <= |s| && Fits(d, q, s, i, n)
    ensures forall k | i <= k < i + n :: s[k] != '*'
    ensures 11 <= n && AllDigits(d, s, i, i + 10) && AllDigits(d, s, i, i + n - 1)
  {
  }

  lemma SameFits(d: Digits, q: Rule, s: string, out: string, i: nat, n: nat)
    requires |s| == |out| && i + n <= |out| && Fits(d, q, out, i, n)
    requires forall k | i <= k < i + n :: out[k] == s[k]
    ensures Fits(d, q, s, i, n)
  {
  }

  lemma UnstarredStays(d: Digits, r: Rule, s: string, out: string, k: nat)
    requires PassedFrom(d, r, s, out, 0) && k < |out| && out[k] != '*'
    ensures k < |s| && out[k] == s[k] && !Hidden(d, r, s, k)
  {
  }

  /** Every match in the output of a pass, of whatever rule, is a match in its input: splitting runs of
      digits leaves pieces too short for any rule. */
  lemma NoNewMatch(d: Digits, r: Rule, q: Rule, s: string, i: nat, n: nat)
    requires Matches(d, q, Pass(d, r, s), i, n)
    ensures Matches(d, q, s, i, n)
    ensures forall k | i <= k < i + n :: !Hidden(d, r, s, k)
  {
    var out := Pass(d, r, s);
    PassHides(d, r, s);
    FitHasNoStar(d, q, out, i, n);
    forall k | i <= k < i + n ensures out[k] == s[k] && !Hidden(d, r, s, k) {
      UnstarredStays(d, r, s, out, k);
    }
    SameFits(d, q, s, out, i, n);
    NothingNewBefore(d, r, s, out, i);
    NothingNewAfter(d, r, s, out, i, i + n);
  }

  /** After a pass its own rule matches nowhere. */
  lemma PassClears(d: Digits, r: Rule, s: string, i: nat, n: nat)
    ensures !Matches(d, r, Pass(d, r, s), i, n)
  {
    if Matches(d, r, Pass(d, r, s), i, n) {
      NoNewMatch(d, r, r, s, i, n);
      HiddenInMatch(d, r, s, i, n, i + Head(r));
    }
  }

  // ------------------------------------------------------------------ the three passes together

  /** No ID card, bank card or mobile number is left in the output, and its length is that of the input. */
  lemma MaskComplete(d: Digits, s: string)
    ensures |MaskText(d, s)| == |s|
    ensures forall r: Rule, i: nat, n: nat :: !Matches(d, r, MaskText(d, s), i, n)
  {
    var s1 := Pass(d, IdCard, s);
    var s2 := Pass(d, BankCard, s1);
    PassHides(d, IdCard, s);
    PassHides(d, BankCard, s1);
    PassHides(d, Mobile, s2);
    forall r: Rule, i: nat, n: nat ensures !Matches(d, r, MaskText(d, s), i, n) {
      if Matches(d, r, MaskText(d, s), i, n) {
        NoNewMatch(d, Mobile, r, s2, i, n);
        NoNewMatch(d, BankCard, r, s1, i, n);
        match r
        case IdCard => PassClears(d, IdCard, s, i, n);
        case BankCard => PassClears(d, BankCard, s1, i, n);
        case Mobile => PassClears(d, Mobile, s2, i, n);
      }
    }
  }

  /** A pass leaves a text as it is exactly if its rule matches nowhere. */
  lemma PassIsIdentity(d: Digits, r: Rule, s: string)
    ensures Pass(d, r, s) == s <==> forall i: nat, n: nat :: !Matches(d, r, s, i, n)
  {
    PassHides(d, r, s);
    if i: nat, n: nat :| Matches(d, r, s, i, n) {
      HiddenInMatch(d, r, s, i, n, i + Head(r));
      assert s[i + Head(r)] in d;
    }
  }

  /** So masking leaves a text as it is exactly if there is no number in it to mask. */
  lemma MaskIsIdentity(d: Digits, s: string)
    ensures MaskText(d, s) == s <==> forall r: Rule, i: nat, n: nat :: !Matches(d, r, s, i, n)
  {
    MaskComplete(d, s);
    if forall r: Rule, i: nat, n: nat :: !Matches(d, r, s, i, n) {
      PassIsIdentity(d, IdCard, s);
      PassIsIdentity(d, BankCard, s);
      PassIsIdentity(d, Mobile, s);
    }
  }

  lemma MaskIdempotent(d: Digits, s: string)
    ensures MaskText(d, MaskText(d, s)) == MaskText(d, s)
  {
    MaskComplete(d, s);
    MaskIsIdentity(d, MaskText(d, s));
  }

  // ------------------------------------------------------------------ the order of the passes

  predicate Before(q: Rule, r: Rule) {
    (q == IdCard && r != IdCard) || (q == BankCard && r == Mobile)
  }

  /** r matches at i and no rule of an earlier pass does. */
  ghost predicate FirstToMatch(d: Digits, r: Rule, s: string, i: nat, n: nat) {
    Matches(d, r, s, i, n) && forall q: Rule, m: nat | Before(q, r) :: !Matches(d, q, s, i, m)
  }

  ghost predicate HiddenByFirst(d: Digits, r: Rule, s: string, k: nat) {
    exists i: nat, n: nat :: FirstToMatch(d, r, s, i, n) && i + Head(r) <= k < i + n - TAIL
  }

  /** A pass leaves a match of another rule as it is, unless its own rule matches at the same place. */
  lemma OtherMatchesStay(d: Digits, r: Rule, q: Rule, s: string, i: nat, n: nat)
    requires Matches(d, q, s, i, n) && forall m: nat :: !Matches(d, r, s, i, m)
    ensures Matches(d, q, Pass(d, r, s), i, n)
  {
    PassHides(d, r, s);
    forall k | i <= k < i + n ensures Pass(d, r, s)[k] == s[k] {
      if Hidden(d, r, s, k) {
        var j: nat, m: nat :| Matches(d, r, s, j, m) && j + Head(r) <= k < j + m - TAIL;
        ShareStart(d, q, r, s, i, n, j, m, k);
      }
    }
  }

  // What a pass finds is what matched before it, less what its own rule matched.
  lemma MatchesAfter(d: Digits, r: Rule, q: Rule, s: string, i: nat, n: nat)
    ensures Matches(d, q, Pass(d, r, s), i, n) <==> Matches(d, q, s, i, n) && forall m: nat :: !Matches(d, r, s, i, m)
  {
    if Matches(d, q, Pass(d, r, s), i, n) {
      NoNewMatch(d, r, q, s, i, n);
      if m: nat :| Matches(d, r, s, i, m) {
        HiddenInMatch(d, r, s, i, m, i + Head(r));
      }
    } else if Matches(d, q, s, i, n) && forall m: nat :: !Matches(d, r, s, i, m) {
      OtherMatchesStay(d, r, q, s, i, n);
    }
  }

  lemma BankAfterId(d: Digits, s: string, i: nat, n: nat)
    ensures Matches(d, BankCard, Pass(d, IdCard, s), i, n) <==> FirstToMatch(d, BankCard, s, i, n)
  {
    MatchesAfter(d, IdCard, BankCard, s, i, n);
  }

  lemma MobileAfterBank(d: Digits, s: string, i: nat, n: nat)
    ensures Matches(d, Mobile, Pass(d, BankCard, Pass(d, IdCard, s)), i, n) <==> FirstToMatch(d, Mobile, s, i, n)
  {
    var s1 := Pass(d, IdCard, s);
    MatchesAfter(d, BankCard, Mobile, s1, i, n);
    MatchesAfter(d, IdCard, Mobile, s, i, n);
    forall m: nat ensures Matches(d, BankCard, s1, i, m) <==> FirstToMatch(d, BankCard, s, i, m) {
      BankAfterId(d, s, i, m);
    }
  }

  /** The three passes one after the other do what one look at the text would: a character is hidden exactly
      if the first rule that matches its number hides it. */
  lemma MaskIsOnePass(d: Digits, s: string)
    ensures |MaskText(d, s)| == |s|
    ensures forall k | 0 <= k < |s| :: MaskText(d, s)[k] ==
              if exists r :: HiddenByFirst(d, r, s, k) then '*' else s[k]
  {
    var s1 := Pass(d, IdCard, s);
    var s2 := Pass(d, BankCard, s1);
    PassHides(d, IdCard, s);
    PassHides(d, BankCard, s1);
    PassHides(d, Mobile, s2);
    forall k | 0 <= k < |s|
      ensures MaskText(d, s)[k] == if exists r :: HiddenByFirst(d, r, s, k) then '*' else s[k]
    {
      HiddenPerPass(d, s, k);
    }
  }

  lemma HiddenPerPass(d: Digits, s: string, k: nat)
    ensures Hidden(d, IdCard, s, k) <==> HiddenByFirst(d, IdCard, s, k)
    ensures Hidden(d, BankCard, Pass(d, IdCard, s), k) <==> HiddenByFirst(d, BankCard, s, k)
    ensures Hidden(d, Mobile, Pass(d, BankCard, Pass(d, IdCard, s)), k) <==> HiddenByFirst(d, Mobile, s, k)
  {
    forall i: nat, n: nat ensures Matches(d, IdCard, s, i, n) <==> FirstToMatch(d, IdCard, s, i, n) {
    }
    forall i: nat, n: nat
      ensures Matches(d, BankCard, Pass(d, IdCard, s), i, n) <==> FirstToMatch(d, BankCard, s, i, n)
    {
      BankAfterId(d, s, i, n);
    }
    forall i: nat, n: nat
      ensures Matches(d, Mobile, Pass(d, BankCard, Pass(d, IdCard, s)), i, n) <==> FirstToMatch(d, Mobile, s, i, n)
    {
      MobileAfterBank(d, s, i, n);
    }
  }

  // ------------------------------------------------------------------ which characters that hides

  /** The n characters at i are digits, and there is no digit right before and after them. */
  predicate DigitsAlone(d: Digits, s: string, i: nat, n: nat) {
    i + n <= |s| && AllDigits(d, s, i, i + n) && NoDigitBefore(d, s, i) && NoDigitAt(d, s, i + n)
  }

  /** Eighteen digits on their own, or seventeen and an X with no digit behind it. */
  predicate IdNumber(d: Digits, s: string, i: nat) {
    || DigitsAlone(d, s, i, 18)
    || (DigitsAlone(d, s, i, 17) && i + 17 < |s| && s[i + 17] in {'X', 'x'} && NoDigitAt(d, s, i + 18))
  }

  /** Sixteen to nineteen digits on their own that are no ID number. */
  predicate CardNumber(d: Digits, s: string, i: nat, n: nat) {
    16 <= n <= 19 && DigitsAlone(d, s, i, n) && !IdNumber(d, s, i)
  }

  /** Eleven digits on their own that start with 13 to 19. */
  predicate MobileNumber(d: Digits, s: string, i: nat) {
    DigitsAlone(d, s, i, 11) && s[i] == '1' && '3' <= s[i + 1] <= '9'
  }

  lemma IdIsIdNumber(d: Digits, s: string, i: nat, n: nat)
    ensures FirstToMatch(d, IdCard, s, i, n) <==> n == 18 && IdNumber(d, s, i)
  {
    if i + 18 <= |s| && s[i + 17] in d {
      assert AllDigits(d, s, i, i + 17) ==> AllDigits(d, s, i, i + 18);
    }
  }

  lemma IdMatches(d: Digits, s: string, i: nat, m: nat)
    ensures Matches(d, IdCard, s, i, m) <==> m == 18 && IdNumber(d, s, i)
  {
    IdIsIdNumber(d, s, i, m);
    if Matches(d, IdCard, s, i, m) {
      assert FirstToMatch(d, IdCard, s, i, m);
    }
  }

  lemma BankIsCardNumber(d: Digits, s: string, i: nat, n: nat)
    ensures FirstToMatch(d, BankCard, s, i, n) <==> CardNumber(d, s, i, n)
  {
    forall m: nat ensures Matches(d, IdCard, s, i, m) <==> m == 18 && IdNumber(d, s, i) {
      IdMatches(d, s, i, m);
    }
    assert Matches(d, BankCard, s, i, n) <==> 16 <= n <= 19 && DigitsAlone(d, s, i, n);
    assert Before(IdCard, BankCard);
    if FirstToMatch(d, BankCard, s, i, n) {
      assert !Matches(d, IdCard, s, i, 18);
    }
  }

  lemma MobileIsMobileNumber(d: Digits, s: string, i: nat, n: nat)
    ensures FirstToMatch(d, Mobile, s, i, n) <==> n == 11 && MobileNumber(d, s, i)
  {
    if Matches(d, Mobile, s, i, n) {
      assert s[i + 11 - 1] in d && NoDigitAt(d, s, i + 11);
    }
  }

  /** Character by character: masked are the eight in the middle of an ID number, all but the first and last four of a
      card number, and the four in the middle of a mobile number; everything else stays. */
  lemma MaskHidesExactly(d: Digits, s: string, k: nat)
    requires k < |s|
    ensures |MaskText(d, s)| == |s|
    ensures MaskText(d, s)[k] ==
            if || (exists i: nat :: IdNumber(d, s, i) && i + 6 <= k < i + 14)
               || (exists i: nat, n: nat :: CardNumber(d, s, i, n) && i + 4 <= k < i + n - 4)
               || (exists i: nat :: MobileNumber(d, s, i) && i + 3 <= k < i + 7)
            then '*' else s[k]
  {
    MaskIsOnePass(d, s);
    HiddenById(d, s, k);
    HiddenByBank(d, s, k);
    HiddenByMobile(d, s, k);
    assert (exists r :: HiddenByFirst(d, r, s, k)) <==>
      HiddenByFirst(d, IdCard, s, k) || HiddenByFirst(d, BankCard, s, k) || HiddenByFirst(d, Mobile, s, k);
  }

  lemma HiddenById(d: Digits, s: string, k: nat)
    ensures HiddenByFirst(d, IdCard, s, k) <==> exists i: nat :: IdNumber(d, s, i) && i + 6 <= k < i + 14
  {
    forall i: nat, n: nat ensures FirstToMatch(d, IdCard, s, i, n) <==> n == 18 && IdNumber(d, s, i) {
      IdIsIdNumber(d, s, i, n);
    }
    if i: nat :| IdNumber(d, s, i) && i + 6 <= k < i + 14 {
      assert FirstToMatch(d, IdCard, s, i, 18);
    }
  }

  lemma HiddenByBank(d: Digits, s: string, k: nat)
    ensures HiddenByFirst(d, BankCard, s, k) <==>
            exists i: nat, n: nat :: CardNumber(d, s, i, n) && i + 4 <= k < i + n - 4
  {
    forall i: nat, n: nat ensures FirstToMatch(d, BankCard, s, i, n) <==> CardNumber(d, s, i, n) {
      BankIsCardNumber(d, s, i, n);
    }
  }

  lemma HiddenByMobile(d: Digits, s: string, k: nat)
    ensures HiddenByFirst(d, Mobile, s, k) <==> exists i: nat :: MobileNumber(d, s, i) && i + 3 <= k < i + 7
  {
    forall i: nat, n: nat ensures FirstToMatch(d, Mobile, s, i, n) <==> n == 11 && MobileNumber(d, s, i) {
      MobileIsMobileNumber(d, s, i, n);
    }
    if i: nat :| MobileNumber(d, s, i) && i + 3 <= k < i + 7 {
      assert FirstToMatch(d, Mobile, s, i, 11);
    }
  }
}
