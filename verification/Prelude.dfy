/** Shared by every module: an optional value, a lower bound, and a search in a text. */
module Prelude {
  datatype Option<+T> = None | Some(value: T)

  /** max(low, n). */
  function AtLeast(low: int, n: int): (r: int)
    ensures low <= r && n <= r && r in {low, n}
  {
    if n < low then low else n
  }

  predicate OccursAt(s: string, hint: string, i: nat) {
    i + |hint| <= |s| && s[i..i + |hint|] == hint
  }

  /** hint in s, for strings. */
  predicate Contains(s: string, hint: string) {
    exists i | 0 <= i <= |s| :: OccursAt(s, hint, i)
  }
}
