/** Numbers read back from their decimal digits. */
module Numerals {

  predicate Digits(s: string) { forall k :: 0 <= k < |s| ==> '0' <= s[k] <= '9' }

  function Value(s: string): nat
    requires Digits(s)
  {
    if s == "" then 0 else 10 * Value(s[..|s| - 1]) + (s[|s| - 1] - '0') as nat
  }

  /** One more digit. */
  lemma {:induction false} ValueMore(s: string, d: int, c: char)
    requires Digits(s) && 0 <= d < 10 && c == '0' + d as char
    ensures Digits(s + [c]) && Value(s + [c]) == 10 * Value(s) + d
  {
    assert (s + [c])[..|s|] == s;
  }
}
