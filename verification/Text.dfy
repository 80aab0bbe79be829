/** White space as trimming sees it. */
module Text {

  predicate Whitespace(c: char)
  {
    var n := c as int;
    9 <= n <= 13 || n == 0x20 || n == 0x85 || n == 0xA0 || n == 0x1680 || 0x2000 <= n <= 0x200A ||
    n == 0x2028 || n == 0x2029 || n == 0x202F || n == 0x205F || n == 0x3000
  }

  /** Nothing is left of it when it is trimmed. */
  predicate Blank(s: string) { forall k :: 0 <= k < |s| ==> Whitespace(s[k]) }
}
