/** Letters but for their case, as far as ASCII goes. */
module Ascii {

  function Lower(c: char): char { if 'A' <= c <= 'Z' then (c as int + 32) as char else c }

  /** The same character, or one letter of A-Z and its counterpart of a-z. */
  predicate AlikeButForCase(a: char, b: char) {
    || a == b
    || ('A' <= a <= 'Z' && b as int - 'a' as int == a as int - 'A' as int)
    || ('A' <= b <= 'Z' && a as int - 'a' as int == b as int - 'A' as int)
  }

  /** Lowering identifies exactly the letters that differ in case. */
  lemma LowerExact(a: char, b: char)
    ensures Lower(a) == Lower(b) <==> AlikeButForCase(a, b)
  {
  }
}
