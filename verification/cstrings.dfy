/** NUL-terminated character strings as modo reads them: a string is a sequence of characters
    without NUL, and reading at its length yields the terminator. */
module CStrings {

  const Nul: char := '\0'

  /** The string carries no NUL, so its terminator is exactly at its length. */
  predicate NoNul(s: string) {
    forall i :: 0 <= i < |s| ==> s[i] != Nul
  }

  /** `s[i]` on a C string: the character, or the terminator from the length on. */
  function CharAt(s: string, i: nat): (c: char)
    ensures i < |s| ==> c == s[i]
    ensures i >= |s| ==> c == Nul
    ensures NoNul(s) ==> (c == Nul <==> i >= |s|)
  {
    if i < |s| then s[i] else Nul
  }

  /** `c >= '0' && c <= '9'`. */
  predicate IsDigit(c: char) {
    '0' <= c <= '9'
  }

  /** `c - '0'` for a decimal digit. */
  function DigitValue(c: char): (d: nat)
    requires IsDigit(c)
    ensures d <= 9
    ensures d as int + '0' as int == c as int
  {
    c as int - '0' as int
  }
}
