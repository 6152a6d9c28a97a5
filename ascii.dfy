/** The character classes the engine relies on (`std::isalnum`, `std::tolower`),
    for the ASCII range of the "C" locale. */
module Ascii {

  predicate IsAlnum(c: char) {
    ('0' <= c <= '9') || ('A' <= c <= 'Z') || ('a' <= c <= 'z')
  }

  predicate IsLowerAlnum(c: char) {
    ('0' <= c <= '9') || ('a' <= c <= 'z')
  }

  /** `std::tolower`: upper-case ASCII letters map to lower case, everything else is kept. */
  function ToLower(c: char): (r: char)
    ensures 'A' <= c <= 'Z' ==> 'a' <= r <= 'z' && r as int - 'a' as int == c as int - 'A' as int
    ensures IsAlnum(c) ==> IsLowerAlnum(r)
    ensures !('A' <= c <= 'Z') ==> r == c
    ensures IsAlnum(r) == IsAlnum(c)
  {
    if 'A' <= c <= 'Z' then (c as int + 32) as char else c
  }

  /** `std::transform(…, ::tolower)` over a whole string. */
  function LowerString(s: string): (r: string)
    ensures |r| == |s|
    ensures forall i :: 0 <= i < |s| ==> r[i] == ToLower(s[i])
  {
    seq(|s|, i requires 0 <= i < |s| => ToLower(s[i]))
  }

  predicate IsLowerWord(w: string) {
    forall i :: 0 <= i < |w| ==> IsLowerAlnum(w[i])
  }

  /** Lower-casing a word of lower-case letters and digits changes nothing. */
  lemma LowerWordIsFixed(w: string)
    requires IsLowerWord(w)
    ensures LowerString(w) == w
  {
  }
}
