/** Letters and their cases, on ASCII. */
module Ascii {
  predicate IsLower(c: char) { 'a' <= c <= 'z' }

  predicate IsUpper(c: char) { 'A' <= c <= 'Z' }

  predicate IsDigit(c: char) { '0' <= c <= '9' }

  function LowerChar(c: char): char {
    if IsUpper(c) then (c as int - 'A' as int + 'a' as int) as char else c
  }

  function UpperChar(c: char): char {
    if IsLower(c) then (c as int - 'a' as int + 'A' as int) as char else c
  }

  /** `str.lower` */
  function Lower(s: string): (r: string)
    ensures |r| == |s|
  {
    seq(|s|, i requires 0 <= i < |s| => LowerChar(s[i]))
  }

  /** `str.upper` */
  function Upper(s: string): (r: string)
    ensures |r| == |s|
    ensures forall c <- r :: !IsLower(c)
  {
    seq(|s|, i requires 0 <= i < |s| => UpperChar(s[i]))
  }

  /** Letters, digits and cases by code: the two cases are 32 apart, and nothing but a letter changes. */
  lemma Codes(c: char)
    ensures IsUpper(c) <==> 65 <= c as int <= 90
    ensures IsLower(c) <==> 97 <= c as int <= 122
    ensures IsDigit(c) <==> 48 <= c as int <= 57
    ensures LowerChar(c) as int == c as int + if 65 <= c as int <= 90 then 32 else 0
    ensures UpperChar(c) as int == c as int - if 97 <= c as int <= 122 then 32 else 0
  {
  }

  /** Changing the case keeps every place and, but for letters of the other case, every character. */
  lemma CasesInPlace(s: string, i: nat)
    requires i < |s|
    ensures Lower(s)[i] as int == s[i] as int + if 65 <= s[i] as int <= 90 then 32 else 0
    ensures Upper(s)[i] as int == s[i] as int - if 97 <= s[i] as int <= 122 then 32 else 0
  {
    Codes(s[i]);
  }
}
