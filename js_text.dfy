/**
 * The part of JavaScript's string semantics that the to-do screen relies on:
 * `String.prototype.trim`, which strips leading and trailing white space and
 * line terminators, and the truthiness of the string it returns (only the
 * empty string is falsy).
 */
module JsText {

  /** The characters `trim` removes: ECMAScript WhiteSpace and LineTerminator. */
  predicate IsWhiteSpace(c: char) {
    || c == '\t' || c == '\n' || c == '\U{000B}' || c == '\U{000C}' || c == '\r'
    || c == ' ' || c == '\U{00A0}' || c == '\U{1680}'
    || ('\U{2000}' <= c <= '\U{200A}')
    || c == '\U{2028}' || c == '\U{2029}' || c == '\U{202F}' || c == '\U{205F}'
    || c == '\U{3000}' || c == '\U{FEFF}'
  }

  /** How many white-space characters `s` starts with. */
  function LeadingWhiteSpace(s: string): (n: nat)
    ensures n <= |s|
    ensures forall i :: 0 <= i < n ==> IsWhiteSpace(s[i])
    ensures n < |s| ==> !IsWhiteSpace(s[n])
  {
    if s != [] && IsWhiteSpace(s[0]) then 1 + LeadingWhiteSpace(s[1..]) else 0
  }

  /** How many white-space characters `s` ends with. */
  function TrailingWhiteSpace(s: string): (n: nat)
    ensures n <= |s|
    ensures forall i :: |s| - n <= i < |s| ==> IsWhiteSpace(s[i])
    ensures n < |s| ==> !IsWhiteSpace(s[|s| - 1 - n])
  {
    if s != [] && IsWhiteSpace(s[|s| - 1]) then 1 + TrailingWhiteSpace(s[..|s| - 1]) else 0
  }

  /**
   * `s.trim()`: `s` with only its leading and trailing white space removed.
   * The result is the slice `s[lo..lo + |r|]` after the leading white space,
   * everything before and after it is white space, and it neither starts nor
   * ends with white space. These facts leave no other choice of result.
   */
  function Trim(s: string): (r: string)
    ensures var lo := LeadingWhiteSpace(s);
      && lo + |r| <= |s| && r == s[lo..lo + |r|]
      && (forall i :: 0 <= i < lo ==> IsWhiteSpace(s[i]))
      && (forall i :: lo + |r| <= i < |s| ==> IsWhiteSpace(s[i]))
    ensures |r| > 0 ==> !IsWhiteSpace(r[0]) && !IsWhiteSpace(r[|r| - 1])
  {
    var lo := LeadingWhiteSpace(s);
    if lo == |s| then []
    else
      var hi := |s| - TrailingWhiteSpace(s);
      assert !IsWhiteSpace(s[lo]) && lo < hi;
      s[lo..hi]
  }

  /**
   * `if (s.trim())`: the trimmed string is truthy exactly when it is
   * non-empty, that is, when `s` has a character that is not white space.
   */
  predicate HasContent(s: string): (b: bool)
    ensures b <==> exists i :: 0 <= i < |s| && !IsWhiteSpace(s[i])
  {
    TrimEmptyIffBlank(s);
    Trim(s) != []
  }

  /** `s.trim()` is empty exactly when every character of `s` is white space. */
  lemma {:induction false} TrimEmptyIffBlank(s: string)
    ensures Trim(s) == [] <==> forall i :: 0 <= i < |s| ==> IsWhiteSpace(s[i])
  {
    var lo := LeadingWhiteSpace(s);
    if Trim(s) != [] {
      assert s[lo] == Trim(s)[0];
    }
  }
}
