// Character classes used by the prescanner.  They follow the ASCII-only
// helpers of the front end's characters header (IsDecimalDigit, IsLetter,
// ToLowerCaseLetter, ...), which is not part of this model.

module Chars {

  datatype Option<T> = None | Some(value: T)

  predicate IsDecimalDigit(c: char) { '0' <= c <= '9' }

  predicate IsUpperCaseLetter(c: char) { 'A' <= c <= 'Z' }

  predicate IsLowerCaseLetter(c: char) { 'a' <= c <= 'z' }

  predicate IsLetter(c: char) { IsUpperCaseLetter(c) || IsLowerCaseLetter(c) }

  predicate IsHexadecimalDigit(c: char)
  {
    IsDecimalDigit(c) || ('a' <= c <= 'f') || ('A' <= c <= 'F')
  }

  predicate IsLegalInIdentifier(c: char)
  {
    IsLetter(c) || IsDecimalDigit(c) || c == '_'
  }

  function DecimalDigitValue(c: char): (d: nat)
    requires IsDecimalDigit(c)
    ensures d < 10
  {
    c as int - '0' as int
  }

  /** Folds an upper-case ASCII letter to lower case; every other character is kept. */
  function ToLowerCaseLetter(c: char): (r: char)
    ensures IsUpperCaseLetter(c) ==> IsLowerCaseLetter(r) && r as int == c as int + 32
    ensures !IsUpperCaseLetter(c) ==> r == c
    ensures !IsUpperCaseLetter(r)
  {
    if IsUpperCaseLetter(c) then (c as int + 32) as char else c
  }

  /** Case-folds a whole string character by character. */
  function ToLower(s: string): (r: string)
    ensures |r| == |s|
    ensures forall i :: 0 <= i < |s| ==> r[i] == ToLowerCaseLetter(s[i])
  {
    seq(|s|, i requires 0 <= i < |s| => ToLowerCaseLetter(s[i]))
  }

  /** A string that case folding leaves as it is. */
  predicate IsLowerCase(s: string)
  {
    forall i :: 0 <= i < |s| ==> !IsUpperCaseLetter(s[i])
  }

  lemma {:induction false} ToLowerIdempotent(s: string)
    ensures IsLowerCase(ToLower(s))
    ensures ToLower(ToLower(s)) == ToLower(s)
    ensures IsLowerCase(s) ==> ToLower(s) == s
  {
  }

  /** A string as C code sees it through a pointer to its first character: up to its first NUL. */
  function CString(s: string): (r: string)
    ensures r <= s && '\0' !in r
    ensures |r| < |s| ==> s[|r|] == '\0'
  {
    if s == [] || s[0] == '\0' then [] else [s[0]] + CString(s[1..])
  }

  /** Column-1 characters that introduce a fixed-form comment line. */
  predicate IsFixedFormCommentChar(c: char)
  {
    c == '!' || c == '*' || c == 'C' || c == 'c'
  }

  /** Blank as the prescanner's SkipWhiteSpace understands it. */
  predicate IsBlank(c: char) { c == ' ' || c == '\t' }
}
