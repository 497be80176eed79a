// Which physical lines continue the current logical line, and where their
// content starts (the two continuation-line recognisers of prescan.cc).

module Continuations {
  import opened Chars
  import opened Lines

  predicate NoNewline(s: string)
  {
    forall i :: 0 <= i < |s| ==> s[i] != '\n'
  }

  /** A character that marks column 6 of a fixed-form line as a continuation. */
  predicate IsContinuationMark(c: char)
  {
    c != '\n' && c != '\t' && c != ' ' && c != '0'
  }

  /** Columns 1-5 of the line at n are blanks. */
  predicate BlankLabelField(buf: string, n: nat)
  {
    n + 5 < |buf| && forall k :: n <= k < n + 5 ==> buf[k] == ' '
  }

  /** Column 1 is a tab and column 2 a digit 1-9: the VAX continuation form. */
  predicate TabDigitContinuation(buf: string, n: nat)
  {
    n + 1 < |buf| && buf[n] == '\t' && '1' <= buf[n + 1] <= '9'
  }

  datatype ContinuationLine = NotContinued | Continued(start: nat, insertSpace: bool)

  /**
   * Columns j..5 of a continued fixed-form directive line: the sentinel's
   * characters (the first four at most, compared case-insensitively), then blanks.
   */
  function DirectiveColumnsMatch(buf: string, n: nat, s: string, j: nat): (ok: bool)
    requires WellFormed(buf) && NoNewline(s) && 1 <= j <= 5
    requires n + j - 1 < |buf| && buf[n + j - 1] != '\n'
    ensures ok ==> n + 5 < |buf| && forall k :: n + j - 1 <= k < n + 5 ==> buf[k] != '\n'
    decreases 5 - j
  {
    if j == 5 then true
    else
      (if j - 1 < |s| then s[j - 1] == ToLowerCaseLetter(buf[n + j]) else buf[n + j] == ' ') &&
      DirectiveColumnsMatch(buf, n, s, j + 1)
  }

  /**
   * FixedFormContinuationLine: the start of the content of the fixed-form line
   * at n when it continues the current line.  With an active directive
   * sentinel the line must repeat the sentinel and mark column 6.  Otherwise
   * it continues when column 1 is '&' (an extension that must be enabled),
   * when column 1 is a tab followed by a digit 1-9, when columns 1-5 are blank
   * and column 6 holds a continuation mark, or, inside open parentheses or
   * brackets, when column 1 does not start a comment.
   */
  function FixedContinuationLine(buf: string, n: nat, sentinel: Option<string>,
                                 column1Ampersand: bool, nesting: nat, mightNeedSpace: bool): (r: ContinuationLine)
    requires WellFormed(buf) && n <= |buf|
    requires sentinel.Some? ==> NoNewline(sentinel.value)
    ensures r.Continued? ==> n < |buf| && n <= r.start <= LineEnd(buf, n)
    ensures r.Continued? && r.insertSpace ==> sentinel.Some? && mightNeedSpace
  {
    if n >= |buf| then NotContinued
    else
      var col1 := buf[n];
      match sentinel
      case Some(s) => DirectiveContinuation(buf, n, s, mightNeedSpace)
      case None =>
        if col1 == '&' && column1Ampersand then Continued(n + 1, false)
        else if TabDigitContinuation(buf, n) then Continued(n + 2, false)
        else if BlankLabelField(buf, n) && IsContinuationMark(buf[n + 5]) then Continued(n + 6, false)
        else if nesting > 0 && !IsFixedFormCommentChar(col1) then Continued(n, false)
        else NotContinued
  }

  /**
   * A fixed-form line inside a compiler directive continues it when column 1
   * starts a comment, columns 2-5 hold the same sentinel, and column 6 holds
   * a continuation mark; a blank is owed when text follows in column 7.
   */
  function DirectiveContinuation(buf: string, n: nat, s: string, mightNeedSpace: bool): (r: ContinuationLine)
    requires WellFormed(buf) && n < |buf| && NoNewline(s)
    ensures r.Continued? ==> n <= r.start <= LineEnd(buf, n) && (r.insertSpace ==> mightNeedSpace)
  {
    if !IsFixedFormCommentChar(buf[n]) || !DirectiveColumnsMatch(buf, n, s, 1) then NotContinued
    else if IsContinuationMark(buf[n + 5]) then Continued(n + 6, buf[n + 6] != ' ' && mightNeedSpace)
    else NotContinued
  }

  /** The sentinel s is spelled (case-insensitively) at position i. */
  predicate SpellsSentinel(buf: string, i: nat, s: string)
  {
    i + |s| <= |buf| && ToLower(buf[i..i + |s|]) == s
  }

  /**
   * FreeFormContinuationLine: the start of the content of the free-form line
   * at n when it continues the current line, given whether the current line
   * ended with '&'.  With an active directive sentinel the line must be '!'
   * and the sentinel; otherwise a leading '&' is skipped, a comment, blank or
   * '#' line never continues, and any other line continues only after '&' or
   * inside open parentheses or brackets.
   */
  function FreeContinuationLine(buf: string, n: nat, sentinel: Option<string>, ampersand: bool, nesting: nat): (r: ContinuationLine)
    requires WellFormed(buf) && n <= |buf|
    requires sentinel.Some? ==> NoNewline(sentinel.value)
    ensures r.Continued? ==> n < |buf| && n <= r.start <= LineEnd(buf, n)
  {
    if n >= |buf| then NotContinued
    else
      var p := SkipWhite(buf, n);
      match sentinel
      case Some(s) => SentinelContinuation(buf, p, s, ampersand)
      case None =>
        if buf[p] == '&' then Continued(p + 1, false)
        else if buf[p] == '!' || buf[p] == '\n' || buf[p] == '#' then NotContinued
        else if ampersand || nesting > 0 then
          if p > n then Continued(p - 1, false) else Continued(p, true)
        else NotContinued
  }

  /**
   * A free-form line inside a compiler directive continues only when it
   * spells the same sentinel after '!'; then an '&' marks where its
   * content starts, and without one it continues only after a trailing '&'.
   */
  function SentinelContinuation(buf: string, p: nat, s: string, ampersand: bool): (r: ContinuationLine)
    requires WellFormed(buf) && p < |buf| && NoNewline(s)
    ensures r.Continued? ==> p < r.start <= LineEnd(buf, p)
  {
    if buf[p] != '!' || !SpellsSentinel(buf, p + 1, s) then NotContinued
    else
      assert |s| > 0 ==> buf[p + |s|] != '\n' by {
        if |s| > 0 {
          assert ToLowerCaseLetter(buf[p + |s|]) == ToLower(buf[p + 1..p + 1 + |s|])[|s| - 1];
        }
      }
      var q := SkipWhite(buf, p + 1 + |s|);
      if buf[q] == '&' then Continued(q + 1, !ampersand)
      else if ampersand then Continued(q, false)
      else NotContinued
  }
}
