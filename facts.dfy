// Properties of the line classifier, the INCLUDE path parser and the
// operator and bracket rules of the tokenizer, stated in terms of columns
// and characters rather than of the scanning functions.

module LineFacts {
  import opened Chars
  import opened Lines
  import opened Continuations
  import opened IncludePaths
  import opened Prescan

  /** Positions i..j-1 hold blanks or tabs. */
  predicate AllBlank(buf: string, i: nat, j: nat)
    requires j <= |buf|
  {
    forall k :: i <= k < j ==> IsBlank(buf[k])
  }

  // ---------------------------------------------------------------------
  // INCLUDE lines

  /**
   * IsIncludeLine yields the offset of q exactly when the line is blanks,
   * INCLUDE in any case, blanks, and a quote at q.
   */
  lemma IncludeLineShape(buf: string, start: nat, q: nat)
    requires WellFormed(buf) && start <= q < |buf|
    ensures IsIncludeLine(buf, start) == Some(q - start) <==>
      exists b :: start <= b && b + 7 <= q && AllBlank(buf, start, b) && ToLower(buf[b..b + 7]) == "include" &&
                  AllBlank(buf, b + 7, q) && IsQuote(buf[q])
  {
    if IsIncludeLine(buf, start) == Some(q - start) {
      var b := IncludeLineWord(buf, start, q);
    }
    if exists b :: start <= b && b + 7 <= q && AllBlank(buf, start, b) && ToLower(buf[b..b + 7]) == "include" &&
                   AllBlank(buf, b + 7, q) && IsQuote(buf[q]) {
      var b :| start <= b && b + 7 <= q && AllBlank(buf, start, b) && ToLower(buf[b..b + 7]) == "include" &&
                AllBlank(buf, b + 7, q) && IsQuote(buf[q]);
      IncludeLineFromWord(buf, start, b, q);
    }
  }

  /** An accepted INCLUDE line has its keyword at the first non-blank position. */
  lemma IncludeLineWord(buf: string, start: nat, q: nat) returns (b: nat)
    requires WellFormed(buf) && start <= q < |buf|
    requires IsIncludeLine(buf, start) == Some(q - start)
    ensures start <= b && b + 7 <= q && AllBlank(buf, start, b) && ToLower(buf[b..b + 7]) == "include"
    ensures AllBlank(buf, b + 7, q) && IsQuote(buf[q])
  {
    b := SkipWhite(buf, start);
    assert ToLower(buf[b..b + 7])[6] == 'e';
  }

  /** Blanks, INCLUDE, blanks and a quote make an INCLUDE line. */
  lemma IncludeLineFromWord(buf: string, start: nat, b: nat, q: nat)
    requires WellFormed(buf) && start <= b && b + 7 <= q < |buf|
    requires AllBlank(buf, start, b) && ToLower(buf[b..b + 7]) == "include"
    requires AllBlank(buf, b + 7, q) && IsQuote(buf[q])
    ensures IsIncludeLine(buf, start) == Some(q - start)
  {
    assert ToLower(buf[b..b + 7])[0] == 'i' && ToLowerCaseLetter(buf[b]) == 'i';
    SkipWhiteUnique(buf, start, b);
    SkipWhiteUnique(buf, b + 7, q);
  }

  /** A path whose closing quote is missing on its line is malformed, and no path is produced. */
  lemma {:induction false} UnclosedPathMalformed(buf: string, i: nat, quote: char)
    requires WellFormed(buf) && i < |buf| && quote != '\n'
    requires forall k :: i <= k < LineEnd(buf, i) ==> buf[k] != quote
    ensures ScanPath(buf, i, quote) == Malformed(LineEnd(buf, i))
    decreases |buf| - i
  {
    if buf[i] != '\n' {
      UnclosedPathMalformed(buf, i + 1, quote);
    }
  }

  lemma IncludeWithoutClosingQuote(buf: string, q: nat)
    requires WellFormed(buf) && q < |buf| && IsQuote(buf[q])
    requires forall k :: q < k < LineEnd(buf, q) ==> buf[k] != buf[q]
    ensures ParseInclude(buf, q) == MalformedPath(q, LineEnd(buf, q))
  {
    UnclosedPathMalformed(buf, q + 1, buf[q]);
  }

  /**
   * A path written between quotes with each quote character doubled, and not
   * followed by another quote, is read back exactly.
   */
  lemma IncludePathRoundTrip(buf: string, q: nat, path: string)
    requires WellFormed(buf) && q < |buf| && IsQuote(buf[q]) && '\n' !in path
    requires q + 1 + |Escape(path, buf[q])| + 1 < |buf|
    requires buf[q + 1..q + 1 + |Escape(path, buf[q])|] == Escape(path, buf[q])
    requires buf[q + 1 + |Escape(path, buf[q])|] == buf[q] && buf[q + 2 + |Escape(path, buf[q])|] != buf[q]
    ensures ParseInclude(buf, q).IncludePath? && ParseInclude(buf, q).path == path
  {
    ScanEscaped(buf, q + 1, buf[q], path);
    var scan := ScanPath(buf, q + 1, buf[q]);
    assert scan.Closed? && scan.path == path;
    assert FirstQuote(buf, q) == q;
    assert ParseInclude(buf, q).path == scan.path;
  }

  // ---------------------------------------------------------------------
  // Fixed-form comment lines

  /** A tab lies in the line starting at start before position k. */
  predicate TabBefore(buf: string, start: nat, k: nat)
    requires k <= |buf|
  {
    exists j :: start <= j < k && buf[j] == '\t'
  }

  /** Part of the blank run of a fixed-form line: a space, a tab, or a '0' in column 6 when no tab came before it. */
  predicate FixedRunAt(buf: string, start: nat, k: nat)
    requires k < |buf|
  {
    buf[k] == ' ' || buf[k] == '\t' || (buf[k] == '0' && k == start + 5 && !TabBefore(buf, start, k))
  }

  /** The blank run from p ends at the first position m outside it, and reports whether a tab came before m. */
  lemma {:induction false} FixedBlankRun(buf: string, start: nat, p: nat, m: nat)
    requires WellFormed(buf) && start <= p <= m < |buf|
    requires forall k :: p <= k < m ==> FixedRunAt(buf, start, k)
    requires !FixedRunAt(buf, start, m)
    ensures FixedBlankEnd(buf, start, p, TabBefore(buf, start, p)) == (m, TabBefore(buf, start, m))
    decreases m - p
  {
    if p < m {
      assert FixedRunAt(buf, start, p);
      if buf[p] == '\t' {
        assert TabBefore(buf, start, p + 1);
      } else {
        assert TabBefore(buf, start, p + 1) == TabBefore(buf, start, p) by {
          if TabBefore(buf, start, p + 1) {
            var j :| start <= j < p + 1 && buf[j] == '\t';
            assert j < p;
          }
        }
      }
      FixedBlankRun(buf, start, p + 1, m);
    }
  }

  /** Column-1 characters that make a fixed-form line a comment on their own. */
  predicate Column1Comment(c: char, cfg: LineConfig)
  {
    IsFixedFormCommentChar(c) || c == '%' || ((c == 'D' || c == 'd') && !cfg.oldDebugLines)
  }

  /**
   * A fixed-form line whose blank run (spaces, tabs, and a '0' in column 6
   * before any tab) ends at m is a comment exactly when column 1 says so,
   * when a tab-free run reaches the column limit, when m holds a '!'
   * outside a character literal and is not column 6 of a tab-free run, or
   * when the line is empty.
   */
  lemma FixedFormCommentCases(buf: string, start: nat, cfg: LineConfig, m: nat)
    requires WellFormed(buf) && start <= m < |buf|
    requires forall k :: start <= k < m ==> FixedRunAt(buf, start, k)
    requires !FixedRunAt(buf, start, m)
    ensures IsFixedFormCommentLine(buf, start, cfg) <==>
      Column1Comment(buf[start], cfg) || (!TabBefore(buf, start, m) && m >= start + cfg.columnLimit) ||
      (buf[m] == '!' && !cfg.inCharLiteral && (TabBefore(buf, start, m) || m != start + 5)) || buf[m] == '\n'
  {
    assert !TabBefore(buf, start, start);
    FixedBlankRun(buf, start, start, m);
  }

  /** A '!' in column 6 after five blanks does not make a comment line. */
  lemma BangInColumnSix(buf: string, start: nat, cfg: LineConfig)
    requires WellFormed(buf) && start + 5 < |buf| && cfg.columnLimit > 5
    requires forall k :: start <= k < start + 5 ==> buf[k] == ' '
    requires buf[start + 5] == '!'
    ensures !IsFixedFormCommentLine(buf, start, cfg)
  {
    FixedFormCommentCases(buf, start, cfg, start + 5);
  }

  // ---------------------------------------------------------------------
  // ClassifyLine

  /** Blanks that end at a character other than the start of a block comment are all that SkipWhiteAndCComments skips. */
  lemma {:induction false} SkipWhiteAndCCommentsToPlain(buf: string, p: nat, b: nat, cfg: LineConfig)
    requires WellFormed(buf) && p <= b < |buf| && AllBlank(buf, p, b)
    requires !IsBlank(buf[b]) && !IsCComment(buf, b, cfg)
    ensures SkipWhiteAndCComments(buf, p, cfg) == b
    decreases b - p
  {
    if p < b {
      SkipWhiteAndCCommentsToPlain(buf, p + 1, b, cfg);
    }
  }

  /**
   * A free-form line whose first non-blank character does not open a block
   * comment is a comment line exactly when that character is '!' or the
   * end of the line, and the comment then starts there.
   */
  lemma FreeFormCommentShape(buf: string, p: nat, b: nat, cfg: LineConfig)
    requires WellFormed(buf) && p <= b < |buf| && AllBlank(buf, p, b)
    requires !IsBlank(buf[b]) && !IsCComment(buf, b, cfg)
    ensures IsFreeFormComment(buf, p, cfg).Some? <==> buf[b] == '!' || buf[b] == '\n'
    ensures IsFreeFormComment(buf, p, cfg).Some? ==> IsFreeFormComment(buf, p, cfg).value == b
  {
    SkipWhiteAndCCommentsToPlain(buf, p, b, cfg);
  }

  /**
   * The compiler-directive test comes first because every directive line
   * would also pass the comment test: in fixed form its column 1 is a
   * comment character, in free form it starts with '!'.
   */
  lemma DirectiveBeforeComment(buf: string, start: nat, cfg: LineConfig)
    requires WellFormed(buf) && start < |buf|
    ensures cfg.fixedForm && IsFixedFormCompilerDirectiveLine(buf, start, cfg).Some? ==>
      ClassifyLine(buf, start, cfg) == IsFixedFormCompilerDirectiveLine(buf, start, cfg).value &&
      IsFixedFormCommentLine(buf, start, cfg)
    ensures !cfg.fixedForm && IsFreeFormCompilerDirectiveLine(buf, start, cfg).Some? ==>
      ClassifyLine(buf, start, cfg) == IsFreeFormCompilerDirectiveLine(buf, start, cfg).value &&
      IsFreeFormComment(buf, start, cfg).Some?
  {
    if !cfg.fixedForm && IsFreeFormCompilerDirectiveLine(buf, start, cfg).Some? {
      var b := SkipWhite(buf, start);
      SkipWhiteAndCCommentsToPlain(buf, start, b, cfg);
    }
  }

  /**
   * A line whose first character is '#' is a preprocessor line in both
   * forms, and its kind is chosen by the directive name after the '#'.
   */
  lemma HashLineIsDirective(buf: string, start: nat, cfg: LineConfig)
    requires WellFormed(buf) && start < |buf| && buf[start] == '#'
    requires cfg.fixedForm ==> cfg.columnLimit > 0
    ensures ClassifyLine(buf, start, cfg) == Plain(DirectiveKind(buf, SkipWhite(buf, start + 1)))
  {
    HashRest(buf, start, cfg);
    if cfg.fixedForm {
      assert IsFixedFormCompilerDirectiveLine(buf, start, cfg).None?;
      FixedFormCommentCases(buf, start, cfg, start);
      assert !IsFixedFormCommentLine(buf, start, cfg);
    } else {
      assert IsFreeFormCompilerDirectiveLine(buf, start, cfg).None?;
      SkipWhiteAndCCommentsToPlain(buf, start, start, cfg);
      assert IsFreeFormComment(buf, start, cfg).None?;
    }
  }

  /** After the directive and comment tests, a line starting with '#' is classified by its directive name. */
  lemma HashRest(buf: string, start: nat, cfg: LineConfig)
    requires WellFormed(buf) && start < |buf| && buf[start] == '#'
    ensures ClassifyRest(buf, start, cfg) == Plain(DirectiveKind(buf, SkipWhite(buf, start + 1)))
  {
    assert IsIncludeLine(buf, start).None? by {
      if start + 7 <= |buf| {
        assert ToLower(buf[start..start + 7])[0] == '#';
      }
    }
    assert SkipSpaceChars(buf, start) == start;
  }

  /** In fixed form a '#' in column 6 after five blanks is ordinary source, not a preprocessor line. */
  lemma HashInColumnSix(buf: string, start: nat, cfg: LineConfig)
    requires WellFormed(buf) && cfg.fixedForm && cfg.columnLimit > 5
    requires start + 5 < |buf| && forall k :: start <= k < start + 5 ==> buf[k] == ' '
    requires buf[start + 5] == '#'
    ensures IsPreprocessorDirectiveLine(buf, start, cfg).None?
    ensures ClassifyLine(buf, start, cfg).kind == Source
  {
    FixedFormCommentCases(buf, start, cfg, start + 5);
    SkipWhiteUnique(buf, start, start + 5);
    assert SkipSpaceChars(buf, start) == start + 5;
    assert IsIncludeLine(buf, start).None? by {
      if start + 12 <= |buf| {
        assert ToLower(buf[start + 5..start + 12])[0] == '#';
      }
    }
  }

  // ---------------------------------------------------------------------
  // Free-form compiler directives

  /**
   * A free-form line of blanks, '!' at b and a word of one to six
   * characters ended at e by a blank, tab or '&' is a compiler directive
   * exactly when the next non-blank character is not another '!' and the
   * case-folded word is a registered sentinel, which is then the line's
   * sentinel.
   */
  lemma FreeFormDirectiveShape(buf: string, start: nat, cfg: LineConfig, b: nat, e: nat)
    requires WellFormed(buf) && start <= b && b + 1 < e <= b + 7 && e < |buf|
    requires AllBlank(buf, start, b) && buf[b] == '!'
    requires forall k :: b + 1 <= k < e ==> !IsWordStop(buf[k])
    requires buf[e] == ' ' || buf[e] == '\t' || buf[e] == '&'
    ensures IsFreeFormCompilerDirectiveLine(buf, start, cfg).Some? <==>
      buf[SkipWhite(buf, e + 1)] != '!' && IsRegistered(ToLower(buf[b + 1..e]), cfg.sentinels)
    ensures IsFreeFormCompilerDirectiveLine(buf, start, cfg).Some? ==>
      IsFreeFormCompilerDirectiveLine(buf, start, cfg).value.sentinel == Some(CString(ToLower(buf[b + 1..e])))
  {
    SkipWhiteUnique(buf, start, b);
    assert WordEnd(buf, b + 1) == e;
    assert SkipWhite(buf, start) == b && buf[e] != '\n' && e != b + 1 && e - (b + 1) <= 6;
    assert IsFreeFormCompilerDirectiveLine(buf, start, cfg) ==
      FreeDirectiveAfterWord(buf, start, e, ToLower(buf[b + 1..e]), cfg);
  }

  /** Without a '!' after the blanks, or with an empty sentinel word, a free-form line is no directive. */
  lemma FreeFormNotDirective(buf: string, start: nat, cfg: LineConfig)
    requires WellFormed(buf) && start < |buf|
    ensures buf[SkipWhite(buf, start)] != '!' ==> IsFreeFormCompilerDirectiveLine(buf, start, cfg).None?
    ensures buf[SkipWhite(buf, start)] == '!' && IsWordStop(buf[SkipWhite(buf, start) + 1]) ==>
      IsFreeFormCompilerDirectiveLine(buf, start, cfg).None?
  {
  }

  // ---------------------------------------------------------------------
  // Fixed-form compiler directives

  /**
   * A run of sentinel characters in columns column..k+1 is collected
   * case-folded, one per column: the scan that has gathered the first
   * column-2 characters of the folded word t gathers all of t.
   */
  lemma {:induction false} FixedSentinelWord(buf: string, start: nat, column: nat, k: nat, t: string)
    requires WellFormed(buf) && 2 <= column <= k + 2 <= 6 && start + 5 < |buf|
    requires forall i :: start + 1 <= i <= start + k ==> !IsBlank(buf[i]) && buf[i] != '\n'
    requires !(2 <= k && buf[start + 1] == '$' && IsDecimalDigit(buf[start + 2]))
    requires |t| == k && forall i :: 0 <= i < k ==> t[i] == ToLowerCaseLetter(buf[start + 1 + i])
    ensures FixedSentinelScan(buf, start, column, t[..column - 2]) == FixedSentinelScan(buf, start, k + 2, t)
    decreases k + 2 - column
  {
    if column < k + 2 {
      var s := t[..column - 2];
      assert |s| == 1 ==> s[0] == ToLowerCaseLetter(buf[start + 1]);
      FixedSentinelStep(buf, start, column, s);
      assert s + [ToLowerCaseLetter(buf[start + column - 1])] == t[..column - 1];
      FixedSentinelWord(buf, start, column + 1, k, t);
    } else {
      assert t[..column - 2] == t;
    }
  }

  /** A sentinel character in column `column` is folded onto the sentinel and the scan moves on. */
  lemma FixedSentinelStep(buf: string, start: nat, column: nat, s: string)
    requires WellFormed(buf) && 2 <= column < 6 && start + 5 < |buf|
    requires forall i :: start + 1 <= i < start + column ==> !IsBlank(buf[i]) && buf[i] != '\n'
    requires !(|s| == 1 && s[0] == '$' && IsDecimalDigit(buf[start + column - 1]))
    ensures FixedSentinelScan(buf, start, column, s) ==
      FixedSentinelScan(buf, start, column + 1, s + [ToLowerCaseLetter(buf[start + column - 1])])
  {
  }

  /** Blanks up to column 5 end the scan at column 6 with the sentinel collected so far. */
  lemma {:induction false} FixedSentinelBlanks(buf: string, start: nat, column: nat, s: string)
    requires WellFormed(buf) && 2 <= column <= 6 && start + 5 < |buf|
    requires forall i :: start + 1 <= i < start + column - 1 ==> buf[i] != '\n'
    requires forall i :: start + column - 1 <= i < start + 5 ==> buf[i] == ' '
    ensures FixedSentinelScan(buf, start, column, s) == (6, s)
    decreases 6 - column
  {
    if column < 6 {
      FixedSentinelBlanks(buf, start, column + 1, s);
    }
  }

  /**
   * A fixed-form line with a comment character in column 1, a sentinel of
   * k characters from column 2 and blanks up to column 5 is a compiler
   * directive exactly when column 6 is a blank, a tab or '0' and the
   * case-folded sentinel is registered; its payload then starts at column 7.
   */
  lemma FixedFormDirectiveShape(buf: string, start: nat, cfg: LineConfig, k: nat)
    requires WellFormed(buf) && 1 <= k <= 4 && start + 5 < |buf|
    requires IsFixedFormCommentChar(buf[start])
    requires forall i :: start + 1 <= i <= start + k ==> !IsBlank(buf[i]) && buf[i] != '\n'
    requires forall i :: start + k + 1 <= i < start + 5 ==> buf[i] == ' '
    requires !(2 <= k && buf[start + 1] == '$' && IsDecimalDigit(buf[start + 2]))
    ensures var r := IsFixedFormCompilerDirectiveLine(buf, start, cfg);
      var s := ToLower(buf[start + 1..start + k + 1]);
      (r.Some? <==> (buf[start + 5] == ' ' || buf[start + 5] == '\t' || buf[start + 5] == '0') && IsRegistered(s, cfg.sentinels)) &&
      (r.Some? ==> r.value.sentinel == Some(CString(s)) && r.value.payloadOffset == 6)
  {
    var t := ToLower(buf[start + 1..start + k + 1]);
    assert t[..0] == [];
    FixedSentinelWord(buf, start, 2, k, t);
    FixedSentinelBlanks(buf, start, k + 2, ToLower(buf[start + 1..start + k + 1]));
    assert ToLower(buf[start + 1..start + k + 1]) != [];
  }

  /**
   * The conditional-compilation sentinel "$" followed, after blanks, by a
   * digit in column j (3..5) ends the sentinel there: the line is a
   * directive exactly when "$" is registered, and its payload starts at
   * that digit.
   */
  lemma FixedFormDollarDigit(buf: string, start: nat, cfg: LineConfig, j: nat)
    requires WellFormed(buf) && 3 <= j <= 5 && start + 5 < |buf|
    requires IsFixedFormCommentChar(buf[start]) && buf[start + 1] == '$'
    requires forall i :: start + 2 <= i < start + j - 1 ==> buf[i] == ' '
    requires IsDecimalDigit(buf[start + j - 1])
    ensures var r := IsFixedFormCompilerDirectiveLine(buf, start, cfg);
      (r.Some? <==> IsRegistered("$", cfg.sentinels)) &&
      (r.Some? ==> r.value.sentinel == Some("$") && r.value.payloadOffset == j - 1)
  {
    assert [] + [ToLowerCaseLetter(buf[start + 1])] == "$";
    FixedSentinelDigit(buf, start, 3, j);
    assert CString("$") == "$";
  }

  /** After "$", blanks are skipped up to the digit, where the scan stops. */
  lemma {:induction false} FixedSentinelDigit(buf: string, start: nat, column: nat, j: nat)
    requires WellFormed(buf) && 3 <= column <= j <= 5 && start + 5 < |buf| && buf[start + 1] == '$'
    requires forall i :: start + 2 <= i < start + j - 1 ==> buf[i] == ' '
    requires IsDecimalDigit(buf[start + j - 1])
    ensures FixedSentinelScan(buf, start, column, "$") == (j, "$")
    decreases j - column
  {
    if column < j {
      FixedSentinelDigit(buf, start, column + 1, j);
    }
  }

  // ---------------------------------------------------------------------
  // Continuation lines

  /**
   * Outside a directive a fixed-form line continues the current one in four
   * cases, tried in this order: '&' in column 1 (when enabled) with the
   * content at column 2; a tab and a nonzero digit with the content at
   * column 3; a blank label field and a continuation mark in column 6 with
   * the content at column 7; and, inside open brackets, any line that is no
   * comment line, with the content at column 1.  No blank is inserted.
   */
  lemma FixedContinuationCases(buf: string, n: nat, ampersand: bool, nesting: nat, mightNeedSpace: bool)
    requires WellFormed(buf) && n < |buf|
    ensures var r := FixedContinuationLine(buf, n, None, ampersand, nesting, mightNeedSpace);
      var amp := buf[n] == '&' && ampersand;
      var tab := TabDigitContinuation(buf, n);
      var mark := BlankLabelField(buf, n) && IsContinuationMark(buf[n + 5]);
      var open := nesting > 0 && !IsFixedFormCommentChar(buf[n]);
      (amp ==> r == Continued(n + 1, false)) &&
      (!amp && tab ==> r == Continued(n + 2, false)) &&
      (!amp && !tab && mark ==> r == Continued(n + 6, false)) &&
      (!amp && !tab && !mark && open ==> r == Continued(n, false)) &&
      (r.Continued? <==> amp || tab || mark || open)
    ensures IsFixedFormCommentChar(buf[n]) ==> FixedContinuationLine(buf, n, None, ampersand, nesting, mightNeedSpace).NotContinued?
  {
  }

  /**
   * Outside a directive a free-form line whose first non-blank character is
   * at b continues the current one after a leading '&'; a comment, blank or
   * '#' line never does; any other line continues exactly after a trailing
   * '&' or inside open brackets, keeping one blank of its indentation, or
   * asking for one when it has none.
   */
  lemma FreeContinuationCases(buf: string, n: nat, b: nat, ampersand: bool, nesting: nat)
    requires WellFormed(buf) && n <= b < |buf| && AllBlank(buf, n, b) && !IsBlank(buf[b])
    ensures var r := FreeContinuationLine(buf, n, None, ampersand, nesting);
      var stop := buf[b] == '!' || buf[b] == '\n' || buf[b] == '#';
      (buf[b] == '&' ==> r == Continued(b + 1, false)) &&
      (stop ==> r == NotContinued) &&
      (buf[b] != '&' && !stop ==> (r.Continued? <==> ampersand || nesting > 0)) &&
      (r.Continued? && buf[b] != '&' && n < b ==> r == Continued(b - 1, false)) &&
      (r.Continued? && buf[b] != '&' && n == b ==> r == Continued(b, true))
  {
    SkipWhiteUnique(buf, n, b);
  }

  /**
   * Inside a free-form directive with sentinel s, a line whose first
   * non-blank character is at b continues only when it is '!' and s; then,
   * with q the next non-blank character after the sentinel, an '&' there
   * puts the content after it (asking for a blank unless the current line
   * ended with '&'), and otherwise the line continues at q exactly when the
   * current line ended with '&'.
   */
  lemma SentinelContinuationCases(buf: string, n: nat, b: nat, s: string, ampersand: bool, nesting: nat, q: nat)
    requires WellFormed(buf) && n <= b < |buf| && AllBlank(buf, n, b) && !IsBlank(buf[b]) && NoNewline(s)
    requires b + 1 + |s| <= q < |buf| && AllBlank(buf, b + 1 + |s|, q) && !IsBlank(buf[q])
    ensures var r := FreeContinuationLine(buf, n, Some(s), ampersand, nesting);
      (r.Continued? ==> buf[b] == '!' && SpellsSentinel(buf, b + 1, s)) &&
      (buf[b] == '!' && SpellsSentinel(buf, b + 1, s) ==>
        (buf[q] == '&' ==> r == Continued(q + 1, !ampersand)) &&
        (buf[q] != '&' ==> (r.Continued? <==> ampersand) && (ampersand ==> r == Continued(q, false))))
  {
    SkipWhiteUnique(buf, n, b);
    if buf[b] == '!' && SpellsSentinel(buf, b + 1, s) {
      SkipWhiteUnique(buf, b + 1 + |s|, q);
    }
  }

  // ---------------------------------------------------------------------
  // Operators and brackets

  /** The two-character operators NextToken keeps together, listed one by one. */
  lemma TwoCharOperators(ch: char, nch: char)
    ensures TwoCharOperator(ch, nch) <==>
      [ch, nch] in {"<=", ">=", "/=", "==", "!=", "//", "::", "**", "##", "&&", "||", "<<", ">>", "=>"}
  {
    if TwoCharOperator(ch, nch) {
      if nch == '=' && ch == '<' { assert [ch, nch] == "<="; }
      else if nch == '=' && ch == '>' { assert [ch, nch] == ">="; }
      else if nch == '=' && ch == '/' { assert [ch, nch] == "/="; }
      else if nch == '=' && ch == '=' { assert [ch, nch] == "=="; }
      else if nch == '=' && ch == '!' { assert [ch, nch] == "!="; }
      else if ch == '=' && nch == '>' { assert [ch, nch] == "=>"; }
      else if ch == '/' { assert [ch, nch] == "//"; }
      else if ch == ':' { assert [ch, nch] == "::"; }
      else if ch == '*' { assert [ch, nch] == "**"; }
      else if ch == '#' { assert [ch, nch] == "##"; }
      else if ch == '&' { assert [ch, nch] == "&&"; }
      else if ch == '|' { assert [ch, nch] == "||"; }
      else if ch == '<' { assert [ch, nch] == "<<"; }
      else { assert [ch, nch] == ">>"; }
    }
  }

  /** The bracket depth after the characters of s, starting from depth. */
  function NestingAfterChars(depth: int, s: string): int
    decreases |s|
  {
    if s == [] then depth else NestingAfterChars(NestingStep(depth, s[0]), s[1..])
  }

  /** The number of opening brackets in s. */
  function Opens(s: string): nat
  {
    if s == [] then 0 else (if s[0] == '(' || s[0] == '[' then 1 else 0) + Opens(s[1..])
  }

  /**
   * The bracket depth never goes negative, whatever the closing brackets,
   * and never exceeds the start plus the opening brackets seen.
   */
  lemma {:induction false} NestingBounds(depth: int, s: string)
    requires depth >= 0
    ensures 0 <= NestingAfterChars(depth, s) <= depth + Opens(s)
    decreases |s|
  {
    if s != [] {
      NestingBounds(NestingStep(depth, s[0]), s[1..]);
    }
  }

  /** Each bracket closes only what was opened: a balanced "(" then ")" returns to the start. */
  lemma NestingStepInverse(depth: int)
    requires depth >= 0
    ensures NestingStep(NestingStep(depth, '('), ')') == depth
    ensures NestingStep(NestingStep(depth, '['), ']') == depth
    ensures NestingStep(0, ')') == 0 && NestingStep(0, ']') == 0
  {
  }
}
