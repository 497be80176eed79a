// The prescanner of prescan.cc: the scanner state, the line classifier
// written as the pointer-advancing loops prescan.cc uses, the continuation
// machinery and the character tokenizer.

module Prescan {
  import opened Chars
  import opened Lines
  import opened Continuations
  import opened IncludePaths
  import opened Sentinels
  import opened Tokens

  /** The language features the prescanner consults (enabled, or enabled with a warning). */
  datatype Features = Features(
    oldDebugLines: bool,
    classicCComments: bool,
    warnClassicCComments: bool,
    backslashEscapes: bool,
    column1Ampersand: bool,
    warnColumn1Ampersand: bool,
    warnCruftAfterAmpersand: bool)

  /** A diagnostic: the buffer range it refers to, its text, and whether it is an error. */
  datatype Message = Message(from: nat, to: nat, text: string, isError: bool)

  const MaxPrescannerNesting: nat := 100

  /** The largest Hollerith count NextToken accepts (exclusive): 256 lines of 126 columns. */
  const MaxHollerith: nat := 256 * (132 - 6)

  /** SkipWhiteSpace: the first position at or after p that is neither a blank nor a tab. */
  method SkipWhiteSpace(buf: string, p: nat) returns (q: nat)
    requires WellFormed(buf) && p < |buf|
    ensures q == SkipWhite(buf, p)
  {
    q := p;
    while IsBlank(buf[q])
      invariant p <= q < |buf|
      invariant SkipWhite(buf, q) == SkipWhite(buf, p)
      decreases |buf| - q
    {
      q := q + 1;
    }
  }

  /**
   * The path-parsing loops of FortranInclude: find the opening quote, collect
   * the path up to a single closing quote (a doubled quote is one character),
   * then find where the statement ends.
   */
  method ParseIncludeScan(buf: string, firstQuote: nat) returns (r: IncludeParse)
    requires WellFormed(buf) && firstQuote <= |buf|
    requires exists k :: firstQuote <= k < |buf| && IsQuote(buf[k])
    ensures r == ParseInclude(buf, firstQuote)
  {
    var q := FindQuote(buf, firstQuote);
    var scan := PathLoop(buf, q + 1, buf[q]);
    match scan
    case Malformed(at) =>
      return MalformedPath(firstQuote, at);
    case Closed(path, closing) =>
      var p := SkipWhiteSpace(buf, closing + 1);
      var end := StatementEndScan(buf, p);
      return IncludePath(path, p, end);
  }

  /** The first loop of FortranInclude: forward to a quote character. */
  method FindQuote(buf: string, from: nat) returns (q: nat)
    requires from <= |buf| && exists k :: from <= k < |buf| && IsQuote(buf[k])
    ensures q == FirstQuote(buf, from)
  {
    q := from;
    while !IsQuote(buf[q])
      invariant from <= q <= FirstQuote(buf, from)
      invariant FirstQuote(buf, q) == FirstQuote(buf, from)
      decreases |buf| - q
    {
      q := q + 1;
    }
  }

  /** The path loop of FortranInclude, from just after the opening quote. */
  method PathLoop(buf: string, i: nat, quote: char) returns (r: PathScan)
    requires WellFormed(buf) && i < |buf| && quote != '\n'
    ensures r == ScanPath(buf, i, quote)
  {
    var p := i;
    var path: string := [];
    while buf[p] != '\n'
      invariant i <= p < |buf|
      invariant ScanPath(buf, i, quote) == PrependAll(path, ScanPath(buf, p, quote))
      decreases |buf| - p
    {
      if buf[p] == quote {
        if buf[p + 1] != quote {
          assert ScanPath(buf, p, quote) == Closed([], p) && path + [] == path;
          return Closed(path, p);
        }
        PrependAllSnoc(path, quote, ScanPath(buf, p + 2, quote));
        p := p + 1;
      } else {
        PrependAllSnoc(path, buf[p], ScanPath(buf, p + 1, quote));
      }
      path := path + [buf[p]];
      p := p + 1;
    }
    assert ScanPath(buf, p, quote) == Malformed(p);
    return Malformed(p);
  }

  /** The garbage loop of FortranInclude: forward to a newline or '!'. */
  method StatementEndScan(buf: string, p: nat) returns (e: nat)
    requires WellFormed(buf) && p < |buf|
    ensures e == StatementEnd(buf, p)
  {
    e := p;
    while buf[e] != '\n' && buf[e] != '!'
      invariant p <= e < |buf|
      invariant StatementEnd(buf, e) == StatementEnd(buf, p)
      decreases |buf| - e
    {
      e := e + 1;
    }
  }

  /**
   * The label field of a fixed-form line from position p in column column:
   * where the scan stops (the newline, column 7, or just after a tab), the
   * column there, and the characters kept — everything but blanks and a '0'
   * in column 6.
   */
  function LabelScan(buf: string, p: nat, column: int): (r: (nat, int, string))
    requires WellFormed(buf) && p < |buf|
    ensures p <= r.0 <= LineEnd(buf, p)
    ensures column <= 7 ==> |r.2| <= 7 - column
    ensures column > 6 ==> r == (p, column, [])
    decreases |buf| - p
  {
    if buf[p] == '\n' || column > 6 then (p, column, [])
    else if buf[p] == '\t' then (p + 1, 7, [])
    else
      var rest := LabelScan(buf, p + 1, column + 1);
      if buf[p] != ' ' && !(buf[p] == '0' && column == 6) then (rest.0, rest.1, [buf[p]] + rest.2)
      else rest
  }

  /** The label keeps no blank, tab or newline. */
  lemma {:induction false} LabelKeepsNoBlanks(buf: string, p: nat, column: int)
    requires WellFormed(buf) && p < |buf|
    ensures var kept := LabelScan(buf, p, column).2; ' ' !in kept && '\t' !in kept && '\n' !in kept
    decreases |buf| - p
  {
    if buf[p] != '\n' && column <= 6 && buf[p] != '\t' {
      var rest := LabelScan(buf, p + 1, column + 1);
      LabelKeepsNoBlanks(buf, p + 1, column + 1);
      if buf[p] != ' ' && !(buf[p] == '0' && column == 6) {
        assert LabelScan(buf, p, column).2 == [buf[p]] + rest.2;
      } else {
        assert LabelScan(buf, p, column) == rest;
      }
    }
  }

  /**
   * The tokens LabelField closes once the label characters are in the open
   * token field and the output has reached column n: the label (when
   * anything was put), then blanks out to column 7.
   */
  function LabelClose(field: string, n: int): seq<string>
  {
    if n > 1 then [field] + (if n < 7 then [Spaces(7 - n)] else [])
    else [field + Spaces(7 - n)]
  }

  /** The loop of LabelField over the buffer from p in column column. */
  method LabelLoop(buf: string, p: nat, column: int, tokens: TokenSequence) returns (q: nat, c: int, put: nat)
    requires WellFormed(buf) && p < |buf|
    modifies tokens
    ensures (q, c) == (LabelScan(buf, p, column).0, LabelScan(buf, p, column).1)
    ensures tokens.closed == old(tokens.closed) && tokens.next == old(tokens.next) + LabelScan(buf, p, column).2
    ensures put == |LabelScan(buf, p, column).2|
  {
    ghost var scan := LabelScan(buf, p, column);
    ghost var kept: string := [];
    ghost var remaining := scan.2;
    q, c, put := p, column, 0;
    while buf[q] != '\n' && c <= 6
      invariant p <= q < |buf|
      invariant LabelScan(buf, q, c) == (scan.0, scan.1, remaining)
      invariant kept + remaining == scan.2
      invariant tokens.closed == old(tokens.closed) && tokens.next == old(tokens.next) + kept
      invariant put == |kept|
      decreases |buf| - q
    {
      if buf[q] == '\t' {
        assert LabelScan(buf, q, c) == (q + 1, 7, []);
        q := q + 1;
        c := 7;
        remaining := [];
        break;
      }
      ghost var rest := LabelScan(buf, q + 1, c + 1);
      if buf[q] != ' ' && !(buf[q] == '0' && c == 6) {
        assert remaining == [buf[q]] + rest.2;
        tokens.PutNextTokenChar(buf[q]);
        assert kept + ([buf[q]] + rest.2) == (kept + [buf[q]]) + rest.2;
        kept := kept + [buf[q]];
        put := put + 1;
      } else {
        assert remaining == rest.2;
      }
      remaining := rest.2;
      c := c + 1;
      q := q + 1;
    }
    assert remaining == [];
    assert kept == scan.2;
  }

  /** The closing half of LabelField: close the label, then pad to output column 7. */
  method CloseLabel(tokens: TokenSequence, n: int)
    modifies tokens
    ensures tokens.closed == old(tokens.closed) + LabelClose(old(tokens.next), n) && tokens.next == []
  {
    if n > 1 {
      tokens.CloseToken();
    }
    if n < 7 {
      if n == 1 {
        assert "      " == Spaces(6);
        tokens.Put("      ");
      } else {
        ghost var base := tokens.next;
        var pad := n;
        while pad < 7
          invariant n <= pad <= 7
          invariant tokens.closed == old(tokens.closed) + (if n > 1 then [old(tokens.next)] else [])
          invariant tokens.next == base + Spaces(pad - n)
        {
          tokens.PutNextTokenChar(' ');
          assert Spaces(pad - n) + [' '] == Spaces(pad + 1 - n);
          pad := pad + 1;
        }
        tokens.CloseToken();
        if n > 1 {
          assert base + Spaces(7 - n) == Spaces(7 - n);
          assert old(tokens.closed) + [old(tokens.next)] + [Spaces(7 - n)] == old(tokens.closed) + ([old(tokens.next)] + [Spaces(7 - n)]);
        } else {
          assert base == old(tokens.next);
          assert tokens.closed == old(tokens.closed) + [base + Spaces(7 - n)];
        }
      }
    }
  }

  /** Closing the label at output column n adds the field and blanks out to column 7. */
  lemma LabelCloseText(closed: seq<string>, field: string, n: int)
    requires 1 <= n <= 7
    ensures Concat(closed + LabelClose(field, n)) == Concat(closed) + field + Spaces(7 - n)
  {
    if n == 1 {
      ConcatSnoc(closed, field + Spaces(6));
    } else if n < 7 {
      assert closed + LabelClose(field, n) == closed + [field] + [Spaces(7 - n)];
      ConcatSnoc(closed, field);
      ConcatSnoc(closed + [field], Spaces(7 - n));
    } else {
      assert Spaces(0) == [];
      ConcatSnoc(closed, field);
    }
  }

  /** From output column 1 the label field is padded to exactly six characters. */
  lemma LabelFieldPadsToSix(closed: seq<string>, next: string, kept: string)
    requires |kept| <= 6
    ensures Concat(closed + LabelClose(next + kept, 1 + |kept|)) == Concat(closed) + next + kept + Spaces(6 - |kept|)
    ensures |Concat(closed + LabelClose(next + kept, 1 + |kept|))| == |Concat(closed)| + |next| + 6
  {
    LabelCloseText(closed, next + kept, 1 + |kept|);
    assert Concat(closed) + (next + kept) == Concat(closed) + next + kept;
  }

  /**
   * The sentinel loop of IsFreeFormCompilerDirectiveLine: up to seven
   * characters of the word at w, case-folded, stopping at the word's end.
   */
  method SentinelWordScan(buf: string, w: nat) returns (e: nat, s: string)
    requires WellFormed(buf) && w < |buf|
    ensures w <= e <= w + 7 && e < |buf|
    ensures s == ToLower(buf[w..e]) && IsLowerCase(s)
    ensures e < w + 7 ==> e == WordEnd(buf, w)
    ensures e == w + 7 ==> WordEnd(buf, w) >= e
  {
    e := w;
    s := [];
    var j := 0;
    while j + 1 < 8
      invariant 0 <= j <= 7 && e == w + j && e < |buf|
      invariant s == ToLower(buf[w..e]) && IsLowerCase(s)
      invariant forall k :: w <= k < e ==> !IsWordStop(buf[k])
      decreases 8 - j
    {
      if IsWordStop(buf[e]) {
        assert WordEnd(buf, w) == e;
        return;
      }
      assert ToLower(buf[w..e + 1]) == ToLower(buf[w..e]) + [ToLowerCaseLetter(buf[e])];
      s := s + [ToLowerCaseLetter(buf[e])];
      e := e + 1;
      j := j + 1;
    }
    assert WordEnd(buf, w) >= e;
  }

  /** The scan behind IsFixedFormCompilerDirectiveLine: a comment character, a sentinel in columns 2-5, and column 6. */
  method FixedFormDirectiveScan(buf: string, start: nat, registry: SentinelRegistry, cfg: LineConfig)
    returns (r: Option<LineClassification>)
    requires WellFormed(buf) && registry.Valid() && start < |buf| && cfg.sentinels == registry.sentinels
    ensures r == Lines.IsFixedFormCompilerDirectiveLine(buf, start, cfg)
  {
    if !IsFixedFormCommentChar(buf[start]) {
      return None;
    }
    var column, s := FixedSentinelColumns(buf, start);
    assert (column, s) == FixedSentinelScan(buf, start, 2, []);
    var p := start + column - 1;
    if column == 6 {
      if buf[p] == ' ' || buf[p] == '\t' || buf[p] == '0' {
        p := p + 1;
      } else {
        return None;
      }
    }
    if s == [] {
      return None;
    }
    var found := RegisteredSentinel(registry, s);
    if found.Some? {
      assert IsRegistered(s, cfg.sentinels) && found.value == CString(s);
      return Some(LineClassification(CompilerDirective, p - start, Some(found.value)));
    }
    return None;
  }

  /** The registry's answer for a case-folded sentinel word: its C string exactly when it is registered. */
  method RegisteredSentinel(registry: SentinelRegistry, s: string) returns (found: Option<string>)
    requires registry.Valid() && IsLowerCase(s)
    ensures found == if IsRegistered(s, registry.sentinels) then Some(CString(s)) else None
  {
    found := registry.Lookup(s);
  }

  /** The loops of IsFreeFormCompilerDirectiveLine, over the buffer and the registry. */
  method FreeFormDirectiveScan(buf: string, start: nat, registry: SentinelRegistry, cfg: LineConfig)
    returns (r: Option<LineClassification>)
    requires WellFormed(buf) && registry.Valid() && start < |buf| && cfg.sentinels == registry.sentinels
    ensures r == Lines.IsFreeFormCompilerDirectiveLine(buf, start, cfg)
  {
    var b := SkipWhiteSpace(buf, start);
    if buf[b] != '!' {
      return None;
    }
    var w := b + 1;
    var e, s := SentinelWordScan(buf, w);
    if e == w + 7 {
      assert WordEnd(buf, w) - w > 6;
      return None;
    }
    assert e == WordEnd(buf, w);
    if buf[e] == '\n' || e == w {
      return None;
    }
    r := DirectiveAfterWordScan(buf, start, e, s, registry, cfg);
  }

  /** The part of the free-form directive test after the sentinel word: the
    * first non-blank character must not open a comment, and the word must
    * be a registered sentinel. */
  method DirectiveAfterWordScan(buf: string, start: nat, e: nat, s: string,
                                registry: SentinelRegistry, cfg: LineConfig)
    returns (r: Option<LineClassification>)
    requires WellFormed(buf) && start <= e && e + 1 < |buf| && IsLowerCase(s)
    requires registry.Valid() && cfg.sentinels == registry.sentinels
    ensures r == FreeDirectiveAfterWord(buf, start, e, s, cfg)
  {
    var q := SkipWhiteSpace(buf, e + 1);
    if buf[q] == '!' {
      return None;
    }
    var found := RegisteredSentinel(registry, s);
    if found.Some? {
      return Some(LineClassification(CompilerDirective, q - start, Some(found.value)));
    }
    return None;
  }

  /** The scan behind IsIncludeLine: INCLUDE in any case after blanks, then blanks and a quote. */
  method IncludeLineScan(buf: string, start: nat) returns (r: Option<nat>)
    requires WellFormed(buf) && start < |buf|
    ensures r == Lines.IsIncludeLine(buf, start)
  {
    var p := SkipWhiteSpace(buf, start);
    var k := 0;
    while k < 7
      invariant 0 <= k <= 7 && p + k < |buf|
      invariant forall j :: 0 <= j < k ==> ToLowerCaseLetter(buf[p + j]) == "include"[j]
    {
      if ToLowerCaseLetter(buf[p + k]) != "include"[k] {
        assert p + 7 <= |buf| ==> ToLower(buf[p..p + 7])[k] != "include"[k];
        return None;
      }
      k := k + 1;
    }
    assert ToLower(buf[p..p + 7]) == "include";
    var q := SkipWhiteSpace(buf, p + 7);
    if IsQuote(buf[q]) {
      return Some(q - start);
    }
    return None;
  }

  /** The newline that ends the line holding p. */
  method LineEndScan(buf: string, p: nat) returns (e: nat)
    requires WellFormed(buf) && p < |buf|
    ensures e == LineEnd(buf, p)
  {
    e := p;
    while buf[e] != '\n'
      invariant p <= e < |buf| && LineEnd(buf, e) == LineEnd(buf, p)
      decreases |buf| - e
    {
      e := e + 1;
    }
  }

  /** The column loop of IsFixedFormCompilerDirectiveLine: columns 2-5 collected into a sentinel. */
  method FixedSentinelColumns(buf: string, start: nat) returns (column: nat, s: string)
    requires WellFormed(buf) && start + 1 < |buf| && buf[start] != '\n'
    ensures (column, s) == FixedSentinelScan(buf, start, 2, [])
    ensures IsLowerCase(s)
  {
    ghost var target := FixedSentinelScan(buf, start, 2, []);
    assert IsLowerCase(target.1);
    var p := start + 1;
    s := [];
    column := 2;
    while column < 6
      invariant 2 <= column <= 6 && p == start + column - 1 && p < |buf|
      invariant forall k :: start + 1 <= k < p ==> buf[k] != '\n'
      invariant FixedSentinelScan(buf, start, column, s) == target
      decreases 6 - column
    {
      ghost var before := FixedSentinelScan(buf, start, column, s);
      if buf[p] != ' ' {
        if buf[p] == '\n' || buf[p] == '\t' {
          assert before == (column, s);
          return;
        }
        if |s| == 1 && s[0] == '$' && IsDecimalDigit(buf[p]) {
          assert before == (column, s);
          return;
        }
        assert before == FixedSentinelScan(buf, start, column + 1, s + [ToLowerCaseLetter(buf[p])]);
        s := s + [ToLowerCaseLetter(buf[p])];
      } else {
        assert before == FixedSentinelScan(buf, start, column + 1, s);
      }
      column := column + 1;
      p := p + 1;
    }
  }

  /** The directive case of FixedContinuationScan: comment column 1, the sentinel's columns, then column 6. */
  method DirectiveContinuationScan(buf: string, n: nat, s: string, mightNeedSpace: bool) returns (c: ContinuationLine)
    requires WellFormed(buf) && n < |buf| && NoNewline(s)
    ensures c == DirectiveContinuation(buf, n, s, mightNeedSpace)
  {
    if !IsFixedFormCommentChar(buf[n]) {
      return NotContinued;
    }
    var j := 1;
    while j < 5 && j - 1 < |s|
      invariant 1 <= j <= 5 && n + j - 1 < |buf| && buf[n + j - 1] != '\n'
      invariant DirectiveColumnsMatch(buf, n, s, j) == DirectiveColumnsMatch(buf, n, s, 1)
    {
      if s[j - 1] != ToLowerCaseLetter(buf[n + j]) {
        return NotContinued;
      }
      j := j + 1;
    }
    while j < 5
      invariant 1 <= j <= 5 && n + j - 1 < |buf| && buf[n + j - 1] != '\n'
      invariant DirectiveColumnsMatch(buf, n, s, j) == DirectiveColumnsMatch(buf, n, s, 1)
      invariant j - 1 >= |s| || j == 5
    {
      if buf[n + j] != ' ' {
        return NotContinued;
      }
      j := j + 1;
    }
    var col6 := buf[n + 5];
    if IsContinuationMark(col6) {
      return Continued(n + 6, buf[n + 6] != ' ' && mightNeedSpace);
    }
    return NotContinued;
  }

  /**
   * The column checks of FixedFormContinuationLine on the line at n: the
   * sentinel's columns of a continued directive, or the label field and
   * column 6 of an ordinary continuation line.
   */
  method FixedContinuationScan(buf: string, n: nat, sentinel: Option<string>,
                               column1Ampersand: bool, nesting: nat, mightNeedSpace: bool) returns (c: ContinuationLine)
    requires WellFormed(buf) && n < |buf|
    requires sentinel.Some? ==> NoNewline(sentinel.value)
    ensures c == FixedContinuationLine(buf, n, sentinel, column1Ampersand, nesting, mightNeedSpace)
  {
    var col1 := buf[n];
    match sentinel
    case Some(s) =>
      c := DirectiveContinuationScan(buf, n, s, mightNeedSpace);
    case None =>
      if col1 == '&' && column1Ampersand {
        return Continued(n + 1, false);
      }
      if col1 == '\t' && '1' <= buf[n + 1] <= '9' {
        return Continued(n + 2, false);
      }
      if col1 == ' ' && buf[n + 1] == ' ' && buf[n + 2] == ' ' && buf[n + 3] == ' ' && buf[n + 4] == ' ' {
        assert BlankLabelField(buf, n);
        var col6 := buf[n + 5];
        if IsContinuationMark(col6) {
          return Continued(n + 6, false);
        }
      }
      if nesting > 0 && !IsFixedFormCommentChar(col1) {
        return Continued(n, false);
      }
      return NotContinued;
  }

  /** The loop of FreeFormContinuationLine that compares the line with the sentinel. */
  method SpellsSentinelAt(buf: string, p: nat, s: string) returns (ok: bool)
    requires WellFormed(buf) && p < |buf| && NoNewline(s)
    ensures ok == SpellsSentinel(buf, p, s)
  {
    var i := 0;
    while i < |s|
      invariant 0 <= i <= |s| && p + i < |buf|
      invariant ToLower(buf[p..p + i]) == s[..i]
    {
      if s[i] != ToLowerCaseLetter(buf[p + i]) {
        assert p + |s| <= |buf| ==> ToLower(buf[p..p + |s|])[i] != s[i];
        return false;
      }
      assert ToLower(buf[p..p + i + 1]) == ToLower(buf[p..p + i]) + [ToLowerCaseLetter(buf[p + i])];
      assert s[..i + 1] == s[..i] + [s[i]];
      i := i + 1;
    }
    assert s[..i] == s;
    return true;
  }

  /**
   * The scan of FreeFormContinuationLine on the line at n: a repeated
   * directive sentinel, a leading '&', or an ordinary line continuing after
   * '&' or inside open parentheses.
   */
  method FreeContinuationScan(buf: string, n: nat, sentinel: Option<string>, ampersand: bool, nesting: nat)
    returns (c: ContinuationLine)
    requires WellFormed(buf) && n <= |buf|
    requires sentinel.Some? ==> NoNewline(sentinel.value)
    ensures c == FreeContinuationLine(buf, n, sentinel, ampersand, nesting)
  {
    if n >= |buf| {
      return NotContinued;
    }
    var p := SkipWhiteSpace(buf, n);
    match sentinel
    case Some(s) =>
      c := SentinelContinuationScan(buf, p, s, ampersand);
    case None =>
      if buf[p] == '&' {
        return Continued(p + 1, false);
      } else if buf[p] == '!' || buf[p] == '\n' || buf[p] == '#' {
        return NotContinued;
      } else if ampersand || nesting > 0 {
        if p > n {
          return Continued(p - 1, false);
        }
        return Continued(p, true);
      }
      return NotContinued;
  }

  /** The directive case of FreeContinuationScan: the sentinel after '!', then an optional '&'. */
  method SentinelContinuationScan(buf: string, p: nat, s: string, ampersand: bool) returns (c: ContinuationLine)
    requires WellFormed(buf) && p < |buf| && NoNewline(s)
    ensures c == SentinelContinuation(buf, p, s, ampersand)
  {
    if buf[p] != '!' {
      return NotContinued;
    }
    var spelled := SpellsSentinelAt(buf, p + 1, s);
    if !spelled {
      return NotContinued;
    }
    assert |s| > 0 ==> buf[p + |s|] != '\n' by {
      if |s| > 0 {
        assert ToLowerCaseLetter(buf[p + |s|]) == ToLower(buf[p + 1..p + 1 + |s|])[|s| - 1];
      }
    }
    var q := SkipWhiteSpace(buf, p + 1 + |s|);
    if buf[q] == '&' {
      return Continued(q + 1, !ampersand);
    } else if ampersand {
      return Continued(q, false);
    }
    return NotContinued;
  }

  /**
   * The line at n is one SkipCommentLine passes over under cfg: a comment
   * line or, outside a preprocessor directive, a conditional-compilation or
   * other '#' directive.
   */
  predicate SkippableLine(buf: string, n: nat, cfg: LineConfig)
    requires WellFormed(buf)
  {
    n < |buf| &&
    var kind := ClassifyLine(buf, n, cfg).kind;
    kind == Comment || (!cfg.inPreprocessorDirective && (kind == ConditionalCompilationDirective || kind == PreprocessorDirective))
  }

  /** The line start reached after passing passed[i]: the next one passed, or to after the last. */
  function Following(passed: seq<nat>, i: nat, to: nat): nat
    requires i < |passed|
  {
    if i + 1 < |passed| then passed[i + 1] else to
  }

  /**
   * A continuation search passed the lines passed, each under the
   * configuration it was classified with, on its way from the line at from
   * to the line at to: the first is from, each is skippable and lies before
   * the next, and a comment line is passed to the start of the line after it.
   */
  ghost predicate SkipChain(buf: string, from: nat, passed: seq<nat>, configs: seq<LineConfig>, to: nat)
    requires WellFormed(buf)
  {
    |passed| == |configs| &&
    (if passed == [] then to == from else passed[0] == from) &&
    forall i {:trigger configs[i]} :: 0 <= i < |passed| ==>
      SkippableLine(buf, passed[i], configs[i]) && passed[i] < Following(passed, i, to) &&
      (ClassifyLine(buf, passed[i], configs[i]).kind == Comment ==> Following(passed, i, to) == LineEnd(buf, passed[i]) + 1)
  }

  /** Every line passed is a comment line under the configuration it was classified with. */
  ghost predicate OnlyComments(buf: string, passed: seq<nat>, configs: seq<LineConfig>)
    requires WellFormed(buf)
  {
    |passed| == |configs| &&
    forall i {:trigger configs[i]} :: 0 <= i < |passed| ==> passed[i] < |buf| && ClassifyLine(buf, passed[i], configs[i]).kind == Comment
  }

  /** Passing one more line keeps the passed lines all comments exactly when they were and the new one is a comment. */
  lemma OnlyCommentsExtend(buf: string, passed: seq<nat>, configs: seq<LineConfig>, n: nat, cfg: LineConfig)
    requires WellFormed(buf) && |passed| == |configs|
    ensures OnlyComments(buf, passed + [n], configs + [cfg]) <==>
              OnlyComments(buf, passed, configs) && n < |buf| && ClassifyLine(buf, n, cfg).kind == Comment
  {
    var passed', configs' := passed + [n], configs + [cfg];
    if OnlyComments(buf, passed', configs') {
      forall i | 0 <= i < |passed|
        ensures passed[i] < |buf| && ClassifyLine(buf, passed[i], configs[i]).kind == Comment
      {
        assert passed'[i] == passed[i] && configs'[i] == configs[i];
      }
      assert passed'[|passed|] == n && configs'[|passed|] == cfg;
    }
    if OnlyComments(buf, passed, configs) && n < |buf| && ClassifyLine(buf, n, cfg).kind == Comment {
      forall i | 0 <= i < |passed'|
        ensures passed'[i] < |buf| && ClassifyLine(buf, passed'[i], configs'[i]).kind == Comment
      {
        if i < |passed| {
          assert passed'[i] == passed[i] && configs'[i] == configs[i];
        }
      }
    }
  }

  /** Passing one more skippable line extends a chain. */
  lemma SkipChainExtend(buf: string, from: nat, passed: seq<nat>, configs: seq<LineConfig>, to: nat, cfg: LineConfig, next: nat)
    requires WellFormed(buf) && SkipChain(buf, from, passed, configs, to)
    requires SkippableLine(buf, to, cfg) && to < next
    requires ClassifyLine(buf, to, cfg).kind == Comment ==> next == LineEnd(buf, to) + 1
    ensures SkipChain(buf, from, passed + [to], configs + [cfg], next)
  {
    var passed', configs' := passed + [to], configs + [cfg];
    forall i | 0 <= i < |passed'|
      ensures SkippableLine(buf, passed'[i], configs'[i]) && passed'[i] < Following(passed', i, next) &&
        (ClassifyLine(buf, passed'[i], configs'[i]).kind == Comment ==> Following(passed', i, next) == LineEnd(buf, passed'[i]) + 1)
    {
      if i < |passed| {
        assert passed'[i] == passed[i] && configs'[i] == configs[i];
        assert Following(passed', i, next) == Following(passed, i, to);
      }
    }
  }

  /** What NextToken produced, for the contracts of the tokenizer. */
  datatype TokenKind =
    | EndOfLine
    | Blank
    | CharLiteral
    | Number(hollerith: bool)
    | Dot
    | Name(quoted: bool)
    | Power
    | Star
    | Operator(paired: bool)

  /**
   * c can start a token of this kind, by the order of NextToken's tests:
   * quote, digit, '.', identifier character, '*', anything else.
   */
  predicate StartsWith(kind: TokenKind, c: char)
  {
    match kind
    case EndOfLine => c == '\n'
    case Blank => IsBlank(c)
    case CharLiteral => IsQuote(c)
    case Number(_) => IsDecimalDigit(c)
    case Dot => c == '.'
    case Name(_) => IsLegalInIdentifier(c) && !IsDecimalDigit(c)
    case Power => c == '*'
    case Star => c == '*'
    case Operator(_) => c != '\n' && !IsQuote(c) && !IsLegalInIdentifier(c) && c != '.' && c != '*'
  }

  /** The character before position p, or a blank at the start of the text. */
  function Before(buf: string, p: nat): char
    requires p <= |buf|
  {
    if p == 0 then ' ' else buf[p - 1]
  }

  /**
   * A free-form blank run that starts at b and is followed by the character
   * at q is kept as one blank: not at the end of the line and, outside a
   * preprocessor directive, neither after '(' nor before '(' or ')'.
   */
  predicate BlankKept(buf: string, b: nat, q: nat, inDirective: bool)
    requires b <= |buf| && q < |buf|
  {
    buf[q] != '\n' && (inDirective || (Before(buf, b) != '(' && buf[q] != '(' && buf[q] != ')'))
  }

  /** The UTF-8 byte order mark EF BB BF starts at p. */
  predicate IsByteOrderMark(buf: string, p: nat)
  {
    p + 2 < |buf| && buf[p] == '\U{00EF}' && buf[p + 1] == '\U{00BB}' && buf[p + 2] == '\U{00BF}'
  }

  /**
   * Outside a directive in free form, NextChar landing on p moves exactly
   * one character: p holds no byte order mark, newline or '&', and no '!'
   * that opens a comment (inside a character context a '!' is text).
   */
  predicate PlainChar(buf: string, p: nat, inLiteral: bool)
  {
    p < |buf| && !IsByteOrderMark(buf, p) && buf[p] != '\n' && buf[p] != '&' && (inLiteral || buf[p] != '!')
  }

  /** The first position at or after p that does not hold a decimal digit (|buf| when there is none). */
  function DigitRunEnd(buf: string, p: nat): (e: nat)
    requires p <= |buf|
    ensures p <= e <= |buf| && (forall k :: p <= k < e ==> IsDecimalDigit(buf[k])) && (e < |buf| ==> !IsDecimalDigit(buf[e]))
    decreases |buf| - p
  {
    if p == |buf| || !IsDecimalDigit(buf[p]) then p else DigitRunEnd(buf, p + 1)
  }

  /** The first position at or after p that holds a character not legal in a name (|buf| when there is none). */
  function IdentifierEnd(buf: string, p: nat): (e: nat)
    requires p <= |buf|
    ensures p <= e <= |buf| && (forall k :: p <= k < e ==> IsLegalInIdentifier(buf[k])) &&
            (e < |buf| ==> !IsLegalInIdentifier(buf[e]))
    decreases |buf| - p
  {
    if p == |buf| || !IsLegalInIdentifier(buf[p]) then p else IdentifierEnd(buf, p + 1)
  }

  /**
   * Where the scan of a token stopped, as far as its kind depends on it: the
   * character after a name or a digit run (q), the character after an
   * operator's or a '*''s first one (mid), and for a number its digits and
   * the Hollerith guard it was judged with, read once begun lines had begun.
   */
  datatype TokenEnd = TokenEnd(q: nat, mid: nat, digits: string, begun: nat, prevented: bool)

  /**
   * The payload of kind agrees with the buffer: a token that starts with c
   * at from and whose scan ended at to, between begunBefore and begunAfter
   * lines begun, with the Hollerith guard guard on entry.  A name's
   * quoted flag is whether a quote follows it, an operator is paired
   * exactly for a two-character operator, '**' is a power, and a number
   * starts Hollerith exactly for a count in range followed by 'H' when the
   * guard is off.  When free (free form, outside a directive) and the
   * character that ends the name or the digit run is plain, nothing
   * interrupts the scan: a name ends at the first character not legal in a
   * name, and a number's digits are exactly the digit run at from.
   */
  ghost predicate PayloadFits(buf: string, kind: TokenKind, c: char, e: TokenEnd, from: nat, to: nat,
                              begunBefore: nat, begunAfter: nat, guard: bool, free: bool)
  {
    (kind.Name? ==>
       from < e.q <= to && e.q < |buf| && !IsLegalInIdentifier(buf[e.q]) && (kind.quoted <==> IsQuote(buf[e.q])) &&
       (free && PlainChar(buf, IdentifierEnd(buf, from), false) ==> e.q == IdentifierEnd(buf, from))) &&
    (kind.Operator? ==> from < e.mid <= to && e.mid < |buf| && (kind.paired <==> TwoCharOperator(c, buf[e.mid]))) &&
    ((kind.Star? || kind.Power?) ==> from < e.mid <= to && e.mid < |buf| && (kind.Power? <==> buf[e.mid] == '*')) &&
    (kind.Number? ==>
       e.digits != [] && e.digits[0] == c && (forall i :: 0 <= i < |e.digits| ==> IsDecimalDigit(e.digits[i])) &&
       from < e.q <= to && e.q < |buf| && !IsDecimalDigit(buf[e.q]) &&
       (free && PlainChar(buf, DigitRunEnd(buf, from), false) ==> e.q == DigitRunEnd(buf, from) && e.digits == buf[from..e.q]) &&
       begunBefore <= e.begun <= begunAfter && (e.begun == begunBefore ==> e.prevented == guard) &&
       (kind.hollerith <==> (buf[e.q] == 'h' || buf[e.q] == 'H') && !e.prevented && 0 < DecimalValue(e.digits) < MaxHollerith))
  }

  /** The bracket depth after a token of kind that starts with c, while no new line begins. */
  function NestingAfter(depth: int, kind: TokenKind, c: char): int
  {
    if kind.Operator? then NestingStep(depth, c) else depth
  }

  /** The escape state after ch inside a character literal: a backslash toggles it when escapes are on, anything else clears it. */
  function EscapeAfter(ch: char, escapesEnabled: bool, wasEscaped: bool): bool
  {
    if ch == '\\' then (if escapesEnabled then !wasEscaped else wasEscaped) else false
  }

  /** The value of a string of decimal digits. */
  function DecimalValue(ds: string): nat
    requires forall i :: 0 <= i < |ds| ==> IsDecimalDigit(ds[i])
  {
    if ds == [] then 0 else 10 * DecimalValue(ds[..|ds| - 1]) + DecimalDigitValue(ds[|ds| - 1])
  }

  /** The Hollerith count NextToken accumulates: digits stop counting once it reaches MaxHollerith. */
  function HollerithCount(ds: string): nat
    requires forall i :: 0 <= i < |ds| ==> IsDecimalDigit(ds[i])
  {
    if ds == [] then 0
    else
      var n := HollerithCount(ds[..|ds| - 1]);
      if n < MaxHollerith then 10 * n + DecimalDigitValue(ds[|ds| - 1]) else n
  }

  /** The capped count is the value of the digits whenever that value is in range, and out of range otherwise. */
  lemma {:induction false} HollerithCountValue(ds: string)
    requires forall i :: 0 <= i < |ds| ==> IsDecimalDigit(ds[i])
    ensures DecimalValue(ds) < MaxHollerith ==> HollerithCount(ds) == DecimalValue(ds)
    ensures DecimalValue(ds) >= MaxHollerith ==> HollerithCount(ds) >= MaxHollerith
    decreases |ds|
  {
    if ds != [] {
      HollerithCountValue(ds[..|ds| - 1]);
    }
  }

  /** The bracket depth after ch: up on '(' and '[', down on ')' and ']' while positive. */
  function NestingStep(depth: int, ch: char): int
  {
    if ch == '(' || ch == '[' then depth + 1
    else if (ch == ')' || ch == ']') && depth > 0 then depth - 1
    else depth
  }

  /** ch followed by nch is one of the two-character operators the prescanner keeps together. */
  predicate TwoCharOperator(ch: char, nch: char)
  {
    (nch == '=' && (ch == '<' || ch == '>' || ch == '/' || ch == '=' || ch == '!')) ||
    (ch == nch && (ch == '/' || ch == ':' || ch == '*' || ch == '#' || ch == '&' || ch == '|' || ch == '<' || ch == '>')) ||
    (ch == '=' && nch == '>')
  }

  class Prescanner {
    /** The text being prescanned; every line ends in a newline. */
    const buf: string
    const features: Features
    const registry: SentinelRegistry
    const fixedFormColumnLimit: nat
    const prescannerNesting: nat
    /**
     * The number of bytes the character at each position occupies, as the
     * decoder of the current encoding reports it; 0 for a bad character.
     */
    const decoded: seq<nat>

    var at: nat
    var column: int
    var nextLine: nat
    var inFixedForm: bool
    var directiveSentinel: Option<string>
    var delimiterNesting: int
    var preventHollerith: bool
    var inCharLiteral: bool
    var insertASpace: bool
    var tabInCurrentLine: bool
    var slashInCurrentLine: bool
    var inPreprocessorDirective: bool
    var omitNewline: bool
    var skipLeadingAmpersand: bool
    var messages: seq<Message>
    /** How many source lines have begun: the Hollerith guard is reset only when one does. */
    ghost var linesBegun: nat

    /** The text ends in a newline, and no decoded character runs past the end of its line. */
    ghost predicate Sound()
    {
      WellFormed(buf) && |decoded| == |buf| && forall i :: 0 <= i < |buf| ==> decoded[i] <= LineEnd(buf, i) + 1 - i
    }

    ghost predicate Valid()
      reads this, registry, registry.bloom
    {
      Sound() && registry.Valid() &&
      at < |buf| && nextLine <= |buf| && (0 < nextLine ==> buf[nextLine - 1] == '\n') &&
      delimiterNesting >= 0 &&
      (directiveSentinel.Some? ==> NoNewline(directiveSentinel.value) && '\0' !in directiveSentinel.value)
    }

    /** The cursor sits before the start of the next line, as it does once a line has begun. */
    ghost predicate Scanning()
      reads this
    {
      at < nextLine
    }

    /** What the line classifier reads of the scanner state. */
    function Config(): LineConfig
      reads this, registry
    {
      LineConfig(inFixedForm, fixedFormColumnLimit, features.oldDebugLines, features.classicCComments,
                 inCharLiteral, inPreprocessorDirective, registry.sentinels)
    }

    predicate InCompilerDirective()
      reads this
    {
      directiveSentinel.Some?
    }

    predicate InFixedFormSource()
      reads this
    {
      inFixedForm && !inPreprocessorDirective && !InCompilerDirective()
    }

    predicate IsCCommentAt(p: nat)
      reads this, registry
    {
      IsCComment(buf, p, Config())
    }

    constructor (text: string, lfc: Features, fixedForm: bool, columnLimit: nat, sizes: seq<nat>)
      requires WellFormed(text)
      requires |sizes| == |text| && forall i :: 0 <= i < |text| ==> sizes[i] <= LineEnd(text, i) + 1 - i
      ensures Valid() && fresh(registry) && fresh(registry.bloom)
      ensures buf == text && features == lfc && fixedFormColumnLimit == columnLimit && decoded == sizes
      ensures inFixedForm == fixedForm && prescannerNesting == 0 && registry.sentinels == {}
      ensures at == 0 && nextLine == 0 && column == 1 && directiveSentinel == None && delimiterNesting == 0
      ensures !preventHollerith && !inCharLiteral && !insertASpace && !tabInCurrentLine && !slashInCurrentLine
      ensures !inPreprocessorDirective && !omitNewline && !skipLeadingAmpersand && messages == []
    {
      buf := text;
      features := lfc;
      registry := new SentinelRegistry();
      fixedFormColumnLimit := columnLimit;
      prescannerNesting := 0;
      decoded := sizes;
      at := 0;
      column := 1;
      nextLine := 0;
      inFixedForm := fixedForm;
      directiveSentinel := None;
      delimiterNesting := 0;
      preventHollerith := false;
      inCharLiteral := false;
      insertASpace := false;
      tabInCurrentLine := false;
      slashInCurrentLine := false;
      inPreprocessorDirective := false;
      omitNewline := false;
      skipLeadingAmpersand := false;
      messages := [];
      linesBegun := 0;
    }

    /**
     * The prescanner of an included file: the parent's form, column limit,
     * features and sentinels, one level deeper.
     */
    constructor Nested(that: Prescanner, text: string, sizes: seq<nat>)
      requires that.Valid() && WellFormed(text)
      requires |sizes| == |text| && forall i :: 0 <= i < |text| ==> sizes[i] <= LineEnd(text, i) + 1 - i
      ensures Valid() && fresh(registry) && fresh(registry.bloom)
      ensures buf == text && decoded == sizes && features == that.features
      ensures inFixedForm == that.inFixedForm && fixedFormColumnLimit == that.fixedFormColumnLimit
      ensures prescannerNesting == that.prescannerNesting + 1
      ensures skipLeadingAmpersand == that.skipLeadingAmpersand
      ensures registry.sentinels == that.registry.sentinels && registry.bloom[..] == that.registry.bloom[..]
      ensures at == 0 && nextLine == 0 && column == 1 && directiveSentinel == None && delimiterNesting == 0
      ensures !preventHollerith && !inCharLiteral && !insertASpace && !tabInCurrentLine && !slashInCurrentLine
      ensures !inPreprocessorDirective && !omitNewline && messages == []
    {
      buf := text;
      features := that.features;
      registry := new SentinelRegistry.Copy(that.registry);
      fixedFormColumnLimit := that.fixedFormColumnLimit;
      prescannerNesting := that.prescannerNesting + 1;
      decoded := sizes;
      at := 0;
      column := 1;
      nextLine := 0;
      inFixedForm := that.inFixedForm;
      directiveSentinel := None;
      delimiterNesting := 0;
      preventHollerith := false;
      inCharLiteral := false;
      insertASpace := false;
      tabInCurrentLine := false;
      slashInCurrentLine := false;
      inPreprocessorDirective := false;
      omitNewline := false;
      skipLeadingAmpersand := that.skipLeadingAmpersand;
      messages := [];
      linesBegun := 0;
    }

    // -------------------------------------------------------------------
    // Messages and mode switches

    method Say(from: nat, to: nat, text: string, isError: bool)
      modifies this`messages
      ensures messages == old(messages) + [Message(from, to, text, isError)]
    {
      messages := messages + [Message(from, to, text, isError)];
    }

    /**
     * The start of Prescan: scanning begins at the first line, unless the
     * include nesting is already too deep, which is reported instead.
     */
    method BeginPrescan() returns (ok: bool)
      requires Valid()
      modifies this`nextLine, this`messages
      ensures Valid() && nextLine == 0
      ensures ok <==> prescannerNesting <= MaxPrescannerNesting
      ensures ok ==> messages == old(messages)
      ensures !ok ==> messages == old(messages) + [Message(0, 0, "too many nested INCLUDE/#include files, possibly circular", true)]
    {
      nextLine := 0;
      if prescannerNesting > MaxPrescannerNesting {
        Say(0, 0, "too many nested INCLUDE/#include files, possibly circular", true);
        return false;
      }
      return true;
    }

    /**
     * FortranInclude up to the file open: the path to open, or None after
     * reporting a malformed path; characters other than blanks and a comment
     * after the path are reported as a warning.
     */
    method FortranInclude(firstQuote: nat) returns (path: Option<string>)
      requires Valid() && firstQuote <= |buf|
      requires exists k :: firstQuote <= k < |buf| && IsQuote(buf[k])
      modifies this`messages
      ensures ParseInclude(buf, firstQuote).MalformedPath? ==>
        path == None && messages == old(messages) + [Message(firstQuote, ParseInclude(buf, firstQuote).to, "malformed path name string", true)]
      ensures ParseInclude(buf, firstQuote).IncludePath? ==>
        path == Some(ParseInclude(buf, firstQuote).path) &&
        messages == old(messages) +
          (if ParseInclude(buf, firstQuote).garbage < ParseInclude(buf, firstQuote).end
           then [Message(ParseInclude(buf, firstQuote).garbage, ParseInclude(buf, firstQuote).end, "excess characters after path name", false)]
           else [])
    {
      var r := ParseIncludeScan(buf, firstQuote);
      match r
      case MalformedPath(from, to) =>
        Say(from, to, "malformed path name string", true);
        path := None;
      case IncludePath(p, garbage, end) =>
        if garbage < end {
          Say(garbage, end, "excess characters after path name", false);
        }
        path := Some(p);
    }

    /** SourceFormChange: the directives "!dir$ free" and "!dir$ fixed" switch the source form. */
    method SourceFormChange(dir: string)
      modifies this`inFixedForm
      ensures dir == "!dir$ free" ==> !inFixedForm
      ensures dir == "!dir$ fixed" ==> inFixedForm
      ensures dir != "!dir$ free" && dir != "!dir$ fixed" ==> inFixedForm == old(inFixedForm)
    {
      if dir == "!dir$ free" {
        inFixedForm := false;
      } else if dir == "!dir$ fixed" {
        inFixedForm := true;
      }
    }

    /** AddCompilerDirectiveSentinel. */
    method AddCompilerDirectiveSentinel(dir: string)
      requires Valid()
      modifies registry, registry.bloom
      ensures Valid() && registry.sentinels == old(registry.sentinels) + {dir}
    {
      registry.Add(dir);
    }

    // -------------------------------------------------------------------
    // Line classification: loops over a local position, proved equal to the
    // classifier functions over the buffer.

    /** SkipCComment: where scanning resumes after the block comment opened at p, if it closes. */
    method SkipCComment(p: nat) returns (r: Option<nat>)
      requires WellFormed(buf) && p + 2 <= |buf|
      ensures r == CCommentEnd(buf, p)
      ensures r.Some? ==> p + 4 <= r.value < |buf|
    {
      var star, slash := ' ', ' ';
      var i := p + 2;
      while star != '*' || slash != '/'
        invariant p + 2 <= i <= |buf|
        invariant i == p + 2 ==> star == ' ' && slash == ' '
        invariant i == p + 3 ==> star == ' ' && slash == buf[p + 2]
        invariant i >= p + 4 ==> star == buf[i - 2] && slash == buf[i - 1]
        invariant forall q :: p + 4 <= q < i ==> !ClosesAt(buf, q)
        decreases |buf| - i
      {
        if i >= |buf| {
          assert forall q :: p + 4 <= q <= |buf| ==> !ClosesAt(buf, q);
          return None;
        }
        star := slash;
        slash := buf[i];
        i := i + 1;
      }
      assert ClosesAt(buf, i);
      CCommentEndInside(buf, p);
      return Some(i);
    }

    /** SkipWhiteSpaceAndCComments. */
    method SkipWhiteSpaceAndCComments(p: nat) returns (q: nat)
      requires WellFormed(buf) && p < |buf|
      ensures q == SkipWhiteAndCComments(buf, p, Config())
    {
      q := p;
      while true
        invariant p <= q < |buf|
        invariant SkipWhiteAndCComments(buf, q, Config()) == SkipWhiteAndCComments(buf, p, Config())
        decreases |buf| - q
      {
        if IsBlank(buf[q]) {
          q := q + 1;
        } else if IsCCommentAt(q) {
          var after := SkipCComment(q);
          if after.Some? {
            q := after.value;
          } else {
            break;
          }
        } else {
          break;
        }
      }
    }

    /** IsFixedFormCommentLine. */
    method IsFixedFormCommentLine(start: nat) returns (r: bool)
      requires WellFormed(buf) && start < |buf|
      ensures r == Lines.IsFixedFormCommentLine(buf, start, Config())
    {
      var p := start;
      var c := buf[p];
      if IsFixedFormCommentChar(c) || c == '%' || ((c == 'D' || c == 'd') && !features.oldDebugLines) {
        return true;
      }
      var anyTabs := false;
      while true
        invariant start <= p < |buf|
        invariant FixedBlankEnd(buf, start, p, anyTabs) == FixedBlankEnd(buf, start, start, false)
        decreases |buf| - p
      {
        if buf[p] == ' ' {
          p := p + 1;
        } else if buf[p] == '\t' {
          anyTabs := true;
          p := p + 1;
        } else if buf[p] == '0' && !anyTabs && p == start + 5 {
          p := p + 1;
        } else {
          break;
        }
      }
      if !anyTabs && p >= start + fixedFormColumnLimit {
        return true;
      }
      if buf[p] == '!' && !inCharLiteral && (anyTabs || p != start + 5) {
        return true;
      }
      return buf[p] == '\n';
    }

    /** IsFreeFormComment: the position of the '!' or newline of a comment-only free-form line. */
    method IsFreeFormComment(p: nat) returns (r: Option<nat>)
      requires WellFormed(buf) && p < |buf|
      ensures r == Lines.IsFreeFormComment(buf, p, Config())
    {
      var q := SkipWhiteSpaceAndCComments(p);
      if buf[q] == '!' || buf[q] == '\n' {
        return Some(q);
      }
      return None;
    }

    /** IsIncludeLine: the offset of the opening quote of an INCLUDE line. */
    method IsIncludeLine(start: nat) returns (r: Option<nat>)
      requires WellFormed(buf) && start < |buf|
      ensures r == Lines.IsIncludeLine(buf, start)
    {
      r := IncludeLineScan(buf, start);
    }

    /** IsPreprocessorDirectiveLine: the position of the directive name of a '#' line. */
    method IsPreprocessorDirectiveLine(start: nat) returns (r: Option<nat>)
      requires WellFormed(buf) && start < |buf|
      ensures r == Lines.IsPreprocessorDirectiveLine(buf, start, Config())
    {
      var p := start;
      while buf[p] == ' '
        invariant start <= p < |buf|
        invariant SkipSpaceChars(buf, p) == SkipSpaceChars(buf, start)
        decreases |buf| - p
      {
        p := p + 1;
      }
      if buf[p] == '#' {
        if inFixedForm && p == start + 5 {
          return None;
        }
      } else {
        p := SkipWhiteSpace(buf, p);
        if buf[p] != '#' {
          return None;
        }
      }
      var d := SkipWhiteSpace(buf, p + 1);
      return Some(d);
    }

    /** IsFixedFormCompilerDirectiveLine. */
    method IsFixedFormCompilerDirectiveLine(start: nat) returns (r: Option<LineClassification>)
      requires WellFormed(buf) && registry.Valid() && start < |buf|
      ensures r == Lines.IsFixedFormCompilerDirectiveLine(buf, start, Config())
    {
      r := FixedFormDirectiveScan(buf, start, registry, Config());
    }

    /** IsFreeFormCompilerDirectiveLine. */
    method IsFreeFormCompilerDirectiveLine(start: nat) returns (r: Option<LineClassification>)
      requires WellFormed(buf) && registry.Valid() && start < |buf|
      ensures r == Lines.IsFreeFormCompilerDirectiveLine(buf, start, Config())
    {
      r := FreeFormDirectiveScan(buf, start, registry, Config());
    }

    /** ClassifyLine. */
    method ClassifyLine(start: nat) returns (r: LineClassification)
      requires WellFormed(buf) && registry.Valid() && start < |buf|
      ensures r == Lines.ClassifyLine(buf, start, Config())
    {
      if inFixedForm {
        var lc := IsFixedFormCompilerDirectiveLine(start);
        if lc.Some? {
          return lc.value;
        }
        var comment := IsFixedFormCommentLine(start);
        if comment {
          return Plain(Comment);
        }
      } else {
        var lc := IsFreeFormCompilerDirectiveLine(start);
        if lc.Some? {
          return lc.value;
        }
        var bang := IsFreeFormComment(start);
        if bang.Some? {
          return LineClassification(Comment, bang.value - start, None);
        }
      }
      var quoteOffset := IsIncludeLine(start);
      if quoteOffset.Some? {
        return LineClassification(IncludeLine, quoteOffset.value, None);
      }
      var dir := IsPreprocessorDirectiveLine(start);
      if dir.Some? {
        return Plain(DirectiveKind(buf, dir.value));
      }
      return Plain(Source);
    }
    // -------------------------------------------------------------------
    // Lines and the cursor

    /** NextLine: the line after the one that starts at nextLine, or the end of the buffer. */
    method NextLine()
      requires WellFormed(buf) && nextLine <= |buf|
      modifies this`nextLine
      ensures old(nextLine) < |buf| ==> nextLine == LineEnd(buf, old(nextLine)) + 1
      ensures old(nextLine) == |buf| ==> nextLine == |buf|
      ensures 0 < nextLine <= |buf| && buf[nextLine - 1] == '\n'
    {
      if nextLine < |buf| {
        var e := LineEndScan(buf, nextLine);
        nextLine := e + 1;
      }
    }

    /**
     * BeginSourceLine: scanning restarts at p, in column 1, with the per-line
     * state reset.  (Its body lives in the prescanner's header, which is not
     * part of this model; the fields reset are the ones the declarations
     * there describe as per-line state.)
     */
    method BeginSourceLine(p: nat)
      requires Valid() && p < |buf|
      modifies this`at, this`column, this`tabInCurrentLine, this`slashInCurrentLine, this`preventHollerith, this`linesBegun,
               this`delimiterNesting
      ensures Valid()
      ensures at == p && column == 1 && delimiterNesting == 0 && linesBegun == old(linesBegun) + 1
      ensures !tabInCurrentLine && !slashInCurrentLine && !preventHollerith
    {
      at := p;
      column := 1;
      tabInCurrentLine := false;
      slashInCurrentLine := false;
      preventHollerith := false;
      delimiterNesting := 0;
      linesBegun := linesBegun + 1;
    }

    /** BeginSourceLineAndAdvance: the next line begins, and nextLine moves past it. */
    method BeginSourceLineAndAdvance()
      requires Valid() && nextLine < |buf|
      modifies this`at, this`column, this`tabInCurrentLine, this`slashInCurrentLine, this`preventHollerith, this`linesBegun,
               this`delimiterNesting, this`nextLine
      ensures Valid() && Scanning()
      ensures at == old(nextLine) && nextLine == LineEnd(buf, at) + 1 && column == 1 && delimiterNesting == 0
      ensures linesBegun == old(linesBegun) + 1
      ensures !tabInCurrentLine && !slashInCurrentLine && !preventHollerith
    {
      BeginSourceLine(nextLine);
      NextLine();
    }

    /**
     * LabelField: the label field of a fixed-form line as a token, blanks
     * dropped and '0' in column 6 read as a blank, padded with blanks to
     * column 7 of the output.
     */
    method LabelField(tokens: TokenSequence, outCol: int)
      requires Valid() && Scanning()
      modifies this`at, this`column, tokens
      ensures Valid() && Scanning()
      ensures at == LabelScan(buf, old(at), old(column)).0 && column == LabelScan(buf, old(at), old(column)).1
      ensures tokens.closed == old(tokens.closed) + LabelClose(old(tokens.next) + LabelScan(buf, old(at), old(column)).2, outCol + |LabelScan(buf, old(at), old(column)).2|)
      ensures tokens.next == []
    {
      var put := LabelColumns(tokens);
      CloseLabel(tokens, outCol + put);
    }

    /** The column loop of LabelField: the kept label characters into the open token. */
    method LabelColumns(tokens: TokenSequence) returns (put: nat)
      requires Valid() && Scanning()
      modifies this`at, this`column, tokens
      ensures Valid() && Scanning()
      ensures at == LabelScan(buf, old(at), old(column)).0 && column == LabelScan(buf, old(at), old(column)).1
      ensures tokens.closed == old(tokens.closed) && tokens.next == old(tokens.next) + LabelScan(buf, old(at), old(column)).2
      ensures put == |LabelScan(buf, old(at), old(column)).2|
    {
      var p, c;
      p, c, put := LabelLoop(buf, at, column, tokens);
      assert buf[nextLine - 1] == '\n' && at <= nextLine - 1;
      at, column := p, c;
    }

    /** SkipToEndOfLine: the cursor moves to the newline ending its line, counting columns. */
    method SkipToEndOfLine()
      requires Valid()
      modifies this`at, this`column
      ensures Valid() && at == LineEnd(buf, old(at)) && column == old(column) + (at - old(at))
      ensures old(Scanning()) ==> Scanning()
    {
      var e := LineEndScan(buf, at);
      column := column + (e - at);
      at := e;
      assert old(Scanning()) ==> buf[nextLine - 1] == '\n' && old(at) <= nextLine - 1;
    }

    /** MustSkipToEndOfLine: the right margin of a fixed-form card, or a '!' comment, lies ahead. */
    predicate MustSkipToEndOfLine()
      reads this
      requires at < |buf|
    {
      (inFixedForm && column > fixedFormColumnLimit as int && !tabInCurrentLine) ||
      (buf[at] == '!' && !inCharLiteral)
    }

    // -------------------------------------------------------------------
    // Continuation lines

    /**
     * FixedFormContinuationLine: where the content of the line at nextLine
     * starts if it continues the current fixed-form line.  The tab flag then
     * describes that line, a blank is requested before a directive
     * continuation glued to the previous text, and a column-1 '&' is
     * reported when that extension's use is to be warned about.
     */
    method FixedFormContinuationLine(mightNeedSpace: bool) returns (r: Option<nat>)
      requires Valid()
      modifies this`tabInCurrentLine, this`insertASpace, this`messages
      ensures Valid()
      ensures var c := FixedContinuationLine(buf, nextLine, directiveSentinel, features.column1Ampersand,
                                             delimiterNesting as nat, mightNeedSpace);
        r == (if c.Continued? then Some(c.start) else None) &&
        insertASpace == (old(insertASpace) || (c.Continued? && c.insertSpace))
      ensures r.Some? ==> nextLine <= r.value <= LineEnd(buf, nextLine)
      ensures nextLine < |buf| ==> tabInCurrentLine == (directiveSentinel.None? && TabDigitContinuation(buf, nextLine))
      ensures nextLine == |buf| ==> tabInCurrentLine == old(tabInCurrentLine)
      ensures messages == old(messages) +
        (if nextLine < |buf| && directiveSentinel.None? && buf[nextLine] == '&' &&
            features.column1Ampersand && features.warnColumn1Ampersand
         then [Message(nextLine, nextLine, "nonstandard usage", false)] else [])
    {
      if nextLine >= |buf| {
        return None;
      }
      tabInCurrentLine := false;
      var c := FixedContinuationScan(buf, nextLine, directiveSentinel, features.column1Ampersand,
                                     delimiterNesting as nat, mightNeedSpace);
      WarnColumn1Ampersand();
      if directiveSentinel.None? && TabDigitContinuation(buf, nextLine) {
        tabInCurrentLine := true;
      }
      if c.Continued? {
        if c.insertSpace {
          insertASpace := true;
        }
        return Some(c.start);
      }
      return None;
    }

    /** The warning for a column-1 '&' continuation, when that extension is enabled and warned about. */
    method WarnColumn1Ampersand()
      requires nextLine < |buf|
      modifies this`messages
      ensures messages == old(messages) +
        (if directiveSentinel.None? && buf[nextLine] == '&' && features.column1Ampersand && features.warnColumn1Ampersand
         then [Message(nextLine, nextLine, "nonstandard usage", false)] else [])
    {
      if directiveSentinel.None? && buf[nextLine] == '&' && features.column1Ampersand && features.warnColumn1Ampersand {
        Say(nextLine, nextLine, "nonstandard usage", false);
      }
    }

    /**
     * FreeFormContinuationLine: where the content of the line at nextLine
     * starts if it continues the current free-form line, given whether that
     * line ended with '&'; a blank is requested where the two lines would
     * otherwise run together.
     */
    method FreeFormContinuationLine(ampersand: bool) returns (r: Option<nat>)
      requires Valid()
      modifies this`insertASpace
      ensures Valid()
      ensures var c := FreeContinuationLine(buf, nextLine, directiveSentinel, ampersand, delimiterNesting as nat);
        r == (if c.Continued? then Some(c.start) else None) &&
        insertASpace == (old(insertASpace) || (c.Continued? && c.insertSpace))
      ensures r.Some? ==> nextLine <= r.value <= LineEnd(buf, nextLine)
    {
      var c := FreeContinuationScan(buf, nextLine, directiveSentinel, ampersand, delimiterNesting as nat);
      if c.Continued? {
        if c.insertSpace {
          insertASpace := true;
        }
        return Some(c.start);
      }
      return None;
    }

    // -------------------------------------------------------------------
    // Moving through the source.  NextChar, the continuation methods,
    // SkipCommentLine, TokenizePreprocessorDirective and the tokenizer call
    // one another: a '#' line met while looking for a continuation line is
    // tokenized on the spot.  The recursion ends because that nested scan runs
    // with inPreprocessorDirective set, where Mode() is lower, and every other
    // call goes to a method of lower rank in the same mode.

    function Mode(): nat
      reads this
    {
      if inPreprocessorDirective then 0 else 1
    }

    /** The columns left before the fixed-form limit, as a measure for padding loops. */
    function Slack(): nat
      reads this
    {
      if column <= fixedFormColumnLimit as int then fixedFormColumnLimit as int - column else 0
    }

    /**
     * Where a free-form character literal ends when nothing interrupts it:
     * c is the character just emitted, with escape state escaped.  The
     * literal closes at the first quote equal to the opening one that is
     * neither escaped nor doubled, and the cursor ends on the character
     * after it.  None when a character on the way, or the one after the
     * closing quote, is not plain (the end of the line, an '&', a byte
     * order mark, or a '!' after the literal).
     */
    function LiteralClose(c: nat, quote: char, escapesEnabled: bool, escaped: bool): Option<nat>
      decreases |buf| - c
    {
      if !PlainChar(buf, c + 1, true) then None
      else if buf[c + 1] == quote && !escaped then
        if !PlainChar(buf, c + 2, false) then None
        else if buf[c + 2] == quote then LiteralClose(c + 2, quote, escapesEnabled, EscapeAfter(quote, escapesEnabled, false))
        else Some(c + 2)
      else LiteralClose(c + 1, quote, escapesEnabled, EscapeAfter(buf[c + 1], escapesEnabled, escaped))
    }

    /**
     * Where a free-form Hollerith literal ends when nothing interrupts it:
     * the cursor is on c (the H at first) and count characters are still
     * owed, each as many bytes as the decoder reports.  The cursor ends on
     * the character after the last one, or on a newline that one of them
     * took in; a byte that does not decode ends the literal early, after
     * that byte.  None when a character the cursor
     * steps onto is not plain, which includes the line ending first.
     */
    function HollerithEnd(c: nat, count: nat): Option<nat>
      requires c < |buf| == |decoded|
      decreases count
    {
      if buf[c] == '\n' then Some(c)
      else if !PlainChar(buf, c + 1, true) then None
      else if count == 0 then Some(c + 1)
      else if decoded[c + 1] == 0 then (if PlainChar(buf, c + 2, true) then Some(c + 2) else None)
      else if c + decoded[c + 1] < |buf| then HollerithEnd(c + decoded[c + 1], count - 1)
      else None
    }

    /**
     * LiteralClose ends just after a quote equal to the opening one, at a
     * plain character that is not that quote: the closing quote is never
     * doubled, and the literal keeps at least one character after its start.
     */
    lemma {:induction false} LiteralCloseAfterQuote(c: nat, quote: char, escapesEnabled: bool, escaped: bool)
      ensures LiteralClose(c, quote, escapesEnabled, escaped).Some? ==>
                var e := LiteralClose(c, quote, escapesEnabled, escaped).value;
                c + 2 <= e && PlainChar(buf, e, false) && buf[e - 1] == quote && buf[e] != quote
      decreases |buf| - c
    {
      if PlainChar(buf, c + 1, true) {
        if buf[c + 1] == quote && !escaped {
          if PlainChar(buf, c + 2, false) && buf[c + 2] == quote {
            LiteralCloseAfterQuote(c + 2, quote, escapesEnabled, EscapeAfter(quote, escapesEnabled, false));
          }
        } else {
          LiteralCloseAfterQuote(c + 1, quote, escapesEnabled, EscapeAfter(buf[c + 1], escapesEnabled, escaped));
        }
      }
    }

    /** A Hollerith literal that nothing interrupts ends on the line it started on. */
    lemma {:induction false} HollerithEndOnLine(c: nat, count: nat)
      requires Sound() && c < |buf|
      ensures HollerithEnd(c, count).Some? ==> c <= HollerithEnd(c, count).value <= LineEnd(buf, c)
      decreases count
    {
      if buf[c] != '\n' && PlainChar(buf, c + 1, true) && count > 0 && decoded[c + 1] != 0 {
        var next := c + decoded[c + 1];
        assert next <= LineEnd(buf, c + 1) == LineEnd(buf, c);
        assert LineEnd(buf, next) == LineEnd(buf, c);
        HollerithEndOnLine(next, count - 1);
      }
    }

    /** A character other than a newline before the start of the next line is not the last one of its line. */
    lemma InsideLine(p: nat, n: nat)
      requires p < n <= |buf| && buf[n - 1] == '\n' && buf[p] != '\n'
      ensures p + 1 < n
    {
    }

    /** NextChar: one character forward, past byte order marks, comments and line continuations. */
    method NextChar()
      requires Valid() && Scanning() && buf[at] != '\n'
      modifies this`at, this`column, this`nextLine, this`delimiterNesting, this`preventHollerith, this`linesBegun,
               this`inCharLiteral, this`insertASpace, this`tabInCurrentLine, this`slashInCurrentLine,
               this`inPreprocessorDirective, this`omitNewline, this`skipLeadingAmpersand, this`messages
      ensures Valid() && Scanning() && inPreprocessorDirective == old(inPreprocessorDirective) && old(at) <= at
      ensures at > old(at)
      ensures !inPreprocessorDirective && buf[at] == '\t' ==> tabInCurrentLine
      ensures !inFixedForm && !inPreprocessorDirective && PlainChar(buf, old(at) + 1, old(inCharLiteral)) ==>
                at == old(at) + 1 && linesBegun == old(linesBegun) && inCharLiteral == old(inCharLiteral)
      ensures old(linesBegun) <= linesBegun &&
                (linesBegun == old(linesBegun) ==> preventHollerith == old(preventHollerith) && delimiterNesting == old(delimiterNesting))
      decreases Mode(), 60
    {
      at := at + 1;
      column := column + 1;
      SkipByteOrderMarks();
      if inPreprocessorDirective {
        SkipCComments();
      } else {
        FollowContinuations();
      }
    }

    /** The byte order marks at the cursor are skipped (the encoding switch they imply is not modelled). */
    method SkipByteOrderMarks()
      requires Valid() && Scanning()
      modifies this`at
      ensures Valid() && Scanning() && old(at) <= at && !IsByteOrderMark(buf, at)
      ensures !IsByteOrderMark(buf, old(at)) ==> at == old(at)
    {
      while IsByteOrderMark(buf, at)
        invariant Valid() && Scanning() && old(at) <= at
        invariant !IsByteOrderMark(buf, old(at)) ==> at == old(at)
        decreases |buf| - at
      {
        InsideLine(at, nextLine);
        InsideLine(at + 1, nextLine);
        InsideLine(at + 2, nextLine);
        at := at + 3;
      }
    }

    /**
     * The second half of NextChar outside a preprocessor directive: the
     * right margin or a '!' comment is skipped, and continuation lines are
     * joined for as long as the cursor lands on a newline or an '&'.
     */
    method FollowContinuations()
      requires Valid() && Scanning() && !inPreprocessorDirective
      modifies this`at, this`column, this`nextLine, this`delimiterNesting, this`preventHollerith, this`linesBegun,
               this`inCharLiteral, this`insertASpace, this`tabInCurrentLine, this`slashInCurrentLine,
               this`inPreprocessorDirective, this`omitNewline, this`skipLeadingAmpersand, this`messages
      ensures Valid() && Scanning() && inPreprocessorDirective == old(inPreprocessorDirective) && old(at) <= at
      ensures buf[at] == '\t' ==> tabInCurrentLine
      ensures !inFixedForm && PlainChar(buf, old(at), old(inCharLiteral)) ==>
                at == old(at) && linesBegun == old(linesBegun) && inCharLiteral == old(inCharLiteral)
      ensures old(linesBegun) <= linesBegun &&
                (linesBegun == old(linesBegun) ==> preventHollerith == old(preventHollerith) && delimiterNesting == old(delimiterNesting))
      decreases Mode(), 50
    {
      var mightNeedSpace := false;
      if MustSkipToEndOfLine() {
        SkipToEndOfLine();
      } else {
        mightNeedSpace := buf[at] == '\n';
      }
      while true
        invariant old(linesBegun) <= linesBegun &&
                (linesBegun == old(linesBegun) ==> preventHollerith == old(preventHollerith) && delimiterNesting == old(delimiterNesting))
        invariant Valid() && Scanning() && old(at) <= at && !inPreprocessorDirective
        invariant !inFixedForm && PlainChar(buf, old(at), old(inCharLiteral)) ==>
                    at == old(at) && linesBegun == old(linesBegun) && inCharLiteral == old(inCharLiteral)
        decreases |buf| - at
      {
        var more := ContinuationStep(mightNeedSpace);
        if !more {
          break;
        }
        mightNeedSpace := false;
      }
      if buf[at] == '\t' {
        tabInCurrentLine := true;
      }
    }

    /** One continuation followed by FollowContinuations, with the skip past what the line cannot use. */
    method ContinuationStep(mightNeedSpace: bool) returns (more: bool)
      requires Valid() && Scanning() && !inPreprocessorDirective
      modifies this`at, this`column, this`nextLine, this`delimiterNesting, this`preventHollerith, this`linesBegun,
               this`inCharLiteral, this`insertASpace, this`tabInCurrentLine, this`slashInCurrentLine,
               this`inPreprocessorDirective, this`omitNewline, this`skipLeadingAmpersand, this`messages
      ensures Valid() && Scanning() && !inPreprocessorDirective && old(at) <= at
      ensures more ==> old(at) < at
      ensures old(buf[at]) != '\n' && old(buf[at]) != '&' ==>
                !more && at == old(at) && linesBegun == old(linesBegun) && inCharLiteral == old(inCharLiteral)
      ensures old(linesBegun) <= linesBegun &&
                (linesBegun == old(linesBegun) ==> preventHollerith == old(preventHollerith) && delimiterNesting == old(delimiterNesting))
      decreases Mode(), 45
    {
      ghost var line: nat, nesting: nat, passed: seq<nat>, configs: seq<LineConfig>;
      more, line, nesting, passed, configs := Continuation(mightNeedSpace);
      if more && MustSkipToEndOfLine() {
        SkipToEndOfLine();
      }
    }

    /**
     * SkipCComments: past closed block comments and, in a preprocessor
     * directive, past backslash-newline line splices.
     */
    method SkipCComments()
      requires Valid() && Scanning()
      modifies this`at, this`column, this`nextLine, this`tabInCurrentLine, this`slashInCurrentLine,
               this`preventHollerith, this`linesBegun, this`delimiterNesting
      ensures Valid() && Scanning() && old(at) <= at
      ensures !(IsCCommentAt(at) && CCommentEnd(buf, at).Some?)
      ensures !(inPreprocessorDirective && buf[at] == '\\' && at + 2 < |buf| && buf[at + 1] == '\n' && nextLine < |buf|)
      ensures old(linesBegun) <= linesBegun &&
                (linesBegun == old(linesBegun) ==> preventHollerith == old(preventHollerith) && delimiterNesting == old(delimiterNesting))
    {
      while true
        invariant old(linesBegun) <= linesBegun &&
                (linesBegun == old(linesBegun) ==> preventHollerith == old(preventHollerith) && delimiterNesting == old(delimiterNesting))
        invariant Valid() && Scanning() && old(at) <= at
        decreases |buf| - at
      {
        var moved := CCommentStep();
        if !moved {
          break;
        }
      }
    }

    /** One step of SkipCComments: past one closed block comment, or one line splice in a directive. */
    method CCommentStep() returns (moved: bool)
      requires Valid() && Scanning()
      modifies this`at, this`column, this`nextLine, this`tabInCurrentLine, this`slashInCurrentLine,
               this`preventHollerith, this`linesBegun, this`delimiterNesting
      ensures Valid() && Scanning() && old(at) <= at
      ensures moved ==> old(at) < at
      ensures !moved ==> !(IsCCommentAt(at) && CCommentEnd(buf, at).Some?)
      ensures !moved ==> !(inPreprocessorDirective && buf[at] == '\\' && at + 2 < |buf| && buf[at + 1] == '\n' && nextLine < |buf|)
      ensures old(linesBegun) <= linesBegun &&
                (linesBegun == old(linesBegun) ==> preventHollerith == old(preventHollerith) && delimiterNesting == old(delimiterNesting))
    {
      moved := false;
      if IsCCommentAt(at) {
        var after := SkipCComment(at);
        if after.Some? {
          column := column + (after.value - at);
          at := after.value;
          nextLine := after.value;
          NextLine();
          moved := true;
        } else {
          assert !(inPreprocessorDirective && buf[at] == '\\');
        }
      } else if inPreprocessorDirective && buf[at] == '\\' && at + 2 < |buf| && buf[at + 1] == '\n' && nextLine < |buf| {
        BeginSourceLineAndAdvance();
        moved := true;
      }
    }

    /** SkipSpaces: past blanks and tabs; no blank is owed afterwards. */
    method SkipSpaces()
      requires Valid() && Scanning()
      modifies this`at, this`column, this`nextLine, this`delimiterNesting, this`preventHollerith, this`linesBegun,
               this`inCharLiteral, this`insertASpace, this`tabInCurrentLine, this`slashInCurrentLine,
               this`inPreprocessorDirective, this`omitNewline, this`skipLeadingAmpersand, this`messages
      ensures Valid() && Scanning() && inPreprocessorDirective == old(inPreprocessorDirective) && old(at) <= at
      ensures !IsBlank(buf[at]) && !insertASpace
      ensures old(linesBegun) <= linesBegun &&
                (linesBegun == old(linesBegun) ==> preventHollerith == old(preventHollerith) && delimiterNesting == old(delimiterNesting))
      decreases Mode(), 90
    {
      while IsBlank(buf[at])
        invariant old(linesBegun) <= linesBegun &&
                (linesBegun == old(linesBegun) ==> preventHollerith == old(preventHollerith) && delimiterNesting == old(delimiterNesting))
        invariant Valid() && Scanning() && old(at) <= at && inPreprocessorDirective == old(inPreprocessorDirective)
        decreases |buf| - at
      {
        NextChar();
      }
      insertASpace := false;
    }

    /**
     * Continuation: at a newline or '&', try to join the next line in the
     * current form.  The ghost results are those of FixedFormContinuation or
     * FreeFormContinuation, whichever the form calls.
     */
    method Continuation(mightNeedFixedFormSpace: bool) returns (r: bool, ghost line: nat, ghost nesting: nat,
                                                           ghost passed: seq<nat>, ghost configs: seq<LineConfig>)
      requires Valid() && Scanning()
      modifies this`at, this`column, this`nextLine, this`delimiterNesting, this`preventHollerith, this`linesBegun,
               this`inCharLiteral, this`insertASpace, this`tabInCurrentLine, this`slashInCurrentLine,
               this`inPreprocessorDirective, this`omitNewline, this`skipLeadingAmpersand, this`messages
      ensures Valid() && Scanning() && inPreprocessorDirective == old(inPreprocessorDirective) && old(at) <= at
      ensures r ==> at > old(at)
      ensures old(buf[at]) != '\n' && old(buf[at]) != '&' ==>
                !r && at == old(at) && linesBegun == old(linesBegun) && inCharLiteral == old(inCharLiteral)
      ensures (old(buf[at]) == '\n' || old(buf[at]) == '&') && inFixedForm ==>
                (buf[old(at)] == '&' && old(inCharLiteral) ==> !r && at == old(at)) &&
                (!(buf[old(at)] == '&' && old(inCharLiteral)) ==>
                  old(nextLine) <= line <= |buf| &&
                  var c := FixedContinuationLine(buf, line, directiveSentinel, features.column1Ampersand, nesting, mightNeedFixedFormSpace);
                  (r <==> c.Continued?) && (r ==> at == c.start && column == 7) &&
                  SkipChain(buf, old(nextLine), passed, configs, line) &&
                  (OnlyComments(buf, passed, configs) ==> nesting == old(delimiterNesting) as nat) &&
                  (!r ==> line == nextLine && !SkippableLine(buf, line, Config())))
      ensures (old(buf[at]) == '\n' || old(buf[at]) == '&') && !inFixedForm ==>
                var ampersand := buf[old(at)] == '&';
                var p := if ampersand then SkipWhite(buf, old(at) + 1) else old(at);
                if buf[p] != '\n' && old(inCharLiteral) then !r && at == old(at)
                else old(nextLine) <= line <= |buf| &&
                     var c := FreeContinuationLine(buf, line, directiveSentinel, ampersand, nesting);
                     (r <==> c.Continued?) && (r ==> at == c.start) &&
                     SkipChain(buf, old(nextLine), passed, configs, line) &&
                     (OnlyComments(buf, passed, configs) ==> nesting == old(delimiterNesting) as nat) &&
                     (!r ==> line == nextLine && !SkippableLine(buf, line, Config()))
      ensures old(linesBegun) <= linesBegun &&
                (linesBegun == old(linesBegun) ==> preventHollerith == old(preventHollerith) && delimiterNesting == old(delimiterNesting))
      decreases Mode(), 40
    {
      line, nesting, passed, configs := nextLine, 0, [], [];
      if buf[at] == '\n' || buf[at] == '&' {
        if inFixedForm {
          r, line, nesting, passed, configs := FixedFormContinuation(mightNeedFixedFormSpace);
        } else {
          r, line, nesting, passed, configs := FreeFormContinuation();
        }
      } else {
        r := false;
      }
    }

    /**
     * FixedFormContinuation: the next continuation line, skipping comment
     * lines and directives in between; scanning resumes in its column 7.
     * An '&' inside a character literal is no continuation mark.  The ghost
     * results are the line where the search stopped and the bracket depth
     * it was judged with: the result is whether FixedContinuationLine
     * accepts that line, and the cursor lands where its content starts.
     */
    method FixedFormContinuation(mightNeedSpace: bool) returns (r: bool, ghost line: nat, ghost nesting: nat,
                                                            ghost passed: seq<nat>, ghost configs: seq<LineConfig>)
      requires Valid() && Scanning()
      modifies this`at, this`column, this`nextLine, this`delimiterNesting, this`preventHollerith, this`linesBegun,
               this`inCharLiteral, this`insertASpace, this`tabInCurrentLine, this`slashInCurrentLine,
               this`inPreprocessorDirective, this`omitNewline, this`skipLeadingAmpersand, this`messages
      ensures Valid() && Scanning() && inPreprocessorDirective == old(inPreprocessorDirective) && old(at) <= at
      ensures buf[old(at)] == '&' && old(inCharLiteral) ==> !r && at == old(at)
      ensures !(buf[old(at)] == '&' && old(inCharLiteral)) ==>
                old(nextLine) <= line <= |buf| &&
                var c := FixedContinuationLine(buf, line, directiveSentinel, features.column1Ampersand, nesting, mightNeedSpace);
                (r <==> c.Continued?) && (r ==> at == c.start) &&
                SkipChain(buf, old(nextLine), passed, configs, line) &&
                (OnlyComments(buf, passed, configs) ==> nesting == old(delimiterNesting) as nat) &&
                (!r ==> line == nextLine && !SkippableLine(buf, line, Config()))
      ensures r ==> old(nextLine) <= at && column == 7
      ensures old(linesBegun) <= linesBegun &&
                (linesBegun == old(linesBegun) ==> preventHollerith == old(preventHollerith) && delimiterNesting == old(delimiterNesting))
      decreases Mode(), 30
    {
      line, nesting, passed, configs := nextLine, 0, [], [];
      if buf[at] == '&' && inCharLiteral {
        return false, line, nesting, passed, configs;
      }
      while true
        invariant old(linesBegun) <= linesBegun &&
                (linesBegun == old(linesBegun) ==> preventHollerith == old(preventHollerith) && delimiterNesting == old(delimiterNesting))
        invariant Valid() && Scanning() && old(at) <= at && inPreprocessorDirective == old(inPreprocessorDirective)
        invariant old(nextLine) <= nextLine
        invariant SkipChain(buf, old(nextLine), passed, configs, nextLine)
        invariant OnlyComments(buf, passed, configs) ==> delimiterNesting == old(delimiterNesting)
        decreases |buf| - nextLine
      {
        line, nesting := nextLine, delimiterNesting as nat;
        ghost var cfg := Config();
        var found, skipped := FixedContinuationStep(mightNeedSpace);
        if found {
          return true, line, nesting, passed, configs;
        }
        if !skipped {
          return false, line, nesting, passed, configs;
        }
        SkipChainExtend(buf, old(nextLine), passed, configs, line, cfg, nextLine);
        OnlyCommentsExtend(buf, passed, configs, line, cfg);
        passed, configs := passed + [line], configs + [cfg];
      }
    }

    /** One line of FixedFormContinuation's search: a continuation line, a skipped line, or the end of the search. */
    method FixedContinuationStep(mightNeedSpace: bool) returns (found: bool, skipped: bool)
      requires Valid() && Scanning()
      modifies this`at, this`column, this`nextLine, this`delimiterNesting, this`preventHollerith, this`linesBegun,
               this`inCharLiteral, this`insertASpace, this`tabInCurrentLine, this`slashInCurrentLine,
               this`inPreprocessorDirective, this`omitNewline, this`skipLeadingAmpersand, this`messages
      ensures Valid() && Scanning() && inPreprocessorDirective == old(inPreprocessorDirective) && old(at) <= at
      ensures var c := FixedContinuationLine(buf, old(nextLine), directiveSentinel, features.column1Ampersand,
                                             old(delimiterNesting) as nat, mightNeedSpace);
        (found <==> c.Continued?) && (found ==> at == c.start)
      ensures found ==> old(nextLine) <= at && column == 7
      ensures !found && skipped ==> nextLine > old(nextLine)
      ensures !found ==> (skipped <==> old(SkippableLine(buf, nextLine, Config())))
      ensures !found && !skipped ==> nextLine == old(nextLine) && Config() == old(Config())
      ensures !found && skipped && Lines.ClassifyLine(buf, old(nextLine), old(Config())).kind == Comment ==>
                nextLine == LineEnd(buf, old(nextLine)) + 1 && linesBegun == old(linesBegun)
      ensures old(linesBegun) <= linesBegun &&
                (linesBegun == old(linesBegun) ==> preventHollerith == old(preventHollerith) && delimiterNesting == old(delimiterNesting))
      decreases Mode(), 28
    {
      found := TakeFixedContinuation(mightNeedSpace);
      if found {
        return true, false;
      }
      skipped := SkipCommentLine(false);
    }

    /** A fixed-form continuation line at nextLine begins, its content in column 7. */
    method TakeFixedContinuation(mightNeedSpace: bool) returns (found: bool)
      requires Valid() && Scanning()
      modifies this`at, this`column, this`nextLine, this`delimiterNesting, this`preventHollerith, this`linesBegun,
               this`insertASpace, this`tabInCurrentLine, this`slashInCurrentLine, this`messages
      ensures Valid() && Scanning()
      ensures var c := FixedContinuationLine(buf, old(nextLine), directiveSentinel, features.column1Ampersand,
                                             old(delimiterNesting) as nat, mightNeedSpace);
        (found <==> c.Continued?) && (found ==> at == c.start)
      ensures found ==> old(nextLine) <= at && column == 7
      ensures !found ==> at == old(at) && nextLine == old(nextLine) && linesBegun == old(linesBegun)
      ensures old(linesBegun) <= linesBegun &&
                (linesBegun == old(linesBegun) ==> preventHollerith == old(preventHollerith) && delimiterNesting == old(delimiterNesting))
    {
      var cont := FixedFormContinuationLine(mightNeedSpace);
      found := cont.Some?;
      if found {
        BeginSourceLine(cont.value);
        column := 7;
        NextLine();
      }
    }

    /**
     * FreeFormContinuation: after a trailing '&' (or at the newline inside
     * open parentheses), the next continuation line, skipping comment lines
     * and directives in between.  Text after the '&' that is not a comment
     * ends the attempt inside a character literal, and otherwise is reported
     * when that is to be warned about.  The ghost results are the line where
     * the search stopped and the bracket depth it was judged with: the
     * result is whether FreeContinuationLine accepts that line, and the
     * cursor lands where its content starts.
     */
    method FreeFormContinuation() returns (r: bool, ghost line: nat, ghost nesting: nat,
                                              ghost passed: seq<nat>, ghost configs: seq<LineConfig>)
      requires Valid() && Scanning()
      modifies this`at, this`column, this`nextLine, this`delimiterNesting, this`preventHollerith, this`linesBegun,
               this`inCharLiteral, this`insertASpace, this`tabInCurrentLine, this`slashInCurrentLine,
               this`inPreprocessorDirective, this`omitNewline, this`skipLeadingAmpersand, this`messages
      ensures Valid() && Scanning() && inPreprocessorDirective == old(inPreprocessorDirective) && old(at) <= at
      ensures var ampersand := buf[old(at)] == '&';
        var p := if ampersand then SkipWhite(buf, old(at) + 1) else old(at);
        if buf[p] != '\n' && old(inCharLiteral) then !r && at == old(at)
        else old(nextLine) <= line <= |buf| &&
             var c := FreeContinuationLine(buf, line, directiveSentinel, ampersand, nesting);
             (r <==> c.Continued?) && (r ==> at == c.start) &&
             SkipChain(buf, old(nextLine), passed, configs, line) &&
             (OnlyComments(buf, passed, configs) ==> nesting == old(delimiterNesting) as nat) &&
             (!r ==> line == nextLine && !SkippableLine(buf, line, Config()))
      ensures r ==> old(nextLine) <= at
      ensures old(linesBegun) <= linesBegun &&
                (linesBegun == old(linesBegun) ==> preventHollerith == old(preventHollerith) && delimiterNesting == old(delimiterNesting))
      decreases Mode(), 30
    {
      line, nesting, passed, configs := nextLine, 0, [], [];
      var ampersand, stop := AmpersandTail();
      if stop {
        return false, line, nesting, passed, configs;
      }
      while true
        invariant old(linesBegun) <= linesBegun &&
                (linesBegun == old(linesBegun) ==> preventHollerith == old(preventHollerith) && delimiterNesting == old(delimiterNesting))
        invariant Valid() && Scanning() && old(at) <= at && inPreprocessorDirective == old(inPreprocessorDirective)
        invariant old(nextLine) <= nextLine
        invariant SkipChain(buf, old(nextLine), passed, configs, nextLine)
        invariant OnlyComments(buf, passed, configs) ==> delimiterNesting == old(delimiterNesting)
        decreases |buf| - nextLine
      {
        line, nesting := nextLine, delimiterNesting as nat;
        ghost var cfg := Config();
        var found, skipped := FreeContinuationStep(ampersand);
        if found {
          return true, line, nesting, passed, configs;
        }
        if !skipped {
          return false, line, nesting, passed, configs;
        }
        SkipChainExtend(buf, old(nextLine), passed, configs, line, cfg, nextLine);
        OnlyCommentsExtend(buf, passed, configs, line, cfg);
        passed, configs := passed + [line], configs + [cfg];
      }
    }

    /** One line of FreeFormContinuation's search: a continuation line, a skipped line, or the end of the search. */
    method FreeContinuationStep(ampersand: bool) returns (found: bool, skipped: bool)
      requires Valid() && Scanning()
      modifies this`at, this`column, this`nextLine, this`delimiterNesting, this`preventHollerith, this`linesBegun,
               this`inCharLiteral, this`insertASpace, this`tabInCurrentLine, this`slashInCurrentLine,
               this`inPreprocessorDirective, this`omitNewline, this`skipLeadingAmpersand, this`messages
      ensures Valid() && Scanning() && inPreprocessorDirective == old(inPreprocessorDirective) && old(at) <= at
      ensures var c := FreeContinuationLine(buf, old(nextLine), directiveSentinel, ampersand, old(delimiterNesting) as nat);
        (found <==> c.Continued?) && (found ==> at == c.start)
      ensures found ==> old(nextLine) <= at
      ensures !found && skipped ==> nextLine > old(nextLine)
      ensures !found ==> (skipped <==> old(SkippableLine(buf, nextLine, Config())))
      ensures !found && !skipped ==> nextLine == old(nextLine) && Config() == old(Config())
      ensures !found && skipped && Lines.ClassifyLine(buf, old(nextLine), old(Config())).kind == Comment ==>
                nextLine == LineEnd(buf, old(nextLine)) + 1 && linesBegun == old(linesBegun)
      ensures old(linesBegun) <= linesBegun &&
                (linesBegun == old(linesBegun) ==> preventHollerith == old(preventHollerith) && delimiterNesting == old(delimiterNesting))
      decreases Mode(), 28
    {
      found := TakeFreeContinuation(ampersand);
      if found {
        return true, false;
      }
      skipped := SkipCommentLine(ampersand);
    }

    /** A free-form continuation line at nextLine begins where its content starts. */
    method TakeFreeContinuation(ampersand: bool) returns (found: bool)
      requires Valid() && Scanning()
      modifies this`at, this`column, this`nextLine, this`delimiterNesting, this`preventHollerith, this`linesBegun,
               this`insertASpace, this`tabInCurrentLine, this`slashInCurrentLine
      ensures Valid() && Scanning()
      ensures var c := FreeContinuationLine(buf, old(nextLine), directiveSentinel, ampersand, old(delimiterNesting) as nat);
        (found <==> c.Continued?) && (found ==> at == c.start)
      ensures found ==> old(nextLine) <= at
      ensures !found ==> at == old(at) && nextLine == old(nextLine) && linesBegun == old(linesBegun)
      ensures old(linesBegun) <= linesBegun &&
                (linesBegun == old(linesBegun) ==> preventHollerith == old(preventHollerith) && delimiterNesting == old(delimiterNesting))
    {
      var cont := FreeFormContinuationLine(ampersand);
      found := cont.Some?;
      if found {
        BeginSourceLine(cont.value);
        NextLine();
      }
    }

    /**
     * The start of FreeFormContinuation: whether the line ends in '&', and
     * whether what follows the '&' (other than a comment) ends the attempt,
     * inside a character literal, or is reported, when that warning is on.
     */
    method AmpersandTail() returns (ampersand: bool, stop: bool)
      requires Valid() && Scanning()
      modifies this`messages
      ensures Valid()
      ensures ampersand == (buf[at] == '&')
      ensures var p := if ampersand then SkipWhite(buf, at + 1) else at;
        stop == (buf[p] != '\n' && inCharLiteral) &&
        messages == old(messages) +
          (if buf[p] != '\n' && !inCharLiteral && buf[p] != '!' && features.warnCruftAfterAmpersand
           then [Message(p, p, "missing ! before comment after &", false)] else [])
    {
      var p := at;
      ampersand := buf[p] == '&';
      if ampersand {
        p := SkipWhiteSpace(buf, p + 1);
      }
      stop := false;
      if buf[p] != '\n' {
        if inCharLiteral {
          stop := true;
        } else if buf[p] != '!' && features.warnCruftAfterAmpersand {
          Say(p, p, "missing ! before comment after &", false);
        }
      }
    }

    /**
     * SkipCommentLine: the line at nextLine is passed over when it is a
     * comment line or, outside a preprocessor directive, a conditional
     * compilation or other '#' directive, which is tokenized for the
     * preprocessor.  After '&', an INCLUDE line or the last line of an
     * included file suppresses the newline instead.
     */
    method SkipCommentLine(afterAmpersand: bool) returns (r: bool)
      requires Valid() && Scanning()
      modifies this`at, this`column, this`nextLine, this`delimiterNesting, this`preventHollerith, this`linesBegun,
               this`inCharLiteral, this`insertASpace, this`tabInCurrentLine, this`slashInCurrentLine,
               this`inPreprocessorDirective, this`omitNewline, this`skipLeadingAmpersand, this`messages
      ensures Valid() && Scanning() && inPreprocessorDirective == old(inPreprocessorDirective) && old(at) <= at
      ensures r ==> nextLine > old(nextLine)
      ensures !r ==> nextLine == old(nextLine)
      ensures old(nextLine) < |buf| ==>
        var kind := Lines.ClassifyLine(buf, old(nextLine), old(Config())).kind;
        (r <==> kind == Comment ||
                (!inPreprocessorDirective && (kind == ConditionalCompilationDirective || kind == PreprocessorDirective))) &&
        (!inPreprocessorDirective && afterAmpersand && (kind == IncludeDirective || kind == IncludeLine) ==>
           at == LineEnd(buf, old(at)) && omitNewline && skipLeadingAmpersand)
      ensures r <==> old(SkippableLine(buf, nextLine, Config()))
      ensures !r ==> Config() == old(Config())
      ensures r && Lines.ClassifyLine(buf, old(nextLine), old(Config())).kind == Comment ==>
                nextLine == LineEnd(buf, old(nextLine)) + 1 && linesBegun == old(linesBegun)
      ensures old(nextLine) == |buf| ==>
        !r && omitNewline == (old(omitNewline) || (afterAmpersand && prescannerNesting > 0))
      ensures old(linesBegun) <= linesBegun &&
                (linesBegun == old(linesBegun) ==> preventHollerith == old(preventHollerith) && delimiterNesting == old(delimiterNesting))
      decreases Mode(), 25
    {
      if nextLine >= |buf| {
        if afterAmpersand && prescannerNesting > 0 {
          SkipToEndOfLine();
          omitNewline := true;
        }
        return false;
      }
      var lineClass := ClassifyLine(nextLine);
      r := SkipClassifiedLine(lineClass.kind, afterAmpersand);
    }

    /** The second half of SkipCommentLine: what is done with the next line, once classified as kind. */
    method SkipClassifiedLine(kind: LineKind, afterAmpersand: bool) returns (r: bool)
      requires Valid() && Scanning() && nextLine < |buf|
      modifies this`at, this`column, this`nextLine, this`delimiterNesting, this`preventHollerith, this`linesBegun,
               this`inCharLiteral, this`insertASpace, this`tabInCurrentLine, this`slashInCurrentLine,
               this`inPreprocessorDirective, this`omitNewline, this`skipLeadingAmpersand, this`messages
      ensures Valid() && Scanning() && inPreprocessorDirective == old(inPreprocessorDirective) && old(at) <= at
      ensures r ==> nextLine > old(nextLine)
      ensures !r ==> nextLine == old(nextLine)
      ensures r <==> kind == Comment ||
                     (!inPreprocessorDirective && (kind == ConditionalCompilationDirective || kind == PreprocessorDirective))
      ensures !r ==> Config() == old(Config())
      ensures kind == Comment ==> nextLine == LineEnd(buf, old(nextLine)) + 1 && linesBegun == old(linesBegun)
      ensures !inPreprocessorDirective && afterAmpersand && (kind == IncludeDirective || kind == IncludeLine) ==>
                at == LineEnd(buf, old(at)) && omitNewline && skipLeadingAmpersand
      ensures old(linesBegun) <= linesBegun &&
                (linesBegun == old(linesBegun) ==> preventHollerith == old(preventHollerith) && delimiterNesting == old(delimiterNesting))
      decreases Mode(), 20
    {
      if kind == Comment {
        NextLine();
        return true;
      } else if inPreprocessorDirective {
        return false;
      } else if kind == ConditionalCompilationDirective || kind == PreprocessorDirective {
        var directive := TokenizePreprocessorDirective();
        return true;
      } else if afterAmpersand && (kind == IncludeDirective || kind == IncludeLine) {
        SuppressNewline();
        return false;
      }
      return false;
    }

    /** After '&' before an INCLUDE line: the rest of the line is skipped and its newline and leading '&' suppressed. */
    method SuppressNewline()
      requires Valid() && Scanning()
      modifies this`at, this`column, this`omitNewline, this`skipLeadingAmpersand
      ensures Valid() && Scanning() && at == LineEnd(buf, old(at)) && omitNewline && skipLeadingAmpersand
    {
      SkipToEndOfLine();
      omitNewline := true;
      skipLeadingAmpersand := true;
    }

    /**
     * TokenizePreprocessorDirective: the tokens of the '#' line at nextLine
     * (and of the lines it splices on), scanned in preprocessor-directive mode.
     */
    method TokenizePreprocessorDirective() returns (tokens: TokenSequence)
      requires Valid() && nextLine < |buf| && !inPreprocessorDirective
      modifies this`at, this`column, this`nextLine, this`delimiterNesting, this`preventHollerith, this`linesBegun,
               this`inCharLiteral, this`insertASpace, this`tabInCurrentLine, this`slashInCurrentLine,
               this`inPreprocessorDirective, this`omitNewline, this`skipLeadingAmpersand, this`messages
      ensures Valid() && Scanning() && !inPreprocessorDirective
      ensures old(nextLine) <= at < nextLine && old(nextLine) < nextLine && buf[at] == '\n'
      ensures fresh(tokens)
      ensures old(linesBegun) < linesBegun
      decreases Mode(), 10
    {
      inPreprocessorDirective := true;
      BeginSourceLineAndAdvance();
      tokens := new TokenSequence();
      while true
        invariant old(linesBegun) < linesBegun
        invariant Valid() && Scanning() && inPreprocessorDirective && old(nextLine) <= at
        invariant fresh(tokens)
        decreases |buf| - at
      {
        var more: bool;
        ghost var kind: TokenKind, b: nat, first: nat, e: TokenEnd;
        more, kind, b, first, e := NextToken(tokens);
        if !more {
          break;
        }
      }
      inPreprocessorDirective := false;
    }

    // -------------------------------------------------------------------
    // Emitting characters

    /** EmitCharAndAdvance: c joins the open token, and the next character is returned. */
    method EmitCharAndAdvance(tokens: TokenSequence, c: char) returns (r: char)
      requires Valid() && Scanning() && buf[at] != '\n'
      modifies this`at, this`column, this`nextLine, this`delimiterNesting, this`preventHollerith, this`linesBegun,
               this`inCharLiteral, this`insertASpace, this`tabInCurrentLine, this`slashInCurrentLine,
               this`inPreprocessorDirective, this`omitNewline, this`skipLeadingAmpersand, this`messages, tokens
      ensures Valid() && Scanning() && inPreprocessorDirective == old(inPreprocessorDirective) && old(at) <= at && at > old(at)
      ensures tokens.closed == old(tokens.closed) && tokens.next == old(tokens.next) + [c]
      ensures r == buf[at]
      ensures !inFixedForm && !inPreprocessorDirective && PlainChar(buf, old(at) + 1, old(inCharLiteral)) ==>
                at == old(at) + 1 && linesBegun == old(linesBegun) && inCharLiteral == old(inCharLiteral)
      ensures old(linesBegun) <= linesBegun &&
                (linesBegun == old(linesBegun) ==> preventHollerith == old(preventHollerith) && delimiterNesting == old(delimiterNesting))
      decreases Mode(), 70
    {
      tokens.PutNextTokenChar(c);
      NextChar();
      return buf[at];
    }

    /** The bytes buf[from..from+count], in order, into the open token. */
    method EmitBytes(tokens: TokenSequence, from: nat, count: nat)
      requires from + count <= |buf|
      modifies tokens
      ensures tokens.closed == old(tokens.closed) && tokens.next == old(tokens.next) + buf[from..from + count]
    {
      var j := 0;
      while j < count
        invariant 0 <= j <= count
        invariant tokens.closed == old(tokens.closed) && tokens.next == old(tokens.next) + buf[from..from + j]
      {
        tokens.PutNextTokenChar(buf[from + j]);
        assert buf[from..from + j + 1] == buf[from..from + j] + [buf[from + j]];
        j := j + 1;
      }
    }

    /**
     * PadOutCharacterLiteral: a fixed-form character context that reaches the
     * end of a short card gets one blank per missing column up to the limit,
     * and then goes on in column 6 of a continuation line.
     */
    method PadOutCharacterLiteral(tokens: TokenSequence) returns (r: bool)
      requires Valid() && Scanning()
      modifies this`at, this`column, this`nextLine, this`delimiterNesting, this`preventHollerith, this`linesBegun,
               this`inCharLiteral, this`insertASpace, this`tabInCurrentLine, this`slashInCurrentLine,
               this`inPreprocessorDirective, this`omitNewline, this`skipLeadingAmpersand, this`messages, tokens
      ensures Valid() && Scanning() && inPreprocessorDirective == old(inPreprocessorDirective) && old(at) <= at
      ensures tokens.closed == old(tokens.closed)
      ensures tokens.next == old(tokens.next) + (if r then [' '] else [])
      ensures r ==> inFixedForm && column <= fixedFormColumnLimit as int
      ensures !(inFixedForm && !old(tabInCurrentLine) && old(at) + 1 < |buf| && buf[old(at) + 1] == '\n') ==>
                !r && at == old(at) && column == old(column) && linesBegun == old(linesBegun) && inCharLiteral == old(inCharLiteral)
      ensures (inFixedForm && !old(tabInCurrentLine) && old(at) + 1 < |buf| && buf[old(at) + 1] == '\n' &&
               old(column) < fixedFormColumnLimit as int) ==> r && at == old(at) && column == old(column) + 1
      ensures r ==> at > old(at) || (at == old(at) && (nextLine > old(nextLine) ||
                                    (nextLine == old(nextLine) && column == old(column) + 1)))
      ensures old(linesBegun) <= linesBegun &&
                (linesBegun == old(linesBegun) ==> preventHollerith == old(preventHollerith) && delimiterNesting == old(delimiterNesting))
      decreases Mode(), 80
    {
      ghost var first := true;
      while inFixedForm && !tabInCurrentLine && at + 1 < |buf| && buf[at + 1] == '\n'
        invariant first ==> at == old(at) && column == old(column) && tabInCurrentLine == old(tabInCurrentLine) &&
                            linesBegun == old(linesBegun) && inCharLiteral == old(inCharLiteral)
        invariant !first ==> inFixedForm && !old(tabInCurrentLine) && old(at) + 1 < |buf| && buf[old(at) + 1] == '\n' &&
                             old(column) >= fixedFormColumnLimit as int
        invariant old(linesBegun) <= linesBegun &&
                (linesBegun == old(linesBegun) ==> preventHollerith == old(preventHollerith) && delimiterNesting == old(delimiterNesting))
        invariant Valid() && Scanning() && old(at) <= at && inPreprocessorDirective == old(inPreprocessorDirective)
        invariant tokens.closed == old(tokens.closed) && tokens.next == old(tokens.next)
        invariant at > old(at) || (at == old(at) && old(nextLine) <= nextLine &&
                                   (nextLine > old(nextLine) || column == old(column)))
        decreases |buf| - at, |buf| - nextLine
      {
        if column < fixedFormColumnLimit as int {
          tokens.PutNextTokenChar(' ');
          column := column + 1;
          return true;
        }
        var ok := PadContinuation();
        if !ok {
          return false;
        }
        first := false;
      }
      return false;
    }

    /**
     * The continuation step of PadOutCharacterLiteral: a card that has
     * reached the column limit goes on in column 6 of its continuation line,
     * unless there is none or that line has a tab.
     */
    method PadContinuation() returns (ok: bool)
      requires Valid() && Scanning()
      modifies this`at, this`column, this`nextLine, this`delimiterNesting, this`preventHollerith, this`linesBegun,
               this`inCharLiteral, this`insertASpace, this`tabInCurrentLine, this`slashInCurrentLine,
               this`inPreprocessorDirective, this`omitNewline, this`skipLeadingAmpersand, this`messages
      ensures Valid() && Scanning() && inPreprocessorDirective == old(inPreprocessorDirective) && old(at) <= at
      ensures ok ==> column == 6 && !tabInCurrentLine && old(nextLine) <= at + 1 && old(nextLine) < nextLine
      ensures old(linesBegun) <= linesBegun &&
                (linesBegun == old(linesBegun) ==> preventHollerith == old(preventHollerith) && delimiterNesting == old(delimiterNesting))
      decreases Mode(), 78
    {
      var cont;
      ghost var line: nat, nesting: nat, passed: seq<nat>, configs: seq<LineConfig>;
      cont, line, nesting, passed, configs := FixedFormContinuation(false);
      if !cont || tabInCurrentLine {
        return false;
      }
      assert column == 7;
      at := at - 1;
      column := 6;
      return true;
    }

    /** ExponentAndKind: an exponent letter, its sign and digits, and a kind suffix. */
    method ExponentAndKind(tokens: TokenSequence) returns (r: bool)
      requires Valid() && Scanning()
      modifies this`at, this`column, this`nextLine, this`delimiterNesting, this`preventHollerith, this`linesBegun,
               this`inCharLiteral, this`insertASpace, this`tabInCurrentLine, this`slashInCurrentLine,
               this`inPreprocessorDirective, this`omitNewline, this`skipLeadingAmpersand, this`messages, tokens
      ensures Valid() && Scanning() && inPreprocessorDirective == old(inPreprocessorDirective) && old(at) <= at
      ensures r <==> ToLowerCaseLetter(old(buf[at])) == 'e' || ToLowerCaseLetter(old(buf[at])) == 'd'
      ensures !r ==> at == old(at) && tokens.next == old(tokens.next)
      ensures r ==> at > old(at)
      ensures tokens.closed == old(tokens.closed)
      ensures r ==> (|tokens.next| > |old(tokens.next)| &&
                     tokens.next[..|old(tokens.next)| + 1] == old(tokens.next) + [ToLowerCaseLetter(old(buf[at]))])
      ensures old(linesBegun) <= linesBegun &&
                (linesBegun == old(linesBegun) ==> preventHollerith == old(preventHollerith) && delimiterNesting == old(delimiterNesting))
      decreases Mode(), 100
    {
      var ed := ToLowerCaseLetter(buf[at]);
      if ed != 'e' && ed != 'd' {
        return false;
      }
      var c := EmitCharAndAdvance(tokens, ed);
      ExponentTail(tokens);
      return true;
    }

    /** After the exponent letter: an optional sign, the digits, and a kind suffix after '_'. */
    method ExponentTail(tokens: TokenSequence)
      requires Valid() && Scanning()
      modifies this`at, this`column, this`nextLine, this`delimiterNesting, this`preventHollerith, this`linesBegun,
               this`inCharLiteral, this`insertASpace, this`tabInCurrentLine, this`slashInCurrentLine,
               this`inPreprocessorDirective, this`omitNewline, this`skipLeadingAmpersand, this`messages, tokens
      ensures Valid() && Scanning() && inPreprocessorDirective == old(inPreprocessorDirective) && old(at) <= at
      ensures tokens.closed == old(tokens.closed)
      ensures |tokens.next| >= |old(tokens.next)| && tokens.next[..|old(tokens.next)|] == old(tokens.next)
      ensures old(linesBegun) <= linesBegun &&
                (linesBegun == old(linesBegun) ==> preventHollerith == old(preventHollerith) && delimiterNesting == old(delimiterNesting))
      decreases Mode(), 95
    {
      ghost var emitted := tokens.next;
      var c;
      if buf[at] == '+' || buf[at] == '-' {
        c := EmitCharAndAdvance(tokens, buf[at]);
      }
      while IsDecimalDigit(buf[at])
        invariant old(linesBegun) <= linesBegun &&
                (linesBegun == old(linesBegun) ==> preventHollerith == old(preventHollerith) && delimiterNesting == old(delimiterNesting))
        invariant Valid() && Scanning() && old(at) <= at && inPreprocessorDirective == old(inPreprocessorDirective)
        invariant tokens.closed == old(tokens.closed)
        invariant |tokens.next| >= |emitted| && tokens.next[..|emitted|] == emitted
        decreases |buf| - at
      {
        c := EmitCharAndAdvance(tokens, buf[at]);
      }
      if buf[at] == '_' {
        c := EmitCharAndAdvance(tokens, buf[at]);
        while IsLegalInIdentifier(c)
          invariant old(linesBegun) <= linesBegun &&
                (linesBegun == old(linesBegun) ==> preventHollerith == old(preventHollerith) && delimiterNesting == old(delimiterNesting))
          invariant Valid() && Scanning() && old(at) <= at && inPreprocessorDirective == old(inPreprocessorDirective)
          invariant tokens.closed == old(tokens.closed) && c == buf[at]
          invariant |tokens.next| >= |emitted| && tokens.next[..|emitted|] == emitted
          decreases |buf| - at
        {
          c := EmitCharAndAdvance(tokens, buf[at]);
        }
      }
    }

    /**
     * One character of a quoted literal into the open token, with the escape
     * state after it: a backslash toggles it when escapes are enabled and is
     * doubled when they are not; any other character clears it.
     */
    method EmitLiteralChar(tokens: TokenSequence, escapesEnabled: bool, wasEscaped: bool) returns (isEscaped: bool)
      requires at < |buf|
      modifies tokens
      ensures tokens.closed == old(tokens.closed)
      ensures tokens.next == old(tokens.next) + (if buf[at] == '\\' && !escapesEnabled then "\\\\" else [buf[at]])
      ensures isEscaped == EscapeAfter(buf[at], escapesEnabled, wasEscaped)
    {
      isEscaped := wasEscaped;
      if buf[at] == '\\' {
        if escapesEnabled {
          isEscaped := !isEscaped;
        } else {
          tokens.PutNextTokenChar('\\');
        }
      } else {
        isEscaped := false;
      }
      tokens.PutNextTokenChar(buf[at]);
    }

    /** The loop `while PadOutCharacterLiteral()` of QuotedCharacterLiteral: blanks up to the card's limit. */
    method PadOutLiteral(tokens: TokenSequence)
      requires Valid() && Scanning()
      modifies this`at, this`column, this`nextLine, this`delimiterNesting, this`preventHollerith, this`linesBegun,
               this`inCharLiteral, this`insertASpace, this`tabInCurrentLine, this`slashInCurrentLine,
               this`inPreprocessorDirective, this`omitNewline, this`skipLeadingAmpersand, this`messages, tokens
      ensures Valid() && Scanning() && inPreprocessorDirective == old(inPreprocessorDirective) && old(at) <= at
      ensures tokens.closed == old(tokens.closed)
      ensures |tokens.next| >= |old(tokens.next)| && tokens.next[..|old(tokens.next)|] == old(tokens.next)
      ensures !inFixedForm ==> at == old(at) && linesBegun == old(linesBegun) && inCharLiteral == old(inCharLiteral)
      ensures old(linesBegun) <= linesBegun &&
                (linesBegun == old(linesBegun) ==> preventHollerith == old(preventHollerith) && delimiterNesting == old(delimiterNesting))
      decreases Mode(), 85
    {
      while true
        invariant !inFixedForm ==> at == old(at) && linesBegun == old(linesBegun) && inCharLiteral == old(inCharLiteral)
        invariant old(linesBegun) <= linesBegun &&
                (linesBegun == old(linesBegun) ==> preventHollerith == old(preventHollerith) && delimiterNesting == old(delimiterNesting))
        invariant Valid() && Scanning() && old(at) <= at && inPreprocessorDirective == old(inPreprocessorDirective)
        invariant tokens.closed == old(tokens.closed)
        invariant |tokens.next| >= |old(tokens.next)| && tokens.next[..|old(tokens.next)|] == old(tokens.next)
        decreases |buf| - at, |buf| - nextLine, Slack()
      {
        var padded := PadOutCharacterLiteral(tokens);
        if !padded {
          break;
        }
      }
    }

    /**
     * A quote equal to the opening one inside a literal: it is kept, and the
     * literal goes on only if yet another quote follows (after blanks in
     * fixed form), as in 'it''s'.
     */
    method DoubledQuote(tokens: TokenSequence, quote: char) returns (more: bool)
      requires Valid() && Scanning() && buf[at] == quote && quote != '\n'
      modifies this`at, this`column, this`nextLine, this`delimiterNesting, this`preventHollerith, this`linesBegun,
               this`inCharLiteral, this`insertASpace, this`tabInCurrentLine, this`slashInCurrentLine,
               this`inPreprocessorDirective, this`omitNewline, this`skipLeadingAmpersand, this`messages, tokens
      ensures Valid() && Scanning() && inPreprocessorDirective == old(inPreprocessorDirective) && old(at) <= at && at > old(at)
      ensures tokens.closed == old(tokens.closed) && tokens.next == old(tokens.next) + [quote]
      ensures more == (buf[at] == quote) && (more ==> inCharLiteral)
      ensures !inFixedForm && !inPreprocessorDirective && PlainChar(buf, old(at) + 1, false) ==>
                at == old(at) + 1 && linesBegun == old(linesBegun)
      ensures old(linesBegun) <= linesBegun &&
                (linesBegun == old(linesBegun) ==> preventHollerith == old(preventHollerith) && delimiterNesting == old(delimiterNesting))
      decreases Mode(), 100
    {
      tokens.PutNextTokenChar(quote);
      inCharLiteral := false;
      NextChar();
      if InFixedFormSource() {
        SkipSpaces();
      }
      more := buf[at] == quote;
      if more {
        inCharLiteral := true;
      }
    }

    /**
     * One step of QuotedCharacterLiteral after a character was emitted: pad
     * a short card, stop at the end of the line (reporting the literal from
     * start to end as incomplete outside a directive), or move on, closing
     * the literal at a lone closing quote and otherwise emitting the next
     * character.
     */
    method LiteralStep(tokens: TokenSequence, start: nat, quote: char, wasEscaped: bool, escapesEnabled: bool,
                       endBefore: nat)
      returns (done: bool, isEscaped: bool, end: nat)
      requires Valid() && Scanning()
      modifies this`at, this`column, this`nextLine, this`delimiterNesting, this`preventHollerith, this`linesBegun,
               this`inCharLiteral, this`insertASpace, this`tabInCurrentLine, this`slashInCurrentLine,
               this`inPreprocessorDirective, this`omitNewline, this`skipLeadingAmpersand, this`messages, tokens
      ensures Valid() && Scanning() && inPreprocessorDirective == old(inPreprocessorDirective) && old(at) <= at
      ensures !done ==> at > old(at)
      ensures done ==> at > old(at) || buf[at] == '\n'
      ensures !inFixedForm && !inPreprocessorDirective && old(inCharLiteral) && buf[old(at)] != '\n' &&
              LiteralClose(old(at), quote, escapesEnabled, wasEscaped).Some? ==>
                linesBegun == old(linesBegun) &&
                (done ==> at == LiteralClose(old(at), quote, escapesEnabled, wasEscaped).value) &&
                (!done ==> inCharLiteral && buf[at] != '\n' &&
                           LiteralClose(at, quote, escapesEnabled, isEscaped) == LiteralClose(old(at), quote, escapesEnabled, wasEscaped))
      ensures tokens.closed == old(tokens.closed)
      ensures |tokens.next| >= |old(tokens.next)| && tokens.next[..|old(tokens.next)|] == old(tokens.next)
      ensures old(linesBegun) <= linesBegun &&
                (linesBegun == old(linesBegun) ==> preventHollerith == old(preventHollerith) && delimiterNesting == old(delimiterNesting))
      decreases Mode(), 105
    {
      PadOutLiteral(tokens);
      if buf[at] == '\n' {
        if !inPreprocessorDirective {
          Say(start, endBefore, "Incomplete character literal", true);
        }
        return true, wasEscaped, endBefore;
      }
      end := at + 1;
      done, isEscaped := LiteralNext(tokens, quote, wasEscaped, escapesEnabled);
      if done {
        isEscaped := wasEscaped;
      }
    }

    /**
     * The second half of LiteralStep: on to the next character, which closes
     * the literal when it is a lone closing quote and is emitted otherwise.
     */
    method LiteralNext(tokens: TokenSequence, quote: char, wasEscaped: bool, escapesEnabled: bool)
      returns (done: bool, isEscaped: bool)
      requires Valid() && Scanning() && buf[at] != '\n'
      modifies this`at, this`column, this`nextLine, this`delimiterNesting, this`preventHollerith, this`linesBegun,
               this`inCharLiteral, this`insertASpace, this`tabInCurrentLine, this`slashInCurrentLine,
               this`inPreprocessorDirective, this`omitNewline, this`skipLeadingAmpersand, this`messages, tokens
      ensures Valid() && Scanning() && inPreprocessorDirective == old(inPreprocessorDirective) && at > old(at)
      ensures !inFixedForm && !inPreprocessorDirective && old(inCharLiteral) &&
              LiteralClose(old(at), quote, escapesEnabled, wasEscaped).Some? ==>
                linesBegun == old(linesBegun) &&
                (done ==> at == LiteralClose(old(at), quote, escapesEnabled, wasEscaped).value) &&
                (!done ==> inCharLiteral && buf[at] != '\n' &&
                           LiteralClose(at, quote, escapesEnabled, isEscaped) == LiteralClose(old(at), quote, escapesEnabled, wasEscaped))
      ensures tokens.closed == old(tokens.closed)
      ensures |tokens.next| >= |old(tokens.next)| && tokens.next[..|old(tokens.next)|] == old(tokens.next)
      ensures old(linesBegun) <= linesBegun &&
                (linesBegun == old(linesBegun) ==> preventHollerith == old(preventHollerith) && delimiterNesting == old(delimiterNesting))
      decreases Mode(), 104
    {
      NextChar();
      if buf[at] == quote && !wasEscaped && quote != '\n' {
        var more := DoubledQuote(tokens, quote);
        if !more {
          return true, wasEscaped;
        }
      }
      isEscaped := EmitLiteralChar(tokens, escapesEnabled, wasEscaped);
      done := false;
    }

    /**
     * QuotedCharacterLiteral: the literal opened by the quote at the cursor,
     * up to its closing quote; a doubled quote stays inside.  A literal that
     * meets the end of its line is reported as incomplete, except in a
     * preprocessor directive.  With backslash escapes off, every backslash
     * is emitted twice so that the parser reads it literally.
     */
    method QuotedCharacterLiteral(tokens: TokenSequence, start: nat)
      requires Valid() && Scanning()
      modifies this`at, this`column, this`nextLine, this`delimiterNesting, this`preventHollerith, this`linesBegun,
               this`inCharLiteral, this`insertASpace, this`tabInCurrentLine, this`slashInCurrentLine,
               this`inPreprocessorDirective, this`omitNewline, this`skipLeadingAmpersand, this`messages, tokens
      ensures Valid() && Scanning() && inPreprocessorDirective == old(inPreprocessorDirective) && old(at) <= at && !inCharLiteral
      ensures buf[old(at)] != '\n' ==> at > old(at)
      ensures tokens.closed == old(tokens.closed)
      ensures |tokens.next| > |old(tokens.next)| &&
              tokens.next[..|old(tokens.next)| + 1] == old(tokens.next) + [old(buf[at])]
      ensures !inFixedForm && !inPreprocessorDirective && buf[old(at)] != '\n' ==>
                var close := LiteralClose(old(at), buf[old(at)], features.backslashEscapes,
                                          EscapeAfter(buf[old(at)], features.backslashEscapes, false));
                close.Some? ==> at == close.value && linesBegun == old(linesBegun)
      ensures old(linesBegun) <= linesBegun &&
                (linesBegun == old(linesBegun) ==> preventHollerith == old(preventHollerith) && delimiterNesting == old(delimiterNesting))
      decreases Mode(), 110
    {
      var quote := buf[at];
      var end: nat := at + 1;
      inCharLiteral := true;
      var isEscaped := false;
      var escapesEnabled := features.backslashEscapes;
      isEscaped := EmitLiteralChar(tokens, escapesEnabled, isEscaped);
      ghost var lead := old(tokens.next) + [quote];
      ghost var close := LiteralClose(at, quote, escapesEnabled, isEscaped);
      ghost var plain := !inFixedForm && !inPreprocessorDirective && quote != '\n' && close.Some?;
      while true
        invariant old(linesBegun) <= linesBegun &&
                (linesBegun == old(linesBegun) ==> preventHollerith == old(preventHollerith) && delimiterNesting == old(delimiterNesting))
        invariant Valid() && Scanning() && old(at) <= at && inPreprocessorDirective == old(inPreprocessorDirective)
        invariant tokens.closed == old(tokens.closed)
        invariant |tokens.next| >= |lead| && tokens.next[..|lead|] == lead
        invariant plain ==> linesBegun == old(linesBegun) && inCharLiteral && buf[at] != '\n' &&
                            LiteralClose(at, quote, escapesEnabled, isEscaped) == close
        decreases |buf| - at
      {
        var done;
        done, isEscaped, end := LiteralStep(tokens, start, quote, isEscaped, escapesEnabled, end);
        if done {
          break;
        }
      }
      assert |lead| == |old(tokens.next)| + 1 && lead == old(tokens.next) + [old(buf[at])];
      inCharLiteral := false;
    }

    /**
     * One character of a Hollerith literal: a padding blank, or the next
     * (possibly multi-byte) character; the literal stops early at the end of
     * the line, reported as a possible truncation, or at an undecodable
     * byte, reported as an error.
     */
    method HollerithCharacter(tokens: TokenSequence, start: nat, ghost owed: nat) returns (stop: bool)
      requires Valid() && Scanning() && owed > 0
      modifies this`at, this`column, this`nextLine, this`delimiterNesting, this`preventHollerith, this`linesBegun,
               this`inCharLiteral, this`insertASpace, this`tabInCurrentLine, this`slashInCurrentLine,
               this`inPreprocessorDirective, this`omitNewline, this`skipLeadingAmpersand, this`messages, tokens
      ensures Valid() && Scanning() && inPreprocessorDirective == old(inPreprocessorDirective) && old(at) <= at
      ensures old(at) == at ==> buf[at] == buf[old(at)]
      ensures tokens.closed == old(tokens.closed)
      ensures |tokens.next| >= |old(tokens.next)| && tokens.next[..|old(tokens.next)|] == old(tokens.next)
      ensures !inFixedForm && !inPreprocessorDirective && old(inCharLiteral) && HollerithEnd(old(at), owed).Some? ==>
                linesBegun == old(linesBegun) && inCharLiteral &&
                (if stop then HollerithEnd(at, 0) else HollerithEnd(at, owed - 1)) == HollerithEnd(old(at), owed)
      ensures old(linesBegun) <= linesBegun &&
                (linesBegun == old(linesBegun) ==> preventHollerith == old(preventHollerith) && delimiterNesting == old(delimiterNesting))
      decreases Mode(), 100
    {
      var padded := PadOutCharacterLiteral(tokens);
      stop := false;
      if padded {
      } else if buf[at] == '\n' {
        Say(start, at, "Possible truncated Hollerith literal", false);
        stop := true;
      } else {
        stop := HollerithBytes(tokens, start);
      }
    }

    /** The next character of a Hollerith literal after the cursor, all its bytes, or an error when it does not decode. */
    method HollerithBytes(tokens: TokenSequence, start: nat) returns (stop: bool)
      requires Valid() && Scanning() && buf[at] != '\n'
      modifies this`at, this`column, this`nextLine, this`delimiterNesting, this`preventHollerith, this`linesBegun,
               this`inCharLiteral, this`insertASpace, this`tabInCurrentLine, this`slashInCurrentLine,
               this`inPreprocessorDirective, this`omitNewline, this`skipLeadingAmpersand, this`messages, tokens
      ensures Valid() && Scanning() && inPreprocessorDirective == old(inPreprocessorDirective) && old(at) < at
      ensures tokens.closed == old(tokens.closed)
      ensures |tokens.next| >= |old(tokens.next)| && tokens.next[..|old(tokens.next)|] == old(tokens.next)
      ensures !inFixedForm && !inPreprocessorDirective && PlainChar(buf, old(at) + 1, old(inCharLiteral)) ==>
                linesBegun == old(linesBegun) && inCharLiteral == old(inCharLiteral) &&
                (stop <==> decoded[old(at) + 1] == 0) &&
                at == old(at) + (if decoded[old(at) + 1] == 0 then 1 else decoded[old(at) + 1])
      ensures old(linesBegun) <= linesBegun &&
                (linesBegun == old(linesBegun) ==> preventHollerith == old(preventHollerith) && delimiterNesting == old(delimiterNesting))
      decreases Mode(), 99
    {
      NextChar();
      stop := HollerithCopy(tokens, start);
    }

    /** The bytes of the character at the cursor into the open token, the cursor on its last byte; an error when it does not decode. */
    method HollerithCopy(tokens: TokenSequence, start: nat) returns (stop: bool)
      requires Valid() && Scanning()
      modifies this`at, this`messages, tokens
      ensures Valid() && Scanning() && old(at) <= at
      ensures stop <==> decoded[old(at)] == 0
      ensures at == old(at) + (if decoded[old(at)] == 0 then 0 else decoded[old(at)] - 1)
      ensures tokens.closed == old(tokens.closed)
      ensures tokens.next == old(tokens.next) + buf[old(at)..old(at) + decoded[old(at)]]
    {
      var bytes := decoded[at];
      stop := false;
      if bytes > 0 {
        EmitBytes(tokens, at, bytes);
        LineEndWithin(at, nextLine);
        at := at + bytes - 1;
      } else {
        Say(start, at, "Bad character in Hollerith literal", true);
        stop := true;
      }
    }

    /**
     * The counting loop of Hollerith: up to count characters into the open
     * token.  When nothing interrupts it, the cursor ends where
     * HollerithEnd says the literal's last step starts.
     */
    method HollerithCharacters(tokens: TokenSequence, count: nat, start: nat)
      requires Valid() && Scanning() && buf[at] != '\n'
      modifies this`at, this`column, this`nextLine, this`delimiterNesting, this`preventHollerith, this`linesBegun,
               this`inCharLiteral, this`insertASpace, this`tabInCurrentLine, this`slashInCurrentLine,
               this`inPreprocessorDirective, this`omitNewline, this`skipLeadingAmpersand, this`messages, tokens
      ensures Valid() && Scanning() && inPreprocessorDirective == old(inPreprocessorDirective) && old(at) <= at
      ensures at == old(at) ==> buf[at] != '\n'
      ensures tokens.closed == old(tokens.closed)
      ensures |tokens.next| >= |old(tokens.next)| && tokens.next[..|old(tokens.next)|] == old(tokens.next)
      ensures !inFixedForm && !inPreprocessorDirective && old(inCharLiteral) && HollerithEnd(old(at), count).Some? ==>
                linesBegun == old(linesBegun) && inCharLiteral && HollerithEnd(at, 0) == HollerithEnd(old(at), count)
      ensures old(linesBegun) <= linesBegun &&
                (linesBegun == old(linesBegun) ==> preventHollerith == old(preventHollerith) && delimiterNesting == old(delimiterNesting))
      decreases Mode(), 105
    {
      var remaining := count;
      ghost var target := HollerithEnd(at, count);
      ghost var plain := !inFixedForm && !inPreprocessorDirective && inCharLiteral && target.Some?;
      while remaining > 0
        invariant old(linesBegun) <= linesBegun &&
                (linesBegun == old(linesBegun) ==> preventHollerith == old(preventHollerith) && delimiterNesting == old(delimiterNesting))
        invariant Valid() && Scanning() && old(at) <= at && inPreprocessorDirective == old(inPreprocessorDirective)
        invariant at == old(at) ==> buf[at] != '\n'
        invariant tokens.closed == old(tokens.closed)
        invariant |tokens.next| >= |old(tokens.next)| && tokens.next[..|old(tokens.next)|] == old(tokens.next)
        invariant plain ==> linesBegun == old(linesBegun) && inCharLiteral && HollerithEnd(at, remaining) == target
        decreases remaining
      {
        remaining := remaining - 1;
        var stop := HollerithCharacter(tokens, start, remaining + 1);
        if stop {
          break;
        }
      }
    }

    /**
     * Hollerith: the H of an nH literal and the next count characters, each
     * multi-byte character counting once.  A line that ends early is
     * reported as a possible truncation, and an undecodable byte as an error.
     */
    method Hollerith(tokens: TokenSequence, count: nat, start: nat)
      requires Valid() && Scanning() && (buf[at] == 'h' || buf[at] == 'H')
      modifies this`at, this`column, this`nextLine, this`delimiterNesting, this`preventHollerith, this`linesBegun,
               this`inCharLiteral, this`insertASpace, this`tabInCurrentLine, this`slashInCurrentLine,
               this`inPreprocessorDirective, this`omitNewline, this`skipLeadingAmpersand, this`messages, tokens
      ensures Valid() && Scanning() && inPreprocessorDirective == old(inPreprocessorDirective) && old(at) <= at && at > old(at) && !inCharLiteral
      ensures tokens.closed == old(tokens.closed)
      ensures |tokens.next| > |old(tokens.next)| && tokens.next[..|old(tokens.next)| + 1] == old(tokens.next) + ['H']
      ensures !inFixedForm && !inPreprocessorDirective && HollerithEnd(old(at), count).Some? ==>
                at == HollerithEnd(old(at), count).value && linesBegun == old(linesBegun)
      ensures old(linesBegun) <= linesBegun &&
                (linesBegun == old(linesBegun) ==> preventHollerith == old(preventHollerith) && delimiterNesting == old(delimiterNesting))
      decreases Mode(), 110
    {
      inCharLiteral := true;
      tokens.PutNextTokenChar('H');
      ghost var lead := tokens.next;
      HollerithCharacters(tokens, count, start);
      if buf[at] != '\n' {
        NextChar();
      }
      inCharLiteral := false;
    }

    /** A line that begins at or before p ends before the next line starts. */
    lemma LineEndWithin(p: nat, n: nat)
      requires WellFormed(buf) && p < n <= |buf| && buf[n - 1] == '\n'
      ensures LineEnd(buf, p) < n
    {
    }

    // -------------------------------------------------------------------
    // NextToken and its branches

    /**
     * The digit-string branch of NextToken: a label, an integer or real
     * constant, a Hollerith literal when the digits are followed by H and
     * the count is in range, a hexadecimal constant in a directive, or a
     * kind-prefixed character literal.  The ghost results record the digits,
     * the position q the cursor reached after them, how many lines had begun
     * by then, the Hollerith guard at that point, and whether a Hollerith
     * literal was taken.
     */
    method NumberToken(tokens: TokenSequence, start: nat)
      returns (ghost digits: string, ghost q: nat, ghost begun: nat, ghost prevented: bool, ghost hollerith: bool)
      requires Valid() && Scanning() && IsDecimalDigit(buf[at])
      modifies this`at, this`column, this`nextLine, this`delimiterNesting, this`preventHollerith, this`linesBegun,
               this`inCharLiteral, this`insertASpace, this`tabInCurrentLine, this`slashInCurrentLine,
               this`inPreprocessorDirective, this`omitNewline, this`skipLeadingAmpersand, this`messages, tokens
      ensures Valid() && Scanning() && inPreprocessorDirective == old(inPreprocessorDirective) && old(at) <= at && at > old(at) && !preventHollerith
      ensures digits != [] && digits[0] == old(buf[at]) && forall i :: 0 <= i < |digits| ==> IsDecimalDigit(digits[i])
      ensures old(at) < q <= at && !IsDecimalDigit(buf[q])
      ensures !inFixedForm && !inPreprocessorDirective && PlainChar(buf, DigitRunEnd(buf, old(at)), false) ==>
                q == DigitRunEnd(buf, old(at)) && digits == buf[old(at)..q] && begun == old(linesBegun)
      ensures old(linesBegun) <= begun <= linesBegun && (begun == old(linesBegun) ==> prevented == old(preventHollerith))
      ensures hollerith <==> (buf[q] == 'h' || buf[q] == 'H') && !prevented &&
                             0 < DecimalValue(digits) < MaxHollerith
      ensures tokens.closed == old(tokens.closed)
      ensures |tokens.next| >= |old(tokens.next)| + |digits| &&
              tokens.next[..|old(tokens.next)| + |digits|] == old(tokens.next) + digits
      ensures hollerith ==> |tokens.next| > |old(tokens.next)| + |digits| &&
                            tokens.next[|old(tokens.next)| + |digits|] == 'H'
      ensures old(linesBegun) <= linesBegun &&
                (linesBegun == old(linesBegun) ==> delimiterNesting == old(delimiterNesting))
      decreases Mode(), 120
    {
      var n, count;
      n, count, digits := DigitString(tokens);
      HollerithCountValue(digits);
      q, begun, prevented := at, linesBegun, preventHollerith;
      hollerith := NumberSuffix(tokens, start, n, count);
      preventHollerith := false;
    }

    /**
     * The body of the digit loop of NextToken: the digit at the cursor joins
     * the capped count n and the open token, then blanks are skipped in fixed
     * form.  The ghost digits are those already taken, which in the plain case
     * are the buffer from from up to the cursor.
     */
    method DigitStep(tokens: TokenSequence, n: nat, ghost from: nat, ghost digits: string) returns (n': nat, ghost digits': string)
      requires Valid() && Scanning() && IsDecimalDigit(buf[at])
      requires (forall i :: 0 <= i < |digits| ==> IsDecimalDigit(digits[i])) && n == HollerithCount(digits)
      modifies this`at, this`column, this`nextLine, this`delimiterNesting, this`preventHollerith, this`linesBegun,
               this`inCharLiteral, this`insertASpace, this`tabInCurrentLine, this`slashInCurrentLine,
               this`inPreprocessorDirective, this`omitNewline, this`skipLeadingAmpersand, this`messages, tokens
      ensures Valid() && Scanning() && inPreprocessorDirective == old(inPreprocessorDirective) && old(at) < at
      ensures digits' == digits + [old(buf[at])] && (forall i :: 0 <= i < |digits'| ==> IsDecimalDigit(digits'[i])) &&
              n' == HollerithCount(digits')
      ensures tokens.closed == old(tokens.closed) && tokens.next == old(tokens.next) + [old(buf[at])]
      ensures !inFixedForm && !inPreprocessorDirective && PlainChar(buf, old(at) + 1, false) ==>
                at == old(at) + 1 && linesBegun == old(linesBegun) &&
                (from <= old(at) && digits == buf[from..old(at)] ==> digits' == buf[from..at])
      ensures old(linesBegun) <= linesBegun &&
                (linesBegun == old(linesBegun) ==> preventHollerith == old(preventHollerith) && delimiterNesting == old(delimiterNesting))
      decreases Mode(), 100
    {
      var d := buf[at];
      n' := if n < MaxHollerith then 10 * n + DecimalDigitValue(d) else n;
      digits' := digits + [d];
      assert digits'[..|digits|] == digits;
      assert from <= at && digits == buf[from..at] ==> digits' == buf[from..at + 1];
      var c := EmitCharAndAdvance(tokens, d);
      if InFixedFormSource() {
        SkipSpaces();
      }
    }

    /**
     * The digits of a number (blanks between them skipped in fixed form),
     * with the capped Hollerith count of them and how many there were.
     */
    method DigitString(tokens: TokenSequence) returns (n: nat, count: nat, ghost digits: string)
      requires Valid() && Scanning() && IsDecimalDigit(buf[at])
      modifies this`at, this`column, this`nextLine, this`delimiterNesting, this`preventHollerith, this`linesBegun,
               this`inCharLiteral, this`insertASpace, this`tabInCurrentLine, this`slashInCurrentLine,
               this`inPreprocessorDirective, this`omitNewline, this`skipLeadingAmpersand, this`messages, tokens
      ensures Valid() && Scanning() && inPreprocessorDirective == old(inPreprocessorDirective) && old(at) <= at && at > old(at) && !IsDecimalDigit(buf[at])
      ensures digits != [] && digits[0] == old(buf[at]) && (forall i :: 0 <= i < |digits| ==> IsDecimalDigit(digits[i]))
      ensures n == HollerithCount(digits) && count == |digits|
      ensures !inFixedForm && !inPreprocessorDirective && PlainChar(buf, DigitRunEnd(buf, old(at)), false) ==>
                at == DigitRunEnd(buf, old(at)) && digits == buf[old(at)..at] && linesBegun == old(linesBegun)
      ensures tokens.closed == old(tokens.closed) && tokens.next == old(tokens.next) + digits
      ensures old(linesBegun) <= linesBegun &&
                (linesBegun == old(linesBegun) ==> preventHollerith == old(preventHollerith) && delimiterNesting == old(delimiterNesting))
      decreases Mode(), 110
    {
      n := 0;
      count := 0;
      digits := [];
      ghost var end := DigitRunEnd(buf, at);
      ghost var plain := !inFixedForm && !inPreprocessorDirective && PlainChar(buf, end, false);
      while true
        invariant old(linesBegun) <= linesBegun &&
                (linesBegun == old(linesBegun) ==> preventHollerith == old(preventHollerith) && delimiterNesting == old(delimiterNesting))
        invariant Valid() && Scanning() && old(at) <= at && inPreprocessorDirective == old(inPreprocessorDirective)
        invariant IsDecimalDigit(buf[at]) && (digits == [] <==> at == old(at)) && (digits != [] ==> digits[0] == old(buf[at]))
        invariant forall i :: 0 <= i < |digits| ==> IsDecimalDigit(digits[i])
        invariant n == HollerithCount(digits) && count == |digits|
        invariant plain ==> at <= end && digits == buf[old(at)..at] && linesBegun == old(linesBegun)
        invariant tokens.closed == old(tokens.closed) && tokens.next == old(tokens.next) + digits
        decreases |buf| - at
      {
        assert plain ==> PlainChar(buf, at + 1, false);
        n, digits := DigitStep(tokens, n, old(at), digits);
        count := count + 1;
        if !IsDecimalDigit(buf[at]) {
          break;
        }
      }
    }

    /**
     * What follows the digits of a number, given their capped count n and
     * their number: the Hollerith literal, the fraction and exponent, the
     * exponent alone, a hexadecimal tail, one letter, or a kind-prefixed
     * character literal.  The result says whether a Hollerith literal was taken.
     */
    method NumberSuffix(tokens: TokenSequence, start: nat, n: nat, count: nat) returns (hollerith: bool)
      requires Valid() && Scanning()
      modifies this`at, this`column, this`nextLine, this`delimiterNesting, this`preventHollerith, this`linesBegun,
               this`inCharLiteral, this`insertASpace, this`tabInCurrentLine, this`slashInCurrentLine,
               this`inPreprocessorDirective, this`omitNewline, this`skipLeadingAmpersand, this`messages, tokens
      ensures Valid() && Scanning() && inPreprocessorDirective == old(inPreprocessorDirective) && old(at) <= at
      ensures hollerith <==> (old(buf[at]) == 'h' || old(buf[at]) == 'H') && 0 < n < MaxHollerith && !old(preventHollerith)
      ensures tokens.closed == old(tokens.closed)
      ensures |tokens.next| >= |old(tokens.next)| && tokens.next[..|old(tokens.next)|] == old(tokens.next)
      ensures hollerith ==> |tokens.next| > |old(tokens.next)| && tokens.next[|old(tokens.next)|] == 'H'
      ensures old(linesBegun) <= linesBegun &&
                (linesBegun == old(linesBegun) ==> preventHollerith == old(preventHollerith) && delimiterNesting == old(delimiterNesting))
      decreases Mode(), 115
    {
      hollerith := false;
      if (buf[at] == 'h' || buf[at] == 'H') && n > 0 && n < MaxHollerith && !preventHollerith {
        Hollerith(tokens, n, start);
        hollerith := true;
      } else if buf[at] == '.' {
        FractionDigits(tokens);
      } else {
        NumberTail(tokens, start, n, count);
      }
    }

    /**
     * The rest of NumberSuffix: an exponent and kind, a hexadecimal tail in a
     * directive, one letter, or a kind-prefixed character literal.
     */
    method NumberTail(tokens: TokenSequence, start: nat, n: nat, count: nat)
      requires Valid() && Scanning()
      modifies this`at, this`column, this`nextLine, this`delimiterNesting, this`preventHollerith, this`linesBegun,
               this`inCharLiteral, this`insertASpace, this`tabInCurrentLine, this`slashInCurrentLine,
               this`inPreprocessorDirective, this`omitNewline, this`skipLeadingAmpersand, this`messages, tokens
      ensures Valid() && Scanning() && inPreprocessorDirective == old(inPreprocessorDirective) && old(at) <= at
      ensures tokens.closed == old(tokens.closed)
      ensures |tokens.next| >= |old(tokens.next)| && tokens.next[..|old(tokens.next)|] == old(tokens.next)
      ensures old(linesBegun) <= linesBegun &&
                (linesBegun == old(linesBegun) ==> preventHollerith == old(preventHollerith) && delimiterNesting == old(delimiterNesting))
      decreases Mode(), 112
    {
      var e := ExponentAndKind(tokens);
      if e {
      } else if count == 1 && n == 0 && (buf[at] == 'x' || buf[at] == 'X') && inPreprocessorDirective {
        var c := EmitCharAndAdvance(tokens, buf[at]);
        while IsHexadecimalDigit(buf[at])
          invariant old(linesBegun) <= linesBegun &&
                (linesBegun == old(linesBegun) ==> preventHollerith == old(preventHollerith) && delimiterNesting == old(delimiterNesting))
          invariant Valid() && Scanning() && old(at) < at && inPreprocessorDirective == old(inPreprocessorDirective)
          invariant tokens.closed == old(tokens.closed)
          invariant |tokens.next| >= |old(tokens.next)| && tokens.next[..|old(tokens.next)|] == old(tokens.next)
          decreases |buf| - at
        {
          c := EmitCharAndAdvance(tokens, buf[at]);
        }
      } else if IsLetter(buf[at]) {
        var c := EmitCharAndAdvance(tokens, buf[at]);
      } else if buf[at] == '_' && at + 1 < |buf| && IsQuote(buf[at + 1]) {
        var c := EmitCharAndAdvance(tokens, buf[at]);
        QuotedCharacterLiteral(tokens, start);
      }
    }

    /** The '.' branch of NextToken: a real constant, a '..' or '...', or a period. */
    method DotToken(tokens: TokenSequence)
      requires Valid() && Scanning() && buf[at] == '.'
      modifies this`at, this`column, this`nextLine, this`delimiterNesting, this`preventHollerith, this`linesBegun,
               this`inCharLiteral, this`insertASpace, this`tabInCurrentLine, this`slashInCurrentLine,
               this`inPreprocessorDirective, this`omitNewline, this`skipLeadingAmpersand, this`messages, tokens
      ensures Valid() && Scanning() && inPreprocessorDirective == old(inPreprocessorDirective) && old(at) <= at && at > old(at) && !preventHollerith
      ensures tokens.closed == old(tokens.closed)
      ensures |tokens.next| > |old(tokens.next)| && tokens.next[..|old(tokens.next)| + 1] == old(tokens.next) + ['.']
      ensures old(linesBegun) <= linesBegun &&
                (linesBegun == old(linesBegun) ==> delimiterNesting == old(delimiterNesting))
      decreases Mode(), 120
    {
      ghost var lead := tokens.next + ['.'];
      var nch := EmitCharAndAdvance(tokens, '.');
      if !inPreprocessorDirective && IsDecimalDigit(nch) {
        FractionDigits(tokens);
      } else if nch == '.' {
        var c := EmitCharAndAdvance(tokens, '.');
        if c == '.' {
          c := EmitCharAndAdvance(tokens, '.');
        }
      }
      preventHollerith := false;
    }

    /** The digits after the '.' of a real constant, then its exponent and kind. */
    method FractionDigits(tokens: TokenSequence)
      requires Valid() && Scanning() && buf[at] != '\n'
      modifies this`at, this`column, this`nextLine, this`delimiterNesting, this`preventHollerith, this`linesBegun,
               this`inCharLiteral, this`insertASpace, this`tabInCurrentLine, this`slashInCurrentLine,
               this`inPreprocessorDirective, this`omitNewline, this`skipLeadingAmpersand, this`messages, tokens
      ensures Valid() && Scanning() && inPreprocessorDirective == old(inPreprocessorDirective) && old(at) < at
      ensures tokens.closed == old(tokens.closed)
      ensures |tokens.next| >= |old(tokens.next)| && tokens.next[..|old(tokens.next)|] == old(tokens.next)
      ensures old(linesBegun) <= linesBegun &&
                (linesBegun == old(linesBegun) ==> preventHollerith == old(preventHollerith) && delimiterNesting == old(delimiterNesting))
      decreases Mode(), 101
    {
      ghost var lead := tokens.next;
      var c := EmitCharAndAdvance(tokens, buf[at]);
      while IsDecimalDigit(c)
        invariant old(linesBegun) <= linesBegun &&
                (linesBegun == old(linesBegun) ==> preventHollerith == old(preventHollerith) && delimiterNesting == old(delimiterNesting))
        invariant Valid() && Scanning() && old(at) < at && inPreprocessorDirective == old(inPreprocessorDirective)
        invariant tokens.closed == old(tokens.closed) && c == buf[at]
        invariant |tokens.next| >= |lead| && tokens.next[..|lead|] == lead
        decreases |buf| - at
      {
        c := EmitCharAndAdvance(tokens, buf[at]);
      }
      var e := ExponentAndKind(tokens);
    }

    /**
     * The name branch of NextToken: an identifier, or a prefixed character
     * literal when a quote follows.  After a plain name an H no longer starts
     * a Hollerith literal.  The ghost results are whether a quote followed,
     * and the position q the cursor reached after the name.
     */
    method NameToken(tokens: TokenSequence, start: nat) returns (ghost quoted: bool, ghost q: nat)
      requires Valid() && Scanning() && IsLegalInIdentifier(buf[at])
      modifies this`at, this`column, this`nextLine, this`delimiterNesting, this`preventHollerith, this`linesBegun,
               this`inCharLiteral, this`insertASpace, this`tabInCurrentLine, this`slashInCurrentLine,
               this`inPreprocessorDirective, this`omitNewline, this`skipLeadingAmpersand, this`messages, tokens
      ensures Valid() && Scanning() && inPreprocessorDirective == old(inPreprocessorDirective) && old(at) <= at && at > old(at)
      ensures old(at) < q <= at && !IsLegalInIdentifier(buf[q]) && (quoted <==> IsQuote(buf[q]))
      ensures !inFixedForm && !inPreprocessorDirective && PlainChar(buf, IdentifierEnd(buf, old(at)), false) ==>
                q == IdentifierEnd(buf, old(at))
      ensures !quoted ==> at == q && preventHollerith
      ensures quoted ==> !preventHollerith
      ensures tokens.closed == old(tokens.closed)
      ensures |tokens.next| > |old(tokens.next)| && tokens.next[..|old(tokens.next)| + 1] == old(tokens.next) + [old(buf[at])]
      ensures old(linesBegun) <= linesBegun &&
                (linesBegun == old(linesBegun) ==> delimiterNesting == old(delimiterNesting))
      decreases Mode(), 120
    {
      NameChars(tokens);
      q := at;
      if IsQuote(buf[at]) {
        QuotedCharacterLiteral(tokens, start);
        preventHollerith := false;
        quoted := true;
      } else {
        preventHollerith := true;
        quoted := false;
      }
    }

    /** The characters of a name, from the cursor up to the first one not legal in a name, into the open token. */
    method NameChars(tokens: TokenSequence)
      requires Valid() && Scanning() && IsLegalInIdentifier(buf[at])
      modifies this`at, this`column, this`nextLine, this`delimiterNesting, this`preventHollerith, this`linesBegun,
               this`inCharLiteral, this`insertASpace, this`tabInCurrentLine, this`slashInCurrentLine,
               this`inPreprocessorDirective, this`omitNewline, this`skipLeadingAmpersand, this`messages, tokens
      ensures Valid() && Scanning() && inPreprocessorDirective == old(inPreprocessorDirective) && old(at) < at
      ensures !IsLegalInIdentifier(buf[at])
      ensures !inFixedForm && !inPreprocessorDirective && PlainChar(buf, IdentifierEnd(buf, old(at)), false) ==>
                at == IdentifierEnd(buf, old(at))
      ensures tokens.closed == old(tokens.closed)
      ensures |tokens.next| > |old(tokens.next)| && tokens.next[..|old(tokens.next)| + 1] == old(tokens.next) + [old(buf[at])]
      ensures old(linesBegun) <= linesBegun &&
                (linesBegun == old(linesBegun) ==> delimiterNesting == old(delimiterNesting))
      decreases Mode(), 108
    {
      ghost var lead := tokens.next + [buf[at]];
      assert !inFixedForm && !inPreprocessorDirective && PlainChar(buf, IdentifierEnd(buf, at), false) ==>
               PlainChar(buf, at + 1, inCharLiteral);
      var c := EmitCharAndAdvance(tokens, buf[at]);
      while IsLegalInIdentifier(c)
        invariant old(linesBegun) <= linesBegun &&
                (linesBegun == old(linesBegun) ==> delimiterNesting == old(delimiterNesting))
        invariant Valid() && Scanning() && old(at) < at && inPreprocessorDirective == old(inPreprocessorDirective)
        invariant tokens.closed == old(tokens.closed) && c == buf[at]
        invariant |tokens.next| >= |lead| && tokens.next[..|lead|] == lead
        invariant !inFixedForm && !inPreprocessorDirective && PlainChar(buf, IdentifierEnd(buf, old(at)), false) ==>
                    at <= IdentifierEnd(buf, old(at)) && inCharLiteral == old(inCharLiteral)
        decreases |buf| - at
      {
        assert !inFixedForm && !inPreprocessorDirective && PlainChar(buf, IdentifierEnd(buf, old(at)), false) ==>
                 PlainChar(buf, at + 1, inCharLiteral);
        c := EmitCharAndAdvance(tokens, buf[at]);
      }
    }

    /**
     * The '*' branch of NextToken: '**', or a '*' after which an H starts a
     * Hollerith literal only once a '/' has been seen on the line (a DATA
     * repeat count rather than a length).
     */
    method StarToken(tokens: TokenSequence) returns (power: bool, ghost mid: nat)
      requires Valid() && Scanning() && buf[at] == '*'
      modifies this`at, this`column, this`nextLine, this`delimiterNesting, this`preventHollerith, this`linesBegun,
               this`inCharLiteral, this`insertASpace, this`tabInCurrentLine, this`slashInCurrentLine,
               this`inPreprocessorDirective, this`omitNewline, this`skipLeadingAmpersand, this`messages, tokens
      ensures Valid() && Scanning() && inPreprocessorDirective == old(inPreprocessorDirective) && old(at) <= at && at > old(at)
      ensures tokens.closed == old(tokens.closed)
      ensures tokens.next == old(tokens.next) + (if power then "**" else "*")
      ensures old(at) < mid <= at && (power <==> buf[mid] == '*')
      ensures power ==> mid < at && (linesBegun == old(linesBegun) ==> preventHollerith == old(preventHollerith))
      ensures !power ==> mid == at && preventHollerith == !slashInCurrentLine
      ensures old(linesBegun) <= linesBegun &&
                (linesBegun == old(linesBegun) ==> delimiterNesting == old(delimiterNesting))
      decreases Mode(), 120
    {
      var c := EmitCharAndAdvance(tokens, '*');
      mid := at;
      if c == '*' {
        c := EmitCharAndAdvance(tokens, '*');
        power := true;
      } else {
        preventHollerith := !slashInCurrentLine;
        power := false;
      }
    }

    /** The bracket count: '(' and '[' open, ')' and ']' close an open one. */
    method CountDelimiter(ch: char)
      requires delimiterNesting >= 0
      modifies this`delimiterNesting
      ensures delimiterNesting == NestingStep(old(delimiterNesting), ch)
    {
      if ch == '(' || ch == '[' {
        delimiterNesting := delimiterNesting + 1;
      } else if (ch == ')' || ch == ']') && delimiterNesting > 0 {
        delimiterNesting := delimiterNesting - 1;
      }
    }

    /**
     * The operator branch of NextToken: a one- or two-character operator or
     * punctuator, counting brackets and noting a '/' on the line.
     */
    method OperatorToken(tokens: TokenSequence) returns (ghost ch: char, ghost nch: char, ghost mid: nat)
      requires Valid() && Scanning() && buf[at] != '\n'
      modifies this`at, this`column, this`nextLine, this`delimiterNesting, this`preventHollerith, this`linesBegun,
               this`inCharLiteral, this`insertASpace, this`tabInCurrentLine, this`slashInCurrentLine,
               this`inPreprocessorDirective, this`omitNewline, this`skipLeadingAmpersand, this`messages, tokens
      ensures Valid() && Scanning() && inPreprocessorDirective == old(inPreprocessorDirective) && old(at) <= at && at > old(at)
      ensures ch == old(buf[at]) && old(at) < mid <= at && nch == buf[mid]
      ensures tokens.closed == old(tokens.closed)
      ensures tokens.next == old(tokens.next) + [ch] + (if TwoCharOperator(ch, nch) then [nch] else [])
      ensures TwoCharOperator(ch, nch) ==> mid < at
      ensures !TwoCharOperator(ch, nch) ==> mid == at && !preventHollerith && (ch == '/' ==> slashInCurrentLine)
      ensures old(linesBegun) <= linesBegun
      ensures linesBegun == old(linesBegun) ==> delimiterNesting == NestingStep(old(delimiterNesting), ch)
      decreases Mode(), 120
    {
      var c := buf[at];
      ch := c;
      CountDelimiter(c);
      var next := EmitCharAndAdvance(tokens, c);
      nch, mid := next, at;
      preventHollerith := false;
      if TwoCharOperator(c, next) {
        var d := EmitCharAndAdvance(tokens, next);
      } else if c == '/' {
        slashInCurrentLine := true;
      }
    }

    /**
     * NextToken: the next token of the line into tokens, or false at the
     * newline.  Fixed-form blanks are skipped; in free form a run of blanks
     * starting at b (after any block comments) becomes one blank token when
     * BlankKept says so and is dropped otherwise.  A blank owed from a
     * continuation is put first; the token proper starts at first.
     */
    method NextToken(tokens: TokenSequence) returns (r: bool, ghost kind: TokenKind, ghost b: nat, ghost first: nat, ghost e: TokenEnd)
      requires Valid() && Scanning()
      modifies this`at, this`column, this`nextLine, this`delimiterNesting, this`preventHollerith, this`linesBegun,
               this`inCharLiteral, this`insertASpace, this`tabInCurrentLine, this`slashInCurrentLine,
               this`inPreprocessorDirective, this`omitNewline, this`skipLeadingAmpersand, this`messages, tokens
      ensures Valid() && Scanning() && inPreprocessorDirective == old(inPreprocessorDirective) && old(at) <= at
      ensures old(linesBegun) <= linesBegun
      ensures old(at) <= b <= first <= at
      ensures InFixedFormSource() ==> b == old(at) && !IsBlank(buf[first]) && !kind.Blank?
      ensures !InFixedFormSource() && !(old(buf[at]) == '/' && old(IsCCommentAt(at))) ==> b == old(at)
      ensures !InFixedFormSource() && IsBlank(buf[b]) ==> b < first && !IsBlank(buf[first])
      ensures !InFixedFormSource() && !IsBlank(buf[b]) ==> first == b
      ensures kind.Blank? <==> !InFixedFormSource() && IsBlank(buf[b]) && BlankKept(buf, b, first, inPreprocessorDirective)
      ensures kind.Blank? ==> at == first && tokens.closed == old(tokens.closed) + [old(tokens.next) + " "] && tokens.next == [] &&
                              (linesBegun == old(linesBegun) ==> preventHollerith == old(preventHollerith))
      ensures !kind.Blank? ==> StartsWith(kind, buf[first])
      ensures PayloadFits(buf, kind, buf[first], e, first, at, old(linesBegun), linesBegun, old(preventHollerith),
                          !inFixedForm && !inPreprocessorDirective)
      ensures linesBegun == old(linesBegun) ==> delimiterNesting == NestingAfter(old(delimiterNesting), kind, buf[first])
      ensures r <==> !kind.EndOfLine?
      ensures r ==> (at > old(at) && tokens.next == [] &&
                     |tokens.closed| == |old(tokens.closed)| + 1 && tokens.closed[..|old(tokens.closed)|] == old(tokens.closed))
      ensures !r ==> buf[at] == '\n' && tokens.closed == old(tokens.closed)
      ensures kind.Name? && !kind.quoted ==> preventHollerith
      ensures kind.Star? ==> preventHollerith == !slashInCurrentLine
      ensures kind.Power? && linesBegun == old(linesBegun) ==> preventHollerith == old(preventHollerith)
      ensures (kind.CharLiteral? || kind.Number? || kind.Dot? || (kind.Name? && kind.quoted) ||
               (kind.Operator? && !kind.paired)) ==> !preventHollerith
      decreases Mode(), 130
    {
      b := at;
      if InFixedFormSource() {
        SkipSpaces();
      } else {
        var squeezed;
        squeezed, b := FreeFormBlanks(tokens);
        if squeezed {
          return true, Blank, b, at, TokenEnd(0, 0, [], 0, false);
        }
      }
      first := at;
      r, kind, e := TokenAfterBlanks(tokens);
    }

    /**
     * The rest of NextToken once blanks are dealt with: the owed blank, then
     * the token that starts at the cursor, or the end of the line.
     */
    method TokenAfterBlanks(tokens: TokenSequence) returns (r: bool, ghost kind: TokenKind, ghost e: TokenEnd)
      requires Valid() && Scanning()
      modifies this`at, this`column, this`nextLine, this`delimiterNesting, this`preventHollerith, this`linesBegun,
               this`inCharLiteral, this`insertASpace, this`tabInCurrentLine, this`slashInCurrentLine,
               this`inPreprocessorDirective, this`omitNewline, this`skipLeadingAmpersand, this`messages, tokens
      ensures Valid() && Scanning() && inPreprocessorDirective == old(inPreprocessorDirective) && old(at) <= at
      ensures old(linesBegun) <= linesBegun
      ensures PayloadFits(buf, kind, old(buf[at]), e, old(at), at, old(linesBegun), linesBegun, old(preventHollerith),
                          !inFixedForm && !inPreprocessorDirective)
      ensures linesBegun == old(linesBegun) ==> delimiterNesting == NestingAfter(old(delimiterNesting), kind, old(buf[at]))
      ensures r <==> !kind.EndOfLine?
      ensures !kind.Blank? && StartsWith(kind, old(buf[at]))
      ensures r ==> at > old(at) && tokens.next == [] && |tokens.closed| == |old(tokens.closed)| + 1 &&
                    tokens.closed[..|old(tokens.closed)|] == old(tokens.closed)
      ensures r ==> var lead := old(tokens.next) + (if old(insertASpace) then " " else "");
                    var t := tokens.closed[|old(tokens.closed)|];
                    |t| > |lead| && t[..|lead| + 1] == lead + [old(buf[at])]
      ensures !r ==> buf[at] == '\n' && tokens.closed == old(tokens.closed)
      ensures kind.Name? && !kind.quoted ==> preventHollerith
      ensures kind.Star? ==> preventHollerith == !slashInCurrentLine
      ensures kind.Power? && linesBegun == old(linesBegun) ==> preventHollerith == old(preventHollerith)
      ensures (kind.CharLiteral? || kind.Number? || kind.Dot? || (kind.Name? && kind.quoted) ||
               (kind.Operator? && !kind.paired)) ==> !preventHollerith
      decreases Mode(), 128
    {
      if insertASpace {
        tokens.PutNextTokenChar(' ');
        insertASpace := false;
      }
      if buf[at] == '\n' {
        return false, EndOfLine, TokenEnd(0, 0, [], 0, false);
      }
      kind, e := TokenBody(tokens);
      tokens.CloseToken();
      return true, kind, e;
    }

    /**
     * The free-form start of NextToken: block comments are skipped, and the
     * run of blanks that then starts at b becomes one blank token when
     * BlankKept says so; otherwise it is dropped.
     */
    method FreeFormBlanks(tokens: TokenSequence) returns (squeezed: bool, ghost b: nat)
      requires Valid() && Scanning()
      modifies this`at, this`column, this`nextLine, this`delimiterNesting, this`preventHollerith, this`linesBegun,
               this`inCharLiteral, this`insertASpace, this`tabInCurrentLine, this`slashInCurrentLine,
               this`inPreprocessorDirective, this`omitNewline, this`skipLeadingAmpersand, this`messages, tokens
      ensures Valid() && Scanning() && inPreprocessorDirective == old(inPreprocessorDirective) && old(at) <= at
      ensures old(linesBegun) <= linesBegun &&
                (linesBegun == old(linesBegun) ==> preventHollerith == old(preventHollerith) && delimiterNesting == old(delimiterNesting))
      ensures old(at) <= b <= at
      ensures !(old(buf[at]) == '/' && old(IsCCommentAt(at))) ==> b == old(at)
      ensures IsBlank(buf[b]) ==> b < at && !IsBlank(buf[at])
      ensures !IsBlank(buf[b]) ==> at == b
      ensures squeezed <==> IsBlank(buf[b]) && BlankKept(buf, b, at, inPreprocessorDirective)
      ensures squeezed ==> tokens.closed == old(tokens.closed) + [old(tokens.next) + " "] && tokens.next == []
      ensures !squeezed ==> tokens.closed == old(tokens.closed) && tokens.next == old(tokens.next)
      decreases Mode(), 125
    {
      if buf[at] == '/' && IsCCommentAt(at) {
        if features.warnClassicCComments {
          Say(at, at, "nonstandard usage: C-style comment", false);
        }
        SkipCComments();
      }
      b := at;
      squeezed := SqueezeBlanks(tokens);
    }

    /**
     * A run of blanks at the cursor: skipped, and kept as one blank token
     * exactly when BlankKept holds for the character that follows it.
     */
    method SqueezeBlanks(tokens: TokenSequence) returns (squeezed: bool)
      requires Valid() && Scanning()
      modifies this`at, this`column, this`nextLine, this`delimiterNesting, this`preventHollerith, this`linesBegun,
               this`inCharLiteral, this`insertASpace, this`tabInCurrentLine, this`slashInCurrentLine,
               this`inPreprocessorDirective, this`omitNewline, this`skipLeadingAmpersand, this`messages, tokens
      ensures Valid() && Scanning() && inPreprocessorDirective == old(inPreprocessorDirective) && old(at) <= at
      ensures old(linesBegun) <= linesBegun &&
                (linesBegun == old(linesBegun) ==> preventHollerith == old(preventHollerith) && delimiterNesting == old(delimiterNesting))
      ensures IsBlank(old(buf[at])) ==> old(at) < at && !IsBlank(buf[at])
      ensures !IsBlank(old(buf[at])) ==> at == old(at)
      ensures squeezed <==> IsBlank(old(buf[at])) && BlankKept(buf, old(at), at, inPreprocessorDirective)
      ensures squeezed ==> tokens.closed == old(tokens.closed) + [old(tokens.next) + " "] && tokens.next == []
      ensures !squeezed ==> tokens.closed == old(tokens.closed) && tokens.next == old(tokens.next)
      decreases Mode(), 124
    {
      if IsBlank(buf[at]) {
        var previous := if at == 0 then ' ' else buf[at - 1];
        NextChar();
        SkipSpaces();
        if buf[at] == '\n' {
        } else if !inPreprocessorDirective && (previous == '(' || buf[at] == '(' || buf[at] == ')') {
        } else {
          tokens.PutNextTokenChar(' ');
          tokens.CloseToken();
          return true;
        }
      }
      return false;
    }

    /** The token that starts at the cursor, by its first character, into the open token. */
    method TokenBody(tokens: TokenSequence) returns (ghost kind: TokenKind, ghost e: TokenEnd)
      requires Valid() && Scanning() && buf[at] != '\n'
      modifies this`at, this`column, this`nextLine, this`delimiterNesting, this`preventHollerith, this`linesBegun,
               this`inCharLiteral, this`insertASpace, this`tabInCurrentLine, this`slashInCurrentLine,
               this`inPreprocessorDirective, this`omitNewline, this`skipLeadingAmpersand, this`messages, tokens
      ensures Valid() && Scanning() && inPreprocessorDirective == old(inPreprocessorDirective) && old(at) <= at && at > old(at)
      ensures old(linesBegun) <= linesBegun
      ensures PayloadFits(buf, kind, old(buf[at]), e, old(at), at, old(linesBegun), linesBegun, old(preventHollerith),
                          !inFixedForm && !inPreprocessorDirective)
      ensures linesBegun == old(linesBegun) ==> delimiterNesting == NestingAfter(old(delimiterNesting), kind, old(buf[at]))
      ensures !kind.EndOfLine? && !kind.Blank? && StartsWith(kind, old(buf[at]))
      ensures tokens.closed == old(tokens.closed)
      ensures |tokens.next| > |old(tokens.next)| && tokens.next[..|old(tokens.next)| + 1] == old(tokens.next) + [old(buf[at])]
      ensures kind.Name? && !kind.quoted ==> preventHollerith
      ensures kind.Star? ==> preventHollerith == !slashInCurrentLine
      ensures kind.Power? && linesBegun == old(linesBegun) ==> preventHollerith == old(preventHollerith)
      ensures (kind.CharLiteral? || kind.Number? || kind.Dot? || (kind.Name? && kind.quoted) ||
               (kind.Operator? && !kind.paired)) ==> !preventHollerith
      decreases Mode(), 125
    {
      var start := at;
      e := TokenEnd(0, 0, [], 0, false);
      if IsQuote(buf[at]) {
        QuotedCharacterLiteral(tokens, start);
        preventHollerith := false;
        kind := CharLiteral;
      } else if IsDecimalDigit(buf[at]) {
        ghost var digits: string, q: nat, begun: nat, prevented: bool, hollerith: bool;
        digits, q, begun, prevented, hollerith := NumberToken(tokens, start);
        kind, e := Number(hollerith), TokenEnd(q, 0, digits, begun, prevented);
      } else if buf[at] == '.' {
        DotToken(tokens);
        kind := Dot;
      } else if IsLegalInIdentifier(buf[at]) {
        ghost var quoted: bool, q: nat;
        quoted, q := NameToken(tokens, start);
        kind, e := Name(quoted), TokenEnd(q, 0, [], 0, false);
      } else if buf[at] == '*' {
        var power;
        ghost var mid: nat;
        power, mid := StarToken(tokens);
        kind, e := if power then Power else Star, TokenEnd(0, mid, [], 0, false);
      } else {
        ghost var ch: char, nch: char, mid: nat;
        ch, nch, mid := OperatorToken(tokens);
        kind, e := Operator(TwoCharOperator(ch, nch)), TokenEnd(0, mid, [], 0, false);
      }
    }
  }
}
