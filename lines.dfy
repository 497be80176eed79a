// Positions in a source buffer.  The prescanner dereferences its cursor
// without bounds checks and relies on every line, the last one included,
// ending in a newline: a buffer here is a string whose last character is
// '\n', and a cursor is an index into it.

module Lines {
  import opened Chars

  predicate WellFormed(buf: string)
  {
    |buf| > 0 && buf[|buf| - 1] == '\n'
  }

  /** The newline that ends the line holding position i. */
  function LineEnd(buf: string, i: nat): (e: nat)
    requires WellFormed(buf) && i < |buf|
    ensures i <= e < |buf| && buf[e] == '\n'
    ensures forall k :: i <= k < e ==> buf[k] != '\n'
    decreases |buf| - i
  {
    if buf[i] == '\n' then i else LineEnd(buf, i + 1)
  }

  /** Every character of buf[a..b] is a blank or a tab. */
  ghost predicate AllBlank(buf: string, a: nat, b: nat)
    requires b <= |buf|
  {
    forall k :: a <= k < b ==> IsBlank(buf[k])
  }

  /** The first position at or after i that holds neither a blank nor a tab. */
  function SkipWhite(buf: string, i: nat): (j: nat)
    requires WellFormed(buf) && i < |buf|
    ensures i <= j < |buf| && !IsBlank(buf[j])
    ensures forall k :: i <= k < j ==> IsBlank(buf[k])
    decreases |buf| - i
  {
    if IsBlank(buf[i]) then SkipWhite(buf, i + 1) else i
  }

  /** SkipWhite is fixed by its contract: a blank run ending at j. */
  lemma SkipWhiteUnique(buf: string, i: nat, j: nat)
    requires WellFormed(buf) && i <= j < |buf|
    requires forall k :: i <= k < j ==> IsBlank(buf[k])
    requires !IsBlank(buf[j])
    ensures SkipWhite(buf, i) == j
  {
  }

  /** The first position at or after i that is not a blank (tabs stop it). */
  function SkipSpaceChars(buf: string, i: nat): (j: nat)
    requires WellFormed(buf) && i < |buf|
    ensures i <= j < |buf| && buf[j] != ' '
    ensures forall k :: i <= k < j ==> buf[k] == ' '
    decreases |buf| - i
  {
    if buf[i] == ' ' then SkipSpaceChars(buf, i + 1) else i
  }

  /** The word w stands at position i of the buffer. */
  predicate HasPrefixAt(buf: string, i: nat, w: string)
  {
    i + |w| <= |buf| && buf[i..i + |w|] == w
  }

  predicate IsQuote(c: char) { c == '\'' || c == '"' }

  // ---------------------------------------------------------------------
  // C-style block comments

  /** The two characters just before position q are the "*" and "/" that close a block comment. */
  predicate ClosesAt(buf: string, q: nat)
  {
    2 <= q <= |buf| && buf[q - 2] == '*' && buf[q - 1] == '/'
  }

  /** The first position q >= from where a block comment closes. */
  function FirstCloseFrom(buf: string, from: nat): (r: Option<nat>)
    requires 2 <= from
    ensures r.Some? ==> from <= r.value <= |buf| && ClosesAt(buf, r.value)
    ensures r.Some? ==> forall q :: from <= q < r.value ==> !ClosesAt(buf, q)
    ensures r.None? ==> forall q :: from <= q <= |buf| ==> !ClosesAt(buf, q)
    decreases |buf| + 1 - from
  {
    if from > |buf| then None
    else if ClosesAt(buf, from) then Some(from)
    else FirstCloseFrom(buf, from + 1)
  }

  // Where scanning resumes after the block comment whose opening slash and
  // star stand at p: just past the first star-slash pair that does not reuse
  // the opening star.  None when the comment is not closed before the end of
  // the buffer.
  function CCommentEnd(buf: string, p: nat): (r: Option<nat>)
  {
    FirstCloseFrom(buf, p + 4)
  }

  /** A closed block comment always ends before the buffer's final newline. */
  lemma CCommentEndInside(buf: string, p: nat)
    requires WellFormed(buf)
    requires CCommentEnd(buf, p).Some?
    ensures CCommentEnd(buf, p).value < |buf|
  {
  }

  datatype LineConfig = LineConfig(
    fixedForm: bool,
    columnLimit: nat,
    oldDebugLines: bool,
    classicCComments: bool,
    inCharLiteral: bool,
    inPreprocessorDirective: bool,
    sentinels: set<string>)

  // A slash and a star at p open a block comment in the current scanning mode.
  predicate IsCComment(buf: string, p: nat, cfg: LineConfig)
  {
    p + 1 < |buf| && buf[p] == '/' && buf[p + 1] == '*' &&
    (cfg.inPreprocessorDirective || (!cfg.inCharLiteral && cfg.classicCComments))
  }

  /** Skips blanks, tabs and closed block comments from p. */
  function SkipWhiteAndCComments(buf: string, p: nat, cfg: LineConfig): (r: nat)
    requires WellFormed(buf) && p < |buf|
    ensures p <= r < |buf| && !IsBlank(buf[r])
    ensures IsCComment(buf, r, cfg) ==> CCommentEnd(buf, r).None?
    decreases |buf| - p
  {
    if IsBlank(buf[p]) then SkipWhiteAndCComments(buf, p + 1, cfg)
    else if IsCComment(buf, p, cfg) && CCommentEnd(buf, p).Some? then
      CCommentEndInside(buf, p);
      SkipWhiteAndCComments(buf, CCommentEnd(buf, p).value, cfg)
    else p
  }

  // ---------------------------------------------------------------------
  // Line classification

  datatype LineKind =
    | Comment
    | IncludeLine
    | ConditionalCompilationDirective
    | IncludeDirective
    | DefinitionDirective
    | PreprocessorDirective
    | CompilerDirective
    | Source

  datatype LineClassification = LineClassification(kind: LineKind, payloadOffset: nat, sentinel: Option<string>)

  function Plain(kind: LineKind): LineClassification
  {
    LineClassification(kind, 0, None)
  }

  /**
   * The registry recognises a candidate sentinel: the candidate, read as a C
   * string, is non-empty and registered.
   */
  predicate IsRegistered(s: string, sentinels: set<string>)
  {
    CString(s) != [] && CString(s) in sentinels
  }

  /** The loop over columns 2-5 of a fixed-form line collecting a directive sentinel. */
  function FixedSentinelScan(buf: string, start: nat, column: nat, s: string): (r: (nat, string))
    requires WellFormed(buf) && 2 <= column <= 6 && start + column - 1 < |buf|
    requires forall k :: start + 1 <= k < start + column - 1 ==> buf[k] != '\n'
    ensures column <= r.0 <= 6 && start + r.0 - 1 < |buf|
    ensures |r.1| <= |s| + (r.0 - column)
    ensures IsLowerCase(s) ==> IsLowerCase(r.1)
    ensures forall k :: start + 1 <= k < start + r.0 - 1 ==> buf[k] != '\n'
    decreases 6 - column
  {
    var p := start + column - 1;
    if column == 6 then (column, s)
    else if buf[p] == ' ' then FixedSentinelScan(buf, start, column + 1, s)
    else if buf[p] == '\n' || buf[p] == '\t' then (column, s)
    else if |s| == 1 && s[0] == '$' && IsDecimalDigit(buf[p]) then (column, s)
    else FixedSentinelScan(buf, start, column + 1, s + [ToLowerCaseLetter(buf[p])])
  }

  function IsFixedFormCompilerDirectiveLine(buf: string, start: nat, cfg: LineConfig): (r: Option<LineClassification>)
    requires WellFormed(buf) && start < |buf|
    ensures r.Some? ==> IsFixedFormCommentChar(buf[start])
    ensures r.Some? ==> r.value.kind == CompilerDirective && r.value.sentinel.Some?
    ensures r.Some? ==> r.value.sentinel.value in cfg.sentinels && r.value.sentinel.value != []
    ensures r.Some? ==> |r.value.sentinel.value| <= 4 && start + r.value.payloadOffset < |buf|
  {
    if !IsFixedFormCommentChar(buf[start]) then None
    else
      var scan := FixedSentinelScan(buf, start, 2, []);
      var column := scan.0;
      var s := scan.1;
      var p := start + column - 1;
      if column == 6 && !(buf[p] == ' ' || buf[p] == '\t' || buf[p] == '0') then None
      else
        var payload := if column == 6 then p + 1 else p;
        if s == [] then None
        else if IsRegistered(s, cfg.sentinels) then Some(LineClassification(CompilerDirective, payload - start, Some(CString(s))))
        else None
  }

  /** The blank run of a fixed-form line: blanks, tabs, and a '0' in column 6 when no tab came first. */
  function FixedBlankEnd(buf: string, start: nat, p: nat, tabs: bool): (r: (nat, bool))
    requires WellFormed(buf) && start <= p < |buf|
    ensures p <= r.0 < |buf| && (tabs ==> r.1)
    ensures buf[r.0] != ' ' && buf[r.0] != '\t'
    ensures !(buf[r.0] == '0' && !r.1 && r.0 == start + 5)
    decreases |buf| - p
  {
    if buf[p] == ' ' then FixedBlankEnd(buf, start, p + 1, tabs)
    else if buf[p] == '\t' then FixedBlankEnd(buf, start, p + 1, true)
    else if buf[p] == '0' && !tabs && p == start + 5 then FixedBlankEnd(buf, start, p + 1, tabs)
    else (p, tabs)
  }

  predicate IsFixedFormCommentLine(buf: string, start: nat, cfg: LineConfig)
    requires WellFormed(buf) && start < |buf|
  {
    var c := buf[start];
    if IsFixedFormCommentChar(c) || c == '%' || ((c == 'D' || c == 'd') && !cfg.oldDebugLines) then true
    else
      var blank := FixedBlankEnd(buf, start, start, false);
      var p := blank.0;
      var tabs := blank.1;
      if !tabs && p >= start + cfg.columnLimit then true
      else if buf[p] == '!' && !cfg.inCharLiteral && (tabs || p != start + 5) then true
      else buf[p] == '\n'
  }

  /** After blanks and block comments, a free-form line holds only a '!' comment or nothing. */
  function IsFreeFormComment(buf: string, p: nat, cfg: LineConfig): (r: Option<nat>)
    requires WellFormed(buf) && p < |buf|
    ensures r.Some? ==> p <= r.value < |buf| && (buf[r.value] == '!' || buf[r.value] == '\n')
  {
    var q := SkipWhiteAndCComments(buf, p, cfg);
    if buf[q] == '!' || buf[q] == '\n' then Some(q) else None
  }

  /** The end of a free-form sentinel word: the first newline, blank, tab or '&' from i. */
  function WordEnd(buf: string, i: nat): (e: nat)
    requires WellFormed(buf) && i < |buf|
    ensures i <= e < |buf| && IsWordStop(buf[e])
    ensures forall k :: i <= k < e ==> !IsWordStop(buf[k])
    decreases |buf| - i
  {
    if IsWordStop(buf[i]) then i else WordEnd(buf, i + 1)
  }

  predicate IsWordStop(c: char) { c == '\n' || c == ' ' || c == '\t' || c == '&' }

  /**
   * A free-form directive line: optional blanks, '!', a sentinel word of one
   * to six characters ended by a blank, tab or '&', and then anything but
   * another '!' as the next non-blank character.  The sentinel is the word
   * case-folded, and it must be registered.
   */
  function IsFreeFormCompilerDirectiveLine(buf: string, start: nat, cfg: LineConfig): (r: Option<LineClassification>)
    requires WellFormed(buf) && start < |buf|
    ensures r.Some? ==> r.value.kind == CompilerDirective && r.value.sentinel.Some?
    ensures r.Some? ==> r.value.sentinel.value in cfg.sentinels
    ensures r.Some? ==> start + r.value.payloadOffset < |buf|
  {
    var b := SkipWhite(buf, start);
    if buf[b] != '!' then None
    else
      var w := b + 1;
      var e := WordEnd(buf, w);
      if e == w || e - w > 6 || buf[e] == '\n' then None
      else FreeDirectiveAfterWord(buf, start, e, ToLower(buf[w..e]), cfg)
  }

  /**
   * The end of the free-form directive test once the sentinel word s ends at
   * e: no second '!' may follow, and s must be registered.
   */
  function FreeDirectiveAfterWord(buf: string, start: nat, e: nat, s: string, cfg: LineConfig): (r: Option<LineClassification>)
    requires WellFormed(buf) && start <= e && e + 1 < |buf|
    ensures r.Some? ==> r.value.kind == CompilerDirective && r.value.sentinel.Some?
    ensures r.Some? ==> r.value.sentinel.value in cfg.sentinels
    ensures r.Some? ==> start + r.value.payloadOffset < |buf|
  {
    var q := SkipWhite(buf, e + 1);
    if buf[q] == '!' then None
    else if IsRegistered(s, cfg.sentinels) then Some(LineClassification(CompilerDirective, q - start, Some(CString(s))))
    else None
  }

  /** An INCLUDE line: the offset of the quote that opens its path. */
  function IsIncludeLine(buf: string, start: nat): (r: Option<nat>)
    requires WellFormed(buf) && start < |buf|
    ensures r.Some? ==> start + r.value < |buf| && IsQuote(buf[start + r.value])
  {
    var p := SkipWhite(buf, start);
    if p + 7 <= |buf| && ToLower(buf[p..p + 7]) == "include" then
      assert buf[p + 6] != '\n';
      var q := SkipWhite(buf, p + 7);
      if IsQuote(buf[q]) then Some(q - start) else None
    else None
  }

  /** A '#' line: the position of the directive name after '#' and blanks. */
  function IsPreprocessorDirectiveLine(buf: string, start: nat, cfg: LineConfig): (r: Option<nat>)
    requires WellFormed(buf) && start < |buf|
    ensures r.Some? ==> start < r.value < |buf| && !IsBlank(buf[r.value])
  {
    var p := SkipSpaceChars(buf, start);
    if buf[p] == '#' then
      if cfg.fixedForm && p == start + 5 then None else Some(SkipWhite(buf, p + 1))
    else
      var q := SkipWhite(buf, p);
      if buf[q] != '#' then None else Some(SkipWhite(buf, q + 1))
  }

  /** The kind of a '#' line, by the prefix of its directive name. */
  function DirectiveKind(buf: string, d: nat): LineKind
  {
    if HasPrefixAt(buf, d, "if") || HasPrefixAt(buf, d, "elif") ||
       HasPrefixAt(buf, d, "else") || HasPrefixAt(buf, d, "endif") then ConditionalCompilationDirective
    else if HasPrefixAt(buf, d, "include") then IncludeDirective
    else if HasPrefixAt(buf, d, "define") || HasPrefixAt(buf, d, "undef") then DefinitionDirective
    else PreprocessorDirective
  }

  /** INCLUDE line, then '#' line, then ordinary source. */
  function ClassifyRest(buf: string, start: nat, cfg: LineConfig): LineClassification
    requires WellFormed(buf) && start < |buf|
  {
    match IsIncludeLine(buf, start)
    case Some(q) => LineClassification(IncludeLine, q, None)
    case None =>
      match IsPreprocessorDirectiveLine(buf, start, cfg)
      case Some(d) => Plain(DirectiveKind(buf, d))
      case None => Plain(Source)
  }

  /** The classification of the physical line that starts at start. */
  function ClassifyLine(buf: string, start: nat, cfg: LineConfig): LineClassification
    requires WellFormed(buf) && start < |buf|
  {
    if cfg.fixedForm then
      match IsFixedFormCompilerDirectiveLine(buf, start, cfg)
      case Some(lc) => lc
      case None =>
        if IsFixedFormCommentLine(buf, start, cfg) then Plain(Comment) else ClassifyRest(buf, start, cfg)
    else
      match IsFreeFormCompilerDirectiveLine(buf, start, cfg)
      case Some(lc) => lc
      case None =>
        match IsFreeFormComment(buf, start, cfg)
        case Some(bang) => LineClassification(Comment, bang - start, None)
        case None => ClassifyRest(buf, start, cfg)
  }
}
