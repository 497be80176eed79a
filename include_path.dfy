// The quoted path of an INCLUDE line (the path-parsing half of
// FortranInclude), and the quoting that it undoes.

module IncludePaths {
  import opened Chars
  import opened Lines

  /**
   * The path read after an opening quote: either the path and the position of
   * its closing quote, or the newline reached first.
   */
  datatype PathScan = Malformed(at: nat) | Closed(path: string, closing: nat)

  function Prepend(c: char, r: PathScan): PathScan
  {
    match r
    case Malformed(at) => Malformed(at)
    case Closed(path, closing) => Closed([c] + path, closing)
  }

  /**
   * Reads the path from position i, just after the opening quote: a doubled
   * quote stands for one quote character, a single quote closes the path,
   * and a newline before it leaves the path malformed.
   */
  function ScanPath(buf: string, i: nat, quote: char): (r: PathScan)
    requires WellFormed(buf) && i < |buf| && quote != '\n'
    ensures r.Malformed? ==> i <= r.at < |buf| && buf[r.at] == '\n'
    ensures r.Closed? ==> i <= r.closing < |buf| - 1 && buf[r.closing] == quote && buf[r.closing + 1] != quote
    ensures r.Closed? ==> forall k :: i <= k <= r.closing ==> buf[k] != '\n'
    ensures r.Closed? ==> '\n' !in r.path && |r.path| <= r.closing - i
    decreases |buf| - i
  {
    if buf[i] == '\n' then Malformed(i)
    else if buf[i] == quote then
      if buf[i + 1] != quote then Closed([], i)
      else Prepend(quote, ScanPath(buf, i + 2, quote))
    else Prepend(buf[i], ScanPath(buf, i + 1, quote))
  }

  /** The scan r with s put in front of its path: the path collected before position i. */
  function PrependAll(s: string, r: PathScan): PathScan
  {
    match r
    case Malformed(at) => Malformed(at)
    case Closed(path, closing) => Closed(s + path, closing)
  }

  lemma PrependAllSnoc(s: string, c: char, r: PathScan)
    ensures PrependAll(s, Prepend(c, r)) == PrependAll(s + [c], r)
  {
    if r.Closed? {
      assert s + ([c] + r.path) == (s + [c]) + r.path;
    }
  }

  /** How a path is written between quotes: every quote character doubled. */
  function Escape(path: string, quote: char): (w: string)
    ensures |w| >= |path|
  {
    if path == [] then []
    else (if path[0] == quote then [quote, quote] else [path[0]]) + Escape(path[1..], quote)
  }

  /**
   * Round trip: a path written with its quotes doubled, followed by a single
   * closing quote, reads back as exactly that path.
   */
  lemma {:induction false} ScanEscaped(buf: string, i: nat, quote: char, path: string)
    requires WellFormed(buf) && quote != '\n' && '\n' !in path
    requires i + |Escape(path, quote)| + 1 < |buf|
    requires buf[i..i + |Escape(path, quote)|] == Escape(path, quote)
    requires buf[i + |Escape(path, quote)|] == quote && buf[i + |Escape(path, quote)| + 1] != quote
    ensures ScanPath(buf, i, quote) == Closed(path, i + |Escape(path, quote)|)
    decreases |path|
  {
    var w := Escape(path, quote);
    if path != [] {
      var head := if path[0] == quote then [quote, quote] else [path[0]];
      var rest := Escape(path[1..], quote);
      var j := i + |head|;
      assert j + |rest| == i + |w| && buf[j..j + |rest|] == rest by {
        assert w == head + rest;
        assert buf[i..i + |w|][|head|..] == rest;
      }
      ScanEscaped(buf, j, quote, path[1..]);
      assert ScanPath(buf, i, quote) == Prepend(path[0], ScanPath(buf, j, quote)) by {
        assert w == head + rest;
        assert buf[i] == w[0] == head[0];
        assert path[0] in path;
        if path[0] == quote {
          assert buf[i + 1] == w[1];
        }
      }
      HeadTail(path);
    }
  }

  /** A non-empty string is its first character followed by the rest. */
  lemma HeadTail(s: string)
    requires s != []
    ensures [s[0]] + s[1..] == s
  {
  }

  /** The first quote character at or after p (FortranInclude is handed the opening quote). */
  function FirstQuote(buf: string, p: nat): (q: nat)
    requires p <= |buf| && exists k :: p <= k < |buf| && IsQuote(buf[k])
    ensures p <= q < |buf| && IsQuote(buf[q])
    ensures forall k :: p <= k < q ==> !IsQuote(buf[k])
    decreases |buf| - p
  {
    if IsQuote(buf[p]) then p else FirstQuote(buf, p + 1)
  }

  /** What FortranInclude makes of the text after INCLUDE. */
  datatype IncludeParse =
    | MalformedPath(from: nat, to: nat)
    | IncludePath(path: string, garbage: nat, end: nat)

  /**
   * A malformed path when the newline comes before the closing quote; otherwise
   * the path, the first non-blank position after the closing quote, and the
   * position (a newline or '!') where the statement ends.  Characters other
   * than blanks and a '!' comment follow the path exactly when garbage < end.
   */
  function ParseInclude(buf: string, firstQuote: nat): (r: IncludeParse)
    requires WellFormed(buf) && firstQuote <= |buf|
    requires exists k :: firstQuote <= k < |buf| && IsQuote(buf[k])
    ensures r.MalformedPath? ==> r.from == firstQuote && firstQuote <= r.to < |buf| && buf[r.to] == '\n'
    ensures r.IncludePath? ==> '\n' !in r.path && r.garbage <= r.end < |buf| && (buf[r.end] == '\n' || buf[r.end] == '!')
    ensures r.IncludePath? ==> forall k :: r.garbage <= k < r.end ==> buf[k] != '\n' && buf[k] != '!'
    ensures var q := FirstQuote(buf, firstQuote); var scan := ScanPath(buf, q + 1, buf[q]);
      (r.IncludePath? <==> scan.Closed?) && (r.IncludePath? ==> r.path == scan.path)
  {
    var q := FirstQuote(buf, firstQuote);
    assert buf[q] != '\n';
    match ScanPath(buf, q + 1, buf[q])
    case Malformed(at) => MalformedPath(firstQuote, at)
    case Closed(path, closing) =>
      var p := SkipWhite(buf, closing + 1);
      if buf[p] == '\n' || buf[p] == '!' then IncludePath(path, p, p)
      else IncludePath(path, p, StatementEnd(buf, p))
  }

  /** The first newline or '!' at or after p. */
  function StatementEnd(buf: string, p: nat): (e: nat)
    requires WellFormed(buf) && p < |buf|
    ensures p <= e < |buf| && (buf[e] == '\n' || buf[e] == '!')
    ensures forall k :: p <= k < e ==> buf[k] != '\n' && buf[k] != '!'
    decreases |buf| - p
  {
    if buf[p] == '\n' || buf[p] == '!' then p else StatementEnd(buf, p + 1)
  }
}
