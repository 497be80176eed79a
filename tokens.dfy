// The token sequence the prescanner fills: closed tokens plus the characters
// of the token still being built.  Provenance is not modelled.

module Tokens {

  class TokenSequence {
    /** The tokens closed so far, in order. */
    var closed: seq<string>
    /** The characters put since the last CloseToken. */
    var next: string

    constructor ()
      ensures closed == [] && next == []
    {
      closed := [];
      next := [];
    }

    /** All characters of the sequence, the open token included. */
    function Text(): (t: string)
      reads this
      ensures |t| >= |next|
    {
      Concat(closed) + next
    }

    /** PutNextTokenChar: one more character for the open token. */
    method PutNextTokenChar(c: char)
      modifies this
      ensures closed == old(closed) && next == old(next) + [c]
      ensures Text() == old(Text()) + [c]
    {
      next := next + [c];
    }

    /** CloseToken: the open token, possibly empty, becomes the last closed one. */
    method CloseToken()
      modifies this
      ensures closed == old(closed) + [old(next)] && next == []
      ensures Text() == old(Text())
    {
      ConcatSnoc(closed, next);
      closed := closed + [next];
      next := [];
    }

    /** Put: the characters of s, then CloseToken. */
    method Put(s: string)
      modifies this
      ensures closed == old(closed) + [old(next) + s] && next == []
      ensures Text() == old(Text()) + s
    {
      var i := 0;
      while i < |s|
        invariant 0 <= i <= |s|
        invariant closed == old(closed) && next == old(next) + s[..i]
      {
        PutNextTokenChar(s[i]);
        assert s[..i + 1] == s[..i] + [s[i]];
        i := i + 1;
      }
      assert s[..i] == s;
      CloseToken();
    }
  }

  function Concat(ts: seq<string>): (s: string)
  {
    if ts == [] then [] else Concat(ts[..|ts| - 1]) + ts[|ts| - 1]
  }

  lemma ConcatSnoc(ts: seq<string>, t: string)
    ensures Concat(ts + [t]) == Concat(ts) + t
  {
    assert (ts + [t])[..|ts|] == ts;
  }

  /** n blanks. */
  function Spaces(n: nat): (s: string)
    ensures |s| == n && forall i :: 0 <= i < n ==> s[i] == ' '
  {
    seq(n, _ => ' ')
  }
}
