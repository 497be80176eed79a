// The registry of compiler-directive sentinels: a two-hash Bloom filter in
// front of an exact set (AddCompilerDirectiveSentinel and
// IsCompilerDirectiveSentinel in prescan.cc).

module Sentinels {
  import opened Chars

  // The two moduli and the bitset size are declared in the prescanner's
  // header, which is not part of this model; these are the upstream values.
  // The proofs rely only on Prime1 != Prime2 and both fitting the bitset.
  const Prime1: nat := 1019
  const Prime2: nat := 1021
  const BloomBits: nat := Prime2

  /** 2^64: the packed key is a std::uint64_t. */
  const Word: nat := 0x1_0000_0000_0000_0000

  /** The low byte of a character, as `ch & 0xff` takes it. */
  function Byte(c: char): (b: nat)
    ensures b < 256
  {
    (c as int) % 256
  }

  /** The key of a string: its bytes shifted in from the right, wrapping at 64 bits. */
  function Pack(s: string): (k: nat)
    ensures k < Word
  {
    if s == [] then 0 else (Pack(s[..|s| - 1]) * 256 + Byte(s[|s| - 1])) % Word
  }

  /** One more byte shifted into a key: `(packed << 8) | byte` on 64-bit unsigned integers. */
  function ShiftIn(packed: nat, b: nat): nat
  {
    (packed * 256 + b) % Word
  }

  lemma PackSnoc(s: string, c: char)
    ensures Pack(s + [c]) == ShiftIn(Pack(s), Byte(c))
  {
    assert (s + [c])[..|s|] == s;
  }

  function Bit1(s: string): (i: nat)
    ensures i < BloomBits
  {
    Pack(s) % Prime1
  }

  function Bit2(s: string): (i: nat)
    ensures i < BloomBits
  {
    Pack(s) % Prime2
  }

  class SentinelRegistry {
    /** The Bloom filter's bitset. */
    var bloom: array<bool>
    /** The exact set of registered sentinels, as they were given. */
    var sentinels: set<string>

    /** Both bits of the case-folded key of s are set. */
    predicate Marked(s: string)
      reads this, bloom
      requires bloom.Length == BloomBits
    {
      bloom[Bit1(ToLower(s))] && bloom[Bit2(ToLower(s))]
    }

    /** The two bits of key s are set: the filter lets s through to the exact set. */
    predicate Probed(s: string)
      reads this, bloom
      requires bloom.Length == BloomBits
    {
      bloom[Bit1(s)] && bloom[Bit2(s)]
    }

    /** Every registered sentinel has its two bits set: the filter has no false negatives. */
    ghost predicate Valid()
      reads this, bloom
    {
      bloom.Length == BloomBits &&
      forall s :: s in sentinels ==> Marked(s)
    }

    constructor ()
      ensures Valid() && fresh(bloom) && sentinels == {}
      ensures forall i :: 0 <= i < bloom.Length ==> !bloom[i]
    {
      bloom := new bool[BloomBits](_ => false);
      sentinels := {};
    }

    /** The copy a nested prescanner receives: same bits, same set. */
    constructor Copy(that: SentinelRegistry)
      requires that.Valid()
      ensures Valid() && fresh(bloom)
      ensures sentinels == that.sentinels && bloom[..] == that.bloom[..]
    {
      bloom := new bool[BloomBits](i reads that, that.bloom => if 0 <= i < that.bloom.Length then that.bloom[i] else false);
      sentinels := that.sentinels;
      new;
      assert forall s :: s in sentinels ==> that.Marked(s);
    }

    /** AddCompilerDirectiveSentinel: sets the two bits of the case-folded key and records the tag. */
    method Add(dir: string)
      requires Valid()
      modifies this, bloom
      ensures Valid() && bloom == old(bloom)
      ensures sentinels == old(sentinels) + {dir}
      ensures forall i :: 0 <= i < bloom.Length ==>
        bloom[i] == (old(bloom[i]) || i == Bit1(ToLower(dir)) || i == Bit2(ToLower(dir)))
    {
      var packed: nat := 0;
      var n := 0;
      while n < |dir|
        invariant 0 <= n <= |dir|
        invariant packed == Pack(ToLower(dir[..n]))
        invariant unchanged(this) && unchanged(bloom)
      {
        assert ToLower(dir[..n + 1]) == ToLower(dir[..n]) + [ToLowerCaseLetter(dir[n])];
        PackSnoc(ToLower(dir[..n]), ToLowerCaseLetter(dir[n]));
        packed := ShiftIn(packed, Byte(ToLowerCaseLetter(dir[n])));
        n := n + 1;
      }
      assert dir[..n] == dir;
      bloom[packed % Prime1] := true;
      bloom[packed % Prime2] := true;
      sentinels := sentinels + {dir};
    }

    /**
     * IsCompilerDirectiveSentinel: the registered sentinel equal to the
     * candidate (read as a C string), or None.  The candidate is not case
     * folded here, so only a registered tag already in lower case can be found.
     */
    method Lookup(candidate: string) returns (r: Option<string>)
      requires Valid()
      ensures r.Some? <==>
        CString(candidate) != [] && Probed(CString(candidate)) && CString(candidate) in sentinels
      ensures r.Some? ==> r.value == CString(candidate)
      ensures IsLowerCase(candidate) ==>
        (r.Some? <==> CString(candidate) != [] && CString(candidate) in sentinels)
    {
      var key, packed := PackCString(candidate);
      if IsLowerCase(candidate) && key in sentinels {
        assert IsLowerCase(key);
        ToLowerIdempotent(key);
        assert Marked(key);
      }
      if key == [] || !bloom[packed % Prime1] || !bloom[packed % Prime2] {
        return None;
      }
      if key in sentinels {
        r := Some(key);
      } else {
        r := None;
      }
    }
  }

  /** The candidate read as a C string, with its key: bytes shifted in up to the first NUL. */
  method PackCString(candidate: string) returns (key: string, packed: nat)
    ensures key == CString(candidate) && packed == Pack(key)
  {
    packed := 0;
    var n := 0;
    while n < |candidate| && candidate[n] != '\0'
      invariant 0 <= n <= |candidate|
      invariant n <= |CString(candidate)| && candidate[..n] == CString(candidate)[..n]
      invariant packed == Pack(candidate[..n])
    {
      assert candidate[..n + 1] == candidate[..n] + [candidate[n]];
      PackSnoc(candidate[..n], candidate[n]);
      packed := ShiftIn(packed, Byte(candidate[n]));
      n := n + 1;
    }
    key := candidate[..n];
  }

  /**
   * No false negatives: a registered tag that is non-empty, already in lower
   * case and free of NUL characters is always found.
   */
  lemma LowerCaseTagFound(reg: SentinelRegistry, s: string)
    requires reg.Valid() && s in reg.sentinels
    requires s != [] && IsLowerCase(s) && '\0' !in s
    ensures CString(s) == s
    ensures reg.Probed(s)
  {
    CStringWithoutNul(s);
    ToLowerIdempotent(s);
    assert reg.Marked(s);
  }

  lemma {:induction false} CStringWithoutNul(s: string)
    requires '\0' !in s
    ensures CString(s) == s
    decreases |s|
  {
    if s != [] {
      CStringWithoutNul(s[1..]);
      assert [s[0]] + s[1..] == s;
    }
  }
}
