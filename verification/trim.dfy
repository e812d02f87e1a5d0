/**
  Stage 4 of the cleaner: `cleanedText.trim()`, which strips leading and
  trailing whitespace (the same character set as `\s`).
 */
module Trimming {
  import opened CharClass
  import opened Subsequence

  /** Strips leading whitespace: the result is the suffix of `s` that starts
      at its first non-whitespace character. */
  function TrimStart(s: string): (r: string)
    ensures |r| <= |s| && r == s[|s| - |r|..]
    ensures AllSpace(s[..|s| - |r|])
    ensures |r| == 0 || !IsSpace(r[0])
    decreases |s|
  {
    if |s| > 0 && IsSpace(s[0]) then
      var r := TrimStart(s[1..]);
      assert s[..|s| - |r|] == [s[0]] + s[1..][..|s[1..]| - |r|];
      r
    else s
  }

  /** Strips trailing whitespace: the result is the prefix of `s` that ends
      at its last non-whitespace character. */
  function TrimEnd(s: string): (r: string)
    ensures |r| <= |s| && r == s[..|r|]
    ensures AllSpace(s[|r|..])
    ensures |r| == 0 || !IsSpace(r[|r| - 1])
    decreases |s|
  {
    if |s| > 0 && IsSpace(s[|s| - 1]) then
      var r := TrimEnd(s[..|s| - 1]);
      assert s[|r|..] == s[..|s| - 1][|r|..] + [s[|s| - 1]];
      r
    else s
  }

  /** `String.prototype.trim`: strips whitespace at both ends. The result is
      a prefix of the whitespace-stripped suffix, and everything cut off on
      either side is whitespace. */
  function Trim(s: string): (r: string)
    ensures |r| <= |TrimStart(s)| <= |s|
    ensures r == TrimStart(s)[..|r|] && AllSpace(TrimStart(s)[|r|..])
    ensures |r| == 0 || (!IsSpace(r[0]) && !IsSpace(r[|r| - 1]))
  {
    TrimEnd(TrimStart(s))
  }

  /** Where the trimmed text starts in `s`. */
  function TrimOffset(s: string): nat {
    |s| - |TrimStart(s)|
  }

  /** The result is the slice of `s` between its first and its last
      non-whitespace character: only whitespace is cut off, at either end. */
  lemma TrimIsSlice(s: string)
    ensures TrimOffset(s) + |Trim(s)| <= |s|
    ensures Trim(s) == s[TrimOffset(s)..TrimOffset(s) + |Trim(s)|]
    ensures AllSpace(s[..TrimOffset(s)])
    ensures AllSpace(s[TrimOffset(s) + |Trim(s)|..])
  {
    var t := TrimStart(s);
    var a := |s| - |t|;
    TrimEndSlice(t, s, a);
  }

  /** Trimming the end of the suffix `t == s[a..]` keeps a slice of `s`. */
  lemma TrimEndSlice(t: string, s: string, a: nat)
    requires a <= |s| && t == s[a..]
    ensures a + |TrimEnd(t)| <= |s|
    ensures TrimEnd(t) == s[a..a + |TrimEnd(t)|]
    ensures AllSpace(s[a + |TrimEnd(t)|..])
  {
    var r := TrimEnd(t);
    assert t[..|r|] == s[a..a + |r|];
    assert t[|r|..] == s[a + |r|..];
  }

  /** Text already without whitespace at either end is left as it is. */
  lemma TrimKeepsTrimmed(s: string)
    requires |s| == 0 || (!IsSpace(s[0]) && !IsSpace(s[|s| - 1]))
    ensures Trim(s) == s
  {
  }

  /** Trimming twice is trimming once. */
  lemma TrimIdempotent(s: string)
    ensures Trim(Trim(s)) == Trim(s)
  {
    TrimKeepsTrimmed(Trim(s));
  }

  /** The result is empty exactly when the input is all whitespace, the empty
      string included. */
  lemma TrimEmpty(s: string)
    ensures Trim(s) == [] <==> AllSpace(s)
  {
    TrimIsSlice(s);
    var a := TrimOffset(s);
    if Trim(s) == [] {
      assert s == s[..a] + s[a..];
    } else {
      assert !IsSpace(s[a]);
    }
  }

  /** Only whitespace is cut off: the non-whitespace text is unchanged. */
  lemma TrimKeepsText(s: string)
    ensures Squeeze(Trim(s)) == Squeeze(s)
  {
    TrimIsSlice(s);
    var r := Trim(s);
    var a := TrimOffset(s);
    var b := a + |r|;
    assert s == s[..a] + (r + s[b..]);
    SqueezeAppend(s[..a], r + s[b..]);
    SqueezeAppend(r, s[b..]);
  }

  /** Trimming only deletes characters. */
  lemma TrimSubseq(s: string)
    ensures IsSubseq(Trim(s), s)
  {
    TrimIsSlice(s);
    var a := TrimOffset(s);
    SubseqSlice(s, a, a + |Trim(s)|);
  }

  /** Trimming keeps every remaining line feed's neighbours. */
  lemma TrimKeepsIsolated(s: string)
    requires NewlinesIsolated(s)
    ensures NewlinesIsolated(Trim(s))
  {
    TrimIsSlice(s);
    var a := TrimOffset(s);
    IsolatedSlice(s, a, a + |Trim(s)|);
  }
}
