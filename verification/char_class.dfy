/**
  Character classes shared by every stage of the e-mail body cleaner, and
  the whitespace-free view of a string that states "nothing else changes".
 */
module CharClass {

  /** JavaScript's `\s`, which is also exactly the set `String.prototype.trim`
      strips: the ECMAScript WhiteSpace and LineTerminator code points
      (tab, line feed, vertical tab, form feed, carriage return, space,
      no-break space, the Zs separators, line and paragraph separator and
      the byte order mark). */
  predicate IsSpace(c: char) {
    c == ' ' || c == '\t' || c == '\n' || c == '\U{B}' || c == '\U{C}' || c == '\r'
    || c == '\U{A0}' || c == '\U{1680}' || ('\U{2000}' <= c <= '\U{200A}')
    || c == '\U{2028}' || c == '\U{2029}' || c == '\U{202F}' || c == '\U{205F}'
    || c == '\U{3000}' || c == '\U{FEFF}'
  }

  predicate AllSpace(s: string) {
    forall i :: 0 <= i < |s| ==> IsSpace(s[i])
  }

  predicate NoSpace(s: string) {
    forall i :: 0 <= i < |s| ==> !IsSpace(s[i])
  }

  /** Every line feed of `s` has no whitespace directly before or after it. */
  predicate NewlinesIsolated(s: string) {
    forall i :: 0 <= i < |s| && s[i] == '\n' ==>
      (i == 0 || !IsSpace(s[i - 1])) && (i + 1 == |s| || !IsSpace(s[i + 1]))
  }

  /** Length of the longest all-whitespace prefix of `s`. */
  function SpaceRun(s: string): (n: nat)
    ensures n <= |s| && AllSpace(s[..n])
    ensures n < |s| ==> !IsSpace(s[n])
  {
    if |s| > 0 && IsSpace(s[0]) then
      var n := 1 + SpaceRun(s[1..]);
      assert forall i :: 1 <= i < n ==> s[..n][i] == s[1..][..n - 1][i - 1];
      n
    else 0
  }

  /** Length of the longest whitespace-free prefix of `s`. */
  function WordRun(s: string): (n: nat)
    ensures n <= |s| && NoSpace(s[..n])
    ensures n < |s| ==> IsSpace(s[n])
  {
    if |s| > 0 && !IsSpace(s[0]) then
      var n := 1 + WordRun(s[1..]);
      assert forall i :: 1 <= i < n ==> s[..n][i] == s[1..][..n - 1][i - 1];
      n
    else 0
  }

  /** The characters of `s` that are not whitespace, in their order. */
  function Squeeze(s: string): (r: string)
    ensures NoSpace(r)
    ensures |r| <= |s|
    ensures AllSpace(s) <==> r == []
  {
    if |s| == 0 then []
    else if IsSpace(s[0]) then Squeeze(s[1..])
    else [s[0]] + Squeeze(s[1..])
  }

  /** The whitespace characters of `s`, in their order. */
  function Spaces(s: string): (r: string)
    ensures AllSpace(r)
    ensures |r| <= |s|
    ensures NoSpace(s) <==> r == []
  {
    if |s| == 0 then []
    else if IsSpace(s[0]) then [s[0]] + Spaces(s[1..])
    else Spaces(s[1..])
  }

  lemma {:induction false} SqueezeAppend(a: string, b: string)
    ensures Squeeze(a + b) == Squeeze(a) + Squeeze(b)
    decreases |a|
  {
    if |a| > 0 {
      assert (a + b)[1..] == a[1..] + b;
      SqueezeAppend(a[1..], b);
    } else {
      assert a + b == b;
    }
  }

  lemma {:induction false} SpacesAppend(a: string, b: string)
    ensures Spaces(a + b) == Spaces(a) + Spaces(b)
    decreases |a|
  {
    if |a| > 0 {
      assert (a + b)[1..] == a[1..] + b;
      SpacesAppend(a[1..], b);
    } else {
      assert a + b == b;
    }
  }

  /** Dropping a whitespace prefix does not change the non-whitespace text. */
  lemma SqueezeDropSpaces(s: string, k: nat)
    requires k <= |s| && AllSpace(s[..k])
    ensures Squeeze(s[k..]) == Squeeze(s)
  {
    assert s == s[..k] + s[k..];
    SqueezeAppend(s[..k], s[k..]);
  }

  /** Dropping a whitespace-free prefix does not change the whitespace. */
  lemma SpacesDropWord(s: string, k: nat)
    requires k <= |s| && NoSpace(s[..k])
    ensures Spaces(s[k..]) == Spaces(s)
  {
    assert s == s[..k] + s[k..];
    SpacesAppend(s[..k], s[k..]);
  }

  /** A whitespace-free prefix of length `m` followed by whitespace or the
      end of the text is exactly the leading word. */
  lemma {:induction false} WordRunExact(s: string, m: nat)
    requires m <= |s| && NoSpace(s[..m]) && (m < |s| ==> IsSpace(s[m]))
    ensures WordRun(s) == m
    decreases m
  {
    if m > 0 {
      assert s[0] == s[..m][0];
      assert s[1..][..m - 1] == s[..m][1..];
      WordRunExact(s[1..], m - 1);
    }
  }

  /** An all-whitespace prefix of length `m` followed by a non-whitespace
      character or the end of the text is exactly the leading run. */
  lemma {:induction false} SpaceRunExact(s: string, m: nat)
    requires m <= |s| && AllSpace(s[..m]) && (m < |s| ==> !IsSpace(s[m]))
    ensures SpaceRun(s) == m
    decreases m
  {
    if m > 0 {
      assert s[0] == s[..m][0];
      assert s[1..][..m - 1] == s[..m][1..];
      SpaceRunExact(s[1..], m - 1);
    }
  }

  /** A whitespace-free prefix lies inside the leading word. */
  lemma {:induction false} WordRunAtLeast(s: string, m: nat)
    requires m <= |s| && NoSpace(s[..m])
    ensures m <= WordRun(s)
    decreases m
  {
    if m > 0 {
      assert s[0] == s[..m][0];
      assert s[1..][..m - 1] == s[..m][1..];
      WordRunAtLeast(s[1..], m - 1);
    }
  }

  /** Any slice of a string whose line feeds are isolated has isolated line
      feeds too: inside the slice the neighbours are the same, and at the
      slice's ends there is nothing to check. */
  lemma IsolatedSlice(s: string, a: nat, b: nat)
    requires a <= b <= |s| && NewlinesIsolated(s)
    ensures NewlinesIsolated(s[a..b])
  {
    var t := s[a..b];
    forall i | 0 <= i < |t| && t[i] == '\n'
      ensures (i == 0 || !IsSpace(t[i - 1])) && (i + 1 == |t| || !IsSpace(t[i + 1]))
    {
      assert s[a + i] == '\n';
    }
  }

  /** A line feed put in front of text that starts with a non-whitespace
      character (or is empty) is isolated. */
  lemma IsolatedNewlineCons(t: string)
    requires NewlinesIsolated(t) && (|t| == 0 || !IsSpace(t[0]))
    ensures NewlinesIsolated("\n" + t)
  {
    var r := "\n" + t;
    forall i | 0 < i < |r| && r[i] == '\n'
      ensures !IsSpace(r[i - 1]) && (i + 1 == |r| || !IsSpace(r[i + 1]))
    {
      assert r[i] == t[i - 1];
    }
  }

  /** Any other character can go in front, provided it is not whitespace
      when a line feed follows it. */
  lemma IsolatedCharCons(c: char, t: string)
    requires NewlinesIsolated(t) && c != '\n'
    requires |t| > 0 && t[0] == '\n' ==> !IsSpace(c)
    ensures NewlinesIsolated([c] + t)
  {
    var r := [c] + t;
    forall i | 0 < i < |r| && r[i] == '\n'
      ensures !IsSpace(r[i - 1]) && (i + 1 == |r| || !IsSpace(r[i + 1]))
    {
      assert r[i] == t[i - 1];
    }
  }
}
