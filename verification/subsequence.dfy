/**
  The subsequence order on strings: `a` is obtained from `b` by deleting
  characters. Every cleaning stage only deletes characters or keeps one
  character of a run it removes, so each stage's output is a subsequence
  of its input.
 */
module Subsequence {

  /** Greedy left-to-right matching of `a` against `b`. */
  predicate IsSubseq(a: string, b: string)
    decreases |b|
  {
    if |a| == 0 then true
    else if |b| == 0 then false
    else if a[0] == b[0] then IsSubseq(a[1..], b[1..])
    else IsSubseq(a, b[1..])
  }

  lemma {:induction false} SubseqRefl(a: string)
    ensures IsSubseq(a, a)
    decreases |a|
  {
    if |a| > 0 {
      SubseqRefl(a[1..]);
    }
  }

  lemma {:induction false} SubseqLength(a: string, b: string)
    requires IsSubseq(a, b)
    ensures |a| <= |b|
    decreases |b|
  {
    if |a| > 0 {
      if a[0] == b[0] {
        SubseqLength(a[1..], b[1..]);
      } else {
        SubseqLength(a, b[1..]);
      }
    }
  }

  /** Every character of a subsequence occurs in the longer string. */
  lemma {:induction false} SubseqChars(a: string, b: string)
    requires IsSubseq(a, b)
    ensures forall i :: 0 <= i < |a| ==> a[i] in b
    decreases |b|
  {
    if |a| > 0 {
      if a[0] == b[0] {
        SubseqChars(a[1..], b[1..]);
        forall i | 0 <= i < |a|
          ensures a[i] in b
        {
          if i > 0 {
            assert a[i] == a[1..][i - 1];
            assert a[i] in b[1..];
          }
        }
      } else {
        SubseqChars(a, b[1..]);
        forall i | 0 <= i < |a|
          ensures a[i] in b
        {
          assert a[i] in b[1..];
        }
      }
    }
  }

  /** A subsequence of `t` stays one when a character is put in front of `t`. */
  lemma {:induction false} SubseqCons(a: string, x: char, t: string)
    requires IsSubseq(a, t)
    ensures IsSubseq(a, [x] + t)
    decreases |t|, 1
  {
    assert ([x] + t)[1..] == t;
    if |a| > 0 && a[0] == x {
      SubseqDropHead(a, t);
    }
  }

  /** Removing the first character of a subsequence keeps it one. */
  lemma {:induction false} SubseqDropHead(a: string, t: string)
    requires |a| > 0 && IsSubseq(a, t)
    ensures IsSubseq(a[1..], t)
    decreases |t|, 0
  {
    if a[0] == t[0] {
      SubseqCons(a[1..], t[0], t[1..]);
      assert [t[0]] + t[1..] == t;
    } else {
      SubseqDropHead(a, t[1..]);
      SubseqCons(a[1..], t[0], t[1..]);
      assert [t[0]] + t[1..] == t;
    }
  }

  /** A subsequence of a suffix of `t` is a subsequence of `t`. */
  lemma {:induction false} SubseqOfSuffix(a: string, t: string, k: nat)
    requires k <= |t| && IsSubseq(a, t[k..])
    ensures IsSubseq(a, t)
    decreases k
  {
    if k > 0 {
      assert t[k - 1..] == [t[k - 1]] + t[k..];
      SubseqCons(a, t[k - 1], t[k..]);
      SubseqOfSuffix(a, t, k - 1);
    }
  }

  /** Keeping a character on both sides preserves the order. */
  lemma SubseqKeepHead(x: char, a: string, t: string)
    requires IsSubseq(a, t)
    ensures IsSubseq([x] + a, [x] + t)
  {
    assert ([x] + a)[1..] == a;
    assert ([x] + t)[1..] == t;
  }

  lemma {:induction false} SubseqTrans(a: string, b: string, c: string)
    requires IsSubseq(a, b) && IsSubseq(b, c)
    ensures IsSubseq(a, c)
    decreases |c|
  {
    if |a| == 0 {
    } else if a[0] == b[0] && b[0] == c[0] {
      SubseqTrans(a[1..], b[1..], c[1..]);
    } else {
      if b[0] == c[0] {
        SubseqTrans(a, b[1..], c[1..]);
      } else {
        SubseqTrans(a, b, c[1..]);
      }
      SubseqCons(a, c[0], c[1..]);
      assert [c[0]] + c[1..] == c;
    }
  }

  /** A prefix is a subsequence. */
  lemma {:induction false} SubseqPrefix(t: string, m: nat)
    requires m <= |t|
    ensures IsSubseq(t[..m], t)
    decreases m
  {
    if m > 0 {
      SubseqPrefix(t[1..], m - 1);
      assert t[..m][1..] == t[1..][..m - 1];
    }
  }

  /** A contiguous slice is a subsequence. */
  lemma SubseqSlice(s: string, i: nat, j: nat)
    requires i <= j <= |s|
    ensures IsSubseq(s[i..j], s)
  {
    SubseqPrefix(s[i..], j - i);
    assert s[i..][..j - i] == s[i..j];
    SubseqOfSuffix(s[i..j], s, i);
  }
}
