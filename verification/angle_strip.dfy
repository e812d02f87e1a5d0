/**
  Stage 2 of the cleaner: `cleanedText.replace(/[<>]/g, '')`, which deletes
  every `<` and every `>` and keeps everything else in order.
 */
module AngleStrip {
  import opened CharClass
  import opened Subsequence

  predicate IsAngle(c: char) {
    c == '<' || c == '>'
  }

  predicate NoAngles(s: string) {
    forall i :: 0 <= i < |s| ==> !IsAngle(s[i])
  }

  /** Number of occurrences of `c` in `s`. */
  function Count(s: string, c: char): nat {
    if |s| == 0 then 0 else (if s[0] == c then 1 else 0) + Count(s[1..], c)
  }

  /** The angle-bracket stage. */
  function DropAngles(s: string): (r: string)
    ensures NoAngles(r)
    ensures |r| <= |s|
  {
    if |s| == 0 then []
    else if IsAngle(s[0]) then DropAngles(s[1..])
    else [s[0]] + DropAngles(s[1..])
  }

  /** The stage changes its input exactly when the input holds a bracket. */
  lemma {:induction false} DropAnglesIdentity(s: string)
    ensures DropAngles(s) == s <==> NoAngles(s)
    decreases |s|
  {
    if |s| > 0 {
      DropAnglesIdentity(s[1..]);
      if IsAngle(s[0]) {
        assert |DropAngles(s)| <= |s[1..]| < |s|;
      } else {
        assert NoAngles(s) <==> NoAngles(s[1..]) by {
          if NoAngles(s[1..]) {
            forall i | 1 <= i < |s|
              ensures !IsAngle(s[i])
            {
              assert s[i] == s[1..][i - 1];
            }
          }
        }
        assert [s[0]] + s[1..] == s;
      }
    }
  }

  /** Every other character keeps its number of occurrences, and brackets
      disappear. */
  lemma {:induction false} DropAnglesCounts(s: string, c: char)
    ensures Count(DropAngles(s), c) == if IsAngle(c) then 0 else Count(s, c)
    decreases |s|
  {
    if |s| > 0 {
      DropAnglesCounts(s[1..], c);
      if !IsAngle(s[0]) {
        assert ([s[0]] + DropAngles(s[1..]))[1..] == DropAngles(s[1..]);
      }
    }
  }

  /** Brackets are not whitespace, so the whitespace is untouched. */
  lemma {:induction false} DropAnglesKeepsSpaces(s: string)
    ensures Spaces(DropAngles(s)) == Spaces(s)
    decreases |s|
  {
    if |s| > 0 {
      DropAnglesKeepsSpaces(s[1..]);
      if !IsAngle(s[0]) {
        assert ([s[0]] + DropAngles(s[1..]))[1..] == DropAngles(s[1..]);
      }
    }
  }

  /** The stage only deletes characters. */
  lemma {:induction false} DropAnglesSubseq(s: string)
    ensures IsSubseq(DropAngles(s), s)
    decreases |s|
  {
    if |s| > 0 {
      DropAnglesSubseq(s[1..]);
      assert [s[0]] + s[1..] == s;
      if IsAngle(s[0]) {
        SubseqCons(DropAngles(s), s[0], s[1..]);
      } else {
        SubseqKeepHead(s[0], DropAngles(s[1..]), s[1..]);
      }
    }
  }

  /** The stage works character by character, so it distributes over
      concatenation. */
  lemma {:induction false} DropAnglesAppend(a: string, b: string)
    ensures DropAngles(a + b) == DropAngles(a) + DropAngles(b)
    decreases |a|
  {
    if |a| > 0 {
      assert (a + b)[1..] == a[1..] + b;
      DropAnglesAppend(a[1..], b);
    } else {
      assert a + b == b;
    }
  }

  /** A single bracket between bracket-free text is the only thing
      removed. */
  lemma DropOneAngle(a: string, c: char, b: string)
    requires NoAngles(a) && NoAngles(b) && IsAngle(c)
    ensures DropAngles(a + [c] + b) == a + b
  {
    DropAnglesIdentity(a);
    DropAnglesIdentity(b);
    DropAnglesAppend(a, [c] + b);
    assert ([c] + b)[1..] == b;
    assert a + [c] + b == a + ([c] + b);
  }
}
