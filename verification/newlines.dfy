/**
  Stage 3 of the cleaner, line 20 of the source: two global replaces, first
  of the pattern `\s*\n\s*` by a line feed, then of the pattern `\n\s*\n`
  by two line feeds.

  At a position inside a whitespace run, the greedy `\s*\n\s*` matches
  exactly when the rest of that run holds a line feed, and then it covers
  the rest of the run. The scan reaches the first character of every
  maximal run, so each whitespace run that holds a line feed becomes a
  single line feed. A run without a line feed is kept character by
  character.

  The second replace needs a line feed followed by whitespace holding
  another line feed. The first replace leaves no such place, so the second
  replace changes nothing (`MergeBlankLinesNoOp`).
 */
module Newlines {
  import opened CharClass
  import opened Subsequence

  /** The maximal whitespace run at the front of `s` holds a line feed, i.e.
      `\s*\n\s*` matches at the front of `s`. */
  predicate RunHasNewline(s: string) {
    '\n' in s[..SpaceRun(s)]
  }

  /** The first replace of line 20. */
  function CollapseNewlines(s: string): (r: string)
    ensures |r| <= |s|
    decreases |s|
  {
    if |s| == 0 then []
    else if RunHasNewline(s) then "\n" + CollapseNewlines(s[SpaceRun(s)..])
    else [s[0]] + CollapseNewlines(s[1..])
  }

  /** A whitespace character in front of a run extends the run. */
  lemma RunHasNewlineStep(s: string)
    requires |s| > 0 && IsSpace(s[0])
    ensures RunHasNewline(s) <==> s[0] == '\n' || RunHasNewline(s[1..])
  {
    var k := SpaceRun(s);
    assert k == 1 + SpaceRun(s[1..]);
    assert s[..k] == [s[0]] + s[1..][..k - 1];
  }

  /** The first output character is the first input character, or the line
      feed that replaces the leading run. */
  lemma CollapseFront(s: string)
    requires |s| > 0
    ensures |CollapseNewlines(s)| > 0
    ensures CollapseNewlines(s)[0] == if RunHasNewline(s) then '\n' else s[0]
  {
  }

  /** After the first replace every line feed stands between two
      non-whitespace characters (or an end of the text). */
  lemma {:induction false} CollapseIsolates(s: string)
    ensures NewlinesIsolated(CollapseNewlines(s))
    decreases |s|
  {
    if |s| == 0 {
    } else if RunHasNewline(s) {
      var t := s[SpaceRun(s)..];
      CollapseIsolates(t);
      if |t| > 0 {
        assert SpaceRun(t) == 0;
        CollapseFront(t);
      }
      IsolatedNewlineCons(CollapseNewlines(t));
    } else {
      CollapseIsolates(s[1..]);
      if IsSpace(s[0]) {
        RunHasNewlineStep(s);
      }
      if |s| > 1 {
        CollapseFront(s[1..]);
        if IsSpace(s[1]) {
          RunHasNewlineStep(s[1..]);
        }
      }
      IsolatedCharCons(s[0], CollapseNewlines(s[1..]));
    }
  }

  /** Only whitespace changes: the non-whitespace text is the same. */
  lemma {:induction false} CollapseKeepsText(s: string)
    ensures Squeeze(CollapseNewlines(s)) == Squeeze(s)
    decreases |s|
  {
    if |s| == 0 {
    } else if RunHasNewline(s) {
      var k := SpaceRun(s);
      CollapseKeepsText(s[k..]);
      SqueezeDropSpaces(s, k);
      assert ("\n" + CollapseNewlines(s[k..]))[1..] == CollapseNewlines(s[k..]);
    } else {
      CollapseKeepsText(s[1..]);
      assert ([s[0]] + CollapseNewlines(s[1..]))[1..] == CollapseNewlines(s[1..]);
    }
  }

  /** The stage only deletes characters: the line feed that replaces a run
      is one of the run's own characters. */
  lemma {:induction false} CollapseSubseq(s: string)
    ensures IsSubseq(CollapseNewlines(s), s)
    decreases |s|
  {
    if |s| == 0 {
    } else if RunHasNewline(s) {
      var k := SpaceRun(s);
      var r' := CollapseNewlines(s[k..]);
      CollapseSubseq(s[k..]);
      var j :| 0 <= j < k && s[..k][j] == '\n';
      assert s[j] == '\n';
      assert s[j + 1..][k - j - 1..] == s[k..];
      SubseqOfSuffix(r', s[j + 1..], k - j - 1);
      SubseqKeepHead('\n', r', s[j + 1..]);
      assert [s[j]] + s[j + 1..] == s[j..];
      SubseqOfSuffix("\n" + r', s, j);
    } else {
      CollapseSubseq(s[1..]);
      SubseqKeepHead(s[0], CollapseNewlines(s[1..]), s[1..]);
      assert [s[0]] + s[1..] == s;
    }
  }

  /** A word passes through unchanged. */
  lemma {:induction false} CollapseWord(u: string, t: string)
    requires NoSpace(u)
    ensures CollapseNewlines(u + t) == u + CollapseNewlines(t)
    decreases |u|
  {
    if |u| > 0 {
      var s := u + t;
      assert SpaceRun(s) == 0;
      assert s[1..] == u[1..] + t;
      CollapseWord(u[1..], t);
      assert u == [u[0]] + u[1..];
    } else {
      assert u + t == t;
    }
  }

  /** A maximal whitespace run becomes one line feed when it holds one and
      is kept verbatim otherwise. */
  lemma {:induction false} CollapseRun(w: string, t: string)
    requires |w| > 0 && AllSpace(w)
    requires |t| == 0 || !IsSpace(t[0])
    ensures CollapseNewlines(w + t) == (if '\n' in w then "\n" else w) + CollapseNewlines(t)
    decreases |w|
  {
    var s := w + t;
    assert s[..|w|] == w;
    SpaceRunExact(s, |w|);
    if '\n' in w {
      assert s[|w|..] == t;
    } else {
      assert s[1..] == w[1..] + t;
      if |w| == 1 {
        assert w[1..] + t == t;
      } else {
        CollapseRun(w[1..], t);
        assert w == [w[0]] + w[1..];
      }
    }
  }

  /** Text without a line feed is left as it is; in particular runs of
      spaces or tabs inside a line are not collapsed. */
  lemma {:induction false} CollapseNoNewline(s: string)
    requires '\n' !in s
    ensures CollapseNewlines(s) == s
    decreases |s|
  {
    if |s| > 0 {
      assert '\n' !in s[..SpaceRun(s)];
      assert '\n' !in s[1..];
      CollapseNoNewline(s[1..]);
      assert [s[0]] + s[1..] == s;
    }
  }

  /** Between two words, a whitespace run becomes one line feed when it
      holds one and is kept verbatim otherwise. */
  lemma CollapseBetweenWords(u: string, w: string, v: string)
    requires NoSpace(u) && NoSpace(v) && |v| > 0
    requires |w| > 0 && AllSpace(w)
    ensures CollapseNewlines(u + w + v) == u + (if '\n' in w then "\n" else w) + v
  {
    CollapseWord(v, []);
    assert v + [] == v;
    CollapseRun(w, v);
    CollapseWord(u, w + v);
    assert u + w + v == u + (w + v);
  }

  /** Index of the last line feed in `s`. */
  function LastNewline(s: string): (k: nat)
    requires '\n' in s
    ensures k < |s| && s[k] == '\n'
    ensures forall j :: k < j < |s| ==> s[j] != '\n'
    decreases |s|
  {
    if s[|s| - 1] == '\n' then |s| - 1
    else
      assert '\n' in s[..|s| - 1] by {
        var i :| 0 <= i < |s| && s[i] == '\n';
        assert s[..|s| - 1][i] == '\n';
      }
      LastNewline(s[..|s| - 1])
  }

  /** The second replace of line 20: a line feed, then a whitespace run that
      holds another line feed; backtracking ends the match right after the
      run's last line feed, and the match becomes a blank line. */
  function MergeBlankLines(s: string): (r: string)
    ensures |r| <= |s|
    decreases |s|
  {
    if |s| == 0 then []
    else if s[0] == '\n' && RunHasNewline(s[1..]) then
      "\n\n" + MergeBlankLines(s[2 + LastNewline(s[1..][..SpaceRun(s[1..])])..])
    else [s[0]] + MergeBlankLines(s[1..])
  }

  /** The second replace changes nothing once every line feed is isolated. */
  lemma {:induction false} MergeBlankLinesNoOp(s: string)
    requires NewlinesIsolated(s)
    ensures MergeBlankLines(s) == s
    decreases |s|
  {
    if |s| > 0 {
      if s[0] == '\n' && |s| > 1 {
        assert !IsSpace(s[1]);
        assert SpaceRun(s[1..]) == 0;
      }
      IsolatedSlice(s, 1, |s|);
      assert s[1..|s|] == s[1..];
      MergeBlankLinesNoOp(s[1..]);
      assert [s[0]] + s[1..] == s;
    }
  }
}
