/**
  Stage 1 of the cleaner: `text.replace(/https?:\/\/[^\s]+/g, '')`.

  A global replace scans left to right. At each position it either finds
  the leftmost match there, deletes it and resumes right after it, or keeps
  one character and moves on. The pattern matches at a position when the
  text there starts with the lower-case scheme `https://` or `http://` and
  at least one non-whitespace character follows. The greedy `[^\s]+` then
  runs to the next whitespace character or to the end of the text.
 */
module UrlStrip {
  import opened CharClass
  import opened Subsequence

  /** Length of the scheme `https://` or `http://` at the front of `s`, or 0:
      `http`, then an optional `s`, then `://`. */
  function SchemeLen(s: string): (n: nat)
    ensures n == 0 || n == 7 || n == 8
    ensures n == 8 <==> "https://" <= s
    ensures n == 7 <==> "http://" <= s
    ensures n > 0 ==> n <= |s| && NoSpace(s[..n]) && s[0] == 'h'
  {
    if |s| >= 7 && s[0] == 'h' && s[1] == 't' && s[2] == 't' && s[3] == 'p' then
      if |s| >= 8 && s[4] == 's' && s[5] == ':' && s[6] == '/' && s[7] == '/' then 8
      else if s[4] == ':' && s[5] == '/' && s[6] == '/' then 7
      else 0
    else 0
  }

  /** The URL pattern matches at the front of `s`. */
  predicate StartsWithUrl(s: string) {
    SchemeLen(s) > 0 && SchemeLen(s) < |s| && !IsSpace(s[SchemeLen(s)])
  }

  /** The URL pattern matches at position `i` of `s`. */
  predicate MatchAt(s: string, i: nat)
    requires i <= |s|
  {
    StartsWithUrl(s[i..])
  }

  /** No position of `s` starts a match of the URL pattern. */
  predicate UrlFree(s: string) {
    forall i :: 0 <= i < |s| ==> !MatchAt(s, i)
  }

  /** Length of the match at the front of `s`: the scheme followed by the
      whole run of non-whitespace characters after it. */
  function UrlMatchLen(s: string): (n: nat)
    requires StartsWithUrl(s)
    ensures SchemeLen(s) < n <= |s|
    ensures NoSpace(s[..n])
    ensures n < |s| ==> IsSpace(s[n])
  {
    var k := SchemeLen(s);
    var n := k + WordRun(s[k..]);
    assert forall i :: k <= i < n ==> s[..n][i] == s[k..][..n - k][i - k];
    n
  }

  /** The URL stage. */
  function StripUrls(s: string): (r: string)
    ensures |r| <= |s|
    decreases |s|
  {
    if |s| == 0 then []
    else if StartsWithUrl(s) then StripUrls(s[UrlMatchLen(s)..])
    else [s[0]] + StripUrls(s[1..])
  }

  /** Whether a match starts at the front depends only on the first
      `SchemeLen + 1` characters. */
  lemma StartsWithUrlSharedPrefix(t: string, s: string, m: nat)
    requires StartsWithUrl(t)
    requires SchemeLen(t) < m <= |t| && m <= |s| && t[..m] == s[..m]
    ensures StartsWithUrl(s)
  {
    assert forall j :: 0 <= j < m ==> s[j] == s[..m][j] == t[..m][j] == t[j];
    assert SchemeLen(s) == SchemeLen(t);
    assert s[SchemeLen(s)] == s[..m][SchemeLen(s)] == t[..m][SchemeLen(t)];
  }

  /** A match lies inside one word: the scheme and the character after it
      are all non-whitespace. */
  lemma UrlWithinWord(t: string)
    requires StartsWithUrl(t)
    ensures SchemeLen(t) < WordRun(t)
  {
    var n := SchemeLen(t);
    assert forall i :: 0 <= i < n ==> t[..n + 1][i] == t[..n][i];
    WordRunAtLeast(t, n + 1);
  }

  /** The leading word of the output is a prefix of the input: the stage
      never glues text onto the front of a word. */
  lemma {:induction false} StripUrlsLeadingWord(s: string)
    ensures WordRun(StripUrls(s)) <= |s|
    ensures StripUrls(s)[..WordRun(StripUrls(s))] == s[..WordRun(StripUrls(s))]
    decreases |s|
  {
    var r := StripUrls(s);
    if |s| == 0 {
    } else if StartsWithUrl(s) {
      var k := UrlMatchLen(s);
      if k < |s| {
        StripUrlsFrontSpace(s[k..]);
      }
      assert WordRun(r) == 0;
    } else {
      var r' := StripUrls(s[1..]);
      StripUrlsLeadingWord(s[1..]);
      assert r == [s[0]] + r';
      if IsSpace(s[0]) {
        assert WordRun(r) == 0;
      } else {
        var w' := WordRun(r');
        assert r[1..] == r';
        assert WordRun(r) == 1 + w';
        assert r[..1 + w'] == [s[0]] + r'[..w'];
        assert s[..1 + w'] == [s[0]] + s[1..][..w'];
      }
    }
  }

  /** Whitespace at the front of the input stays at the front. */
  lemma StripUrlsFrontSpace(s: string)
    requires |s| > 0 && IsSpace(s[0])
    ensures |StripUrls(s)| > 0 && StripUrls(s)[0] == s[0]
  {
    assert SchemeLen(s) == 0;
  }

  /** A match at the front of the output was already a match at the front of
      the input. */
  lemma FrontUrlFromInput(s: string)
    ensures StartsWithUrl(StripUrls(s)) ==> StartsWithUrl(s)
  {
    var r := StripUrls(s);
    StripUrlsLeadingWord(s);
    if StartsWithUrl(r) {
      UrlWithinWord(r);
      StartsWithUrlSharedPrefix(r, s, WordRun(r));
    }
  }

  /** After the stage, no position holds `http://` or `https://` followed by
      a non-whitespace character. */
  lemma {:induction false} StripUrlsUrlFree(s: string)
    ensures UrlFree(StripUrls(s))
    decreases |s|
  {
    var r := StripUrls(s);
    if |s| == 0 {
    } else if StartsWithUrl(s) {
      StripUrlsUrlFree(s[UrlMatchLen(s)..]);
    } else {
      var r' := StripUrls(s[1..]);
      StripUrlsUrlFree(s[1..]);
      assert r == [s[0]] + r';
      FrontUrlFromInput(s);
      forall i | 0 <= i < |r|
        ensures !MatchAt(r, i)
      {
        if i > 0 {
          assert r[i..] == r'[i - 1..];
          assert !MatchAt(r', i - 1);
        }
      }
    }
  }

  /** Text without any match is left as it is. */
  lemma {:induction false} StripUrlsKeepsUrlFree(s: string)
    requires UrlFree(s)
    ensures StripUrls(s) == s
    decreases |s|
  {
    if |s| > 0 {
      assert s[0..] == s && !MatchAt(s, 0);
      assert UrlFree(s[1..]) by {
        forall i | 0 <= i < |s[1..]|
          ensures !MatchAt(s[1..], i)
        {
          assert s[1..][i..] == s[i + 1..];
          assert !MatchAt(s, i + 1);
        }
      }
      StripUrlsKeepsUrlFree(s[1..]);
    }
  }

  /** Applying the stage twice is the same as applying it once. */
  lemma StripUrlsIdempotent(s: string)
    ensures StripUrls(StripUrls(s)) == StripUrls(s)
  {
    StripUrlsUrlFree(s);
    StripUrlsKeepsUrlFree(StripUrls(s));
  }

  /** Matches hold no whitespace, so every whitespace character of the input
      survives, in order. */
  lemma {:induction false} StripUrlsKeepsSpaces(s: string)
    ensures Spaces(StripUrls(s)) == Spaces(s)
    decreases |s|
  {
    if |s| == 0 {
    } else if StartsWithUrl(s) {
      var k := UrlMatchLen(s);
      StripUrlsKeepsSpaces(s[k..]);
      SpacesDropWord(s, k);
    } else {
      StripUrlsKeepsSpaces(s[1..]);
      assert ([s[0]] + StripUrls(s[1..]))[1..] == StripUrls(s[1..]);
    }
  }

  /** The stage only deletes characters. */
  lemma {:induction false} StripUrlsSubseq(s: string)
    ensures IsSubseq(StripUrls(s), s)
    decreases |s|
  {
    if |s| == 0 {
    } else if StartsWithUrl(s) {
      var k := UrlMatchLen(s);
      StripUrlsSubseq(s[k..]);
      SubseqOfSuffix(StripUrls(s), s, k);
    } else {
      StripUrlsSubseq(s[1..]);
      SubseqKeepHead(s[0], StripUrls(s[1..]), s[1..]);
      assert [s[0]] + s[1..] == s;
    }
  }

  /** A match starting inside a text that ends in whitespace lies inside
      that text. */
  lemma MatchInsideSpacedPrefix(a: string, x: string, i: nat)
    requires |a| > 0 && IsSpace(a[|a| - 1]) && i < |a|
    ensures StartsWithUrl((a + x)[i..]) ==> StartsWithUrl(a[i..])
  {
    var t := (a + x)[i..];
    if StartsWithUrl(t) {
      UrlWithinWord(t);
      var w := WordRun(t);
      assert t[|a| - 1 - i] == a[|a| - 1];
      assert w <= |a| - 1 - i;
      assert t[..w] == a[i..][..w];
      StartsWithUrlSharedPrefix(t, a[i..], w);
    }
  }

  /** A match-free text that ends in whitespace passes through unchanged,
      whatever follows it. */
  lemma StripUrlsSpacedPrefix(a: string, x: string)
    requires UrlFree(a) && |a| > 0 && IsSpace(a[|a| - 1])
    ensures StripUrls(a + x) == a + StripUrls(x)
  {
    forall i | 0 <= i < |a|
      ensures !MatchAt(a + x, i)
    {
      assert !MatchAt(a, i);
      MatchInsideSpacedPrefix(a, x, i);
    }
    StripUrlsKeepsPrefix(a, x);
  }

  /** A link at the front that runs up to whitespace (or the end) is one
      match. */
  lemma LeadingLinkMatch(link: string, b: string)
    requires StartsWithUrl(link) && NoSpace(link)
    requires |b| == 0 || IsSpace(b[0])
    ensures StartsWithUrl(link + b) && UrlMatchLen(link + b) == |link|
  {
    var t := link + b;
    var n := SchemeLen(link);
    assert t[..n + 1] == link[..n + 1];
    StartsWithUrlSharedPrefix(link, t, n + 1);
    assert t[n..][..|link| - n] == link[n..];
    WordRunExact(t[n..], |link| - n);
  }

  /** A link that runs up to whitespace (or the end) is deleted as a whole,
      and match-free text around it is kept. */
  lemma StripUrlsLinkBetween(a: string, link: string, b: string)
    requires UrlFree(a) && |a| > 0 && IsSpace(a[|a| - 1])
    requires StartsWithUrl(link) && NoSpace(link)
    requires UrlFree(b) && (|b| == 0 || IsSpace(b[0]))
    ensures StripUrls(a + link + b) == a + b
  {
    var t := link + b;
    assert a + link + b == a + t;
    StripUrlsSpacedPrefix(a, t);
    LeadingLinkMatch(link, b);
    assert t[|link|..] == b;
    StripUrlsKeepsUrlFree(b);
  }

  /** No match starts before position `k` of `s`. */
  predicate NoMatchBefore(s: string, k: nat) {
    forall i :: 0 <= i < k && i < |s| ==> !MatchAt(s, i)
  }

  lemma NoMatchBeforeTail(s: string, k: nat)
    requires 0 < k <= |s| && NoMatchBefore(s, k)
    ensures !StartsWithUrl(s) && NoMatchBefore(s[1..], k - 1)
  {
    assert s[0..] == s && !MatchAt(s, 0);
    forall i | 0 <= i < k - 1 && i < |s[1..]|
      ensures !MatchAt(s[1..], i)
    {
      assert s[1..][i..] == s[i + 1..];
      assert !MatchAt(s, i + 1);
    }
  }

  /** Where no match starts, the stage keeps the first character. */
  lemma StripUrlsKeepsHead(s: string)
    requires |s| > 0 && !StartsWithUrl(s)
    ensures StripUrls(s) == [s[0]] + StripUrls(s[1..])
  {
  }

  /** One step of the scan over a prefix: the first character is kept when
      no match starts at it. */
  lemma StripUrlsConsHead(a: string, x: string)
    requires |a| > 0 && !StartsWithUrl(a + x)
    requires StripUrls(a[1..] + x) == a[1..] + StripUrls(x)
    ensures StripUrls(a + x) == a + StripUrls(x)
  {
    var s := a + x;
    var rest := StripUrls(x);
    assert s[1..] == a[1..] + x;
    StripUrlsKeepsHead(s);
    assert StripUrls(s) == [a[0]] + (a[1..] + rest);
    assert [a[0]] + (a[1..] + rest) == ([a[0]] + a[1..]) + rest;
    assert [a[0]] + a[1..] == a;
  }

  /** A prefix in which no match starts passes through unchanged. */
  lemma {:induction false} StripUrlsKeepsPrefix(a: string, x: string)
    requires NoMatchBefore(a + x, |a|)
    ensures StripUrls(a + x) == a + StripUrls(x)
    decreases |a|
  {
    if |a| > 0 {
      var s := a + x;
      assert s[1..] == a[1..] + x;
      NoMatchBeforeTail(s, |a|);
      StripUrlsKeepsPrefix(a[1..], x);
      StripUrlsConsHead(a, x);
    } else {
      assert a + x == x;
    }
  }
}
