/**
  Particular inputs run through the model: the behaviours of `cleanText`
  (controller/readEmails.js, lines 14-24) that are easiest to see on one
  string or one shape of string, including the ones that break natural
  expectations.
 */
module Scenarios {
  import opened CharClass
  import opened UrlStrip
  import opened AngleStrip
  import opened Newlines
  import opened Cleaner

  /** Only lower-case schemes match: an upper-case `HTTP://` link is kept. */
  lemma UpperCaseSchemeKept()
    ensures StripUrls("HTTP://x") == "HTTP://x"
  {
    var s := "HTTP://x";
    assert UrlFree(s) by {
      forall i | 0 <= i < |s|
        ensures !StartsWithUrl(s[i..])
      {
        assert s[i..][..0] == [];
        if |s[i..]| >= 7 {
          assert s[i..][0] == s[i] != 'h';
        }
      }
    }
    StripUrlsKeepsUrlFree(s);
  }

  /** A link between two words is removed; the spaces before and after it
      both stay. */
  lemma LinkBetweenWords()
    ensures StripUrls("a http://b c") == "a  c"
  {
    assert UrlFree("a ") by {
      assert |"a "[0..]| < 7 && |"a "[1..]| < 7;
    }
    assert UrlFree(" c") by {
      assert |" c"[0..]| < 7 && |" c"[1..]| < 7;
    }
    assert StartsWithUrl("http://b");
    StripUrlsLinkBetween("a ", "http://b", " c");
    assert "a " + "http://b" + " c" == "a http://b c";
    assert "a " + " c" == "a  c";
  }

  /** A Windows line break, or any mix of spaces, tabs and line breaks
      between two words, becomes exactly one line feed. */
  lemma CrLfBetweenWords()
    ensures CollapseNewlines("a\r\n \tb") == "a\nb"
  {
    CollapseBetweenWords("a", "\r\n \t", "b");
    assert "a" + "\r\n \t" + "b" == "a\r\n \tb";
    assert '\n' in "\r\n \t";
    assert "a" + "\n" + "b" == "a\nb";
  }

  /** On other text the second replace does act: two line feeds around
      whitespace become a blank line. */
  lemma MergeBlankLinesActs()
    ensures MergeBlankLines("a\n \nb") == "a\n\nb"
  {
    var s := "a\n \nb";
    var t := s[1..];
    assert t == "\n \nb";
    var u := t[1..];
    assert u == " \nb";
    assert u[..2] == " \n";
    SpaceRunExact(u, 2);
    assert u[..SpaceRun(u)][1] == '\n';
    assert LastNewline(u[..2]) == 1;
    assert t[3..] == "b";
    assert MergeBlankLines("b") == "b";
    assert MergeBlankLines(t) == "\n\n" + MergeBlankLines("b");
  }
  /** A double space inside a line stays. */
  lemma DoubleSpaceKept()
    ensures CleanText("a  b") == "a  b"
  {
    assert UrlFree("a  b") by {
      forall i | 0 <= i < 4
        ensures !StartsWithUrl("a  b"[i..])
      {
        assert |"a  b"[i..]| < 7;
      }
    }
    assert NoAngles("a  b");
    CleanTextKeepsPlainLine("a  b");
  }

  /** `http<://` followed by any link-free word is match-free as a whole:
      the bracket breaks the scheme, and no other position holds an `h`. */
  lemma BracketedSchemeUrlFree(rest: string)
    requires UrlFree(rest)
    ensures UrlFree("http<://" + rest)
  {
    var s := "http<://" + rest;
    forall i | 0 <= i < |s|
      ensures !MatchAt(s, i)
    {
      if i == 0 {
        assert s[4] == '<';
      } else if i < 8 {
        assert s[i..][0] == s[i] != 'h';
      } else {
        assert s[i..] == rest[i - 8..];
        assert !MatchAt(rest, i - 8);
      }
    }
  }

  /** The URL stage keeps `http<://` + word. */
  lemma BracketedSchemeKept(rest: string)
    requires UrlFree(rest)
    ensures StripUrls("http<://" + rest) == "http<://" + rest
  {
    BracketedSchemeUrlFree(rest);
    StripUrlsKeepsUrlFree("http<://" + rest);
  }

  /** Proof helper: how the texts around the bracket split into pieces,
      stated apart so that no stage function is in scope. */
  lemma SchemeSplit(rest: string)
    ensures "http" + ['<'] + ("://" + rest) == "http<://" + rest
    ensures "http" + ("://" + rest) == "http://" + rest
  {
  }

  /** The bracket stage turns `http<://` + word into `http://` + word. */
  lemma BracketJoinsScheme(rest: string)
    requires NoAngles(rest)
    ensures DropAngles("http<://" + rest) == "http://" + rest
  {
    SchemeSplit(rest);
    assert NoAngles("://" + rest) by {
      var t := "://" + rest;
      forall i | 3 <= i < |t|
        ensures !IsAngle(t[i])
      {
        assert t[i] == rest[i - 3];
      }
    }
    DropOneAngle("http", '<', "://" + rest);
  }

  /** `http://` followed by a word is one word. */
  lemma SchemeWordNoSpace(rest: string)
    requires NoSpace(rest)
    ensures NoSpace("http://" + rest)
  {
    var t := "http://" + rest;
    forall i | 7 <= i < |t|
      ensures !IsSpace(t[i])
    {
      assert t[i] == rest[i - 7];
    }
  }

  /** Removing the bracket completes a link that the URL stage, which ran
      first, did not see: `http<://` + word comes out as `http://` + word. */
  lemma BracketCompletesLink(rest: string)
    requires |rest| > 0 && NoSpace(rest) && NoAngles(rest) && UrlFree(rest)
    ensures CleanText("http<://" + rest) == "http://" + rest
  {
    var line := "http://" + rest;
    BracketedSchemeKept(rest);
    BracketJoinsScheme(rest);
    SchemeWordNoSpace(rest);
    assert '\n' !in line by {
      assert forall i :: 0 <= i < |line| ==> line[i] != '\n';
    }
    assert line[|line| - 1] == rest[|rest| - 1];
    CleanTextOfLine("http<://" + rest, line);
  }

  /** A link on its own, `http://` followed by one word, is removed
      entirely. */
  lemma LinkAloneRemoved(rest: string)
    requires |rest| > 0 && NoSpace(rest)
    ensures CleanText("http://" + rest) == []
  {
    var t := "http://" + rest;
    assert SchemeLen(t) == 7;
    assert t[7] == rest[0];
    SchemeWordNoSpace(rest);
    LeadingLinkMatch(t, []);
    assert t + [] == t;
    assert StripUrls(t) == StripUrls(t[|t|..]) == [];
    CleanTextOfLine(t, []);
  }

  /** Cleaning is not idempotent: a second pass removes the link that the
      first pass created, as in `http<://x.y`. */
  lemma CleanTextNotIdempotent(rest: string)
    requires |rest| > 0 && NoSpace(rest) && NoAngles(rest) && UrlFree(rest)
    ensures CleanText(CleanText("http<://" + rest)) != CleanText("http<://" + rest)
  {
    BracketCompletesLink(rest);
    LinkAloneRemoved(rest);
  }
}
