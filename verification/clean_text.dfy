/**
  `cleanText` (controller/readEmails.js, lines 14-24): the e-mail body
  cleaner, the composition of its four stages in source order.
 */
module Cleaner {
  import opened CharClass
  import opened Subsequence
  import opened UrlStrip
  import opened AngleStrip
  import opened Newlines
  import opened Trimming

  /** The four stages in source order, before any fact is attached. */
  function Pipeline(text: string): string {
    Trim(MergeBlankLines(CollapseNewlines(DropAngles(StripUrls(text)))))
  }

  lemma PipelineShape(text: string)
    ensures NewlinesIsolated(Pipeline(text))
    ensures |Pipeline(text)| == 0
      || (!IsSpace(Pipeline(text)[0]) && !IsSpace(Pipeline(text)[|Pipeline(text)| - 1]))
  {
    var collapsed := CollapseNewlines(DropAngles(StripUrls(text)));
    CollapseIsolates(DropAngles(StripUrls(text)));
    MergeBlankLinesNoOp(collapsed);
    TrimKeepsIsolated(collapsed);
  }

  lemma PipelineKeepsText(text: string)
    ensures Squeeze(Pipeline(text)) == Squeeze(DropAngles(StripUrls(text)))
  {
    var noAngles := DropAngles(StripUrls(text));
    var collapsed := CollapseNewlines(noAngles);
    MergeBlankLinesNoOp(collapsed) by {
      CollapseIsolates(noAngles);
    }
    CollapseKeepsText(noAngles);
    TrimKeepsText(collapsed);
  }

  lemma PipelineSubseq(text: string)
    ensures IsSubseq(Pipeline(text), DropAngles(StripUrls(text)))
    ensures IsSubseq(Pipeline(text), text)
  {
    var noUrls := StripUrls(text);
    var noAngles := DropAngles(noUrls);
    var collapsed := CollapseNewlines(noAngles);
    var r := Pipeline(text);
    MergeBlankLinesNoOp(collapsed) by {
      CollapseIsolates(noAngles);
    }
    TrimSubseq(collapsed);
    CollapseSubseq(noAngles);
    SubseqTrans(r, collapsed, noAngles);
    StripUrlsSubseq(text);
    DropAnglesSubseq(noUrls);
    SubseqTrans(r, noAngles, noUrls);
    SubseqTrans(r, noUrls, text);
  }

  lemma PipelineNoAngles(text: string)
    ensures NoAngles(Pipeline(text))
  {
    var r := Pipeline(text);
    var noAngles := DropAngles(StripUrls(text));
    PipelineSubseq(text);
    SubseqChars(r, noAngles);
    forall i | 0 <= i < |r|
      ensures !IsAngle(r[i])
    {
      var j :| 0 <= j < |noAngles| && noAngles[j] == r[i];
    }
  }

  /** The cleaned body. The output has no angle bracket and no whitespace at
      either end. No line feed in it touches whitespace. It is the input with
      some characters deleted, and its non-whitespace text is exactly that of
      the input once the links and brackets are gone. The second replace of
      line 20 drops out: the output is the trimmed result of the first
      replace, so with `CollapseWord` and `CollapseRun` every whitespace run
      becomes one line feed when it holds one and stays verbatim otherwise,
      unless it is cut off at either end. */
  function CleanText(text: string): (r: string)
    ensures NoAngles(r)
    ensures |r| == 0 || (!IsSpace(r[0]) && !IsSpace(r[|r| - 1]))
    ensures NewlinesIsolated(r)
    ensures IsSubseq(r, text) && |r| <= |text|
    ensures Squeeze(r) == Squeeze(DropAngles(StripUrls(text)))
    ensures r == Trim(CollapseNewlines(DropAngles(StripUrls(text))))
  {
    CollapseIsolates(DropAngles(StripUrls(text)));
    MergeBlankLinesNoOp(CollapseNewlines(DropAngles(StripUrls(text))));
    PipelineShape(text);
    PipelineKeepsText(text);
    PipelineSubseq(text);
    PipelineNoAngles(text);
    SubseqLength(Pipeline(text), text);
    Pipeline(text)
  }

  /** The output is empty exactly when nothing but whitespace is left once
      the links and brackets are gone. */
  lemma CleanTextEmpty(text: string)
    ensures CleanText(text) == [] <==> AllSpace(DropAngles(StripUrls(text)))
  {
    var r := CleanText(text);
    if |r| > 0 {
      assert Squeeze(r) != [];
    }
  }

  /** Empty or all-whitespace input gives the empty string. */
  lemma CleanTextBlankInput(text: string)
    requires AllSpace(text)
    ensures CleanText(text) == []
  {
    var rest := DropAngles(StripUrls(text));
    StripUrlsSubseq(text);
    DropAnglesSubseq(StripUrls(text));
    SubseqTrans(rest, StripUrls(text), text);
    SubseqChars(rest, text);
    CleanTextEmpty(text);
  }

  /** No blank line survives, although the comment on line 19 and the second
      replace on line 20 suggest paragraph breaks are kept. */
  lemma CleanTextNoBlankLines(text: string)
    ensures forall i :: 0 <= i < |CleanText(text)| - 1 ==>
      !(CleanText(text)[i] == '\n' && CleanText(text)[i + 1] == '\n')
  {
  }

  /** When what the first two stages leave is a single line without
      whitespace at its ends, the last two stages change nothing. */
  lemma CleanTextOfLine(text: string, line: string)
    requires DropAngles(StripUrls(text)) == line
    requires '\n' !in line
    requires |line| == 0 || (!IsSpace(line[0]) && !IsSpace(line[|line| - 1]))
    ensures CleanText(text) == line
  {
    CollapseNoNewline(line);
    MergeBlankLinesNoOp(line);
    TrimKeepsTrimmed(line);
  }

  /** A single line without links or brackets and without whitespace at its
      ends is returned unchanged: runs of spaces or tabs inside a line are
      not collapsed. */
  lemma CleanTextKeepsPlainLine(text: string)
    requires UrlFree(text) && NoAngles(text) && '\n' !in text
    requires |text| == 0 || (!IsSpace(text[0]) && !IsSpace(text[|text| - 1]))
    ensures CleanText(text) == text
  {
    StripUrlsKeepsUrlFree(text);
    DropAnglesIdentity(text);
    CleanTextOfLine(text, text);
  }

  /** When the first two stages leave two words around a whitespace run,
      the run becomes one line feed if it holds one and stays verbatim
      otherwise. */
  lemma CleanTextWordsAroundRun(text: string, u: string, w: string, v: string)
    requires DropAngles(StripUrls(text)) == u + w + v
    requires |u| > 0 && NoSpace(u) && |v| > 0 && NoSpace(v)
    requires |w| > 0 && AllSpace(w)
    ensures CleanText(text) == u + (if '\n' in w then "\n" else w) + v
  {
    var line := u + w + v;
    var r := u + (if '\n' in w then "\n" else w) + v;
    CollapseBetweenWords(u, w, v);
    CollapseIsolates(line);
    MergeBlankLinesNoOp(r);
    assert r[0] == u[0] && r[|r| - 1] == v[|v| - 1];
    TrimKeepsTrimmed(r);
  }
}
