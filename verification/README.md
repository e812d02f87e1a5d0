# E-mail body cleaner, modelled in Dafny

The mail reader passes the plain-text body of every message through
`cleanText` (controller/readEmails.js, lines 14-24) before storing it. The
function runs four stages in order:

1. It deletes links: a global replace of `https?://` followed by a run of
   non-whitespace characters.
2. It deletes every `<` and `>`.
3. It does two global replaces on line feeds. The first turns every
   whitespace run that holds a line feed into one line feed. The second
   turns a line feed, whitespace, and another line feed into a blank line.
4. It trims whitespace at both ends.

Each stage is a pure function on strings. Strings are `seq<char>`, and a
`char` is a Unicode scalar value. Whitespace (`CharClass.IsSpace`) is the
full ECMAScript `\s` set, which is also the set `String.prototype.trim`
removes. A global regex replace is modelled as the left-to-right scan
JavaScript performs. At each position the scan either deletes (or
replaces) the leftmost, greedy match there and resumes after it, or keeps
one character and moves on.

Modules, one file each:

- `CharClass` (char_class.dfy): whitespace, runs, and the
  whitespace-free view `Squeeze` that states "nothing else changes".
- `Subsequence` (subsequence.dfy): the subsequence order.
- `UrlStrip` (url_strip.dfy): stage 1.
- `AngleStrip` (angle_strip.dfy): stage 2.
- `Newlines` (newlines.dfy): stage 3.
- `Trimming` (trim.dfy): stage 4.
- `Cleaner` (clean_text.dfy): `CleanText`, the composition.
- `Scenarios` (scenarios.dfy): particular inputs.

What the code does, and what a reader might expect instead:

- Runs of spaces or tabs inside a line are kept verbatim. `a  b` stays
  `a  b`.
- A run that holds line feeds, such as `\r\n`, several line feeds, or
  line feeds mixed with spaces and tabs, becomes exactly one `\n`. So
  blank lines (paragraph breaks) do not survive, although the comment on
  line 19 and the second replace on line 20 suggest they should.
- The second replace on line 20 can never act on what the first one
  leaves. It is modelled anyway, and proved to change nothing there.
- Cleaning is not idempotent. Deleting the bracket in `http<://x.y` forms
  a link that the URL stage, which already ran, missed. A second pass
  deletes it.
- A link between two words is deleted but the spaces on both sides stay.
  For example, `Check https://example.com now.\n\n\nThanks.` becomes
  `Check  now.\nThanks.`, with two spaces.
- Only lower-case schemes match. `HTTP://x` is kept.

## Model

| member | source | states |
|---|---|---|
| CharClass.IsSpace | controller/readEmails.js:16-22 | the whitespace class `\s` of lines 16 and 20, which is also the set `trim()` removes on line 22: tab, line feed, vertical tab, form feed, carriage return, space, no-break space, U+1680, U+2000-U+200A, line and paragraph separator, U+202F, U+205F, U+3000 and the byte order mark |
| UrlStrip.StartsWithUrl | controller/readEmails.js:16 | the pattern `https?:\/\/[^\s]+` matches at the front of the text: a lower-case scheme followed by at least one non-whitespace character |
| AngleStrip.IsAngle | controller/readEmails.js:18 | the class `[<>]` |
| Newlines.RunHasNewline | controller/readEmails.js:20 | the pattern `\s*\n\s*` matches at the front of the text exactly when the maximal whitespace run there holds a line feed |
| UrlStrip.SchemeLen | controller/readEmails.js:16 | the length of the scheme `https?://` at the front: 8 exactly when the text starts with `https://`, 7 exactly when it starts with `http://`, and otherwise 0; the scheme holds no whitespace |
| UrlStrip.UrlMatchLen | controller/readEmails.js:16 | a match runs past the scheme through the whole non-whitespace run: it holds no whitespace and ends at whitespace or at the end of the text (greedy `[^\s]+`) |
| UrlStrip.StripUrls | controller/readEmails.js:16 | the URL stage never lengthens the text |
| UrlStrip.StripUrlsUrlFree | controller/readEmails.js:16 | after the stage no position starts a match: no `http://` or `https://` followed by a non-whitespace character is left |
| UrlStrip.StripUrlsKeepsUrlFree | controller/readEmails.js:16 | text without any match comes out unchanged |
| UrlStrip.StripUrlsIdempotent | controller/readEmails.js:16 | applying the URL stage twice gives the same result as applying it once |
| UrlStrip.StripUrlsKeepsSpaces | controller/readEmails.js:16 | every whitespace character of the input survives, in order, because matches hold no whitespace |
| UrlStrip.StripUrlsSubseq | controller/readEmails.js:16 | the output is a subsequence of the input: the stage only deletes |
| UrlStrip.StripUrlsLeadingWord | controller/readEmails.js:16 | the output's first word is a prefix of the input, so deletion never glues text onto the front of a word |
| UrlStrip.FrontUrlFromInput | controller/readEmails.js:16 | a match at the front of the output was already a match at the front of the input |
| UrlStrip.UrlWithinWord | controller/readEmails.js:16 | the scheme and the character after it lie inside one word |
| UrlStrip.StartsWithUrlSharedPrefix | controller/readEmails.js:16 | whether a match starts at the front depends only on the scheme and the character after it |
| UrlStrip.StripUrlsKeepsPrefix | controller/readEmails.js:16 | a prefix in which no match starts passes through unchanged, followed by the stage applied to the rest |
| UrlStrip.StripUrlsSpacedPrefix | controller/readEmails.js:16 | match-free text that ends in whitespace passes through unchanged, whatever follows it |
| UrlStrip.LeadingLinkMatch | controller/readEmails.js:16 | a link at the front that runs up to whitespace or the end of the text is exactly one match |
| UrlStrip.StripUrlsLinkBetween | controller/readEmails.js:16 | a whole link between match-free texts is deleted and the whitespace on both sides of it is kept |
| AngleStrip.DropAngles | controller/readEmails.js:18 | the output holds no `<` or `>` and is no longer than the input |
| AngleStrip.DropAnglesIdentity | controller/readEmails.js:18 | the stage leaves the text unchanged exactly when it holds no bracket (both directions) |
| AngleStrip.DropAnglesCounts | controller/readEmails.js:18 | each character other than a bracket occurs as often as before; brackets occur zero times |
| AngleStrip.DropAnglesKeepsSpaces | controller/readEmails.js:18 | the whitespace is untouched, in order |
| AngleStrip.DropAnglesSubseq | controller/readEmails.js:18 | the output is a subsequence of the input |
| AngleStrip.DropAnglesAppend | controller/readEmails.js:18 | the stage distributes over concatenation, since it works one character at a time |
| AngleStrip.DropOneAngle | controller/readEmails.js:18 | a single bracket between bracket-free texts is the only thing deleted |
| Newlines.RunHasNewlineStep | controller/readEmails.js:20 | the pattern `\s*\n\s*` matches at a whitespace character exactly when that character is a line feed or the pattern matches right after it |
| Newlines.CollapseNewlines | controller/readEmails.js:20 | the first replace never lengthens the text |
| Newlines.CollapseFront | controller/readEmails.js:20 | the output starts with a line feed when the leading run holds one, and otherwise with the input's first character |
| Newlines.CollapseIsolates | controller/readEmails.js:20 | after the first replace, no line feed has whitespace directly before or after it |
| Newlines.CollapseKeepsText | controller/readEmails.js:20 | the non-whitespace text is unchanged |
| Newlines.CollapseSubseq | controller/readEmails.js:20 | the output is a subsequence of the input: the line feed that replaces a run is one of the run's own characters |
| Newlines.CollapseWord | controller/readEmails.js:20 | a whitespace-free word passes through unchanged |
| Newlines.CollapseRun | controller/readEmails.js:20 | a maximal whitespace run becomes one line feed when it holds one and is kept verbatim otherwise |
| Newlines.CollapseNoNewline | controller/readEmails.js:20 | text without a line feed is unchanged, so runs of spaces or tabs are not collapsed |
| Newlines.CollapseBetweenWords | controller/readEmails.js:20 | between two words, a run holding a line feed (such as `\r\n` with spaces and tabs) becomes exactly `\n`, and any other run is kept |
| Newlines.LastNewline | controller/readEmails.js:20 | the index of the last line feed, which is where backtracking ends a match of `\n\s*\n` |
| Newlines.MergeBlankLines | controller/readEmails.js:20 | the second replace never lengthens the text |
| Newlines.MergeBlankLinesNoOp | controller/readEmails.js:20 | once every line feed is isolated, the second replace changes nothing |
| Trimming.TrimStart | controller/readEmails.js:22 | the result is the suffix that starts at the first non-whitespace character; everything cut off is whitespace |
| Trimming.TrimEnd | controller/readEmails.js:22 | the result is the prefix that ends at the last non-whitespace character; everything cut off is whitespace |
| Trimming.Trim | controller/readEmails.js:22 | the result is the leading part of the text with its leading whitespace stripped, only whitespace follows it there, and it has no whitespace at either end |
| Trimming.TrimIsSlice | controller/readEmails.js:22 | the result is a contiguous slice of the input, and only whitespace is cut off on each side |
| Trimming.TrimKeepsTrimmed | controller/readEmails.js:22 | text without whitespace at its ends is unchanged |
| Trimming.TrimIdempotent | controller/readEmails.js:22 | trimming twice gives the same result as trimming once |
| Trimming.TrimEmpty | controller/readEmails.js:22 | the result is empty exactly when the input is all whitespace, including the empty string |
| Trimming.TrimKeepsText | controller/readEmails.js:22 | the non-whitespace text is unchanged |
| Trimming.TrimSubseq | controller/readEmails.js:22 | the result is a subsequence of the input |
| Trimming.TrimKeepsIsolated | controller/readEmails.js:22 | trimming keeps every line feed isolated from whitespace |
| Cleaner.CleanText | controller/readEmails.js:14-24 | the cleaned body has no angle bracket and no whitespace at either end; no line feed touches whitespace; it is a subsequence of the input and no longer; its non-whitespace text is exactly the input's once links and brackets are gone; and it equals the trimmed result of the first replace of line 20 on what the first two stages leave, so the second replace drops out and every whitespace run is treated as `Newlines.CollapseRun` states |
| Cleaner.CleanTextEmpty | controller/readEmails.js:14-24 | the output is empty exactly when only whitespace is left once links and brackets are gone |
| Cleaner.CleanTextBlankInput | controller/readEmails.js:14-24 | empty or all-whitespace input gives the empty string |
| Cleaner.CleanTextNoBlankLines | controller/readEmails.js:19-20 | the output never holds two adjacent line feeds, so no blank line survives |
| Cleaner.CleanTextOfLine | controller/readEmails.js:14-24 | when the first two stages leave one line without whitespace at its ends, the last two stages change nothing |
| Cleaner.CleanTextKeepsPlainLine | controller/readEmails.js:14-24 | a single line without links, brackets or whitespace at its ends is returned unchanged, inner runs of spaces and tabs included |
| Cleaner.CleanTextWordsAroundRun | controller/readEmails.js:14-24 | two words around a whitespace run come out with the run replaced by one `\n` when it holds a line feed, and kept verbatim otherwise |
| Scenarios.UpperCaseSchemeKept | controller/readEmails.js:16 | `HTTP://x` is not a match, because the pattern is case-sensitive |
| Scenarios.LinkBetweenWords | controller/readEmails.js:16 | `a http://b c` becomes `a  c`, keeping both spaces |
| Scenarios.CrLfBetweenWords | controller/readEmails.js:20 | `a\r\n \tb` becomes `a\nb` |
| Scenarios.MergeBlankLinesActs | controller/readEmails.js:20 | on text that still has whitespace between line feeds, the second replace acts: `a\n \nb` becomes `a\n\nb` |
| Scenarios.DoubleSpaceKept | controller/readEmails.js:14-24 | cleaning `a  b` keeps the double space |
| Scenarios.BracketedSchemeUrlFree | controller/readEmails.js:16 | `http<://` followed by any link-free word holds no match |
| Scenarios.BracketedSchemeKept | controller/readEmails.js:16 | the URL stage keeps `http<://` followed by any link-free word |
| Scenarios.BracketJoinsScheme | controller/readEmails.js:18 | the bracket stage turns `http<://` + word into `http://` + word |
| Scenarios.BracketCompletesLink | controller/readEmails.js:14-24 | cleaning `http<://` + word gives the link `http://` + word, because the bracket stage runs after the URL stage |
| Scenarios.LinkAloneRemoved | controller/readEmails.js:14-24 | cleaning `http://` + word gives the empty string |
| Scenarios.CleanTextNotIdempotent | controller/readEmails.js:14-24 | cleaning `http<://` + word twice differs from cleaning it once |

## Left out

- The IMAP session, mailbox search, fetch and stream handling (controller/readEmails.js:26-99) are I/O. They are not modelled.
- `simpleParser` and the parsed-mail object are foreign code. The model starts from the body string handed to `cleanText`.
- A missing body is left out. When the parsed text is `undefined`, `cleanText` throws; the model only takes strings.
- Loading credentials and IMAP settings from the environment (controller/readEmails.js:1-12) and the console logging are configuration and output. They are not modelled.
- models/storeEmailModel.js is a storage schema. It is not part of this model.
- Admitting a message by sender and time window, de-duplication and digest building do not occur in controller/readEmails.js. They are not modelled.
- Strings are sequences of Unicode scalar values, while JavaScript strings are UTF-16 code units. Lone surrogates cannot be represented. This makes no difference to whitespace, which lies entirely in the Basic Multilingual Plane.
- UrlStrip.StripUrls: the function's own contract only bounds the length. What the stage computes is stated by the StripUrls* lemmas in the table above.
- AngleStrip.DropAngles: the function's own contract states only that no bracket is left and that the length does not grow. What the stage computes is stated by the DropAngles* lemmas in the table above.
- Newlines.CollapseNewlines: the function's own contract only bounds the length. What the stage computes is stated by the Collapse* lemmas in the table above.
- Newlines.MergeBlankLines: the function's own contract only bounds the length. What the stage computes is stated by Newlines.MergeBlankLinesNoOp and Scenarios.MergeBlankLinesActs in the table above.
