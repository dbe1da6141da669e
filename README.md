# parseBook, modelled in Dafny

This project models `parseBook` of `scripts/parseBook.js`, the scanner that turns the text of
*The Daily Stoic* into one record per day: `month`, `day`, `title`, `quote`, `reference`,
`context` and `date_key`.

The scanner works line by line:

- a trimmed line that matches the date-header pattern (a month name, a day with an ordinal
  suffix, a title) opens a meditation;
- its quote is gathered from the non-blank lines of the next nine, up to the first one that
  holds an em dash, and the joined block is cut at its last em dash into quote and reference;
- its commentary runs from there to the next line with the header prefix;
- the record is kept when quote, reference and commentary are all non-empty, and the scan
  goes on at the line where the commentary stopped.

The files:

- `wrappers.dfy`: the `Option` type.
- `strings.dfy`: the JavaScript string built-ins the scanner uses: `trim`, `split('\n')`,
  `join`, `lastIndexOf`, `toLowerCase`, `padStart` and `parseInt` on digit strings. White
  space is the ECMAScript set (white space and line terminators), for `trim` and `\s` alike.
- `date_patterns.dfy`: the two regular expressions, the header pattern of line 33 and the
  prefix pattern of line 107, written out as functions. Each has a completeness lemma, and
  the lemmas state where the two agree and where they differ.
- `meditation.dfy`: the record, its `date_key`, and the cut of a quotation into quote and
  reference with the quote-mark cleanup.
- `book_scanner.dfy`: the scan.
  - `Scan` is the reference definition. It works over what each line reads as (`Line`: the
    trimmed text, the header it matches, whether it has the header prefix) and covers one
    header at a time (`Step`, `Sections`, `Kept`, `Records`).
  - `ParseBook` is the source's loop over the raw lines. It is imperative Dafny: a `while`
    loop whose cursor is reassigned, the two inner loops (`ScanQuote`, `ScanContext`) with
    `continue` and `break`, and sequences grown by appending. It is proved to return exactly
    `Scan` of the lines it splits.
  - `Describes` ties the line views to the raw lines at the points where the loop trims a
    line or matches a pattern on it.

In the dash branch of the quote loop, the cursor moves past the dash line before the joined
lines are cut, not after. The cut does not read the cursor, so the result is the same.

The repository's documentation says the surrounding quotes are removed from the quote. The
code (line 79) removes at most one double quote from each end and does not trim again. The
model follows the code: see `Meditations.StripQuotesOnce`.

## Model

| member | source | states |
|---|---|---|
| Strings.Trim | scripts/parseBook.js:30 | the trimmed line has no white space at either end |
| Strings.TrimSlice | scripts/parseBook.js:30 | the trimmed text is the slice that starts after the leading white space, only white space follows it, and it is empty exactly when the line is all white space |
| Strings.TrimOfTrimmed | scripts/parseBook.js:115 | trimming a string that is already trimmed changes nothing |
| Strings.JoinNonBlankTrimmed | scripts/parseBook.js:115 | trimmed non-blank lines joined with spaces give a trimmed string, empty exactly when there are no lines, so the `trim()` after the join changes nothing |
| Strings.SplitLines | scripts/parseBook.js:26 | splitting at line feeds gives at least one piece, and no piece holds a line feed |
| Strings.JoinSplitLines | scripts/parseBook.js:26 | joining the pieces with line feeds gives the text back |
| Strings.SplitJoinLines | scripts/parseBook.js:26 | splitting lines without line feeds, joined by line feeds, gives the lines back |
| Strings.IndexOf | scripts/parseBook.js:26 | -1 exactly when the character is absent, otherwise its first position |
| Strings.LastIndexOf | scripts/parseBook.js:73 | -1 exactly when the character is absent, otherwise its last position |
| Strings.RunEndCovers | scripts/parseBook.js:33 | a greedy `\s+` or `\d+` run covers only characters of its class |
| Strings.RunEndAt | scripts/parseBook.js:33 | the greedy run from `i` ends at `j` when all characters in between are of the class and the one at `j` is not |
| Strings.Lower | scripts/parseBook.js:45 | lower-casing keeps the length and lowers each character |
| Strings.PadStart | scripts/parseBook.js:45 | the padded string has length max(width, its own length), ends with the string and has only the fill character in front |
| Strings.JoinPush | scripts/parseBook.js:70 | `join`: one more part pushed onto the collected lines adds the separator and that part to the joined text |
| Strings.JoinAvoids | scripts/parseBook.js:70 | a character in neither the parts nor the separator is not in their join |
| Strings.DecimalValueZero | scripts/parseBook.js:40 | `parseInt` of a digit string is zero exactly when every digit is `0` |
| Strings.LeadingZerosKeepValue | scripts/parseBook.js:40 | leading zeros do not change the value `parseInt` gives a digit string |
| Strings.PaddingKeepsValue | scripts/parseBook.js:40-45 | the padded day is still a digit string with the same value |
| Strings.SamePaddingSameValue | scripts/parseBook.js:40-45 | two digit strings with the same padded text have the same value |
| DatePatterns.MonthFrom | scripts/parseBook.js:33 | the alternation tried from position `i` finds a name the line begins with, or the line begins with none of the remaining names |
| DatePatterns.MatchMonth | scripts/parseBook.js:33 | the month group matches a name the line begins with, and fails only when the line begins with no month name |
| DatePatterns.NamesPrefixFree | scripts/parseBook.js:33 | no month name begins another |
| DatePatterns.MatchMonthUnique | scripts/parseBook.js:33 | a line that begins with a month name is matched by that month |
| DatePatterns.MatchDateStart | scripts/parseBook.js:33 | a match of the date part is a month name, white space, digits and an ordinal suffix whose text, with the rest, is the line |
| DatePatterns.MatchDateStartComplete | scripts/parseBook.js:33 | every well-formed date part is matched, with exactly its parts |
| DatePatterns.SplitTitle | scripts/parseBook.js:33 | `\s+(.+)$` cuts the rest into white space and a non-empty title without line terminators, which together are the rest |
| DatePatterns.SplitTitleComplete | scripts/parseBook.js:33 | every white space and title of that shape is cut back into exactly those parts |
| DatePatterns.ParseHeader | scripts/parseBook.js:33-36 | a header match is well formed and its parts put together are the line |
| DatePatterns.ParseHeaderComplete | scripts/parseBook.js:33-36 | every well-formed header line is matched, with exactly its month, digits and title |
| DatePatterns.HeaderHasPrefix | scripts/parseBook.js:107 | a line the header pattern of line 33 matches also has the header prefix |
| DatePatterns.PrefixIsHeaderOnTrimmedLine | scripts/parseBook.js:107 | on a trimmed line without line terminators, the prefix pattern matches only where the header pattern does |
| DatePatterns.PrefixComplete | scripts/parseBook.js:107 | `IsHeaderPrefix`: a well-formed date part followed by the rest of the line has the prefix exactly when the rest begins with white space |
| DatePatterns.PrefixWithoutHeader | scripts/parseBook.js:107 | a trimmed line whose title holds a carriage return has the prefix but is not a header |
| Meditations.HeaderParts | scripts/parseBook.js:36-40 | the day of a header is a decimal digit string and its month one of the twelve names |
| Meditations.DateKeyDash | scripts/parseBook.js:45 | `DateKey`: for a month without a dash, the key is the lowered month, then a dash, then the day padded to two digits, and no dash comes before that one |
| Meditations.DateKeyDay | scripts/parseBook.js:40-45 | the digits after the key's dash have the value of the day |
| Meditations.DateKeyDeterminesDate | scripts/parseBook.js:45 | two headers with the same key have the same month and the same day |
| Meditations.DateKeyExamples | scripts/parseBook.js:45 | "March" with "3" gives `march-03`, and "123" stays unpadded |
| Meditations.StripQuotes | scripts/parseBook.js:79 | the cleanup removes at most one character from each end |
| Meditations.StripQuotesSlice | scripts/parseBook.js:79 | the cleanup keeps the text less `a` characters at the front and `b` at the back, where `a` is 1 exactly when the text begins with a double quote and `b` is 1 exactly when a double quote ends what is left after that, and both are 0 otherwise |
| Meditations.StripLeadingOnly | scripts/parseBook.js:79 | a double quote that only opens the text is dropped and the rest is kept |
| Meditations.StripTrailingOnly | scripts/parseBook.js:79 | a double quote that only closes the text is dropped and the rest is kept |
| Meditations.StripQuoted | scripts/parseBook.js:79 | stripping undoes quoting, whatever the quoted text holds |
| Meditations.StripUnquoted | scripts/parseBook.js:79 | text that neither begins nor ends with a quote is left alone |
| Meditations.StripQuotesOnce | scripts/parseBook.js:79 | doubled quotes keep one quote on each side |
| Meditations.StripLoneQuote | scripts/parseBook.js:79 | a lone quote is removed and nothing else happens |
| Meditations.SplitQuoteCuts | scripts/parseBook.js:72-83 | `SplitQuote`: with no em dash after the first character, quote and reference stay empty; the reference is always trimmed and free of em dashes |
| Meditations.SplitQuoteRoundTrip | scripts/parseBook.js:72-83 | a quoted quote, a space, an em dash and a trimmed dash-free reference split back into that quote and reference |
| BookScanner.ReadLines | scripts/parseBook.js:30-33 | each line reads as its trimmed text, the header matched on that text and whether the prefix pattern matches it |
| BookScanner.Window | scripts/parseBook.js:54 | the look-ahead ends nine lines after the header or at the end of the text, whichever comes first |
| BookScanner.NonBlank | scripts/parseBook.js:57-63 | the collected lines are trimmed and non-blank, at most one per line passed |
| BookScanner.NonBlankNext | scripts/parseBook.js:57-63 | a blank line adds nothing to the collected lines, any other adds its text |
| BookScanner.NonBlankDashFree | scripts/parseBook.js:57-63 | lines without an em dash collect texts without one |
| BookScanner.QuotationDashFree | scripts/parseBook.js:57-70 | lines without an em dash join into a quotation without one |
| BookScanner.QuoteWithoutDash | scripts/parseBook.js:70-83 | `QuoteOf`: quote lines that hold no em dash give neither quote nor reference |
| BookScanner.QuoteEnd | scripts/parseBook.js:54-66 | the quote ends after the first line of the window with an em dash, and there is none exactly when no line of the window holds one |
| BookScanner.QuoteEndAt | scripts/parseBook.js:54-86 | when the first dash of the window is on line `q - 1`, the quote ends at `q` |
| BookScanner.ContextEnd | scripts/parseBook.js:98-109 | the commentary stops at the first non-blank line with the header prefix, or at the end, and no line before it has the prefix |
| BookScanner.Step | scripts/parseBook.js:29-123 | the cursor moves forward; a turn that covers nothing moves it by one, and a covered section starts at the header and ends where the cursor goes on |
| BookScanner.StepSkips | scripts/parseBook.js:92-93 | a line that is not a header, or a header with no em dash in the next nine lines, covers nothing, and the scan resumes at the next line |
| BookScanner.StepCovers | scripts/parseBook.js:54-122 | a header with an em dash in its window covers a section: the quote ends at the first dash line, the commentary holds no line with the prefix, and the scan resumes at the line with the prefix |
| BookScanner.StepFound | scripts/parseBook.js:54-122 | the section of a header runs from its quote end to the end of the commentary that starts there |
| BookScanner.Sections | scripts/parseBook.js:29-124 | the covered sections lie in the text after the start, each ending before the next begins |
| BookScanner.SectionsAreSteps | scripts/parseBook.js:29-124 | each covered section is the one the turn at its header line covers |
| BookScanner.SectionsSkip | scripts/parseBook.js:92-93 | a turn that covers nothing leaves the sections to the next line |
| BookScanner.SectionsCover | scripts/parseBook.js:122 | a covered section comes before those covered from the line where it ends |
| BookScanner.RecordOfHeader | scripts/parseBook.js:38-46 | `Record` and `Assemble`: a kept record has the month, title, day and key of its header, and a trimmed reference and commentary, the reference without an em dash |
| BookScanner.Kept | scripts/parseBook.js:118-120 | the kept sections lie in the text |
| BookScanner.KeptMembers | scripts/parseBook.js:118-120 | a section is kept exactly when it was covered and its record is complete |
| BookScanner.Records | scripts/parseBook.js:119 | one record per kept section, in the same order |
| BookScanner.MeditationsOfHeaders | scripts/parseBook.js:35-120 | `Scan`: every meditation returned is complete and built from the header its line reads as |
| BookScanner.BookMeditationsOfHeaders | scripts/parseBook.js:30-46 | the header of every meditation returned is what the header pattern matches on its trimmed line |
| BookScanner.DateKeysIdentifyDays | scripts/parseBook.js:45 | two meditations returned with the same `date_key` have the same month and day |
| BookScanner.SectionsInOrder | scripts/parseBook.js:122 | each covered section ends no later than the next one's header line |
| BookScanner.KeptInOrder | scripts/parseBook.js:118-120 | dropping the incomplete sections keeps the others in order |
| BookScanner.MeditationsInOrder | scripts/parseBook.js:119-122 | the meditations come in increasing order of their header lines, at most one per header |
| BookScanner.ScannedFound | scripts/parseBook.js:118-120 | passing a section adds it and its record to what the loop has done exactly when it is kept |
| BookScanner.ScannedTurn | scripts/parseBook.js:29-123 | one turn of the loop carries its invariant from line `i` to the line where it goes on |
| BookScanner.CutQuote | scripts/parseBook.js:72-83 | the quote and reference the code computes are the cut `SplitQuote` defines |
| BookScanner.CloseQuote | scripts/parseBook.js:69-83 | at the dash line, the collected lines joined and cut give the section's quote and reference |
| BookScanner.TrimLine | scripts/parseBook.js:55 | the trimmed line is the text the line reads as |
| BookScanner.ScanQuote | scripts/parseBook.js:49-90 | the quote loop finds a dash exactly when the window holds one, stops at the line after it, and returns the quote and reference of the lines before it |
| BookScanner.ScanContext | scripts/parseBook.js:97-115 | the commentary loop stops where `ContextEnd` says and returns the trimmed, space-joined non-blank lines before it |
| BookScanner.ReadMeditation | scripts/parseBook.js:36-115 | a header without a dash in its window covers nothing; otherwise the record built is the one of the section it covers, and the scan goes on where it ends |
| BookScanner.ScanLines | scripts/parseBook.js:27-126 | the loop returns exactly the records of the scan, each complete with a dash-free reference, and equal keys mean equal dates |
| BookScanner.ParseBook | scripts/parseBook.js:25-127 | `parseBook` returns the records of the scan of the lines its text splits into, each complete with a dash-free reference, and equal keys mean equal dates |

## Left out

- Reading the book with `fs.readFileSync` (line 6) is file input: `ParseBook` takes the text as a parameter.
- The SQLite database (lines 9-23), `insertMeditations` (lines 129-169) and the console output (lines 172-195) are calls into an outside library or logging. The `UNIQUE` key constraint is not modelled; `DateKeysIdentifyDays` states what it relies on.
- JavaScript strings are UTF-16 code units, and Dafny strings here are sequences of characters. Text outside the Basic Multilingual Plane counts differently, but the em dash and the white-space characters do not, so the cuts fall in the same places.
- The regular-expression engine is not modelled. The two patterns are written out as functions: `.` is any character but the four line terminators, and `\s` is the ECMAScript white-space set.
- Strings.Lower: lowers only the ASCII capitals, because `toLowerCase` is applied only to a month name, which is ASCII.
- Strings.DecimalValue: gives the exact value of any digit string, while `parseInt` rounds values past 2^53. The header pattern accepts a day of any length, so for days of sixteen digits or more the model's `day` can differ from the source's.
