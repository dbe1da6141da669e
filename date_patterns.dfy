/** The two date-header regular expressions of the book parser, written out as
    functions over a line (scripts/parseBook.js lines 33 and 107):

      header:  ^(Month)\s+(\d+)(?:st|nd|rd|th)\s+(.+)$
      prefix:  ^(Month)\s+\d+(?:st|nd|rd|th)\s+

    where Month is the alternation of the twelve English month names. The backtracking
    of the regular-expression engine is resolved here: each greedy run is taken whole,
    except in the one corner where `\s+` has to give back a character of white space
    to `(.+)`. */
module DatePatterns {
  import opened Wrappers
  import opened Strings

  /** The twelve alternatives of the month group. */
  datatype Month = January | February | March | April | May | June
                 | July | August | September | October | November | December

  /** The text of each alternative, as the pattern spells it. */
  function Name(m: Month): string {
    match m
    case January => "January"
    case February => "February"
    case March => "March"
    case April => "April"
    case May => "May"
    case June => "June"
    case July => "July"
    case August => "August"
    case September => "September"
    case October => "October"
    case November => "November"
    case December => "December"
  }

  /** The alternatives in the order the pattern lists them. */
  const Months: seq<Month> := [January, February, March, April, May, June,
                               July, August, September, October, November, December]

  /** Where each alternative stands in the pattern. */
  function Position(m: Month): (i: nat)
    ensures i < |Months| && Months[i] == m
  {
    match m
    case January => 0
    case February => 1
    case March => 2
    case April => 3
    case May => 4
    case June => 5
    case July => 6
    case August => 7
    case September => 8
    case October => 9
    case November => 10
    case December => 11
  }

  /** The second and third letters already tell the twelve names apart. */
  lemma NamesDiffer(m1: Month, m2: Month)
    requires |Name(m1)| >= 3 && |Name(m2)| >= 3
    requires Name(m1)[1] == Name(m2)[1] && Name(m1)[2] == Name(m2)[2]
    ensures m1 == m2
  {
  }

  /** Month names are capitalised words with no hyphen in them. */
  lemma NameShape(m: Month)
    ensures |Name(m)| >= 3 && '-' !in Name(m)
    ensures 'a' <= Name(m)[1] <= 'z' && 'a' <= Name(m)[2] <= 'z'
  {
  }

  /** `line` begins with `p`. */
  predicate StartsWith(line: string, p: string) {
    |p| <= |line| && line[..|p|] == p
  }

  /** No month name begins another, so the month group matches a line in one way at most. */
  lemma NamesPrefixFree(m1: Month, m2: Month)
    requires StartsWith(Name(m2), Name(m1))
    ensures m1 == m2
  {
    NameShape(m1);
    NameShape(m2);
    var a, b := Name(m1), Name(m2);
    assert a[1] == b[1] && a[2] == b[2];
    NamesDiffer(m1, m2);
  }

  /** The alternation tried from position `i` on: the first alternative, in the order of
      the pattern, whose name `line` begins with. */
  function MonthFrom(line: string, i: nat): (r: Option<Month>)
    requires i <= |Months|
    ensures r.Some? ==> StartsWith(line, Name(r.value))
    ensures r.None? ==> forall j :: i <= j < |Months| ==> !StartsWith(line, Name(Months[j]))
    decreases |Months| - i
  {
    if i == |Months| then None
    else if StartsWith(line, Name(Months[i])) then Some(Months[i])
    else MonthFrom(line, i + 1)
  }

  /** The month group `(January|February|...|December)` at the start of `line`. */
  function MatchMonth(line: string): (r: Option<Month>)
    ensures r.Some? ==> StartsWith(line, Name(r.value))
    ensures r.None? ==> forall m :: !StartsWith(line, Name(m))
  {
    var r := MonthFrom(line, 0);
    assert r.None? ==> forall m :: !StartsWith(line, Name(m)) by {
      if r.None? {
        forall m ensures !StartsWith(line, Name(m)) {
          var i := Position(m);
        }
      }
    }
    r
  }

  /** A line that begins with a month name is matched by that month and no other. */
  lemma MatchMonthUnique(line: string, m: Month)
    requires StartsWith(line, Name(m))
    ensures MatchMonth(line) == Some(m)
  {
    var m' := MatchMonth(line).value;
    var a, b := Name(m), Name(m');
    if |a| <= |b| {
      assert b[..|a|] == line[..|a|];
      NamesPrefixFree(m, m');
    } else {
      assert a[..|b|] == line[..|b|];
      NamesPrefixFree(m', m);
    }
  }

  /** A string that is one of the twelve month names. */
  predicate IsMonthName(s: string) {
    exists m :: Name(m) == s
  }

  /** The non-capturing group `(?:st|nd|rd|th)`. */
  predicate IsOrdinalSuffix(s: string) {
    |s| == 2 && ((s[0] == 's' && s[1] == 't') || (s[0] == 'n' && s[1] == 'd')
                 || (s[0] == 'r' && s[1] == 'd') || (s[0] == 't' && s[1] == 'h'))
  }

  /** What `^(Month)\s+(\d+)(?:st|nd|rd|th)` matches at the start of a line, split into its
      parts; `rest` is the text after the ordinal suffix. */
  datatype DateStart = DateStart(month: string, gap: string, digits: string, suffix: string, rest: string)

  predicate WellFormedStart(d: DateStart) {
    IsMonthName(d.month) && IsRun(d.gap, Spaces) && IsRun(d.digits, Digits) && IsOrdinalSuffix(d.suffix)
  }

  function StartText(d: DateStart): string {
    d.month + (d.gap + (d.digits + (d.suffix + d.rest)))
  }

  /** The line cut at four points into the parts of a date start; put back together,
      the parts are the line. */
  function CutDateStart(s: string, a: nat, b: nat, c: nat, e: nat): (d: DateStart)
    requires a <= b <= c <= e <= |s|
    ensures d == DateStart(s[..a], s[a..b], s[b..c], s[c..e], s[e..])
    ensures StartText(d) == s
  {
    assert s[c..e] + s[e..] == s[c..];
    assert s[b..c] + s[c..] == s[b..];
    assert s[a..b] + s[b..] == s[a..];
    DateStart(s[..a], s[a..b], s[b..c], s[c..e], s[e..])
  }

  /** Matches the part of both header patterns before the title. A match is the whole line
      cut into a month name, white space, digits, a suffix and the rest. */
  function MatchDateStart(line: string): (r: Option<DateStart>)
    ensures r.Some? ==> WellFormedStart(r.value) && StartText(r.value) == line
  {
    match MatchMonth(line)
    case None => None
    case Some(m) =>
      var r := MatchAfterMonth(line, |Name(m)|);
      assert r.Some? ==> IsMonthName(r.value.month) by {
        assert Name(m) == line[..|Name(m)|];
      }
      r
  }

  /** `\s+(\d+)(?:st|nd|rd|th)` after the first `a` characters of `line`, which hold the
      month name. */
  function MatchAfterMonth(line: string, a: nat): (r: Option<DateStart>)
    requires a <= |line|
    ensures r.Some? ==> r.value.month == line[..a] && StartText(r.value) == line
    ensures r.Some? ==> IsRun(r.value.gap, Spaces) && IsRun(r.value.digits, Digits)
    ensures r.Some? ==> IsOrdinalSuffix(r.value.suffix)
  {
    var b := RunEnd(line, a, Spaces);
    var c := RunEnd(line, b, Digits);
    if a < b && b < c && c + 2 <= |line| && IsOrdinalSuffix(line[c..c + 2]) then
      RunEndIsRun(line, a, Spaces);
      RunEndIsRun(line, b, Digits);
      Some(CutDateStart(line, a, b, c, c + 2))
    else None
  }

  /** Cutting the text of a date start at the ends of its parts gives the parts back. */
  lemma CutStartText(d: DateStart, a: nat, b: nat, c: nat, e: nat)
    requires a == |d.month| && b == a + |d.gap| && c == b + |d.digits| && e == c + |d.suffix|
    ensures e <= |StartText(d)| && CutDateStart(StartText(d), a, b, c, e) == d
  {
    var line := StartText(d);
    assert line[..a] == d.month;
    assert line[a..b] == d.gap;
    assert line[b..c] == d.digits;
    assert line[c..e] == d.suffix;
    assert line[e..] == d.rest;
  }

  /** Where the white space and the digits after the month end, and the suffix that follows,
      decide the match. */
  lemma MatchAfterMonthAt(line: string, a: nat, b: nat, c: nat)
    requires a < b < c && c + 2 <= |line|
    requires RunEnd(line, a, Spaces) == b && RunEnd(line, b, Digits) == c
    requires IsOrdinalSuffix(line[c..c + 2])
    ensures MatchAfterMonth(line, a) == Some(CutDateStart(line, a, b, c, c + 2))
  {
  }

  /** A line that begins with a month name, white space, digits and a suffix is matched
      there. */
  lemma MatchDateStartAt(line: string, m: Month, b: nat, c: nat)
    requires StartsWith(line, Name(m)) && |Name(m)| < b < c && c + 2 <= |line|
    requires RunEnd(line, |Name(m)|, Spaces) == b && RunEnd(line, b, Digits) == c
    requires IsOrdinalSuffix(line[c..c + 2])
    ensures MatchDateStart(line) == Some(CutDateStart(line, |Name(m)|, b, c, c + 2))
  {
    MatchMonthUnique(line, m);
    MatchAfterMonthAt(line, |Name(m)|, b, c);
  }

  /** In the text of a well-formed date start, the white-space run after the month ends
      where the digits begin. */
  lemma GapRunEnd(d: DateStart, line: string, a: nat, b: nat)
    requires WellFormedStart(d) && line == StartText(d)
    requires a == |d.month| && b == a + |d.gap|
    ensures RunEnd(line, a, Spaces) == b
  {
    assert forall k :: a <= k < b ==> line[k] == d.gap[k - a];
    assert line[b] == d.digits[0];
    RunEndAt(line, a, b, Spaces);
  }

  /** In the text of a well-formed date start, the digit run ends where the suffix begins. */
  lemma DigitsRunEnd(d: DateStart, line: string, b: nat, c: nat)
    requires WellFormedStart(d) && line == StartText(d)
    requires b == |d.month| + |d.gap| && c == b + |d.digits|
    ensures RunEnd(line, b, Digits) == c
  {
    assert forall k :: b <= k < c ==> line[k] == d.digits[k - b];
    assert line[c] == d.suffix[0];
    RunEndAt(line, b, c, Digits);
  }

  /** The text of a well-formed date start begins with its month's name, and its suffix
      sits right after the digits. */
  lemma StartTextPieces(d: DateStart, line: string, m: Month, c: nat)
    requires WellFormedStart(d) && line == StartText(d) && Name(m) == d.month
    requires c == |d.month| + |d.gap| + |d.digits|
    ensures StartsWith(line, Name(m)) && c + 2 <= |line| && line[c..c + 2] == d.suffix
  {
    assert line[..|d.month|] == d.month;
    assert line[c..c + 2] == d.suffix;
  }

  lemma StartTextFacts(d: DateStart, line: string, m: Month, b: nat, c: nat)
    requires WellFormedStart(d) && line == StartText(d) && Name(m) == d.month
    requires b == |Name(m)| + |d.gap| && c == b + |d.digits|
    ensures StartsWith(line, Name(m)) && |Name(m)| < b < c && c + 2 <= |line|
    ensures RunEnd(line, |Name(m)|, Spaces) == b && RunEnd(line, b, Digits) == c
    ensures IsOrdinalSuffix(line[c..c + 2])
    ensures CutDateStart(line, |Name(m)|, b, c, c + 2) == d
  {
    var a := |Name(m)|;
    StartTextPieces(d, line, m, c);
    GapRunEnd(d, line, a, b);
    DigitsRunEnd(d, line, b, c);
    CutStartText(d, a, b, c, c + 2);
  }

  lemma MatchDateStartComplete(d: DateStart)
    requires WellFormedStart(d)
    ensures MatchDateStart(StartText(d)) == Some(d)
  {
    var m :| Name(m) == d.month;
    var b := |Name(m)| + |d.gap|;
    var c := b + |d.digits|;
    StartTextFacts(d, StartText(d), m, b, c);
    MatchDateStartAt(StartText(d), m, b, c);
  }

  /** The prefix pattern of line 107, `^(Month)\s+\d+(?:st|nd|rd|th)\s+`: the date part
      followed by at least one white-space character, with no condition on the title. */
  predicate IsHeaderPrefix(line: string) {
    match MatchDateStart(line)
    case None => false
    case Some(d) => d.rest != [] && IsSpace(d.rest[0])
  }

  /** Every date start is recognised by the prefix pattern exactly when white space
      follows its suffix. */
  lemma PrefixComplete(d: DateStart)
    requires WellFormedStart(d)
    ensures IsHeaderPrefix(StartText(d)) <==> d.rest != [] && IsSpace(d.rest[0])
  {
    MatchDateStartComplete(d);
  }

  /** How `\s+(.+)$` cuts what follows the suffix: a non-empty run of white space, then a
      non-empty title without line terminators that begins after all of that white space,
      unless the white space runs to the end of the line. */
  predicate WellFormedTitle(gap: string, title: string) {
    && IsRun(gap, Spaces)
    && title != []
    && !HasLineTerminator(title)
    && (!IsSpace(title[0]) || |title| == 1)
  }

  /** `\s+(.+)$` applied to what follows the suffix: the white space and the title. */
  function SplitTitle(rest: string): (r: Option<(string, string)>)
    ensures r.Some? ==> WellFormedTitle(r.value.0, r.value.1) && r.value.0 + r.value.1 == rest
  {
    var g := RunEnd(rest, 0, Spaces);
    if g == 0 then None
    else if g < |rest| then
      // `\s+` takes the whole run and `(.+)$` the remainder, which must hold no line terminator
      var title := rest[g..];
      if HasLineTerminator(title) then None
      else
        RunEndIsRun(rest, 0, Spaces);
        assert rest == rest[..g] + title;
        Some((rest[..g], title))
    else if |rest| >= 2 && !IsLineTerminator(rest[|rest| - 1]) then
      // the run reaches the end: `\s+` gives back its last character to `(.+)`
      RunEndCovers(rest, 0, Spaces);
      var gap := rest[..|rest| - 1];
      var title := rest[|rest| - 1..];
      assert forall k :: 0 <= k < |gap| ==> gap[k] == rest[k];
      assert !HasLineTerminator(title) by {
        forall k | 0 <= k < |title| ensures !IsLineTerminator(title[k]) {
          assert title[k] == rest[|rest| - 1];
        }
      }
      assert rest == gap + title;
      Some((gap, title))
    else None
  }

  /** Every white space and title of the shape `\s+(.+)$` describes is cut back into
      exactly those two parts. */
  lemma SplitTitleComplete(gap: string, title: string)
    requires WellFormedTitle(gap, title)
    ensures SplitTitle(gap + title) == Some((gap, title))
  {
    var rest := gap + title;
    assert rest[..|gap|] == gap;
    if IsSpace(title[0]) {
      assert forall k :: 0 <= k < |rest| ==> InClass(rest[k], Spaces) by {
        forall k | 0 <= k < |rest| ensures InClass(rest[k], Spaces) {
          if k >= |gap| {
            assert k == |gap| && rest[k] == title[0];
          }
        }
      }
      RunEndAt(rest, 0, |rest|, Spaces);
      assert rest[..|rest| - 1] == gap;
      assert rest[|rest| - 1..] == title;
      assert rest[|rest| - 1] == title[0];
    } else {
      assert rest[|gap|] == title[0];
      RunEndAt(rest, 0, |gap|, Spaces);
      assert rest[|gap|..] == title;
    }
  }

  /** The capture groups of the header pattern of line 33, together with the white space
      and suffix between them. */
  datatype Header = Header(month: string, gap: string, digits: string, suffix: string,
                           gap2: string, title: string)

  function HeaderStart(h: Header): DateStart {
    DateStart(h.month, h.gap, h.digits, h.suffix, h.gap2 + h.title)
  }

  /** The shape the header pattern requires, with the parts cut where the matcher cuts them. */
  predicate WellFormedHeader(h: Header) {
    WellFormedStart(HeaderStart(h)) && WellFormedTitle(h.gap2, h.title)
  }

  /** The header pattern `^(Month)\s+(\d+)(?:st|nd|rd|th)\s+(.+)$` of line 33. A match
      cuts the whole line into a well-formed month, day digits, suffix and title. */
  function ParseHeader(line: string): (r: Option<Header>)
    ensures r.Some? ==> WellFormedHeader(r.value) && StartText(HeaderStart(r.value)) == line
  {
    match MatchDateStart(line)
    case None => None
    case Some(d) =>
      match SplitTitle(d.rest)
      case None => None
      case Some((gap2, title)) => Some(Header(d.month, d.gap, d.digits, d.suffix, gap2, title))
  }

  /** Every line of the shape the header pattern describes is matched, with exactly the
      month, digits and title it was built from. */
  lemma ParseHeaderComplete(h: Header)
    requires WellFormedHeader(h)
    ensures ParseHeader(StartText(HeaderStart(h))) == Some(h)
  {
    MatchDateStartComplete(HeaderStart(h));
    SplitTitleComplete(h.gap2, h.title);
  }

  /** Whatever the header pattern matches, the prefix pattern matches too. */
  lemma HeaderHasPrefix(line: string)
    requires ParseHeader(line).Some?
    ensures IsHeaderPrefix(line)
  {
    var d := MatchDateStart(line).value;
    var (gap2, title) := SplitTitle(d.rest).value;
    assert d.rest[0] == gap2[0];
  }

  /** White space followed by a title that ends in a non-space and holds no line
      terminator is always cut by `\s+(.+)$`. */
  lemma SplitTitleFound(rest: string)
    requires rest != [] && IsSpace(rest[0]) && !IsSpace(rest[|rest| - 1])
    requires !HasLineTerminator(rest)
    ensures SplitTitle(rest).Some?
  {
    var g := RunEnd(rest, 0, Spaces);
    RunEndCovers(rest, 0, Spaces);
    assert 0 < g < |rest|;
    var title := rest[g..];
    forall k | 0 <= k < |title| ensures !IsLineTerminator(title[k]) {
      assert title[k] == rest[g + k];
    }
  }

  /** The rest of a date start is the end of its text. */
  lemma RestEndsStartText(d: DateStart, line: string)
    requires StartText(d) == line
    ensures |d.rest| <= |line|
    ensures forall k :: 0 <= k < |d.rest| ==> d.rest[k] == line[|line| - |d.rest| + k]
  {
    var head := d.month + (d.gap + (d.digits + d.suffix));
    assert line == head + d.rest;
  }

  /** The end of a trimmed line without line terminators, when it begins with white space,
      is cut by `\s+(.+)$`. */
  lemma TitleOfTrimmedLine(line: string, rest: string)
    requires IsTrimmed(line) && !HasLineTerminator(line)
    requires |rest| <= |line|
    requires forall k :: 0 <= k < |rest| ==> rest[k] == line[|line| - |rest| + k]
    requires rest != [] && IsSpace(rest[0])
    ensures SplitTitle(rest).Some?
  {
    var n := |line| - |rest|;
    assert !HasLineTerminator(rest) by {
      forall k | 0 <= k < |rest| ensures !IsLineTerminator(rest[k]) {
        assert rest[k] == line[n + k];
      }
    }
    assert rest[|rest| - 1] == line[|line| - 1];
    SplitTitleFound(rest);
  }

  /** On a trimmed line without line terminators, white space after the date part is
      followed by a title. */
  lemma TitleAfterDateStart(line: string, d: DateStart)
    requires StartText(d) == line && IsTrimmed(line) && !HasLineTerminator(line)
    requires d.rest != [] && IsSpace(d.rest[0])
    ensures SplitTitle(d.rest).Some?
  {
    RestEndsStartText(d, line);
    TitleOfTrimmedLine(line, d.rest);
  }

  /** On a trimmed line without line terminators the two patterns agree: a line that
      stops the collection of a commentary is one the main loop takes as a header. */
  lemma PrefixIsHeaderOnTrimmedLine(line: string)
    requires IsTrimmed(line) && !HasLineTerminator(line)
    requires IsHeaderPrefix(line)
    ensures ParseHeader(line).Some?
  {
    var d := MatchDateStart(line).value;
    TitleAfterDateStart(line, d);
  }

  /** The text after the suffix in the example below: its title holds a carriage return. */
  lemma SplitTitleRejectsReturn(rest: string)
    requires rest == " A\rB"
    ensures SplitTitle(rest).None?
  {
    RunEndAt(rest, 0, 1, Spaces);
    assert rest[1..][1] == '\r';
  }

  /** The start of the example below matches the date part of both patterns. */
  lemma ExampleDateStart(line: string)
    requires line == "January 1st A\rB"
    ensures MatchDateStart(line) == Some(DateStart("January", " ", "1", "st", " A\rB"))
  {
    var d := DateStart("January", " ", "1", "st", " A\rB");
    assert WellFormedStart(d) by {
      assert Name(January) == "January";
    }
    assert StartText(d) == line;
    MatchDateStartComplete(d);
  }

  /** A line whose date start is followed by a title holding a carriage return has the
      header prefix but is not a header. */
  lemma PrefixNotHeader(line: string, d: DateStart)
    requires MatchDateStart(line) == Some(d) && d.rest == " A\rB"
    ensures IsHeaderPrefix(line) && ParseHeader(line).None?
  {
    SplitTitleRejectsReturn(d.rest);
  }

  /** The two patterns differ on a trimmed line whose title holds a carriage return:
      the prefix pattern stops a commentary there, but the header pattern does not match. */
  lemma PrefixWithoutHeader(line: string)
    requires line == "January 1st A\rB"
    ensures IsTrimmed(line) && IsHeaderPrefix(line) && ParseHeader(line).None?
  {
    assert IsTrimmed(line) by {
      assert line[0] == 'J' && line[|line| - 1] == 'B';
    }
    ExampleDateStart(line);
    PrefixNotHeader(line, DateStart("January", " ", "1", "st", " A\rB"));
  }
}
