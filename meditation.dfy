/** The record the book parser builds for each day (scripts/parseBook.js lines 38-46), its
    `date_key`, and the splitting of a quotation into quote and reference (lines 70-83). */
module Meditations {
  import opened Wrappers
  import opened Strings
  import opened DatePatterns

  /** One meditation, with the columns of the `meditations` table. */
  datatype Meditation = Meditation(month: string, day: nat, title: string, quote: string,
                                   reference: string, context: string, dateKey: string)

  /** A meditation is kept only when quote, reference and context are all non-empty. */
  predicate Complete(m: Meditation) {
    m.quote != [] && m.reference != [] && m.context != []
  }

  /** The `date_key` column: the month in lower case, a dash, and the day's digits padded
      on the left with zeros to at least two characters. */
  function DateKey(month: string, digits: string): string {
    Lower(month) + "-" + PadStart(digits, 2, '0')
  }

  /** The digits of a header are decimal digits and its month is one of the twelve names. */
  lemma HeaderParts(h: Header)
    requires WellFormedHeader(h)
    ensures AllDigits(h.digits) && IsMonthName(h.month)
  {
    assert HeaderStart(h).digits == h.digits;
    assert forall k :: 0 <= k < |h.digits| ==> InClass(h.digits[k], Digits);
  }

  /** Lower-casing leaves a character that is not a capital letter alone. */
  lemma LowerCharFixes(c: char)
    requires !('A' <= c <= 'Z')
    ensures LowerChar(c) == c
  {
  }

  /** No month name holds a dash. */
  lemma MonthNameDashFree(month: string)
    requires IsMonthName(month)
    ensures '-' !in month
  {
    var m :| Name(m) == month;
    NameShape(m);
  }

  /** The dash of a date key comes right after the month, when the month holds no dash. */
  lemma DateKeyDash(month: string, digits: string)
    requires '-' !in month
    ensures |DateKey(month, digits)| > |month|
    ensures DateKey(month, digits)[|month|] == '-'
    ensures forall k :: 0 <= k < |month| ==> DateKey(month, digits)[k] != '-'
    ensures DateKey(month, digits)[|month| + 1..] == PadStart(digits, 2, '0')
  {
    var low := Lower(month);
    var key := DateKey(month, digits);
    assert key[|low| + 1..] == PadStart(digits, 2, '0');
    forall k | 0 <= k < |month|
      ensures key[k] != '-'
    {
      assert key[k] == low[k];
      assert month[k] in month;
    }
  }

  /** Month names whose date keys begin alike are the same month. */
  lemma SameKeyMonth(month1: string, month2: string, key: string)
    requires IsMonthName(month1) && IsMonthName(month2)
    requires |key| > |month1| && |key| > |month2| && key[|month1|] == '-' && key[|month2|] == '-'
    requires forall k :: 0 <= k < |month1| ==> key[k] != '-'
    requires forall k :: 0 <= k < |month2| ==> key[k] != '-'
    requires forall k :: 0 <= k < |month1| ==> key[k] == LowerChar(month1[k])
    requires forall k :: 0 <= k < |month2| ==> key[k] == LowerChar(month2[k])
    ensures month1 == month2
  {
    var m1 :| Name(m1) == month1;
    var m2 :| Name(m2) == month2;
    NameShape(m1);
    NameShape(m2);
    assert |month1| == |month2|;
    LowerCharFixes(month1[1]);
    LowerCharFixes(month1[2]);
    LowerCharFixes(month2[1]);
    LowerCharFixes(month2[2]);
    NamesDiffer(m1, m2);
  }

  /** The `date_key` column is declared UNIQUE: equal keys mean the same month and the same
      day, so the constraint rejects no two different dates. */
  lemma DateKeyDeterminesDate(month1: string, digits1: string, month2: string, digits2: string)
    requires IsMonthName(month1) && IsMonthName(month2)
    requires AllDigits(digits1) && AllDigits(digits2)
    requires DateKey(month1, digits1) == DateKey(month2, digits2)
    ensures month1 == month2 && DecimalValue(digits1) == DecimalValue(digits2)
  {
    var key := DateKey(month1, digits1);
    MonthNameDashFree(month1);
    MonthNameDashFree(month2);
    DateKeyDash(month1, digits1);
    DateKeyDash(month2, digits2);
    assert forall k :: 0 <= k < |month1| ==> key[k] == LowerChar(month1[k]);
    assert forall k :: 0 <= k < |month2| ==> key[k] == LowerChar(month2[k]);
    SameKeyMonth(month1, month2, key);
    SamePaddingSameValue(digits1, digits2, 2);
  }

  /** What follows the dash spells the day: the digits denote the value `parseInt` gives. */
  lemma DateKeyDay(month: string, digits: string)
    requires IsMonthName(month) && AllDigits(digits)
    ensures AllDigits(DateKey(month, digits)[|month| + 1..])
    ensures DecimalValue(DateKey(month, digits)[|month| + 1..]) == DecimalValue(digits)
  {
    MonthNameDashFree(month);
    DateKeyDash(month, digits);
    PaddingKeepsValue(digits, 2);
  }

  /** A one-digit day is padded to two digits; a longer one is kept as it is. */
  lemma DateKeyExamples(march: string, three: string, many: string)
    requires march == "March" && three == "3" && many == "123"
    ensures DateKey(march, three) == "march-03"
    ensures DateKey(march, many) == "march-123"
  {
    assert Lower(march) == "march";
    assert PadStart(three, 2, '0') == "03";
    assert PadStart(many, 2, '0') == "123";
  }

  /** `replace(/^"/, '')` followed by `replace(/"$/, '')`: the result is the text with one
      leading double quote dropped when there is one, and then one trailing double quote
      dropped when one is left; so at most one character goes from each end. */
  function StripQuotes(s: string): (r: string)
    ensures |s| - 2 <= |r| <= |s|
  {
    var a := if s != [] && s[0] == '"' then s[1..] else s;
    if a != [] && a[|a| - 1] == '"' then a[..|a| - 1] else a
  }

  /** What stripping keeps: the slice between one leading quote, when there is one, and one
      trailing quote, when one is left after the leading one is gone. */
  lemma StripQuotesSlice(s: string, a: nat, b: nat)
    requires a == (if s != [] && s[0] == '"' then 1 else 0)
    requires b == (if |s| > a && s[|s| - 1] == '"' then 1 else 0)
    ensures a + b <= |s| && StripQuotes(s) == s[a..|s| - b]
  {
  }

  /** The text in double quotes. */
  function Quoted(s: string): string {
    "\"" + s + "\""
  }

  /** Stripping undoes quoting, whatever the quoted text holds. */
  lemma StripQuoted(s: string)
    ensures StripQuotes(Quoted(s)) == s
  {
    assert Quoted(s)[1..] == s + "\"";
    assert (s + "\"")[..|s|] == s;
  }

  /** Text that neither begins nor ends with a double quote is left alone. */
  lemma StripUnquoted(s: string)
    requires s == [] || (s[0] != '"' && s[|s| - 1] != '"')
    ensures StripQuotes(s) == s
  {
  }

  /** Only one quote goes from each end, so doubled quotes keep one of each. */
  lemma StripQuotesOnce(s: string)
    requires s == "\"\"A\"\""
    ensures StripQuotes(s) == "\"A\""
  {
    assert s[1..] == "\"A\"\"";
    assert s[1..][..3] == "\"A\"";
  }

  /** A quote that only opens the text is removed and the rest is kept. */
  lemma StripLeadingOnly(s: string)
    requires s != [] && s[0] == '"'
    requires |s| == 1 || s[|s| - 1] != '"'
    ensures StripQuotes(s) == s[1..]
  {
  }

  /** A quote that only closes the text is removed and the rest is kept. */
  lemma StripTrailingOnly(s: string)
    requires s != [] && s[0] != '"' && s[|s| - 1] == '"'
    ensures StripQuotes(s) == s[..|s| - 1]
  {
  }

  /** A lone double quote is removed by the first replacement; the second finds nothing. */
  lemma StripLoneQuote(s: string)
    requires s == "\""
    ensures StripQuotes(s) == ""
  {
  }

  /** The quote and the reference cut from a quotation. */
  datatype QuoteParts = QuoteParts(quote: string, reference: string)

  /** Lines 72-83: the quotation is cut at its last em dash; the text before it, trimmed and
      stripped of its quotes, is the quote and the text after it, trimmed, the reference.
      A dash at position 0, or none, gives no cut and both stay empty; the reference, cut
      after the last dash, is trimmed and holds no dash. */
  function SplitQuote(fullQuote: string): QuoteParts {
    var d := LastIndexOf(fullQuote, EmDash);
    if d > 0 then QuoteParts(StripQuotes(Trim(fullQuote[..d])), Trim(fullQuote[d + 1..]))
    else QuoteParts("", "")
  }

  /** A quotation with no em dash after its first character gives neither quote nor
      reference, and a reference is always trimmed and free of em dashes. */
  lemma SplitQuoteCuts(fullQuote: string)
    ensures (forall k :: 0 < k < |fullQuote| ==> fullQuote[k] != EmDash) ==>
              SplitQuote(fullQuote) == QuoteParts("", "")
    ensures IsTrimmed(SplitQuote(fullQuote).reference) && EmDash !in SplitQuote(fullQuote).reference
  {
    var d := LastIndexOf(fullQuote, EmDash);
    if d > 0 {
      var after := fullQuote[d + 1..];
      var reference := Trim(after);
      TrimSlice(after);
      var a := RunEnd(after, 0, Spaces);
      assert forall k :: 0 <= k < |reference| ==> reference[k] == after[a + k];
    }
  }

  /** The record built for a header (lines 38-46), with the quote and reference cut from
      its quotation (lines 79-83) and its commentary (line 115). */
  function Assemble(h: Header, parts: QuoteParts, context: string): Meditation
    requires WellFormedHeader(h)
  {
    HeaderParts(h);
    Meditation(h.month, DecimalValue(h.digits), h.title, parts.quote, parts.reference,
               context, DateKey(h.month, h.digits))
  }

  /** A trimmed non-empty text followed by white space trims back to itself. */
  lemma TrimTrailingSpace(s: string, space: string)
    requires s != [] && IsTrimmed(s)
    requires forall k :: 0 <= k < |space| ==> IsSpace(space[k])
    ensures Trim(s + space) == s
  {
    var t := s + space;
    var r := Trim(t);
    assert RunEnd(t, 0, Spaces) == 0 by {
      assert t[0] == s[0];
    }
    assert !IsSpace(t[|s| - 1]) by {
      assert t[|s| - 1] == s[|s| - 1];
    }
    assert forall k :: |s| <= k < |t| ==> t[k] == space[k - |s|];
    assert |r| == |s|;
    assert t[..|s|] == s;
  }

  /** A quoted quotation followed by a space, an em dash and a trimmed reference without
      another dash splits back into the quote and the reference. */
  lemma SplitQuoteRoundTrip(quote: string, reference: string)
    requires IsTrimmed(reference) && EmDash !in reference
    ensures SplitQuote(Quoted(quote) + " " + [EmDash] + reference) == QuoteParts(quote, reference)
  {
    var q := Quoted(quote);
    var full := q + " " + [EmDash] + reference;
    var d := |q| + 1;
    assert full[d] == EmDash;
    assert full[d + 1..] == reference;
    assert LastIndexOf(full, EmDash) == d;
    assert full[..d] == q + " ";
    assert q != [] && IsTrimmed(q) by {
      assert q[0] == '"' && q[|q| - 1] == '"';
    }
    TrimTrailingSpace(q, " ");
    StripQuoted(quote);
    TrimOfTrimmed(reference);
  }
}
