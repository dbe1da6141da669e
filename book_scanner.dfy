/** The scan over the lines of the book (scripts/parseBook.js lines 25-127): every line that
    matches the header pattern opens a meditation, whose quote is looked for in the next nine
    lines and whose commentary runs to the next line with the header prefix.

    The scan is first stated over what each line reads as (`Line`): its trimmed text, the
    header it matches and whether it has the header prefix. `Scan` is that statement, a
    recursive definition over the lines, one header at a time; `ParseBook` is the loop of
    the source over the raw lines, proved to produce the records of that definition. */
module BookScanner {
  import opened Wrappers
  import opened Strings
  import opened DatePatterns
  import opened Meditations

  /** What the scan reads off one line of the text: the line trimmed (lines 30, 55 and 99),
      the header the pattern of line 33 matches in it, and whether the prefix pattern of
      line 107 matches it. */
  datatype LineView = LineView(text: string, header: Option<Header>, headerPrefix: bool)

  /** A view that trimming and matching can give: the text is trimmed and a header has the
      shape the pattern describes. */
  predicate Readable(v: LineView) {
    IsTrimmed(v.text) && (v.header.Some? ==> WellFormedHeader(v.header.value))
  }

  type Line = v: LineView | Readable(v) witness LineView("", None, false)

  /** How one line of the text reads. */
  function ReadLine(raw: string): Line {
    var t := Trim(raw);
    LineView(t, ParseHeader(t), IsHeaderPrefix(t))
  }

  /** `ls` is how `lines` read, line by line. Each fact is stated where the scan computes
      it: on trimming a line, and on matching either pattern on its trimmed text. */
  predicate Describes(ls: seq<Line>, lines: seq<string>) {
    && |ls| == |lines|
    && (forall k {:trigger Trim(lines[k])} :: 0 <= k < |lines| ==> ls[k].text == Trim(lines[k]))
    && (forall k {:trigger ParseHeader(Trim(lines[k]))} :: 0 <= k < |lines| ==>
          ls[k].header == ParseHeader(Trim(lines[k])))
    && (forall k {:trigger IsHeaderPrefix(Trim(lines[k]))} :: 0 <= k < |lines| ==>
          ls[k].headerPrefix == IsHeaderPrefix(Trim(lines[k])))
  }

  /** How the lines of a text read. */
  function ReadLines(lines: seq<string>): (ls: seq<Line>)
    ensures Describes(ls, lines)
  {
    seq(|lines|, k requires 0 <= k < |lines| => ReadLine(lines[k]))
  }

  /** The end of the look-ahead for a quote after the header at `i` (line 54): nine lines
      further, or the end of the text. */
  function Window(ls: seq<Line>, i: nat): (w: nat)
    ensures w <= |ls| && w <= i + 10 && (w == |ls| || w == i + 10)
  {
    if |ls| < i + 10 then |ls| else i + 10
  }

  /** The texts of the lines in `[a, b)` that are not blank, in order: what the loops of
      lines 54-90 and 98-113 push onto `quoteLines` and `contextLines`. */
  function NonBlank(ls: seq<Line>, a: nat, b: nat): (r: seq<string>)
    requires a <= b <= |ls|
    ensures AllNonBlankTrimmed(r)
    ensures |r| <= b - a
    decreases b - a
  {
    if a == b then []
    else
      var t := ls[b - 1].text;
      NonBlank(ls, a, b - 1) + (if t == [] then [] else [t])
  }

  /** Lines without an em dash collect texts without one. */
  lemma {:induction false} NonBlankDashFree(ls: seq<Line>, a: nat, b: nat)
    requires a <= b <= |ls|
    requires forall i :: a <= i < b ==> EmDash !in ls[i].text
    ensures forall k :: 0 <= k < |NonBlank(ls, a, b)| ==> EmDash !in NonBlank(ls, a, b)[k]
    decreases b - a
  {
    if a < b {
      NonBlankDashFree(ls, a, b - 1);
    }
  }

  /** Lines without an em dash join into a quotation without one. */
  lemma QuotationDashFree(ls: seq<Line>, a: nat, b: nat)
    requires a <= b <= |ls|
    requires forall i :: a <= i < b ==> EmDash !in ls[i].text
    ensures forall k :: 0 <= k < |Join(NonBlank(ls, a, b), " ")| ==> Join(NonBlank(ls, a, b), " ")[k] != EmDash
  {
    NonBlankDashFree(ls, a, b);
    JoinAvoids(NonBlank(ls, a, b), " ", EmDash);
  }

  /** One more line: a blank one adds nothing, any other adds its text. */
  lemma NonBlankNext(ls: seq<Line>, a: nat, b: nat)
    requires a <= b < |ls|
    ensures ls[b].text == [] ==> NonBlank(ls, a, b + 1) == NonBlank(ls, a, b)
    ensures ls[b].text != [] ==> NonBlank(ls, a, b + 1) == NonBlank(ls, a, b) + [ls[b].text]
  {
  }

  /** The line after the first line in `[j, end)` whose text holds an em dash: the quote of
      lines 54-90 ends with the reference on that line, and the scan moves past it (line 86).
      Blank lines hold no dash, so skipping them changes nothing. */
  function QuoteEnd(ls: seq<Line>, j: nat, end: nat): (r: Option<nat>)
    requires j <= end <= |ls|
    ensures r.Some? ==> j < r.value <= end && EmDash in ls[r.value - 1].text
    ensures r.Some? ==> forall k :: j <= k < r.value - 1 ==> EmDash !in ls[k].text
    ensures r.None? <==> forall k :: j <= k < end ==> EmDash !in ls[k].text
    decreases end - j
  {
    if j == end then None
    else if EmDash in ls[j].text then Some(j + 1)
    else QuoteEnd(ls, j + 1, end)
  }

  /** When `q - 1` is the first line with a dash in `[a, end)`, the quote ends at `q`. */
  lemma {:induction false} QuoteEndAt(ls: seq<Line>, a: nat, end: nat, q: nat)
    requires a < q <= end <= |ls| && EmDash in ls[q - 1].text
    requires forall k :: a <= k < q - 1 ==> EmDash !in ls[k].text
    ensures QuoteEnd(ls, a, end) == Some(q)
    decreases q - a
  {
    if a < q - 1 {
      QuoteEndAt(ls, a + 1, end, q);
    }
  }

  /** The first line at or after `j` that is not blank and has the header prefix of line 107,
      or the end of the text: where the commentary of lines 98-113 stops. */
  function ContextEnd(ls: seq<Line>, j: nat): (e: nat)
    requires j <= |ls|
    ensures j <= e <= |ls|
    ensures e < |ls| ==> ls[e].text != [] && ls[e].headerPrefix
    ensures forall k :: j <= k < e ==> ls[k].text == [] || !ls[k].headerPrefix
    decreases |ls| - j
  {
    if j == |ls| then j
    else if ls[j].text == [] then ContextEnd(ls, j + 1)
    else if ls[j].headerPrefix then j
    else ContextEnd(ls, j + 1)
  }

  /** Where one meditation lies in the text: its header, the line of the header, the line
      after the reference that ends the quote, where the commentary starts, and the line
      where the commentary stops. */
  datatype Section = Section(header: Header, line: nat, quoteEnd: nat, end: nat)

  /** A section whose header is well formed and whose lines lie in the text, in order: at
      least the reference line lies between the header and the commentary. */
  predicate InText(ls: seq<Line>, s: Section) {
    WellFormedHeader(s.header) && s.line + 1 < s.quoteEnd <= s.end <= |ls|
  }

  /** What one turn of the outer loop does at line `i`: the line to go on from and the
      section it covers, if any. */
  datatype Outcome = Outcome(next: nat, section: Option<Section>)

  /** One turn of the outer loop at line `i` (lines 29-123): a header whose quote ends in the
      nine lines after it covers a section, and the scan goes on where that section ends. */
  function Step(ls: seq<Line>, i: nat): (o: Outcome)
    requires i < |ls|
    ensures i < o.next <= |ls|
    ensures o.section.None? ==> o.next == i + 1
    ensures o.section.Some? ==>
              InText(ls, o.section.value) && o.section.value.line == i && o.section.value.end == o.next
  {
    match ls[i].header
    case None => Outcome(i + 1, None)
    case Some(h) =>
      match QuoteEnd(ls, i + 1, Window(ls, i))
      case None => Outcome(i + 1, None)
      case Some(q) =>
        var e := ContextEnd(ls, q);
        Outcome(e, Some(Section(h, i, q, e)))
  }

  /** A line that is not a header, and a header with no em dash in the nine lines after it,
      move the scan on by one line and cover nothing (lines 35 and 92-94). */
  lemma StepSkips(ls: seq<Line>, i: nat)
    requires i < |ls|
    requires ls[i].header.None? || forall k :: i < k < Window(ls, i) ==> EmDash !in ls[k].text
    ensures Step(ls, i) == Outcome(i + 1, None)
  {
  }

  /** A header with an em dash in the nine lines after it covers a section: its quote ends
      at the first line with a dash, and its commentary runs past the blank lines and the
      lines without the header prefix, up to the next line with it or the end of the text,
      where the scan goes on (lines 54-122). */
  lemma StepCovers(ls: seq<Line>, i: nat, k: nat)
    requires i < k < Window(ls, i) && EmDash in ls[k].text
    requires ls[i].header.Some?
    ensures Step(ls, i).section.Some?
    ensures var s := Step(ls, i).section.value;
            && Some(s.header) == ls[i].header
            && s.quoteEnd <= k + 1 && EmDash in ls[s.quoteEnd - 1].text
            && (forall k' :: i < k' < s.quoteEnd - 1 ==> EmDash !in ls[k'].text)
            && (forall k' :: s.quoteEnd <= k' < s.end ==> ls[k'].text == [] || !ls[k'].headerPrefix)
            && (s.end == |ls| || ls[s.end].headerPrefix)
  {
    var q := QuoteEnd(ls, i + 1, Window(ls, i));
    assert q.Some?;
  }

  /** A header whose quote ends before `quoteEnd` covers the section from it to the end
      of the commentary that starts at `quoteEnd`, where the scan goes on. */
  lemma StepFound(ls: seq<Line>, i: nat, h: Header, quoteEnd: nat, end: nat)
    requires i < |ls| && ls[i].header == Some(h)
    requires QuoteEnd(ls, i + 1, Window(ls, i)) == Some(quoteEnd)
    requires end == ContextEnd(ls, quoteEnd)
    ensures Step(ls, i).section == Some(Section(h, i, quoteEnd, end))
  {
  }

  /** The sections covered from line `i` on (lines 29-124). Each lies in the text after `i`,
      and a section's quote and commentary lines are never the header of a later one. */
  function Sections(ls: seq<Line>, i: nat): (ss: seq<Section>)
    requires i <= |ls|
    ensures forall k :: 0 <= k < |ss| ==> InText(ls, ss[k]) && i <= ss[k].line
    ensures forall k :: 0 <= k < |ss| - 1 ==> ss[k].end <= ss[k + 1].line
    decreases |ls| - i
  {
    if i == |ls| then [] else Cover(ls, i, Step(ls, i), Sections(ls, Step(ls, i).next))
  }

  /** The section a turn at `i` covers, if any, before those covered after it. */
  function Cover(ls: seq<Line>, i: nat, o: Outcome, rest: seq<Section>): (ss: seq<Section>)
    requires i < o.next
    requires o.section.Some? ==>
               InText(ls, o.section.value) && o.section.value.line == i && o.section.value.end == o.next
    requires forall k :: 0 <= k < |rest| ==> InText(ls, rest[k]) && o.next <= rest[k].line
    requires forall k :: 0 <= k < |rest| - 1 ==> rest[k].end <= rest[k + 1].line
    ensures forall k :: 0 <= k < |ss| ==> InText(ls, ss[k]) && i <= ss[k].line
    ensures forall k :: 0 <= k < |ss| - 1 ==> ss[k].end <= ss[k + 1].line
  {
    if o.section.Some? then [o.section.value] + rest else rest
  }

  /** Each section is the one the turn at its header line covers. */
  lemma {:induction false} SectionsAreSteps(ls: seq<Line>, i: nat)
    requires i <= |ls|
    ensures forall s :: s in Sections(ls, i) ==> s.line < |ls| && Step(ls, s.line).section == Some(s)
    decreases |ls| - i
  {
    if i < |ls| {
      SectionsAreSteps(ls, Step(ls, i).next);
    }
  }

  /** A turn that covers nothing leaves the sections to the next line. */
  lemma SectionsSkip(ls: seq<Line>, i: nat)
    requires i < |ls| && Step(ls, i) == Outcome(i + 1, None)
    ensures Sections(ls, i) == Sections(ls, i + 1)
  {
  }

  /** A turn that covers a section puts it before the sections covered after it. */
  lemma SectionsCover(ls: seq<Line>, i: nat, s: Section)
    requires i < |ls| && Step(ls, i).section == Some(s)
    ensures s.end <= |ls| && Sections(ls, i) == [s] + Sections(ls, s.end)
  {
  }

  /** The quotation after the header at `line`, made of the lines before `quoteEnd`, cut
      into quote and reference (lines 70-83). */
  function QuoteOf(ls: seq<Line>, line: nat, quoteEnd: nat): QuoteParts
    requires line < quoteEnd <= |ls|
  {
    SplitQuote(Join(NonBlank(ls, line + 1, quoteEnd), " "))
  }

  /** Quote lines that hold no em dash give neither quote nor reference, since the cut of
      line 73 needs a dash after the first character. */
  lemma QuoteWithoutDash(ls: seq<Line>, line: nat, quoteEnd: nat)
    requires line < quoteEnd <= |ls|
    requires forall i :: line < i < quoteEnd ==> EmDash !in ls[i].text
    ensures QuoteOf(ls, line, quoteEnd) == QuoteParts("", "")
  {
    var fullQuote := Join(NonBlank(ls, line + 1, quoteEnd), " ");
    QuotationDashFree(ls, line + 1, quoteEnd);
    assert forall k :: 0 < k < |fullQuote| ==> fullQuote[k] != EmDash;
    SplitQuoteCuts(fullQuote);
  }

  /** The meditation of lines 38-46, 70-83 and 115 for a section: month, day, title and key
      from its header, quote and reference from the quote lines, commentary from the lines
      after the reference. */
  function Record(ls: seq<Line>, s: Section): Meditation
    requires InText(ls, s)
  {
    Assemble(s.header, QuoteOf(ls, s.line, s.quoteEnd), Trim(Join(NonBlank(ls, s.quoteEnd, s.end), " ")))
  }

  /** A section whose meditation is complete, which line 118 keeps. */
  predicate Keeps(ls: seq<Line>, s: Section) {
    InText(ls, s) && Complete(Record(ls, s))
  }

  /** A kept meditation belongs to its header: month, day, title and key come from the
      header, quote, reference and commentary are non-empty, the reference holds no em dash,
      and reference and commentary are trimmed. */
  predicate OfHeader(m: Meditation, h: Header) {
    && IsMonthName(h.month) && AllDigits(h.digits)
    && m.month == h.month && m.title == h.title
    && m.day == DecimalValue(h.digits) && m.dateKey == DateKey(h.month, h.digits)
    && Complete(m) && EmDash !in m.reference
    && IsTrimmed(m.reference) && IsTrimmed(m.context)
  }

  lemma {:induction false} RecordOfHeader(ls: seq<Line>, s: Section)
    requires Keeps(ls, s)
    ensures OfHeader(Record(ls, s), s.header)
  {
    HeaderParts(s.header);
    JoinNonBlankTrimmed(NonBlank(ls, s.quoteEnd, s.end));
    SplitQuoteCuts(Join(NonBlank(ls, s.line + 1, s.quoteEnd), " "));
  }

  /** The sections whose meditation is complete (lines 118-120), in order. */
  function Kept(ls: seq<Line>, ss: seq<Section>): (ks: seq<Section>)
    requires forall k :: 0 <= k < |ss| ==> InText(ls, ss[k])
    ensures forall k :: 0 <= k < |ks| ==> InText(ls, ks[k])
  {
    if ss == [] then []
    else
      KeepFirst(ls, ss[0], Keeps(ls, ss[0]), Kept(ls, ss[1..]))
  }

  /** The first section, when it is kept, before the kept ones among the others. */
  function KeepFirst(ls: seq<Line>, s: Section, keep: bool, kept: seq<Section>): (ks: seq<Section>)
    requires keep ==> InText(ls, s)
    requires forall k :: 0 <= k < |kept| ==> InText(ls, kept[k])
    ensures forall t :: t in ks <==> (t == s && keep) || t in kept
    ensures forall k :: 0 <= k < |ks| ==> InText(ls, ks[k])
  {
    if keep then [s] + kept else kept
  }

  /** The kept sections are those of the list whose meditation is complete. */
  lemma {:induction false} KeptMembers(ls: seq<Line>, ss: seq<Section>)
    requires forall k :: 0 <= k < |ss| ==> InText(ls, ss[k])
    ensures forall s :: s in Kept(ls, ss) <==> s in ss && Keeps(ls, s)
  {
    if ss != [] {
      KeptMembers(ls, ss[1..]);
      assert forall s :: s in ss <==> s == ss[0] || s in ss[1..];
    }
  }

  /** The kept sections of a list are its first one, when it is kept, and the kept ones of
      the rest. */
  lemma KeptCons(ls: seq<Line>, s: Section, rest: seq<Section>)
    requires InText(ls, s)
    requires forall k :: 0 <= k < |rest| ==> InText(ls, rest[k])
    ensures Kept(ls, [s] + rest) == KeepFirst(ls, s, Keeps(ls, s), Kept(ls, rest))
  {
    assert ([s] + rest)[1..] == rest;
  }

  /** The meditations of a list of sections. */
  function Records(ls: seq<Line>, ks: seq<Section>): (ms: seq<Meditation>)
    requires forall k :: 0 <= k < |ks| ==> InText(ls, ks[k])
    ensures |ms| == |ks|
    ensures forall k :: 0 <= k < |ks| ==> ms[k] == Record(ls, ks[k])
  {
    seq(|ks|, k requires 0 <= k < |ks| => Record(ls, ks[k]))
  }

  /** The meditations the scan returns for lines that read as `ls`. */
  function Scan(ls: seq<Line>): seq<Meditation> {
    Records(ls, Kept(ls, Sections(ls, 0)))
  }

  /** The meditations `parseBook` returns for the lines of a text. */
  function BookMeditations(lines: seq<string>): seq<Meditation> {
    Scan(ReadLines(lines))
  }

  /** Every meditation returned is kept whole and belongs to the header it was built from,
      which is the header its line reads as. */
  lemma MeditationsOfHeaders(ls: seq<Line>)
    ensures forall k :: 0 <= k < |Scan(ls)| ==>
              var s := Kept(ls, Sections(ls, 0))[k];
              s.line < |ls| && OfHeader(Scan(ls)[k], s.header) && Some(s.header) == ls[s.line].header
  {
    var ks := Kept(ls, Sections(ls, 0));
    SectionsAreSteps(ls, 0);
    forall k | 0 <= k < |ks|
      ensures ks[k].line < |ls| && OfHeader(Scan(ls)[k], ks[k].header)
      ensures Some(ks[k].header) == ls[ks[k].line].header
    {
      KeptMembers(ls, Sections(ls, 0));
      assert ks[k] in ks;
      RecordOfHeader(ls, ks[k]);
    }
  }

  /** Two meditations returned with the same `date_key` have the same month and day, so the
      UNIQUE constraint on the key never rejects two different dates. */
  lemma DateKeysIdentifyDays(ls: seq<Line>)
    ensures var ms := Scan(ls);
            forall k, l :: 0 <= k < |ms| && 0 <= l < |ms| && ms[k].dateKey == ms[l].dateKey ==>
              ms[k].month == ms[l].month && ms[k].day == ms[l].day
  {
    var ms := Scan(ls);
    var ks := Kept(ls, Sections(ls, 0));
    MeditationsOfHeaders(ls);
    forall k, l | 0 <= k < |ms| && 0 <= l < |ms| && ms[k].dateKey == ms[l].dateKey
      ensures ms[k].month == ms[l].month && ms[k].day == ms[l].day
    {
      var h1 := ks[k].header;
      var h2 := ks[l].header;
      assert OfHeader(ms[k], h1) && OfHeader(ms[l], h2);
      DateKeyDeterminesDate(h1.month, h1.digits, h2.month, h2.digits);
    }
  }

  /** For the lines of a text: the header of every meditation returned is what the pattern
      of line 33 matches on its trimmed header line. */
  lemma BookMeditationsOfHeaders(lines: seq<string>)
    ensures var ls := ReadLines(lines);
            forall k :: 0 <= k < |Scan(ls)| ==>
              var s := Kept(ls, Sections(ls, 0))[k];
              s.line < |lines| && OfHeader(Scan(ls)[k], s.header) &&
              Some(s.header) == ParseHeader(Trim(lines[s.line]))
  {
    var ls := ReadLines(lines);
    MeditationsOfHeaders(ls);
  }

  /** Sections that lie one after the other: each ends no later than the next one's header. */
  predicate InOrder(ss: seq<Section>) {
    forall k, l :: 0 <= k < l < |ss| ==> ss[k].end <= ss[l].line
  }

  /** A section that ends before every section of an ordered list goes in front of it. */
  lemma InOrderCons(s: Section, rest: seq<Section>)
    requires InOrder(rest) && forall k :: 0 <= k < |rest| ==> s.end <= rest[k].line
    ensures InOrder([s] + rest)
  {
    var ss := [s] + rest;
    forall k, l | 0 <= k < l < |ss| ensures ss[k].end <= ss[l].line {
      assert ss[l] == rest[l - 1];
      if k > 0 {
        assert ss[k] == rest[k - 1];
      }
    }
  }

  lemma {:induction false} SectionsInOrder(ls: seq<Line>, i: nat)
    requires i <= |ls|
    ensures InOrder(Sections(ls, i))
    decreases |ls| - i
  {
    if i < |ls| {
      var o := Step(ls, i);
      SectionsInOrder(ls, o.next);
      if o.section.Some? {
        SectionsCover(ls, i, o.section.value);
        InOrderCons(o.section.value, Sections(ls, o.next));
      } else {
        SectionsSkip(ls, i);
      }
    }
  }

  /** Dropping the incomplete sections keeps the others in order. */
  lemma {:induction false} KeptInOrder(ls: seq<Line>, ss: seq<Section>)
    requires forall k :: 0 <= k < |ss| ==> InText(ls, ss[k])
    requires InOrder(ss)
    ensures InOrder(Kept(ls, ss))
  {
    if ss != [] {
      var rest := ss[1..];
      assert InOrder(rest) by {
        forall k, l | 0 <= k < l < |rest| ensures rest[k].end <= rest[l].line {
          assert rest[k] == ss[k + 1] && rest[l] == ss[l + 1];
        }
      }
      KeptInOrder(ls, rest);
      KeptAfter(ls, rest, ss[0].end);
      if Keeps(ls, ss[0]) {
        InOrderCons(ss[0], Kept(ls, rest));
      }
    }
  }

  /** The kept sections of a list all start after `n` when the sections of the list do. */
  lemma KeptAfter(ls: seq<Line>, ss: seq<Section>, n: nat)
    requires forall k :: 0 <= k < |ss| ==> InText(ls, ss[k]) && n <= ss[k].line
    ensures forall k :: 0 <= k < |Kept(ls, ss)| ==> n <= Kept(ls, ss)[k].line
  {
    var ks := Kept(ls, ss);
    KeptMembers(ls, ss);
    forall k | 0 <= k < |ks| ensures n <= ks[k].line {
      assert ks[k] in ks;
    }
  }

  /** The meditations come in the order of their header lines, one per header line at most
      (lines 119 and 122): the main cursor only moves forward. */
  lemma MeditationsInOrder(ls: seq<Line>)
    ensures var ks := Kept(ls, Sections(ls, 0));
            forall k, l :: 0 <= k < l < |ks| ==> ks[k].line < ks[l].line
  {
    SectionsInOrder(ls, 0);
    KeptInOrder(ls, Sections(ls, 0));
  }

  /** Where the loop of lines 29-124 stands: `done` are the kept sections it has passed,
      `meditations` their records, and the kept sections among those still `ahead`
      complete `done` to `all`. */
  predicate Scanned(ls: seq<Line>, done: seq<Section>, meditations: seq<Meditation>,
                    ahead: seq<Section>, all: seq<Section>) {
    && (forall k :: 0 <= k < |ahead| ==> InText(ls, ahead[k]))
    && (forall k :: 0 <= k < |done| ==> InText(ls, done[k]))
    && |meditations| == |done|
    && (forall k :: 0 <= k < |done| ==> meditations[k] == Record(ls, done[k]))
    && done + Kept(ls, ahead) == all
  }

  /** Passing the first section still ahead adds it and its record to what the loop has
      done when it is kept (lines 118-120). */
  lemma ScannedFound(ls: seq<Line>, s: Section, after: seq<Section>, done0: seq<Section>,
                     meditations0: seq<Meditation>, done: seq<Section>, meditations: seq<Meditation>,
                     all: seq<Section>)
    requires Scanned(ls, done0, meditations0, [s] + after, all)
    requires Keeps(ls, s) ==> done == done0 + [s] && meditations == meditations0 + [Record(ls, s)]
    requires !Keeps(ls, s) ==> done == done0 && meditations == meditations0
    ensures Scanned(ls, done, meditations, after, all)
  {
    assert InText(ls, ([s] + after)[0]);
    assert forall k :: 0 <= k < |after| ==> after[k] == ([s] + after)[k + 1];
    KeptCons(ls, s, after);
    if Keeps(ls, s) {
      AppendAssoc(done0, [s], Kept(ls, after));
      forall k | 0 <= k < |done|
        ensures InText(ls, done[k]) && meditations[k] == Record(ls, done[k])
      {
        if k < |done0| {
          assert done[k] == done0[k];
          assert meditations[k] == meditations0[k];
        }
      }
    }
  }

  /** One turn of the outer loop at line `i` moves what the loop has done from the sections
      ahead of `i` to those ahead of the line where the turn goes on. */
  lemma ScannedTurn(ls: seq<Line>, i: nat, next: nat, done0: seq<Section>,
                    meditations0: seq<Meditation>, done: seq<Section>, meditations: seq<Meditation>,
                    all: seq<Section>)
    requires i < |ls| && next == Step(ls, i).next
    requires Scanned(ls, done0, meditations0, Sections(ls, i), all)
    requires var o := Step(ls, i);
             if o.section.Some? && Keeps(ls, o.section.value)
             then done == done0 + [o.section.value] && meditations == meditations0 + [Record(ls, o.section.value)]
             else done == done0 && meditations == meditations0
    ensures Scanned(ls, done, meditations, Sections(ls, next), all)
  {
    var o := Step(ls, i);
    if o.section.Some? {
      SectionsCover(ls, i, o.section.value);
      ScannedFound(ls, o.section.value, Sections(ls, next), done0, meditations0, done, meditations, all);
    } else {
      SectionsSkip(ls, i);
    }
  }

  lemma AppendAssoc<T>(a: seq<T>, b: seq<T>, c: seq<T>)
    ensures a + (b + c) == (a + b) + c
  {
  }

  /** Lines 72-83: the quotation is cut at its last em dash, when that dash is not its
      first character, into the quote and the reference that `SplitQuote` gives; otherwise
      both stay empty. */
  method CutQuote(fullQuote: string) returns (quote: string, reference: string)
    ensures quote == SplitQuote(fullQuote).quote && reference == SplitQuote(fullQuote).reference
  {
    quote, reference := "", "";
    var lastDashIndex := LastIndexOf(fullQuote, EmDash);
    if lastDashIndex > 0 {
      quote := Trim(fullQuote[..lastDashIndex]);
      reference := Trim(fullQuote[lastDashIndex + 1..]);
      quote := StripQuotes(quote);
    }
  }

  /** Lines 69-83 on reaching the dash line `j`: the quote lines gathered so far, joined
      with spaces and cut at their last dash. */
  method CloseQuote(ghost ls: seq<Line>, i: nat, j: nat, quoteLines: seq<string>)
    returns (quote: string, reference: string)
    requires i < j <= |ls| && quoteLines == NonBlank(ls, i + 1, j)
    ensures quote == QuoteOf(ls, i, j).quote && reference == QuoteOf(ls, i, j).reference
  {
    quote, reference := CutQuote(Join(quoteLines, " "));
  }

  /** Line `j` trimmed (lines 30, 55 and 99): the text it reads as. */
  method TrimLine(lines: seq<string>, ghost ls: seq<Line>, j: nat) returns (t: string)
    requires Describes(ls, lines) && j < |lines|
    ensures t == ls[j].text
  {
    t := Trim(lines[j]);
  }

  /** The quote loop of lines 54-90 after the header at line `i`: it collects the non-blank
      trimmed lines of the window up to the first one with an em dash and, when it finds
      one, cuts the joined lines at their last dash. `found` says whether a dash was seen;
      `j` is the line after it. */
  method ScanQuote(lines: seq<string>, ghost ls: seq<Line>, i: nat)
    returns (found: bool, j: nat, quote: string, reference: string)
    requires Describes(ls, lines) && i < |lines|
    ensures found <==> QuoteEnd(ls, i + 1, Window(ls, i)).Some?
    ensures found ==> QuoteEnd(ls, i + 1, Window(ls, i)) == Some(j)
    ensures found ==> quote == QuoteOf(ls, i, j).quote && reference == QuoteOf(ls, i, j).reference
  {
    quote, reference := "", "";
    j := i + 1;
    var quoteLines: seq<string> := [];
    found := false;
    while j < |lines| && j < i + 10
      invariant i + 1 <= j <= Window(ls, i)
      invariant quoteLines == NonBlank(ls, i + 1, j)
      invariant forall k :: i + 1 <= k < j ==> EmDash !in ls[k].text
      invariant !found
      decreases |lines| - j
    {
      var currentLine := TrimLine(lines, ls, j);
      NonBlankNext(ls, i + 1, j);
      if currentLine == [] {
        j := j + 1;
        continue;
      }
      quoteLines := quoteLines + [currentLine];
      if EmDash in currentLine {
        found := true;
        j := j + 1;
        quote, reference := CloseQuote(ls, i, j, quoteLines);
        QuoteEndAt(ls, i + 1, Window(ls, i), j);
        break;
      }
      j := j + 1;
    }
    if !found {
      assert j == Window(ls, i);
    }
  }

  /** The commentary loop of lines 97-115 from line `start` on: it collects the non-blank
      trimmed lines up to the next line with the header prefix and joins them. It stops
      where `ContextEnd` says. */
  method ScanContext(lines: seq<string>, ghost ls: seq<Line>, start: nat) returns (j: nat, context: string)
    requires Describes(ls, lines) && start <= |lines|
    ensures j == ContextEnd(ls, start)
    ensures context == Trim(Join(NonBlank(ls, start, j), " "))
  {
    j := start;
    var contextLines: seq<string> := [];
    while j < |lines|
      invariant start <= j <= |lines|
      invariant contextLines == NonBlank(ls, start, j)
      invariant ContextEnd(ls, start) == ContextEnd(ls, j)
      decreases |lines| - j
    {
      var contextLine := Trim(lines[j]);
      NonBlankNext(ls, start, j);
      if contextLine == [] {
        j := j + 1;
        continue;
      }
      if IsHeaderPrefix(contextLine) {
        break;
      }
      contextLines := contextLines + [contextLine];
      j := j + 1;
    }
    context := Trim(Join(contextLines, " "));
  }

  /** The body of the `if (dateMatch)` block of lines 36-115 for the header `h` of line `i`:
      the meditation starts from the header's fields (lines 38-46), takes its quote and
      reference from the quote loop and its commentary from the context loop. When no dash
      follows the header, the turn covers nothing (lines 92-94); otherwise it covers the
      section that ends at `j`, and the meditation is the record of that section. */
  method ReadMeditation(lines: seq<string>, ghost ls: seq<Line>, i: nat, h: Header)
    returns (found: bool, j: nat, meditation: Meditation)
    requires Describes(ls, lines) && i < |lines| && ls[i].header == Some(h)
    ensures !found ==> Step(ls, i) == Outcome(i + 1, None)
    ensures found ==> Step(ls, i).next == j && Step(ls, i).section.Some?
    ensures found ==> meditation == Record(ls, Step(ls, i).section.value)
  {
    HeaderParts(h);
    meditation := Meditation(h.month, DecimalValue(h.digits), h.title, "", "", "",
                             DateKey(h.month, h.digits));
    var quote, reference;
    found, j, quote, reference := ScanQuote(lines, ls, i);
    if !found {
      StepSkips(ls, i);
      return;
    }
    meditation := meditation.(quote := quote, reference := reference);
    ghost var quoteEnd := j;
    var context;
    j, context := ScanContext(lines, ls, j);
    meditation := meditation.(context := context);
    StepFound(ls, i, h, quoteEnd, j);
    assert meditation == Record(ls, Section(h, i, quoteEnd, j));
  }

  /** The loop of lines 29-124 over the lines of the text, which read as `ls`. The result is
      the meditations of the scan, each kept whole and with a reference free of dashes, and
      no two of them share a key unless they share a date. */
  method ScanLines(lines: seq<string>, ghost ls: seq<Line>) returns (meditations: seq<Meditation>)
    requires Describes(ls, lines)
    ensures meditations == Scan(ls)
    ensures forall k :: 0 <= k < |meditations| ==>
              Complete(meditations[k]) && EmDash !in meditations[k].reference
    ensures forall k, l :: (0 <= k < |meditations| && 0 <= l < |meditations| &&
                            meditations[k].dateKey == meditations[l].dateKey) ==>
              meditations[k].month == meditations[l].month && meditations[k].day == meditations[l].day
  {
    ghost var all := Kept(ls, Sections(ls, 0));
    ghost var done: seq<Section> := [];
    meditations := [];
    var i: nat := 0;
    while i < |lines|
      invariant i <= |lines| && Scanned(ls, done, meditations, Sections(ls, i), all)
      decreases |lines| - i
    {
      ghost var i0, done0, meditations0 := i, done, meditations;
      var line := Trim(lines[i]);
      var dateMatch := ParseHeader(line);
      if dateMatch.Some? {
        var foundReference, j, meditation := ReadMeditation(lines, ls, i, dateMatch.value);
        // without a reference the turn ends here (the `continue` of line 93)
        if foundReference {
          if meditation.quote != [] && meditation.reference != [] && meditation.context != [] {
            meditations := meditations + [meditation];
            done := done + [Step(ls, i).section.value];
          }
          i := j - 1;
        }
      } else {
        StepSkips(ls, i);
      }
      i := i + 1;
      ScannedTurn(ls, i0, i, done0, meditations0, done, meditations, all);
    }
    assert done == all;
    MeditationsOfHeaders(ls);
    DateKeysIdentifyDays(ls);
  }

  /** `parseBook` (lines 25-127): the text is split at line feeds and the lines are scanned. */
  method ParseBook(bookText: string) returns (meditations: seq<Meditation>)
    ensures meditations == BookMeditations(SplitLines(bookText))
    ensures forall k :: 0 <= k < |meditations| ==>
              Complete(meditations[k]) && EmDash !in meditations[k].reference
    ensures forall k, l :: (0 <= k < |meditations| && 0 <= l < |meditations| &&
                            meditations[k].dateKey == meditations[l].dateKey) ==>
              meditations[k].month == meditations[l].month && meditations[k].day == meditations[l].day
  {
    var lines := SplitLines(bookText);
    ghost var ls := ReadLines(lines);
    meditations := ScanLines(lines, ls);
  }
}
