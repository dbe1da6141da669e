/** The JavaScript string built-ins that the book parser relies on, over Dafny strings:
    `trim`, `split('\n')`, `join`, `lastIndexOf`, `padStart`, `toLowerCase` and
    `parseInt` on a string of decimal digits. */
module Strings {

  /** The em dash (U+2014) that separates a quotation from its attribution. */
  const EmDash: char := '\U{2014}'

  /** White space as `String.prototype.trim` and the regular-expression class `\s` see it:
      the WhiteSpace and LineTerminator code points of ECMAScript (section 12.2 and 12.3
      of ECMA-262). */
  predicate IsSpace(c: char) {
    c == '\t' || c == '\n' || c == '\U{B}' || c == '\U{C}' || c == '\r' || c == ' '
    || c == '\U{A0}' || c == '\U{1680}' || ('\U{2000}' <= c <= '\U{200A}')
    || c == '\U{2028}' || c == '\U{2029}' || c == '\U{202F}' || c == '\U{205F}'
    || c == '\U{3000}' || c == '\U{FEFF}'
  }

  /** The characters that the regular-expression `.` does not match. */
  predicate IsLineTerminator(c: char) {
    c == '\n' || c == '\r' || c == '\U{2028}' || c == '\U{2029}'
  }

  /** The regular-expression class `\d`. */
  predicate IsDigit(c: char) {
    '0' <= c <= '9'
  }

  predicate HasLineTerminator(s: string) {
    exists k :: 0 <= k < |s| && IsLineTerminator(s[k])
  }

  /** A string with no white space at either end, which is what `trim` produces. */
  predicate IsTrimmed(s: string) {
    s == [] || (!IsSpace(s[0]) && !IsSpace(s[|s| - 1]))
  }

  function TrimEnd(s: string): (r: string)
    ensures |r| <= |s| && r == s[..|r|]
    ensures forall k :: |r| <= k < |s| ==> IsSpace(s[k])
    ensures r == [] || !IsSpace(r[|r| - 1])
  {
    if |s| > 0 && IsSpace(s[|s| - 1]) then TrimEnd(s[..|s| - 1]) else s
  }

  /** `s.trim()`: the piece of `s` that is left once the white space on both sides is
      removed. `TrimSlice` says where that piece lies. */
  function Trim(s: string): (r: string)
    ensures IsTrimmed(r)
  {
    var a := RunEnd(s, 0, Spaces);
    var r := TrimEnd(s[a..]);
    assert r != [] ==> r[0] == s[a];
    r
  }

  /** The trimmed text starts after the leading white space, only white space follows it,
      and it is empty exactly when the whole text is white space. */
  lemma TrimSlice(s: string)
    ensures RunEnd(s, 0, Spaces) + |Trim(s)| <= |s|
    ensures Trim(s) == s[RunEnd(s, 0, Spaces)..RunEnd(s, 0, Spaces) + |Trim(s)|]
    ensures forall k :: RunEnd(s, 0, Spaces) + |Trim(s)| <= k < |s| ==> IsSpace(s[k])
    ensures Trim(s) == [] <==> forall k :: 0 <= k < |s| ==> IsSpace(s[k])
  {
    var a := RunEnd(s, 0, Spaces);
    RunEndCovers(s, 0, Spaces);
    var t := s[a..];
    var r := TrimEnd(t);
    assert Trim(s) == r;
    forall k | a + |r| <= k < |s| ensures IsSpace(s[k]) {
      assert s[k] == t[k - a];
    }
  }

  /** Trimming changes nothing in a string that is already trimmed. */
  lemma {:induction false} TrimOfTrimmed(s: string)
    requires IsTrimmed(s)
    ensures Trim(s) == s
  {
    assert RunEnd(s, 0, Spaces) == 0;
    assert TrimEnd(s) == s;
  }

  /** `parts.join(sep)`. */
  function Join(parts: seq<string>, sep: string): string
  {
    if |parts| == 0 then ""
    else if |parts| == 1 then parts[0]
    else parts[0] + sep + Join(parts[1..], sep)
  }

  /** Pushing one more part and joining again appends the separator and that part,
      which is how the scanner's line buffers grow. */
  lemma {:induction false} JoinPush(parts: seq<string>, p: string, sep: string)
    requires parts != []
    ensures Join(parts + [p], sep) == Join(parts, sep) + sep + p
    decreases |parts|
  {
    if |parts| > 1 {
      assert (parts + [p])[1..] == parts[1..] + [p];
      JoinPush(parts[1..], p, sep);
    } else {
      assert (parts + [p])[1..] == [p];
    }
  }

  /** A character found in neither the parts nor the separator is not in their join. */
  lemma {:induction false} JoinAvoids(parts: seq<string>, sep: string, c: char)
    requires c !in sep
    requires forall k :: 0 <= k < |parts| ==> c !in parts[k]
    ensures c !in Join(parts, sep)
    decreases |parts|
  {
    if |parts| > 1 {
      JoinAvoids(parts[1..], sep, c);
    }
  }

  /** The strings that the scanner collects: trimmed and not blank. */
  predicate AllNonBlankTrimmed(parts: seq<string>) {
    forall k :: 0 <= k < |parts| ==> parts[k] != [] && IsTrimmed(parts[k])
  }

  /** Joining trimmed, non-blank pieces with spaces gives a trimmed string, which is
      empty exactly when there were no pieces; so the `trim()` after the join changes
      nothing. */
  lemma {:induction false} JoinNonBlankTrimmed(parts: seq<string>)
    requires AllNonBlankTrimmed(parts)
    ensures IsTrimmed(Join(parts, " "))
    ensures Join(parts, " ") == [] <==> parts == []
    ensures Trim(Join(parts, " ")) == Join(parts, " ")
  {
    if |parts| > 1 {
      JoinNonBlankTrimmed(parts[1..]);
      var rest := Join(parts[1..], " ");
      var r := parts[0] + " " + rest;
      assert r[0] == parts[0][0];
      assert r[|r| - 1] == rest[|rest| - 1];
    }
    TrimOfTrimmed(Join(parts, " "));
  }

  /** `s.indexOf(c)`: -1 when absent, otherwise the first position of `c`. */
  function IndexOf(s: string, c: char): (r: int)
    ensures -1 <= r < |s|
    ensures r == -1 <==> c !in s
    ensures 0 <= r ==> s[r] == c && c !in s[..r]
  {
    if |s| == 0 then -1
    else if s[0] == c then 0
    else
      var r := IndexOf(s[1..], c);
      assert r >= 0 ==> s[..r + 1] == [s[0]] + s[1..][..r];
      assert s == [s[0]] + s[1..];
      if r == -1 then -1 else r + 1
  }

  /** `s.lastIndexOf(c)`: -1 when absent, otherwise the last position of `c`. */
  function LastIndexOf(s: string, c: char): (r: int)
    ensures -1 <= r < |s|
    ensures r == -1 <==> c !in s
    ensures 0 <= r ==> s[r] == c
    ensures forall k :: r < k < |s| ==> s[k] != c
  {
    if |s| == 0 then -1
    else if s[|s| - 1] == c then |s| - 1
    else
      var init := s[..|s| - 1];
      var r := LastIndexOf(init, c);
      assert s == init + [s[|s| - 1]];
      if r < 0 then r
      else
        assert s[r + 1..] == init[r + 1..] + [s[|s| - 1]];
        r
  }

  /** `text.split('\n')`: the pieces between the line feeds, always at least one. */
  function SplitLines(text: string): (lines: seq<string>)
    ensures |lines| >= 1
    ensures forall k :: 0 <= k < |lines| ==> '\n' !in lines[k]
    decreases |text|
  {
    var n := IndexOf(text, '\n');
    if n < 0 then [text] else [text[..n]] + SplitLines(text[n + 1..])
  }

  /** Joining the lines back with line feeds gives the text: nothing is lost by the split. */
  lemma {:induction false} JoinSplitLines(text: string)
    ensures Join(SplitLines(text), "\n") == text
    decreases |text|
  {
    var n := IndexOf(text, '\n');
    if n >= 0 {
      var pre, post := text[..n], text[n + 1..];
      var rest := SplitLines(post);
      var lines := SplitLines(text);
      assert lines == [pre] + rest;
      assert lines[1..] == rest;
      JoinSplitLines(post);
      calc {
        Join(lines, "\n");
        pre + "\n" + Join(rest, "\n");
        pre + "\n" + post;
        { CutAround(text, n); }
        text;
      }
    }
  }

  /** A string is the part before position `n`, the character there, and the part after. */
  lemma CutAround(s: string, n: nat)
    requires n < |s|
    ensures s == s[..n] + [s[n]] + s[n + 1..]
  {
  }

  /** A line without a line feed, a line feed and more text split into that line and the
      lines of the rest. */
  lemma SplitLinesCons(pre: string, post: string)
    requires '\n' !in pre
    ensures SplitLines(pre + "\n" + post) == [pre] + SplitLines(post)
  {
    var text := pre + "\n" + post;
    assert text[..|pre|] == pre;
    assert text[|pre|] == '\n';
    assert IndexOf(text, '\n') == |pre|;
    assert text[|pre| + 1..] == post;
  }

  /** Splitting text made of line-feed-free lines joined by line feeds gives those lines back. */
  lemma {:induction false} SplitJoinLines(lines: seq<string>)
    requires |lines| >= 1
    requires forall k :: 0 <= k < |lines| ==> '\n' !in lines[k]
    ensures SplitLines(Join(lines, "\n")) == lines
  {
    if |lines| > 1 {
      var rest := lines[1..];
      assert forall k :: 0 <= k < |rest| ==> '\n' !in rest[k] by {
        forall k | 0 <= k < |rest| ensures '\n' !in rest[k] { assert rest[k] == lines[k + 1]; }
      }
      SplitJoinLines(rest);
      SplitLinesCons(lines[0], Join(rest, "\n"));
      assert lines == [lines[0]] + rest;
    }
  }

  /** The two character classes that the header patterns repeat greedily. */
  datatype CharClass = Spaces | Digits

  predicate InClass(c: char, cls: CharClass) {
    match cls
    case Spaces => IsSpace(c)
    case Digits => IsDigit(c)
  }

  /** The end of the longest run of characters of class `cls` that starts at position `i`
      of `s`, which is where a greedy `\s+` or `\d+` started at `i` stops. */
  function RunEnd(s: string, i: nat, cls: CharClass): (j: nat)
    requires i <= |s|
    ensures i <= j <= |s|
    ensures j < |s| ==> !InClass(s[j], cls)
    decreases |s| - i
  {
    if i < |s| && InClass(s[i], cls) then RunEnd(s, i + 1, cls) else i
  }

  /** Every character the run passes over belongs to the class. */
  lemma {:induction false} RunEndCovers(s: string, i: nat, cls: CharClass)
    requires i <= |s|
    ensures forall k :: i <= k < RunEnd(s, i, cls) ==> InClass(s[k], cls)
    decreases |s| - i
  {
    if i < |s| && InClass(s[i], cls) {
      RunEndCovers(s, i + 1, cls);
    }
  }

  /** A run that takes at least one character is a run in the sense of `IsRun`. */
  lemma RunEndIsRun(s: string, i: nat, cls: CharClass)
    requires i < |s| && i < RunEnd(s, i, cls)
    ensures IsRun(s[i..RunEnd(s, i, cls)], cls)
  {
    RunEndCovers(s, i, cls);
  }

  /** A non-empty run of characters of class `cls`, as `\s+` or `\d+` matches. */
  predicate IsRun(s: string, cls: CharClass) {
    s != [] && forall k :: 0 <= k < |s| ==> InClass(s[k], cls)
  }

  /** The run that starts at `i` ends at `j` when every character in between belongs to
      the class and the one at `j`, if any, does not. */
  lemma {:induction false} RunEndAt(s: string, i: nat, j: nat, cls: CharClass)
    requires i <= j <= |s|
    requires forall k :: i <= k < j ==> InClass(s[k], cls)
    requires j == |s| || !InClass(s[j], cls)
    ensures RunEnd(s, i, cls) == j
    decreases j - i
  {
    if i < j {
      RunEndAt(s, i + 1, j, cls);
    }
  }

  /** `toLowerCase` on the ASCII letters, which is all a month name holds. */
  function LowerChar(c: char): char {
    if 'A' <= c <= 'Z' then (c as int + 32) as char else c
  }

  function Lower(s: string): (r: string)
    ensures |r| == |s|
    ensures forall k :: 0 <= k < |s| ==> r[k] == LowerChar(s[k])
  {
    seq(|s|, k requires 0 <= k < |s| => LowerChar(s[k]))
  }

  /** `n` copies of `c`. */
  function Repeat(c: char, n: nat): (r: string)
    ensures |r| == n
    ensures forall k :: 0 <= k < n ==> r[k] == c
  {
    if n == 0 then [] else [c] + Repeat(c, n - 1)
  }

  /** `s.padStart(width, fill)`: `s` with copies of `fill` in front up to `width` characters;
      a string already that long is left as it is. */
  function PadStart(s: string, width: nat, fill: char): (r: string)
    ensures |r| == if |s| < width then width else |s|
    ensures forall k :: 0 <= k < |s| ==> r[|r| - |s| + k] == s[k]
    ensures forall k :: 0 <= k < |r| - |s| ==> r[k] == fill
  {
    if |s| < width then Repeat(fill, width - |s|) + s else s
  }

  predicate AllDigits(s: string) {
    forall k :: 0 <= k < |s| ==> IsDigit(s[k])
  }

  /** `parseInt(s)` for a string of decimal digits: its value in base ten. */
  function DecimalValue(s: string): nat
    requires AllDigits(s)
  {
    if s == [] then 0 else DecimalValue(s[..|s| - 1]) * 10 + (s[|s| - 1] as int - '0' as int)
  }

  /** A digit string denotes zero exactly when every digit is `0`. */
  lemma {:induction false} DecimalValueZero(s: string)
    requires AllDigits(s)
    ensures DecimalValue(s) == 0 <==> forall k :: 0 <= k < |s| ==> s[k] == '0'
    decreases |s|
  {
    if s != [] {
      var init := s[..|s| - 1];
      DecimalValueZero(init);
      assert forall k :: 0 <= k < |init| ==> init[k] == s[k];
    }
  }

  /** Leading zeros do not change the value of a digit string: a day padded with `0`
      denotes the same day. */
  lemma {:induction false} LeadingZerosKeepValue(zeros: string, s: string)
    requires forall k :: 0 <= k < |zeros| ==> zeros[k] == '0'
    requires AllDigits(s)
    ensures AllDigits(zeros + s)
    ensures DecimalValue(zeros + s) == DecimalValue(s)
    decreases |zeros| + |s|
  {
    var t := zeros + s;
    if s == [] {
      assert t == zeros;
      if zeros != [] {
        LeadingZerosKeepValue(zeros[..|zeros| - 1], []);
        assert t[..|t| - 1] == zeros[..|zeros| - 1] + [];
      }
    } else {
      LeadingZerosKeepValue(zeros, s[..|s| - 1]);
      assert t[..|t| - 1] == zeros + s[..|s| - 1];
      assert t[|t| - 1] == s[|s| - 1];
    }
  }

  /** Two digit strings padded to the same text have the same value. */
  lemma {:induction false} SamePaddingSameValue(a: string, b: string, width: nat)
    requires AllDigits(a) && AllDigits(b)
    requires PadStart(a, width, '0') == PadStart(b, width, '0')
    ensures DecimalValue(a) == DecimalValue(b)
  {
    PaddingKeepsValue(a, width);
    PaddingKeepsValue(b, width);
  }

  /** Padding a digit string with `0` keeps its value. */
  lemma PaddingKeepsValue(s: string, width: nat)
    requires AllDigits(s)
    ensures AllDigits(PadStart(s, width, '0'))
    ensures DecimalValue(PadStart(s, width, '0')) == DecimalValue(s)
  {
    if |s| < width {
      LeadingZerosKeepValue(Repeat('0', width - |s|), s);
    }
  }
}
