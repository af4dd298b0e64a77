/** The parts of Python's text handling that the registry files depend on. */
module Text {

  /** What `str.isspace` accepts. */
  predicate IsSpace(c: char) {
    '\t' <= c <= '\r' || '\U{001C}' <= c <= ' ' || c == '\U{0085}' || c == '\U{00A0}' || c == '\U{1680}'
    || '\U{2000}' <= c <= '\U{200A}' || c == '\U{2028}' || c == '\U{2029}' || c == '\U{202F}' || c == '\U{205F}'
        || c == '\U{3000}'
  }

  /** Where `str.splitlines` ends a line. */
  predicate IsBreak(c: char) {
    '\n' <= c <= '\r' || '\U{001C}' <= c <= '\U{001E}' || c == '\U{0085}' || c == '\U{2028}' || c == '\U{2029}'
  }

  predicate OneLine(s: string) {
    forall i :: 0 <= i < |s| ==> !IsBreak(s[i])
  }

  function LStrip(s: string): string {
    if s == "" || !IsSpace(s[0]) then s else LStrip(s[1..])
  }

  function RStrip(s: string): string {
    if s == "" || !IsSpace(s[|s| - 1]) then s else RStrip(s[..|s| - 1])
  }

  function Strip(s: string): string {
    RStrip(LStrip(s))
  }

  /** Nothing to strip at either end. */
  predicate Trim(s: string) {
    s == "" || (!IsSpace(s[0]) && !IsSpace(s[|s| - 1]))
  }

  function Indent(s: string): (n: nat)
    ensures n <= |s|
  {
    if s == "" || !IsSpace(s[0]) then 0 else 1 + Indent(s[1..])
  }

  /** Text before the first separator, whether there is one, and the text after it. */
  function Partition(s: string, separator: char): (string, bool, string) {
    if s == "" then ("", false, "")
    else if s[0] == separator then ("", true, s[1..])
    else
      var (before, found, after) := Partition(s[1..], separator);
      ([s[0]] + before, found, after)
  }

  predicate IsQuote(c: char) {
    c == '\'' || c == '"'
  }

  /** `strip` with the two quotation marks. */
  function Unquote(s: string): string {
    if s == "" then s
    else if IsQuote(s[0]) then Unquote(s[1..])
    else if IsQuote(s[|s| - 1]) then Unquote(s[..|s| - 1])
    else s
  }

  function FirstBreak(s: string): (n: nat)
    ensures n <= |s|
  {
    if s == "" || IsBreak(s[0]) then 0 else 1 + FirstBreak(s[1..])
  }

  function SplitLines(s: string): seq<string> {
    if s == "" then []
    else
      var n := FirstBreak(s);
      var skip := if n + 1 < |s| && s[n] == '\r' && s[n + 1] == '\n' then n + 2 else if n < |s| then n + 1 else n;
      [s[..n]] + SplitLines(s[skip..])
  }

  function Unlines(lines: seq<string>): string {
    if lines == [] then "" else lines[0] + "\n" + Unlines(lines[1..])
  }

  /** Pieces between separators, as `str.split` cuts them. */
  function Split(s: string, separator: char): (pieces: seq<string>)
    ensures pieces != []
  {
    if s == "" then [""]
    else if s[0] == separator then [""] + Split(s[1..], separator)
    else
      var rest := Split(s[1..], separator);
      [[s[0]] + rest[0]] + rest[1..]
  }

  predicate IsDigit(c: char) {
    '0' <= c <= '9'
  }

  predicate Digits(s: string) {
    s != "" && forall i :: 0 <= i < |s| ==> IsDigit(s[i])
  }

  function ToNat(s: string): nat
    requires forall i :: 0 <= i < |s| ==> IsDigit(s[i])
  {
    if s == "" then 0
    else
      assert IsDigit(s[|s| - 1]);
      ToNat(s[..|s| - 1]) * 10 + (s[|s| - 1] as int - '0' as int)
  }

  function FromNat(n: nat): (s: string)
    ensures Digits(s)
  {
    if n < 10 then [('0' as int + n) as char] else FromNat(n / 10) + [('0' as int + n % 10) as char]
  }

  function FromInt(n: int): string {
    if n < 0 then "-" + FromNat(-n) else FromNat(n)
  }

  // ----- lemmas

  lemma {:induction false} NumbersReadBack(n: nat)
    ensures ToNat(FromNat(n)) == n
  {
    if n >= 10 {
      NumbersReadBack(n / 10);
      var s := FromNat(n / 10) + [('0' as int + n % 10) as char];
      assert s[..|s| - 1] == FromNat(n / 10);
    } else {
      assert FromNat(n)[..0] == "";
    }
  }

  lemma {:induction false} PartitionAt(before: string, separator: char, after: string)
    requires separator !in before
    ensures Partition(before + [separator] + after, separator) == (before, true, after)
  {
    var s := before + [separator] + after;
    if before == "" {
      assert s[1..] == after;
    } else {
      assert before[0] in before;
      assert s[1..] == before[1..] + [separator] + after;
      PartitionAt(before[1..], separator, after);
      assert [before[0]] + before[1..] == before;
    }
  }

  lemma {:induction false} FirstBreakAfterLine(line: string, rest: string)
    requires OneLine(line)
    ensures FirstBreak(line + "\n" + rest) == |line|
  {
    var s := line + "\n" + rest;
    if line != "" {
      assert s[1..] == line[1..] + "\n" + rest;
      FirstBreakAfterLine(line[1..], rest);
    }
  }

  lemma FirstLineReadsBack(line: string, rest: string)
    requires OneLine(line)
    ensures SplitLines(line + "\n" + rest) == [line] + SplitLines(rest)
  {
    var s := line + "\n" + rest;
    FirstBreakAfterLine(line, rest);
    assert s[..|line|] == line && s[|line| + 1..] == rest;
  }

  /** Lines that contain no line break come back as they were joined. */
  lemma {:induction false} LinesReadBack(lines: seq<string>)
    requires forall i :: 0 <= i < |lines| ==> OneLine(lines[i])
    ensures SplitLines(Unlines(lines)) == lines
  {
    if lines != [] {
      FirstLineReadsBack(lines[0], Unlines(lines[1..]));
      LinesReadBack(lines[1..]);
    }
  }

  // ----- stripping twice, and stripping what ends in something else

  lemma {:induction false} RStripAfter(before: string, mark: char, after: string)
    requires !IsSpace(mark)
    ensures RStrip(before + [mark] + after) == before + [mark] + RStrip(after)
    decreases |after|
  {
    var s := before + [mark] + after;
    if after != "" && IsSpace(after[|after| - 1]) {
      assert s[..|s| - 1] == before + [mark] + after[..|after| - 1];
      RStripAfter(before, mark, after[..|after| - 1]);
    }
  }

  lemma {:induction false} RStripFacts(s: string)
    ensures RStrip(s) <= s && RStrip(RStrip(s)) == RStrip(s)
    ensures s != "" && !IsSpace(s[0]) ==> RStrip(s) != ""
  {
    if s != "" && IsSpace(s[|s| - 1]) {
      RStripFacts(s[..|s| - 1]);
      if !IsSpace(s[0]) { assert s[..|s| - 1][0] == s[0]; }
    }
  }

  lemma {:induction false} LStripFacts(s: string)
    ensures var bare := LStrip(s);
            |bare| <= |s| && bare == s[|s| - |bare|..] && (bare == "" || !IsSpace(bare[0]))
  {
    if s != "" && IsSpace(s[0]) { LStripFacts(s[1..]); }
  }

  lemma {:induction false} RStripOfMore(first: string, rest: string)
    requires |first| == 1
    ensures RStrip(first + rest) == if RStrip(rest) != "" then first + RStrip(rest) else RStrip(first)
    decreases |rest|
  {
    if rest == "" {
      assert first + rest == first;
    } else if IsSpace(rest[|rest| - 1]) {
      assert (first + rest)[..|first + rest| - 1] == first + rest[..|rest| - 1];
      RStripOfMore(first, rest[..|rest| - 1]);
    }
  }

  /** The two ends are stripped independently. */
  lemma {:induction false} StripsCommute(s: string)
    ensures LStrip(RStrip(s)) == RStrip(LStrip(s))
  {
    RStripFacts(s);
    if s != "" && IsSpace(s[0]) {
      assert s == s[..1] + s[1..];
      RStripOfMore(s[..1], s[1..]);
      StripsCommute(s[1..]);
      if RStrip(s[1..]) == "" {
        assert s[..1][..0] == "";
      } else {
        assert (s[..1] + RStrip(s[1..]))[1..] == RStrip(s[1..]);
      }
    }
  }

  lemma StripOfRStrip(s: string)
    ensures Strip(RStrip(s)) == Strip(s)
  {
    StripsCommute(s);
    StripsCommute(RStrip(s));
    RStripFacts(s);
    RStripFacts(LStrip(s));
  }

  lemma StripIsOneLine(s: string)
    requires OneLine(s)
    ensures OneLine(Strip(s))
  {
    LStripFacts(s);
    RStripFacts(LStrip(s));
    assert forall i :: 0 <= i < |LStrip(s)| ==> LStrip(s)[i] == s[|s| - |LStrip(s)| + i];
  }

  lemma {:induction false} UnquoteIsOneLine(s: string)
    requires OneLine(s)
    ensures OneLine(Unquote(s))
  {
    if s != "" && IsQuote(s[0]) {
      UnquoteIsOneLine(s[1..]);
    } else if s != "" && IsQuote(s[|s| - 1]) {
      UnquoteIsOneLine(s[..|s| - 1]);
    }
  }

  // ----- numbers are written differently

  lemma SignShows(n: int)
    ensures FromInt(n) != "" && (FromInt(n)[0] == '-' <==> n < 0)
  {
  }

  lemma FromIntIsInjective(m: int, n: int)
    requires FromInt(m) == FromInt(n)
    ensures m == n
  {
    SignShows(m);
    SignShows(n);
    if m < 0 {
      assert FromInt(m)[1..] == FromNat(-m) && FromInt(n)[1..] == FromNat(-n);
      NumbersReadBack(-m);
      NumbersReadBack(-n);
    } else {
      NumbersReadBack(m);
      NumbersReadBack(n);
    }
  }

  // ----- letters and figures, one by one

  const LETTERS := "abcdefghijklmnopqrstuvwxyz"
  const FIGURES := "0123456789"

  lemma LettersAre(c: char)
    ensures 'a' <= c <= 'z' <==> c in LETTERS
  {
    if 'a' <= c <= 'z' { assert LETTERS[c as int - 'a' as int] == c; }
  }

  lemma FiguresAre(c: char)
    ensures IsDigit(c) <==> c in FIGURES
  {
    if IsDigit(c) { assert FIGURES[c as int - '0' as int] == c; }
  }
}
