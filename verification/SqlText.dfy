/** Blanking comments and literals out of SQL so that offsets and line numbers in the raw text stay valid. */
module SqlText {

  // ----- how far each token reaches, counted from where it starts

  predicate Pair(u: string, first: char, second: char) {
    |u| >= 2 && u[0] == first && u[1] == second
  }

  predicate Quote(u: string) {
    u != "" && u[0] == '\''
  }

  /** Everything up to the end of the line. */
  function UntilNewline(u: string): (n: nat)
    ensures n <= |u|
  {
    if u == "" || u[0] == '\n' then 0 else 1 + UntilNewline(u[1..])
  }

  /** The body of a block comment: up to the closing mark, or up to the last character when there is none. */
  function UntilClose(u: string): (n: nat)
    ensures n <= |u| && (u != "" ==> n < |u|)
  {
    if |u| < 2 || Pair(u, '*', '/') then 0 else 1 + UntilClose(u[1..])
  }

  /** A string literal after its opening quote; a doubled quote does not close it. */
  function QuoteRest(u: string): (n: nat)
    ensures n <= |u|
  {
    if u == "" then 0
    else if u[0] == '\'' then if |u| > 1 && u[1] == '\'' then 2 + QuoteRest(u[2..]) else 1
    else 1 + QuoteRest(u[1..])
  }

  predicate TagStart(c: char) {
    'a' <= c <= 'z' || 'A' <= c <= 'Z' || c == '_'
  }

  predicate TagChar(c: char) {
    TagStart(c) || '0' <= c <= '9'
  }

  function WordLength(u: string): (n: nat)
    ensures n <= |u|
    ensures forall k :: 0 <= k < n ==> TagChar(u[k])
    ensures n < |u| ==> !TagChar(u[n])
  {
    if u == "" || !TagChar(u[0]) then 0 else 1 + WordLength(u[1..])
  }

  /** The opening tag of a dollar-quoted literal, or 0 when the text does not start with one. */
  function TagLength(u: string): (n: nat)
    ensures n <= |u| && n != 1
  {
    if |u| < 2 || u[0] != '$' then 0
    else if u[1] == '$' then 2
    else if !TagStart(u[1]) then 0
    else
      var word := WordLength(u[1..]);
      if 1 + word < |u| && u[1 + word] == '$' then word + 2 else 0
  }

  /** Up to and including the next occurrence of the tag, or all of the text. */
  function UntilTag(u: string, tag: string): (n: nat)
    ensures n <= |u|
  {
    if tag <= u then |tag| else if u == "" then 0 else 1 + UntilTag(u[1..], tag)
  }

  /** A comment or a literal starts here. */
  predicate Starts(u: string) {
    Pair(u, '-', '-') || Pair(u, '/', '*') || TagLength(u) > 0 || Quote(u)
  }

  predicate Unclosed(u: string) {
    Pair(u, '/', '*') && UntilClose(u[2..]) + 2 > |u| - 2
  }

  /** How many characters the scanner consumes here. */
  function Reach(u: string): (n: nat)
    requires u != ""
    ensures 1 <= n <= |u|
  {
    if Pair(u, '-', '-') then UntilNewline(u)
    else if Pair(u, '/', '*') then if Unclosed(u) then |u| else UntilClose(u[2..]) + 4
    else if TagLength(u) > 0 then TagLength(u) + UntilTag(u[TagLength(u)..], u[..TagLength(u)])
    else if Quote(u) then 1 + QuoteRest(u[1..])
    else 1
  }

  /** Spaces, with the line breaks left in place. */
  function Blank(u: string): (r: string)
    ensures |r| == |u| && forall k :: 0 <= k < |u| ==> r[k] == if u[k] == '\n' then '\n' else ' '
  {
    seq(|u|, k requires 0 <= k < |u| => if u[k] == '\n' then '\n' else ' ')
  }

  /** What the scanner writes for the characters it consumes. */
  function Emitted(u: string): string
    requires u != ""
  {
    if Unclosed(u) then "  " + Blank(u[2..][..UntilClose(u[2..])]) + "  "
    else if Starts(u) then Blank(u[..Reach(u)])
    else u[..1]
  }

  function Strip(u: string): string {
    if u == "" then "" else Emitted(u) + Strip(u[Reach(u)..])
  }

  /** No block comment is left open, as the scanner meets them. */
  predicate BlocksClosed(u: string) {
    u == "" || (!Unclosed(u) && BlocksClosed(u[Reach(u)..]))
  }

  // ----- the scanner itself

  /** The pieces the loop writes, one a token. */
  function Tokens(u: string): seq<string> {
    if u == "" then [] else [Emitted(u)] + Tokens(u[Reach(u)..])
  }

  function Join(pieces: seq<string>): string {
    if pieces == [] then "" else pieces[0] + Join(pieces[1..])
  }

  lemma {:induction false} JoinedTokens(u: string)
    ensures Join(Tokens(u)) == Strip(u)
    decreases |u|
  {
    if u != "" {
      JoinedTokens(u[Reach(u)..]);
      assert Tokens(u)[1..] == Tokens(u[Reach(u)..]);
    }
  }

  lemma Further(text: string, index: nat, n: nat)
    requires index + n <= |text|
    ensures text[index..][n..] == text[index + n..]
  {
  }

  ghost predicate Written(text: string, index: nat, out: seq<string>) {
    index <= |text| && out + Tokens(text[index..]) == Tokens(text)
  }

  lemma NothingWritten(text: string)
    ensures Written(text, 0, [])
  {
    assert text[0..] == text && [] + Tokens(text) == Tokens(text);
  }

  lemma OneMore(out: seq<string>, first: string, rest: seq<string>)
    ensures out + ([first] + rest) == out + [first] + rest
  {
  }

  lemma OneMoreToken(text: string, index: nat, out: seq<string>, end: nat, blanked: string)
    requires Written(text, index, out) && index < |text|
    requires end == index + Reach(text[index..]) && blanked == Emitted(text[index..])
    ensures index < end && Written(text, end, out + [blanked])
  {
    Further(text, index, Reach(text[index..]));
    OneMore(out, blanked, Tokens(text[end..]));
  }

  lemma NoTokenLeft(text: string, out: seq<string>)
    requires Written(text, |text|, out)
    ensures Join(out) == Strip(text)
  {
    assert Tokens(text[|text|..]) == [] && out + [] == out;
    JoinedTokens(text);
  }

  method ScanAll(text: string) returns (out: seq<string>)
    ensures Written(text, |text|, out)
  {
    var index := 0;
    out := [];
    NothingWritten(text);
    while index < |text|
      invariant Written(text, index, out)
    {
      var end, blanked := ScanToken(text, index);
      OneMoreToken(text, index, out, end, blanked);
      out := out + [blanked];
      index := end;
    }
  }

  method StripComments(text: string) returns (cleaned: string)
    ensures cleaned == Strip(text)
  {
    var out := ScanAll(text);
    NoTokenLeft(text, out);
    cleaned := Join(out);
  }

  method ScanToken(text: string, start: nat) returns (end: nat, blanked: string)
    requires start < |text|
    ensures end == start + Reach(text[start..]) && blanked == Emitted(text[start..])
  {
    var rest := text[start..];
    if Pair(rest, '-', '-') {
      end, blanked := ScanLine(text, start);
    } else if Pair(rest, '/', '*') {
      end, blanked := ScanBlock(text, start);
    } else if TagLength(rest) > 0 {
      var opening := TagLength(rest);
      end := start + opening + UntilTag(rest[opening..], rest[..opening]);
      blanked := Blank(text[start..end]);
      assert rest[..end - start] == text[start..end];
    } else if text[start] == '\'' {
      end, blanked := ScanQuote(text, start);
    } else {
      end, blanked := start + 1, [text[start]];
    }
  }

  method ScanLine(text: string, start: nat) returns (index: nat, blanked: string)
    requires start < |text| && Pair(text[start..], '-', '-')
    ensures index == start + Reach(text[start..]) && blanked == Emitted(text[start..])
  {
    index, blanked := start, "";
    while index < |text| && text[index] != '\n'
      invariant start <= index <= |text|
      invariant UntilNewline(text[start..]) == index - start + UntilNewline(text[index..])
      invariant blanked == Blank(text[start..index])
    {
      blanked := blanked + " ";
      index := index + 1;
    }
    assert text[start..][..index - start] == text[start..index];
  }

  lemma BlankOneMore(text: string, start: nat, index: nat)
    requires start <= index < |text|
    ensures Blank(text[start..index + 1]) == Blank(text[start..index]) + if text[index] == '\n' then "\n" else " "
    ensures text[index..][1..] == text[index + 1..]
  {
  }

  method ScanBlock(text: string, start: nat) returns (index: nat, blanked: string)
    requires start < |text| && Pair(text[start..], '/', '*')
    ensures index == start + Reach(text[start..]) && blanked == Emitted(text[start..])
  {
    ghost var body := text[start + 2..];
    index, blanked := start + 2, "";
    while index + 1 < |text| && !Pair(text[index..], '*', '/')
      invariant start + 2 <= index <= |text|
      invariant UntilClose(body) == index - start - 2 + UntilClose(text[index..])
      invariant blanked == Blank(text[start + 2..index])
    {
      BlankOneMore(text, start + 2, index);
      blanked := blanked + if text[index] == '\n' then "\n" else " ";
      index := index + 1;
    }
    BlockIsEmitted(text, start, index);
    blanked := "  " + blanked + "  ";
    index := if index + 2 < |text| then index + 2 else |text|;
  }

  lemma BlockIsEmitted(text: string, start: nat, index: nat)
    requires start + 2 <= index <= |text| && Pair(text[start..], '/', '*')
    requires index == start + 2 + UntilClose(text[start + 2..])
    ensures Emitted(text[start..]) == "  " + Blank(text[start + 2..index]) + "  "
    ensures start + Reach(text[start..]) == if index + 2 < |text| then index + 2 else |text|
  {
    var u := text[start..];
    var n := index - start;
    assert u[2..] == text[start + 2..] && u[2..][..n - 2] == text[start + 2..index];
    if !Unclosed(u) {
      ClosingMark(u[2..]);
      var e := Blank(u[..n + 2]);
      assert e == "  " + Blank(u[2..][..n - 2]) + "  ";
    }
  }

  lemma {:induction false} ClosingMark(u: string)
    requires UntilClose(u) + 2 <= |u|
    ensures u[UntilClose(u)] == '*' && u[UntilClose(u) + 1] == '/'
  {
    if !Pair(u, '*', '/') { ClosingMark(u[1..]); }
  }

  lemma QuoteStep(text: string, index: nat)
    requires index < |text|
    ensures QuoteRest(text[index..]) ==
            if Doubled(text, index) then 2 + QuoteRest(text[index + 2..])
            else if text[index] == '\'' then 1 else 1 + QuoteRest(text[index + 1..])
  {
    var u := text[index..];
    assert u[1..] == text[index + 1..];
    if |u| > 1 { assert u[2..] == text[index + 2..]; }
  }

  predicate Doubled(text: string, index: nat) {
    index + 1 < |text| && text[index] == '\'' && text[index + 1] == '\''
  }

  /** The literal has been read and blanked up to `index`. */
  ghost predicate QuoteRead(text: string, start: nat, index: nat, blanked: string) {
    start < index <= |text| && QuoteRest(text[start + 1..]) == index - start - 1 + QuoteRest(text[index..])
    && blanked == Blank(text[start..index])
  }

  lemma DoubledQuote(text: string, start: nat, index: nat, blanked: string)
    requires QuoteRead(text, start, index, blanked) && index < |text| && Doubled(text, index)
    ensures QuoteRead(text, start, index + 2, blanked + "  ")
  {
    QuoteStep(text, index);
    BlankOneMore(text, start, index);
    BlankOneMore(text, start, index + 1);
  }

  lemma InsideQuote(text: string, start: nat, index: nat, blanked: string)
    requires QuoteRead(text, start, index, blanked) && index < |text| && !Doubled(text, index) && text[index] != '\''
    ensures QuoteRead(text, start, index + 1, blanked + if text[index] == '\n' then "\n" else " ")
  {
    QuoteStep(text, index);
    BlankOneMore(text, start, index);
  }

  lemma ClosingQuote(text: string, start: nat, index: nat, blanked: string)
    requires QuoteRead(text, start, index, blanked) && index < |text| && !Doubled(text, index) && text[index] == '\''
    ensures index == start + QuoteRest(text[start + 1..]) && blanked + " " == Blank(text[start..index + 1])
  {
    QuoteStep(text, index);
    BlankOneMore(text, start, index);
  }

  method ScanQuote(text: string, start: nat) returns (index: nat, blanked: string)
    requires start < |text| && Quote(text[start..])
    ensures index == start + Reach(text[start..]) && blanked == Emitted(text[start..])
  {
    index, blanked := ScanQuoteBody(text, start);
    QuoteIsEmitted(text, start, index);
  }

  method ScanQuoteBody(text: string, start: nat) returns (index: nat, blanked: string)
    requires start < |text| && Quote(text[start..])
    ensures start < index <= |text| && index == start + 1 + QuoteRest(text[start + 1..])
            && blanked == Blank(text[start..index])
  {
    index, blanked := start + 1, " ";
    while index < |text|
      invariant QuoteRead(text, start, index, blanked)
    {
      if Doubled(text, index) {
        DoubledQuote(text, start, index, blanked);
        index, blanked := index + 2, blanked + "  ";
        continue;
      }
      if text[index] == '\'' {
        ClosingQuote(text, start, index, blanked);
        return index + 1, blanked + " ";
      }
      InsideQuote(text, start, index, blanked);
      index, blanked := index + 1, blanked + if text[index] == '\n' then "\n" else " ";
    }
  }

  lemma QuoteIsEmitted(text: string, start: nat, index: nat)
    requires start < index <= |text| && Quote(text[start..])
    requires index == start + 1 + QuoteRest(text[start + 1..])
    ensures index == start + Reach(text[start..]) && Emitted(text[start..]) == Blank(text[start..index])
  {
    assert text[start..][1..] == text[start + 1..];
    assert text[start..][..index - start] == text[start..index];
  }

  // ----- offsets and line numbers survive exactly when every block comment is closed

  /** What one character of the raw text may become. */
  predicate KeptOrBlanked(raw: char, cleaned: char) {
    cleaned == raw || (cleaned == ' ' && raw != '\n')
  }

  ghost predicate Survive(raw: string, cleaned: string) {
    |raw| == |cleaned| && forall i :: 0 <= i < |raw| ==> KeptOrBlanked(raw[i], cleaned[i])
  }

  lemma SurviveTogether(u: string, n: nat, early: string, late: string)
    requires n <= |u| && Survive(u[..n], early) && Survive(u[n..], late)
    ensures Survive(u, early + late)
  {
    forall i | 0 <= i < |u|
      ensures KeptOrBlanked(u[i], (early + late)[i])
    {
      if i < n { assert u[..n][i] == u[i]; } else { assert u[n..][i - n] == u[i]; }
    }
  }

  lemma TokenSurvives(u: string)
    requires u != "" && !Unclosed(u)
    ensures Survive(u[..Reach(u)], Emitted(u))
  {
  }

  /** On every text, every character but possibly the last is kept or blanked where it stands. */
  ghost predicate AlmostSurvive(raw: string, cleaned: string) {
    |raw| <= |cleaned| && forall i :: 0 <= i < |raw| - 1 ==> KeptOrBlanked(raw[i], cleaned[i])
  }

  lemma AlmostSurviveTogether(u: string, n: nat, early: string, late: string)
    requires n <= |u| && Survive(u[..n], early) && AlmostSurvive(u[n..], late)
    ensures AlmostSurvive(u, early + late)
  {
    forall i | 0 <= i < |u| - 1
      ensures KeptOrBlanked(u[i], (early + late)[i])
    {
      if i < n { assert u[..n][i] == u[i]; } else { assert u[n..][i - n] == u[i]; }
    }
  }

  /** An open block comment ends the text: it is blanked up to its last character, which becomes a space, and more. */
  lemma OpenCommentIsBlanked(u: string)
    requires Unclosed(u)
    ensures AlmostSurvive(u, Emitted(u)) && Emitted(u)[|u| - 1] == ' '
  {
    var body := u[2..];
    assert |Emitted(u)| == UntilClose(body) + 4;
  }

  /**
   * On every text the characters before the last keep their places, line breaks among them; the last one does too if
   * every block comment is closed, and becomes a space otherwise.
   */
  lemma {:induction false} AllButTheLastSurvive(u: string)
    ensures AlmostSurvive(u, Strip(u))
    ensures !BlocksClosed(u) ==> u != "" && Strip(u)[|u| - 1] == ' '
    decreases |u|
  {
    if u != "" {
      var rest := u[Reach(u)..];
      if Unclosed(u) {
        OpenCommentIsBlanked(u);
        assert Strip(u) == Emitted(u) + "";
      } else {
        AllButTheLastSurvive(rest);
        TokenSurvives(u);
        AlmostSurviveTogether(u, Reach(u), Emitted(u), Strip(rest));
      }
    }
  }

  lemma {:induction false} PositionsSurvive(u: string)
    requires BlocksClosed(u)
    ensures |Strip(u)| == |u| && forall i :: 0 <= i < |u| ==> KeptOrBlanked(u[i], Strip(u)[i])
    decreases |u|
  {
    if u != "" {
      PositionsSurvive(u[Reach(u)..]);
      TokenSurvives(u);
      SurviveTogether(u, Reach(u), Emitted(u), Strip(u[Reach(u)..]));
    }
  }

  /** An open block comment makes the text one or two characters longer, and nothing else changes its length. */
  lemma {:induction false} LengthKeptExactlyWhenClosed(u: string)
    ensures |u| <= |Strip(u)| <= |u| + 2
    ensures |Strip(u)| == |u| <==> BlocksClosed(u)
    decreases |u|
  {
    if u != "" {
      LengthKeptExactlyWhenClosed(u[Reach(u)..]);
    }
  }

  function Lines(s: string): nat {
    if s == "" then 0 else Lines(s[..|s| - 1]) + if s[|s| - 1] == '\n' then 1 else 0
  }

  lemma {:induction false} SameBreaksSameLines(u: string, v: string, i: nat)
    requires i <= |u| && i <= |v| && forall k :: 0 <= k < i ==> (u[k] == '\n' <==> v[k] == '\n')
    ensures Lines(u[..i]) == Lines(v[..i])
  {
    if i > 0 {
      SameBreaksSameLines(u, v, i - 1);
      assert u[..i][..i - 1] == u[..i - 1] && v[..i][..i - 1] == v[..i - 1];
    }
  }

  /** Every line number computed in the cleaned text is the line number in the file. */
  ghost predicate LinesSurvive(u: string) {
    forall i :: 0 <= i <= |u| ==> i <= |Strip(u)| && Lines(Strip(u)[..i]) == Lines(u[..i])
  }

  /** If only the last characters may differ in being line breaks, all line numbers agree exactly when these do not. */
  lemma LinesAgreeIff(u: string, v: string)
    requires u != "" && |u| <= |v| && forall k :: 0 <= k < |u| - 1 ==> (u[k] == '\n' <==> v[k] == '\n')
    ensures (forall i :: 0 <= i <= |u| ==> Lines(v[..i]) == Lines(u[..i]))
            <==> (u[|u| - 1] == '\n' <==> v[|u| - 1] == '\n')
  {
    var n := |u|;
    if u[n - 1] == '\n' <==> v[n - 1] == '\n' {
      forall i | 0 <= i <= n
        ensures Lines(v[..i]) == Lines(u[..i])
      {
        SameBreaksSameLines(u, v, i);
      }
    } else {
      SameBreaksSameLines(u, v, n - 1);
      assert u[..n][..n - 1] == u[..n - 1] && v[..n][..n - 1] == v[..n - 1];
      assert Lines(v[..n]) != Lines(u[..n]);
    }
  }

  /** Line numbers survive exactly when every block comment is closed, or the text does not end in a line break. */
  lemma LinesSurviveIff(u: string)
    ensures LinesSurvive(u) <==> BlocksClosed(u) || u[|u| - 1] != '\n'
  {
    AllButTheLastSurvive(u);
    if BlocksClosed(u) { PositionsSurvive(u); }
    if u != "" {
      forall k | 0 <= k < |u| - 1
        ensures u[k] == '\n' <==> Strip(u)[k] == '\n'
      {
        assert KeptOrBlanked(u[k], Strip(u)[k]);
      }
      if BlocksClosed(u) { assert KeptOrBlanked(u[|u| - 1], Strip(u)[|u| - 1]); }
      LinesAgreeIff(u, Strip(u));
    }
  }

  /** The shortest open block comment that swallows a line break. */
  lemma OpenCommentLosesALine()
    ensures !LinesSurvive("/*\n") && Strip("/*\n") == "    "
  {
    var u := "/*\n";
    assert u[2..] == "\n" && UntilClose(u[2..]) == 0 && Unclosed(u);
    assert u[2..][..0] == "" && u[3..] == "";
    assert Strip(u) == Emitted(u) + Strip(u[Reach(u)..]);
    LinesSurviveIff(u);
  }

  // ----- cleaning twice is cleaning once, on every text

  /** No comment and no literal starts anywhere. */
  ghost predicate Clean(v: string) {
    forall i :: 0 <= i < |v| ==> !Starts(v[i..])
  }

  predicate IsBlank(c: char) {
    c == ' ' || c == '\n'
  }

  lemma {:induction false} CleanIsLeftAlone(v: string)
    requires Clean(v)
    ensures Strip(v) == v
    decreases |v|
  {
    if v != "" {
      assert v[0..] == v;
      forall i | 0 <= i < |v[1..]|
        ensures !Starts(v[1..][i..])
      {
        assert v[1..][i..] == v[i + 1..];
      }
      CleanIsLeftAlone(v[1..]);
      assert v == v[..1] + v[1..];
    }
  }

  ghost predicate NoBlanks(w: string, n: nat) {
    n <= |w| && forall k :: 0 <= k < n ==> !IsBlank(w[k])
  }

  /** Where the output does not begin with a blank, no token starts, and one character was copied. */
  lemma FirstIsKept(u: string)
    requires NoBlanks(Strip(u), 1)
    ensures u != "" && !Starts(u) && Strip(u) == u[..1] + Strip(u[1..])
  {
    assert Emitted(u)[0] == Strip(u)[0];
  }

  lemma RestHasNoBlanks(first: string, w: string, n: nat)
    requires |first| == 1 && n > 0 && NoBlanks(first + w, n)
    ensures NoBlanks(w, n - 1)
  {
    assert forall k :: 0 <= k < n - 1 ==> w[k] == (first + w)[k + 1];
  }

  lemma LongerPrefix(u: string, w: string, rest: string, n: nat)
    requires u != "" && n > 0 && w == u[..1] + rest && n - 1 <= |u[1..]| && n - 1 <= |rest|
             && u[1..][..n - 1] == rest[..n - 1]
    ensures n <= |u| && n <= |w| && u[..n] == w[..n]
  {
    assert u[..n] == u[..1] + u[1..][..n - 1] && w[..n] == u[..1] + rest[..n - 1];
  }

  /** Output without blanks is input that the scanner kept. */
  lemma {:induction false} UnblankedIsKept(u: string, n: nat)
    requires NoBlanks(Strip(u), n)
    ensures n <= |u| && u[..n] == Strip(u)[..n]
    decreases |u|
  {
    if n > 0 {
      FirstIsKept(u);
      RestHasNoBlanks(u[..1], Strip(u[1..]), n);
      UnblankedIsKept(u[1..], n - 1);
      LongerPrefix(u, Strip(u), Strip(u[1..]), n);
    }
  }

  /** Whether a dollar tag starts here depends on the tag's own characters only. */
  lemma TagIsLocal(u: string, w: string)
    requires TagLength(w) > 0 && TagLength(w) <= |u| && u[..TagLength(w)] == w[..TagLength(w)]
    ensures TagLength(u) == TagLength(w)
  {
    var n := TagLength(w);
    assert forall k :: 0 <= k < n ==> u[k] == u[..n][k] == w[..n][k] == w[k];
    if n > 2 {
      var a, b := u[1..], w[1..];
      assert forall k :: 0 <= k < n - 1 ==> a[k] == b[k];
      assert WordLength(b) == n - 2;
    }
  }

  lemma {:induction false} StrippedIsClean(u: string)
    ensures Clean(Strip(u))
    decreases |u|
  {
    if u != "" {
      var e, rest := Emitted(u), Strip(u[Reach(u)..]);
      StrippedIsClean(u[Reach(u)..]);
      forall i | 0 <= i < |Strip(u)|
        ensures !Starts(Strip(u)[i..])
      {
        if i >= |e| {
          assert Strip(u)[i..] == rest[i - |e|..];
        } else if Starts(u) {
          assert IsBlank(e[i]) && Strip(u)[i..][0] == e[i];
        } else {
          assert Strip(u)[i..] == Strip(u);
          KeptStartsNothing(u);
        }
      }
    }
  }

  lemma KeptStartsNothing(u: string)
    requires u != "" && !Starts(u)
    ensures !Starts(Strip(u))
  {
    var w := Strip(u);
    assert w == u[..1] + Strip(u[1..]);
    if TagLength(w) > 0 {
      TagHasNoBlanks(w);
      UnblankedIsKept(u, TagLength(w));
      TagIsLocal(u, w);
    }
    if |w| > 1 && !IsBlank(w[0]) && !IsBlank(w[1]) {
      UnblankedIsKept(u, 2);
      assert u[1] == u[..2][1];
    }
  }

  lemma TagHasNoBlanks(w: string)
    ensures forall k :: 0 <= k < TagLength(w) ==> !IsBlank(w[k])
  {
    forall k | 0 <= k < TagLength(w)
      ensures !IsBlank(w[k])
    {
      if 0 < k < TagLength(w) - 1 { assert TagChar(w[1..][k - 1]); }
    }
  }

  lemma StripIsIdempotent(u: string)
    ensures Strip(Strip(u)) == Strip(u)
  {
    StrippedIsClean(u);
    CleanIsLeftAlone(Strip(u));
  }

  // ----- policy bodies: found in the cleaned text, cut out of the raw text at the same offsets

  predicate Delimiter(c: char) {
    c == '(' || c == ')' || c == ';'
  }

  function Deeper(depth: int, c: char): int {
    if c == '(' then depth + 1 else if c == ')' then depth - 1 else depth
  }

  /** How far a statement reaches: to the first semicolon outside parentheses. */
  function TailLength(u: string, depth: int): (n: nat)
    ensures n <= |u|
  {
    if u == "" || (u[0] == ';' && depth == 0) then 0 else 1 + TailLength(u[1..], Deeper(depth, u[0]))
  }

  method StatementTail(text: string, start: nat) returns (tail: string)
    requires start <= |text|
    ensures tail == text[start..start + TailLength(text[start..], 0)]
  {
    var depth, position := 0, start;
    while position < |text|
      invariant start <= position <= |text|
      invariant TailLength(text[start..], 0) == position - start + TailLength(text[position..], depth)
    {
      if text[position] == ';' && depth == 0 {
        return text[start..position];
      }
      assert text[position..][1..] == text[position + 1..];
      depth := Deeper(depth, text[position]);
      position := position + 1;
    }
    return text[start..];
  }

  lemma {:induction false} SameDelimitersSameTail(u: string, v: string, depth: int)
    requires |u| == |v|
    requires forall i :: 0 <= i < |u| && i <= TailLength(v, depth) && (Delimiter(u[i]) || Delimiter(v[i])) ==>
               u[i] == v[i]
    ensures TailLength(u, depth) == TailLength(v, depth)
  {
    if u != "" && !(v[0] == ';' && depth == 0) {
      var deeper := Deeper(depth, v[0]);
      forall i | 0 <= i < |u[1..]| && i <= TailLength(v[1..], deeper) && (Delimiter(u[1..][i]) || Delimiter(v[1..][i]))
        ensures u[1..][i] == v[1..][i]
      {
        assert u[1..][i] == u[i + 1] && v[1..][i] == v[i + 1];
      }
      SameDelimitersSameTail(u[1..], v[1..], deeper);
    }
  }

  /**
   * The body cut from the raw text ends where the statement ends in the cleaned text, provided the statement holds no
   * parenthesis or semicolon inside a comment or a literal.
   */
  lemma BodyEndsWithItsStatement(sql: string, start: nat)
    requires BlocksClosed(sql) && start <= |sql|
    requires |Strip(sql)| == |sql|
    requires forall i :: start <= i < |sql| && i <= start + TailLength(Strip(sql)[start..], 0) && Delimiter(sql[i]) ==>
               Strip(sql)[i] == sql[i]
    ensures TailLength(sql[start..], 0) == TailLength(Strip(sql)[start..], 0)
  {
    PositionsSurvive(sql);
    var u, v := sql[start..], Strip(sql)[start..];
    forall i | 0 <= i < |u| && i <= TailLength(v, 0) && (Delimiter(u[i]) || Delimiter(v[i]))
      ensures u[i] == v[i]
    {
      assert u[i] == sql[start + i] && v[i] == Strip(sql)[start + i];
      assert KeptOrBlanked(sql[start + i], Strip(sql)[start + i]);
    }
    SameDelimitersSameTail(u, v, 0);
  }

  /** How deep in parentheses the first `k` characters end. */
  function Depth(u: string, k: nat): int
    requires k <= |u|
  {
    if k == 0 then 0 else Deeper(0, u[0]) + Depth(u[1..], k - 1)
  }

  /** The balance of the parentheses that cleaning took out of the first `k` characters. */
  function HiddenDepth(raw: string, cleaned: string, k: nat): int
    requires k <= |raw| == |cleaned|
  {
    if k == 0 then
      0
    else
      (if raw[0] == cleaned[0] then 0 else Deeper(0, raw[0])) + HiddenDepth(raw[1..], cleaned[1..], k - 1)
  }

  /** Cleaning put spaces and nothing else. */
  ghost predicate OnlyBlanked(raw: string, cleaned: string) {
    |raw| == |cleaned| && forall i :: 0 <= i < |raw| ==> cleaned[i] == raw[i] || cleaned[i] == ' '
  }

  /** So it is on every text, up to the end of the raw one. */
  lemma CleaningOnlyBlanks(u: string)
    ensures |u| <= |Strip(u)| && OnlyBlanked(u, Strip(u)[..|u|])
  {
    AllButTheLastSurvive(u);
    if BlocksClosed(u) { PositionsSurvive(u); }
    forall i | 0 <= i < |u|
      ensures Strip(u)[i] == u[i] || Strip(u)[i] == ' '
    {
      if BlocksClosed(u) || i < |u| - 1 { assert KeptOrBlanked(u[i], Strip(u)[i]); }
    }
  }

  lemma {:induction false} DepthOfRaw(raw: string, cleaned: string, k: nat)
    requires OnlyBlanked(raw, cleaned) && k <= |raw|
    ensures Depth(raw, k) == Depth(cleaned, k) + HiddenDepth(raw, cleaned, k)
  {
    if k > 0 {
      DepthOfRaw(raw[1..], cleaned[1..], k - 1);
    }
  }

  /** A semicolon outside all parentheses, counted from depth `depth`. */
  predicate Stops(u: string, depth: int, i: nat) {
    i < |u| && u[i] == ';' && depth + Depth(u, i) == 0
  }

  ghost predicate NoStopBefore(u: string, depth: int, n: nat) {
    forall i :: 0 <= i < n && i < |u| ==> !Stops(u, depth, i)
  }

  lemma NoStopShifted(u: string, depth: int, n: nat)
    requires u != "" && n > 0
    ensures NoStopBefore(u, depth, n) <==> !Stops(u, depth, 0) && NoStopBefore(u[1..], Deeper(depth, u[0]), n - 1)
    ensures n < |u| ==> (Stops(u, depth, n) <==> Stops(u[1..], Deeper(depth, u[0]), n - 1))
  {
    forall i | 0 < i < |u|
      ensures Stops(u, depth, i) <==> Stops(u[1..], Deeper(depth, u[0]), i - 1)
    {
    }
    if NoStopBefore(u, depth, n) {
      forall i | 0 <= i < n - 1 && i < |u[1..]|
        ensures !Stops(u[1..], Deeper(depth, u[0]), i)
      {
        assert !Stops(u, depth, i + 1);
      }
    }
  }

  /** The statement ends at the first place where it can. */
  lemma {:induction false} TailIff(u: string, depth: int, n: nat)
    ensures TailLength(u, depth) == n <==> n <= |u| && (n < |u| ==> Stops(u, depth, n)) && NoStopBefore(u, depth, n)
  {
    if u != "" && n > 0 {
      NoStopShifted(u, depth, n);
      if !Stops(u, depth, 0) { TailIff(u[1..], Deeper(depth, u[0]), n - 1); }
    }
  }

  /**
   * On every text, the body cut from the raw text ends with its statement exactly when the parentheses inside the
   * statement's comments and literals balance by its end, and nowhere before it do they bring a semicolon out of all
   * parentheses.
   */
  lemma BodyEndsWithItsStatementIff(sql: string, start: nat)
    requires start <= |sql|
    ensures |sql| <= |Strip(sql)|
    ensures var raw, cleaned := sql[start..], Strip(sql)[start..|sql|];
            var n := TailLength(cleaned, 0);
            TailLength(raw, 0) == n
            <==> (n < |raw| ==> HiddenDepth(raw, cleaned, n) == 0)
                 && forall i :: 0 <= i < n && raw[i] == ';' ==> Depth(cleaned, i) + HiddenDepth(raw, cleaned, i) != 0
  {
    CleaningOnlyBlanks(sql);
    var cleaned := Strip(sql)[..|sql|];
    assert cleaned[start..] == Strip(sql)[start..|sql|];
    forall i | 0 <= i < |sql[start..]|
      ensures cleaned[start..][i] == sql[start..][i] || cleaned[start..][i] == ' '
    {
      assert cleaned[start + i] == sql[start + i] || cleaned[start + i] == ' ';
    }
    TailsAgreeIff(sql[start..], Strip(sql)[start..|sql|]);
  }

  lemma TailsAgreeIff(raw: string, cleaned: string)
    requires OnlyBlanked(raw, cleaned)
    ensures var n := TailLength(cleaned, 0);
            TailLength(raw, 0) == n
            <==> (n < |raw| ==> HiddenDepth(raw, cleaned, n) == 0)
                 && forall i :: 0 <= i < n && raw[i] == ';' ==> Depth(cleaned, i) + HiddenDepth(raw, cleaned, i) != 0
  {
    var n := TailLength(cleaned, 0);
    TailIff(cleaned, 0, n);
    TailIff(raw, 0, n);
    forall i | 0 <= i < |raw|
      ensures Stops(raw, 0, i) <==> raw[i] == ';' && Depth(cleaned, i) + HiddenDepth(raw, cleaned, i) == 0
    {
      DepthOfRaw(raw, cleaned, i);
    }
  }

  /** A character with which no comment and no literal starts. */
  predicate Inert(c: char) {
    c != '-' && c != '/' && c != '$' && c != '\''
  }

  lemma Regrouped(first: string, middle: string, last: string)
    ensures first + (middle + last) == first + middle + last
  {
  }

  lemma {:induction false} InertPrefix(prefix: string, rest: string)
    requires forall i :: 0 <= i < |prefix| ==> Inert(prefix[i])
    ensures Strip(prefix + rest) == prefix + Strip(rest)
    ensures BlocksClosed(prefix + rest) == BlocksClosed(rest)
  {
    if prefix == "" {
      assert prefix + rest == rest && prefix + Strip(rest) == Strip(rest);
    } else {
      var u := prefix + rest;
      assert u[..1] == prefix[..1] && u[1..] == prefix[1..] + rest && prefix == prefix[..1] + prefix[1..];
      InertPrefix(prefix[1..], rest);
      Regrouped(prefix[..1], prefix[1..], Strip(rest));
    }
  }

  predicate IsName(name: string) {
    name != "" && TagStart(name[0]) && forall i :: 0 <= i < |name| ==> TagChar(name[i])
  }

  /** Where a policy's body begins: after its name and its table. */
  function PolicyHead(name: string, table: string): string {
    "create policy " + name + " on " + table
  }

  lemma HeadIsInert(name: string, table: string)
    requires IsName(name) && IsName(table)
    ensures forall i :: 0 <= i < |PolicyHead(name, table)| ==> Inert(PolicyHead(name, table)[i])
  {
  }

  /**
   * The condition fails for every policy whose literal holds one parenthesis: the next statement is dragged into the
   * body, up to the end of the text. That is so wherever after the table's name the body begins: behind it, or, after a
   * table that is called `only`, behind the word `using`, which is then taken for the table.
   */
  lemma LiteralParenthesisOverruns(name: string, table: string, start: nat)
    requires IsName(name) && IsName(table)
    requires |PolicyHead(name, table)| <= start <= |PolicyHead(name, table) + " using "|
    ensures var before := PolicyHead(name, table) + " using ";
            var sql := before + "('(');x";
            && BlocksClosed(sql) && Strip(sql) == before + "(   );x"
            && TailLength(Strip(sql)[start..], 0) == |before| + 5 - start
            && TailLength(sql[start..], 0) == |before| + 7 - start
  {
    var head, before := PolicyHead(name, table), PolicyHead(name, table) + " using ";
    HeadIsInert(name, table);
    BodyIsCleaned(before);
    AfterHead(before, "('(');x", start);
    AfterHead(before, "(   );x", start);
    NothingInBetween(head, start);
    NoDelimiterBefore(before[start..], "(   );x", 0);
    NoDelimiterBefore(before[start..], "('(');x", 0);
    CleanedTail();
    RawTail();
  }

  lemma NothingInBetween(head: string, start: nat)
    requires |head| <= start <= |head + " using "|
    ensures forall i :: start <= i < |head + " using "| ==> !Delimiter((head + " using ")[i])
  {
    assert forall i :: |head| <= i < |head + " using "| ==> (head + " using ")[i] == " using "[i - |head|];
  }

  lemma AfterHead(before: string, last: string, start: nat)
    requires start <= |before|
    ensures (before + last)[start..] == before[start..] + last
  {
  }

  lemma BodyIsCleaned(before: string)
    requires forall i :: 0 <= i < |before| ==> Inert(before[i])
    ensures BlocksClosed(before + "('(');x") && Strip(before + "('(');x") == before + "(   );x"
  {
    ParenthesisIsCleaned();
    InertPrefix(before, "('(');x");
  }

  lemma ParenthesisIsCleaned()
    ensures BlocksClosed("('(');x") && Strip("('(');x") == "(   );x"
  {
    LiteralIsCleaned();
    InertPrefix("(", "'(');x");
    ParenthesisFirst();
  }

  lemma ParenthesisFirst()
    ensures "(" + "'(');x" == "('(');x" && "(" + "   );x" == "(   );x"
  {
  }

  lemma LiteralIsCleaned()
    ensures BlocksClosed("'(');x") && Strip("'(');x") == "   );x"
  {
    var u := "'(');x";
    LiteralReach();
    LiteralIsBlanked();
    InertPrefix(");x", "");
    assert Strip(u) == Emitted(u) + Strip(u[3..]);
    AfterTheLiteral();
  }

  lemma LiteralIsBlanked()
    ensures Emitted("'(');x") == "   "
  {
    LiteralReach();
  }

  lemma AfterTheLiteral()
    ensures ");x" + "" == ");x" && "   " + ");x" == "   );x" && Strip("") == "" && BlocksClosed("")
  {
  }

  lemma LiteralReach()
    ensures var u := "'(');x"; !Unclosed(u) && Starts(u) && Reach(u) == 3 && u[3..] == ");x" && u[..3] == "'('"
  {
    var u := "'(');x";
    assert u[1..] == "(');x" && "(');x"[1..] == "');x";
    assert QuoteRest("');x") == 1 && QuoteRest("(');x") == 2;
  }

  lemma {:induction false} NoDelimiterBefore(prefix: string, rest: string, depth: int)
    requires forall i :: 0 <= i < |prefix| ==> !Delimiter(prefix[i])
    ensures TailLength(prefix + rest, depth) == |prefix| + TailLength(rest, depth)
  {
    if prefix == "" {
      assert prefix + rest == rest;
    } else {
      assert (prefix + rest)[1..] == prefix[1..] + rest;
      NoDelimiterBefore(prefix[1..], rest, depth);
    }
  }

  lemma CleanedTail()
    ensures TailLength("(   );x", 0) == 5
  {
    NoDelimiterBefore("   ", ");x", 1);
    assert "(   );x"[1..] == "   );x" && "   " + ");x" == "   );x" && ");x"[1..] == ";x";
    assert TailLength(");x", 1) == 1;
  }

  lemma RawTail()
    ensures TailLength("('(');x", 0) == 7
  {
    assert "('(');x"[1..] == "'(');x" && "'(');x"[1..] == "(');x" && "(');x"[1..] == "');x" && "');x"[1..] == ");x";
    assert ");x"[1..] == ";x" && ";x"[1..] == "x" && "x"[1..] == "";
    assert TailLength("x", 1) == 1 && TailLength(";x", 1) == 2 && TailLength(");x", 2) == 3
           && TailLength("');x", 2) == 4;
    assert TailLength("(');x", 1) == 5 && TailLength("'(');x", 1) == 6;
  }
}
