/** Where comments and literals of SQL end, told by the text itself. */
module SqlTokens {
  import opened SqlText
  import Text

  // ----- what is blanked

  /** Spaces in place of everything but the line breaks. */
  ghost predicate IsBlankOf(blank: string, token: string) {
    |blank| == |token| && forall k :: 0 <= k < |token| ==> blank[k] == if token[k] == '\n' then '\n' else ' '
  }

  /** The token is blanked, and what follows is cleaned as if it stood alone. */
  ghost predicate Vanishes(token: string, rest: string) {
    exists blank :: IsBlankOf(blank, token) && Strip(token + rest) == blank + Strip(rest)
  }

  lemma TokenVanishes(token: string, rest: string)
    requires token != "" && Starts(token + rest) && !Unclosed(token + rest) && Reach(token + rest) == |token|
    ensures Vanishes(token, rest) && (BlocksClosed(token + rest) <==> BlocksClosed(rest))
  {
    var u := token + rest;
    assert u[..|token|] == token && u[|token|..] == rest;
    assert IsBlankOf(Blank(token), token);
  }

  // ----- comments up to the end of the line

  lemma {:induction false} LineEndsAt(line: string, rest: string)
    requires '\n' !in line && (rest == "" || rest[0] == '\n')
    ensures UntilNewline(line + rest) == |line|
  {
    if line == "" {
      assert line + rest == rest;
    } else {
      assert (line + rest)[1..] == line[1..] + rest && line[0] in line;
      LineEndsAt(line[1..], rest);
    }
  }

  /** A comment goes on to the end of its line, or of the text, whatever it holds. */
  lemma LineCommentVanishes(comment: string, rest: string)
    requires '\n' !in comment && (rest == "" || rest[0] == '\n')
    ensures Vanishes("--" + comment, rest)
  {
    LineEndsAt("--" + comment, rest);
    TokenVanishes("--" + comment, rest);
  }

  // ----- block comments

  /** No closing mark begins before the end of `c`. */
  ghost predicate ClosesNowhere(c: string, after: string) {
    forall i :: 0 <= i < |c| ==> !("*/" <= (c + after)[i..])
  }

  lemma {:induction false} CloseIsFound(c: string, rest: string)
    requires ClosesNowhere(c, "*/")
    ensures UntilClose(c + "*/" + rest) == |c|
  {
    var u := c + "*/" + rest;
    if c == "" {
      assert u[0] == '*' && u[1] == '/';
    } else {
      assert u[1..] == c[1..] + "*/" + rest;
      assert !("*/" <= (c + "*/")[0..]);
      assert (c + "*/")[0] == u[0] && (c + "*/")[1] == u[1];
      NextClosesNowhere(c, "*/");
      CloseIsFound(c[1..], rest);
    }
  }

  lemma NextClosesNowhere(c: string, after: string)
    requires c != "" && ClosesNowhere(c, after)
    ensures ClosesNowhere(c[1..], after)
  {
    forall i | 0 <= i < |c[1..]|
      ensures !("*/" <= (c[1..] + after)[i..])
    {
      assert (c[1..] + after)[i..] == (c + after)[i + 1..];
    }
  }

  /** A block comment goes on to the first closing mark behind its opening. */
  lemma BlockCommentVanishes(comment: string, rest: string)
    requires ClosesNowhere(comment, "*/")
    ensures Vanishes("/*" + comment + "*/", rest)
  {
    var token := "/*" + comment + "*/";
    CloseIsFound(comment, rest);
    assert (token + rest)[2..] == comment + "*/" + rest;
    TokenVanishes(token, rest);
  }

  lemma {:induction false} NoCloseIsFound(c: string)
    requires ClosesNowhere(c, "") && c != ""
    ensures UntilClose(c) == |c| - 1
  {
    assert !("*/" <= (c + "")[0..]);
    assert c + "" == c && c[0..] == c;
    if |c| > 1 {
      assert c[0] == '*' && c[1] == '/' ==> "*/" <= c;
      NextClosesNowhere(c, "");
      NoCloseIsFound(c[1..]);
    }
  }

  /** Without a closing mark it swallows the rest of the text. */
  lemma OpenCommentSwallows(comment: string)
    requires ClosesNowhere(comment, "")
    ensures !BlocksClosed("/*" + comment)
    ensures var cleaned := Strip("/*" + comment);
            forall k :: 0 <= k < |cleaned| ==> cleaned[k] == ' ' || cleaned[k] == '\n'
  {
    var u := "/*" + comment;
    assert u[2..] == comment;
    if comment != "" { NoCloseIsFound(comment); }
    assert u[|u|..] == "";
    assert Strip(u) == Emitted(u) + "";
  }

  // ----- literals between dollar signs

  const CAPITALS := "ABCDEFGHIJKLMNOPQRSTUVWXYZ"

  predicate Letter(c: char) {
    c in Text.LETTERS || c in CAPITALS || c == '_'
  }

  /** Two dollar signs, with nothing or a name between them. */
  ghost predicate IsTag(tag: string) {
    && |tag| >= 2 && tag[0] == '$' && tag[|tag| - 1] == '$'
    && (|tag| > 2 ==> Letter(tag[1]))
    && forall i :: 0 < i < |tag| - 1 ==> Letter(tag[i]) || tag[i] in Text.FIGURES
  }

  lemma CapitalsAre(c: char)
    ensures 'A' <= c <= 'Z' <==> c in CAPITALS
  {
    if 'A' <= c <= 'Z' { assert CAPITALS[c as int - 'A' as int] == c; }
  }

  lemma LettersAre(c: char)
    ensures TagStart(c) <==> Letter(c)
  {
    Text.LettersAre(c);
    CapitalsAre(c);
  }

  lemma {:induction false} WordEndsAt(word: string, rest: string)
    requires (forall i :: 0 <= i < |word| ==> TagChar(word[i])) && (rest == "" || !TagChar(rest[0]))
    ensures WordLength(word + rest) == |word|
  {
    if word == "" {
      assert word + rest == rest;
    } else {
      assert (word + rest)[1..] == word[1..] + rest;
      WordEndsAt(word[1..], rest);
    }
  }

  lemma TagIsFound(tag: string, rest: string)
    requires IsTag(tag)
    ensures TagLength(tag + rest) == |tag|
  {
    var u := tag + rest;
    if |tag| > 2 {
      var word, after := tag[1..|tag| - 1], "$" + rest;
      forall i | 0 <= i < |word|
        ensures TagChar(word[i])
      {
        LettersAre(word[i]);
        Text.FiguresAre(word[i]);
      }
      LettersAre(u[1]);
      WordEndsAt(word, after);
      assert u[1..] == word + after;
    }
  }

  lemma FoundIsTag(u: string)
    requires TagLength(u) > 0
    ensures IsTag(u[..TagLength(u)])
  {
    var tag := u[..TagLength(u)];
    if |tag| > 2 {
      LettersAre(tag[1]);
      forall i | 0 < i < |tag| - 1
        ensures Letter(tag[i]) || tag[i] in Text.FIGURES
      {
        assert u[1..][i - 1] == tag[i];
        LettersAre(tag[i]);
        Text.FiguresAre(tag[i]);
      }
    }
  }

  /** The tag does not begin before the end of `c`. */
  ghost predicate TagNowhere(c: string, after: string, tag: string) {
    forall i :: 0 <= i < |c| ==> !(tag <= (c + after)[i..])
  }

  lemma NextTagNowhere(c: string, after: string, tag: string)
    requires c != "" && TagNowhere(c, after, tag)
    ensures TagNowhere(c[1..], after, tag)
  {
    forall i | 0 <= i < |c[1..]|
      ensures !(tag <= (c[1..] + after)[i..])
    {
      assert (c[1..] + after)[i..] == (c + after)[i + 1..];
    }
  }

  lemma {:induction false} TagComesNext(c: string, tag: string, rest: string)
    requires tag != "" && TagNowhere(c, tag, tag)
    ensures UntilTag(c + tag + rest, tag) == |c| + |tag|
  {
    var u := c + tag + rest;
    if c == "" {
      assert u == tag + rest;
    } else {
      assert u[1..] == c[1..] + tag + rest;
      assert !(tag <= (c + tag)[0..]) && (c + tag)[0..] == c + tag;
      assert u[..|tag|] == (c + tag)[..|tag|];
      NextTagNowhere(c, tag, tag);
      TagComesNext(c[1..], tag, rest);
    }
  }

  lemma {:induction false} TagNeverComes(c: string, tag: string)
    requires tag != "" && TagNowhere(c, "", tag)
    ensures UntilTag(c, tag) == |c|
  {
    if c != "" {
      assert !(tag <= (c + "")[0..]) && (c + "")[0..] == c;
      NextTagNowhere(c, "", tag);
      TagNeverComes(c[1..], tag);
    }
  }

  /** Such a literal goes on to the next occurrence of its own tag, whatever stands in between. */
  lemma DollarLiteralVanishes(tag: string, literal: string, rest: string)
    requires IsTag(tag) && TagNowhere(literal, tag, tag)
    ensures Vanishes(tag + literal + tag, rest)
  {
    TagComesNext(literal, tag, rest);
    DollarVanishes(tag, literal + tag, rest);
    assert tag + (literal + tag) == tag + literal + tag;
  }

  lemma DollarReaches(u: string, tag: string, body: string)
    requires IsTag(tag) && u == tag + body
    ensures Starts(u) && !Unclosed(u) && Reach(u) == |tag| + UntilTag(body, tag)
  {
    TagIsFound(tag, body);
    assert u[..|tag|] == tag && u[|tag|..] == body && u[0] == '$';
  }

  lemma DollarVanishes(tag: string, body: string, rest: string)
    requires IsTag(tag) && UntilTag(body + rest, tag) == |body|
    ensures Vanishes(tag + body, rest)
  {
    assert tag + body + rest == tag + (body + rest);
    DollarReaches(tag + body + rest, tag, body + rest);
    TokenVanishes(tag + body, rest);
  }

  /** Without one it goes on to the end of the text. */
  lemma OpenDollarLiteralVanishes(tag: string, literal: string)
    requires IsTag(tag) && TagNowhere(literal, "", tag)
    ensures Vanishes(tag + literal, "")
  {
    TagNeverComes(literal, tag);
    assert literal + "" == literal;
    DollarVanishes(tag, literal, "");
  }

  // ----- quoted literals

  /** How a text is written between quotation marks: those in it are doubled. */
  function QuotedText(text: string): string {
    if text == "" then "" else (if text[0] == '\'' then "''" else text[..1]) + QuotedText(text[1..])
  }

  lemma {:induction false} QuoteEndsAt(text: string, rest: string)
    requires rest == "" || (rest[0] == '\'' && (|rest| == 1 || rest[1] != '\''))
    ensures QuoteRest(QuotedText(text) + rest) == |QuotedText(text)| + if rest == "" then 0 else 1
  {
    var u := QuotedText(text) + rest;
    if text == "" {
      assert u == rest;
    } else {
      var more := QuotedText(text[1..]) + rest;
      QuoteEndsAt(text[1..], rest);
      if text[0] == '\'' {
        assert u == "''" + more && u[2..] == more;
      } else {
        assert u == text[..1] + more && u[1..] == more && u[0] == text[0];
      }
    }
  }

  lemma QuoteReaches(u: string)
    requires u != "" && u[0] == '\''
    ensures Starts(u) && !Unclosed(u) && Reach(u) == 1 + QuoteRest(u[1..])
  {
  }

  lemma AfterQuote(u: string, body: string)
    requires u == "'" + body
    ensures Starts(u) && !Unclosed(u) && Reach(u) == 1 + QuoteRest(body)
  {
    assert u[1..] == body;
    QuoteReaches(u);
  }

  lemma QuoteComesFirst(token: string, body: string, rest: string)
    requires token == "'" + body
    ensures token + rest == "'" + (body + rest) && token != ""
  {
  }

  lemma QuoteVanishes(token: string, body: string, rest: string)
    requires token == "'" + body && QuoteRest(body + rest) == |body|
    ensures Vanishes(token, rest)
  {
    QuoteComesFirst(token, body, rest);
    AfterQuote(token + rest, body + rest);
    TokenVanishes(token, rest);
  }

  /** A literal ends at the first quotation mark that is not doubled. */
  lemma QuotedLiteralVanishes(text: string, rest: string)
    requires rest == "" || rest[0] != '\''
    ensures Vanishes("'" + QuotedText(text) + "'", rest)
  {
    var body := QuotedText(text) + "'";
    QuoteEndsAt(text, "'" + rest);
    assert body + rest == QuotedText(text) + ("'" + rest);
    assert "'" + QuotedText(text) + "'" == "'" + body;
    QuoteVanishes("'" + QuotedText(text) + "'", body, rest);
  }

  lemma OpenQuotedLiteralVanishes(text: string)
    ensures Vanishes("'" + QuotedText(text), "")
  {
    QuoteEndsAt(text, "");
    QuoteVanishes("'" + QuotedText(text), QuotedText(text), "");
  }

  // ----- everything else

  /** A comment or a literal begins here. */
  ghost predicate Opens(u: string) {
    "--" <= u || "/*" <= u || "'" <= u || exists tag :: IsTag(tag) && tag <= u
  }

  lemma OpensIff(u: string)
    ensures Opens(u) <==> Starts(u)
  {
    if TagLength(u) > 0 {
      FoundIsTag(u);
      assert u[..TagLength(u)] <= u;
    }
    if tag :| IsTag(tag) && tag <= u {
      assert u == tag + u[|tag|..];
      TagIsFound(tag, u[|tag|..]);
    }
  }

  /** A character with which none begins is kept, and what follows is cleaned as if it stood alone. */
  lemma OtherCharactersStay(c: char, rest: string)
    requires !Opens([c] + rest)
    ensures Strip([c] + rest) == [c] + Strip(rest)
  {
    var u := [c] + rest;
    OpensIff(u);
    assert u[..1] == [c] && u[1..] == rest;
  }
}
