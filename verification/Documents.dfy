/** Documents of the YAML subset: whatever can be written in it, block by block, is read as what it says. */
module Documents {
  import opened Outcomes
  import opened Text
  import opened YamlBlock
  import opened Snapshot
  import opened Registry

  // ----- documents and their lines

  /** What can stand under a key, in the spellings the subset knows. */
  datatype Doc =
    | Bare(text: string)                               // key: text
    | Quoted(text: string)                             // key: 'text'
    | Inline(items: seq<string>)                       // key: [item, item]
    | Folding(mark: string, words: seq<string>)        // key: >-, and the words on lines of their own
    | Listed(items: seq<string>)                       // key:, and lines that begin with a dash
    | Nested(fields: seq<Field>)                       // key:, and a deeper mapping

  datatype Field = Field(name: string, doc: Doc)

  function Spaces(n: nat): string {
    if n == 0 then "" else " " + Spaces(n - 1)
  }

  function Joined(pieces: seq<string>, separator: string): string {
    if pieces == [] then ""
    else if |pieces| == 1 then pieces[0]
    else pieces[0] + separator + Joined(pieces[1..], separator)
  }

  /** What stands on the line of the key, after its colon. */
  function Tail(doc: Doc): string {
    match doc
    case Bare(text) => text
    case Quoted(text) => "'" + text + "'"
    case Inline(items) => "[" + Joined(items, ", ") + "]"
    case Folding(mark, _) => mark
    case Listed(_) => ""
    case Nested(_) => ""
  }

  function HeadLine(n: nat, name: string, tail: string): string {
    Spaces(n) + (name + ":" + (if tail == "" then "" else " " + tail))
  }

  /** Each text on a line of its own, all at one indentation. */
  function Column(n: nat, dash: string, texts: seq<string>): (lines: seq<string>)
    ensures |lines| == |texts|
  {
    seq(|texts|, k requires 0 <= k < |texts| => Spaces(n) + (dash + texts[k]))
  }

  /** The lines under a key that stands at indentation `n`. */
  function Below(doc: Doc, n: nat): seq<string>
    decreases doc
  {
    match doc
    case Folding(_, words) => Column(n + 2, "", words)
    case Listed(items) => Column(n + 2, "- ", items)
    case Nested(fields) => LinesFrom(fields, 0, n + 2)
    case _ => []
  }

  /** The lines of the fields from the `k`-th on. */
  function LinesFrom(fields: seq<Field>, k: nat, n: nat): seq<string>
    requires k <= |fields|
    decreases fields, |fields| - k
  {
    if k == |fields| then []
    else
      [HeadLine(n, fields[k].name, Tail(fields[k].doc))] + (Below(fields[k].doc, n) + LinesFrom(fields, k + 1, n))
  }

  // ----- which documents there are

  /** A text that is nothing but itself on a line of its own, or between brackets and commas. */
  predicate Word(text: string) {
    text != "" && Trim(text) && OneLine(text)
  }

  predicate ItemText(text: string) {
    Word(text) && Unquoted(text)
  }

  /** What announces that the value follows on lines of its own. */
  predicate Announces(mark: string) {
    mark == ">" || mark == ">-" || mark == "|" || mark == "|-"
  }

  ghost predicate WellSpelled(doc: Doc)
    decreases doc
  {
    match doc
    case Bare(text) => ItemText(text) && !Announces(text) && !(text[0] == '[' && text[|text| - 1] == ']')
    case Quoted(text) => OneLine(text) && Unquoted(text)
    case Inline(items) => forall k :: 0 <= k < |items| ==> ItemText(items[k]) && ',' !in items[k]
    case Folding(mark, words) =>
      Announces(mark) && forall k :: 0 <= k < |words| ==> Word(words[k]) && words[k][0] != '#'
    case Listed(items) => items != [] && forall k :: 0 <= k < |items| ==> ItemText(items[k])
    case Nested(fields) => fields != [] && !IsItem(fields[0].name) && AllWellSpelled(fields)
  }

  ghost predicate AllWellSpelled(fields: seq<Field>)
    decreases fields, |fields| + 1
  {
    SpelledFrom(fields, 0)
  }

  ghost predicate SpelledFrom(fields: seq<Field>, k: nat)
    requires k <= |fields|
    decreases fields, |fields| - k
  {
    k == |fields| || (Spelled(fields[k].name) && WellSpelled(fields[k].doc) && SpelledFrom(fields, k + 1))
  }

  lemma {:induction false} SpelledFromAt(fields: seq<Field>, j: nat, k: nat)
    requires j <= k < |fields| && SpelledFrom(fields, j)
    ensures Spelled(fields[k].name) && WellSpelled(fields[k].doc)
    decreases k - j
  {
    if j < k { SpelledFromAt(fields, j + 1, k); }
  }

  lemma SpelledAt(fields: seq<Field>, k: nat)
    requires k < |fields| && AllWellSpelled(fields)
    ensures Spelled(fields[k].name) && WellSpelled(fields[k].doc)
  {
    SpelledFromAt(fields, 0, k);
  }

  lemma {:induction false} EachIsSpelled(fields: seq<Field>, k: nat)
    requires k <= |fields| && forall i :: k <= i < |fields| ==> Spelled(fields[i].name) && WellSpelled(fields[i].doc)
    ensures SpelledFrom(fields, k)
    decreases |fields| - k
  {
    if k < |fields| { EachIsSpelled(fields, k + 1); }
  }

  // ----- what a document says

  /** The value, unless some mapping in it has a key twice. */
  function Meaning(doc: Doc): Option<Yaml>
    decreases doc
  {
    match doc
    case Bare(text) => Some(Scalar(text))
    case Quoted(text) => Some(Scalar(text))
    case Inline(items) => Some(Items(items))
    case Folding(_, words) => Some(Scalar(Joined(words, " ")))
    case Listed(items) => Some(Items(items))
    case Nested(fields) =>
      var entries := MeaningFrom(fields, 0, map[]);
      if entries.None? then None else Some(Mapping(entries.value))
  }

  /** The mapping of the fields from the `k`-th on, added to what was read before. */
  function MeaningFrom(fields: seq<Field>, k: nat, read: map<string, Yaml>): Option<map<string, Yaml>>
    requires k <= |fields|
    decreases fields, |fields| - k
  {
    if k == |fields| then Some(read)
    else
      var value := Meaning(fields[k].doc);
      if fields[k].name in read || value.None? then None
      else MeaningFrom(fields, k + 1, read[fields[k].name := value.value])
  }

  // ----- single lines

  lemma {:induction false} Padded(n: nat, bare: string)
    requires bare != "" && !IsSpace(bare[0])
    ensures LStrip(Spaces(n) + bare) == bare && Indent(Spaces(n) + bare) == n
  {
    if n == 0 {
      assert Spaces(0) + bare == bare;
    } else {
      assert (Spaces(n) + bare)[1..] == Spaces(n - 1) + bare;
      Padded(n - 1, bare);
    }
  }

  lemma {:induction false} PaddedIsOneLine(n: nat, bare: string)
    requires OneLine(bare)
    ensures OneLine(Spaces(n) + bare)
  {
    if n == 0 {
      assert Spaces(0) + bare == bare;
    } else {
      assert Spaces(n) + bare == " " + (Spaces(n - 1) + bare);
      PaddedIsOneLine(n - 1, bare);
    }
  }

  /** A line at this indentation is read as this key and what follows its colon. */
  ghost predicate HeadRead(line: string, n: nat, name: string, tail: string) {
    && Indent(line) == n && !Skippable(line) && (IsItem(LStrip(line)) <==> IsItem(name))
    && var (key, separated, rest) := Partition(Strip(line), ':'); key == name && separated && Strip(rest) == tail
  }

  lemma BareHeadLine(name: string)
    requires ':' !in name
    ensures RStrip(name + ":") == name + ":" && Partition(name + ":", ':') == (name, true, "")
  {
    assert name + ":" == name + [':'] + "";
    RStripAfter(name, ':', "");
    PartitionAt(name, ':', "");
  }

  lemma HeadLineIsOneLine(n: nat, name: string, tail: string)
    requires Spelled(name) && OneLine(tail)
    ensures OneLine(HeadLine(n, name, tail))
  {
    PaddedIsOneLine(n, name + ":" + if tail == "" then "" else " " + tail);
  }

  lemma HeadLineReads(n: nat, name: string, tail: string)
    requires Spelled(name) && Trim(tail)
    ensures HeadRead(HeadLine(n, name, tail), n, name, tail)
  {
    StripKeepsIff(tail);
    var bare := name + ":" + if tail == "" then "" else " " + tail;
    assert bare[0] == if name == "" then ':' else name[0];
    assert IsItem(bare) <==> IsItem(name) by { if |name| == 1 { assert bare[1] == ':'; } }
    Padded(n, bare);
    if tail == "" {
      assert bare == name + ":";
      BareHeadLine(name);
    } else {
      assert bare == name + ": " + tail;
      BareFieldLine(name, tail);
    }
  }

  lemma LastQuoteIsTaken(s: string, mark: char)
    requires s == "" || !IsQuote(s[0])
    requires IsQuote(mark)
    ensures Unquote(s + [mark]) == Unquote(s)
  {
    var longer := s + [mark];
    assert longer[|longer| - 1] == mark && longer[..|longer| - 1] == s;
    if s == "" { assert longer[1..] == s; }
  }

  lemma QuotesAreTaken(text: string)
    requires Unquoted(text)
    ensures Unquote("'" + text + "'") == text
  {
    var s := "'" + text + "'";
    assert s[0] == '\'' && s[1..] == text + "'";
    LastQuoteIsTaken(text, '\'');
    UnquoteKeepsIff(text);
  }

  /** What follows the colon is left alone by `strip`, and decides how the value is read. */
  lemma TailStands(doc: Doc)
    requires WellSpelled(doc)
    ensures Trim(Tail(doc))
    ensures FoldMark(Tail(doc)) <==> doc.Folding?
    ensures Tail(doc) == "" <==> doc.Listed? || doc.Nested?
    ensures Bracketed(Tail(doc)) <==> doc.Inline?
  {
    if doc.Quoted? {
      assert Tail(doc)[0] == '\'' && Tail(doc)[|Tail(doc)| - 1] == '\'';
    }
    if doc.Inline? {
      assert Tail(doc)[0] == '[' && Tail(doc)[|Tail(doc)| - 1] == ']';
    }
  }

  lemma TailIsOneLine(doc: Doc)
    requires WellSpelled(doc)
    ensures OneLine(Tail(doc))
  {
    if doc.Inline? { JoinedIsOneLine(doc.items, ", "); }
  }

  lemma {:induction false} JoinedIsOneLine(pieces: seq<string>, separator: string)
    requires OneLine(separator) && forall k :: 0 <= k < |pieces| ==> OneLine(pieces[k])
    ensures OneLine(Joined(pieces, separator))
  {
    if |pieces| > 1 { JoinedIsOneLine(pieces[1..], separator); }
  }

  // ----- lists between brackets

  lemma {:induction false} SplitAfter(first: string, separator: char, rest: string)
    requires separator !in first
    ensures Split(first + [separator] + rest, separator) == [first] + Split(rest, separator)
  {
    var s := first + [separator] + rest;
    if first == "" {
      assert s[1..] == rest;
    } else {
      assert first[0] in first && s[1..] == first[1..] + [separator] + rest;
      SplitAfter(first[1..], separator, rest);
      assert [first[0]] + first[1..] == first;
    }
  }

  lemma {:induction false} NothingToSplit(s: string, separator: char)
    requires separator !in s
    ensures Split(s, separator) == [s]
  {
    if s != "" {
      assert s[0] in s && s[0] != separator;
      NothingToSplit(s[1..], separator);
      assert [s[0]] + s[1..] == s;
    }
  }

  /** Cutting at the separators gives back what was joined by them. */
  lemma {:induction false} PiecesReadBack(pieces: seq<string>, separator: char)
    requires pieces != [] && forall k :: 0 <= k < |pieces| ==> separator !in pieces[k]
    ensures Split(Joined(pieces, [separator]), separator) == pieces
  {
    if |pieces| == 1 {
      NothingToSplit(pieces[0], separator);
    } else {
      SplitAfter(pieces[0], separator, Joined(pieces[1..], [separator]));
      PiecesReadBack(pieces[1..], separator);
    }
  }

  /** Blank pieces are dropped, and every other one is stripped and unquoted where it stands. */
  lemma {:induction false} PieceByPiece(before: seq<string>, piece: string, after: seq<string>)
    ensures Trimmed(before + [piece] + after)
            == Trimmed(before) + (if Strip(piece) == "" then [] else [Unquote(Strip(piece))]) + Trimmed(after)
  {
    var pieces := before + [piece] + after;
    if before == [] {
      assert pieces[1..] == after;
    } else {
      assert pieces[1..] == before[1..] + [piece] + after;
      PieceByPiece(before[1..], piece, after);
    }
  }

  lemma {:induction false} ItemsStand(items: seq<string>)
    requires forall k :: 0 <= k < |items| ==> ItemText(items[k])
    ensures Trimmed(items) == items
  {
    if items != [] {
      StripKeepsIff(items[0]);
      UnquoteKeepsIff(items[0]);
      ItemsStand(items[1..]);
    }
  }

  lemma SpaceBefore(s: string)
    ensures Trimmed(Split(" " + s, ',')) == Trimmed(Split(s, ','))
  {
    var pieces := Split(s, ',');
    assert (" " + s)[1..] == s;
    assert Split(" " + s, ',') == [" " + pieces[0]] + pieces[1..];
    assert (" " + pieces[0])[1..] == pieces[0] && Strip(" " + pieces[0]) == Strip(pieces[0]);
    assert ([" " + pieces[0]] + pieces[1..])[1..] == pieces[1..];
  }

  lemma {:induction false} InlineReads(items: seq<string>)
    requires forall k :: 0 <= k < |items| ==> ItemText(items[k]) && ',' !in items[k]
    ensures Trimmed(Split(Joined(items, ", "), ',')) == items
  {
    if items == [] {
    } else if |items| == 1 {
      NothingToSplit(items[0], ',');
      ItemsStand(items);
    } else {
      var first, rest := items[0], Joined(items[1..], ", ");
      assert Joined(items, ", ") == first + [','] + (" " + rest);
      SplitAfter(first, ',', " " + rest);
      SpaceBefore(rest);
      InlineReads(items[1..]);
      StripKeepsIff(first);
      UnquoteKeepsIff(first);
    }
  }

  // ----- blocks of lines

  /** These lines stand here. */
  ghost predicate Stand(lines: seq<string>, a: nat, block: seq<string>) {
    a + |block| <= |lines| && lines[a..a + |block|] == block
  }

  lemma StandsAt(lines: seq<string>, a: nat, block: seq<string>, k: nat)
    requires Stand(lines, a, block) && k < |block|
    ensures lines[a + k] == block[k]
  {
    assert lines[a..a + |block|][k] == lines[a + k];
  }

  lemma StandOneByOne(lines: seq<string>, a: nat, one: seq<string>, other: seq<string>)
    requires Stand(lines, a, one + other)
    ensures Stand(lines, a, one) && Stand(lines, a + |one|, other)
  {
    var both := lines[a..a + |one + other|];
    assert lines[a..a + |one|] == both[..|one|] && lines[a + |one|..a + |one| + |other|] == both[|one|..];
    assert (one + other)[..|one|] == one && (one + other)[|one|..] == other;
  }

  ghost predicate Deep(line: string, indent: nat) {
    !Skippable(line) && Indent(line) > indent
  }

  /** Here a block that is indented deeper is over. */
  ghost predicate Shallow(lines: seq<string>, b: nat, indent: nat) {
    b == |lines| || (b < |lines| && !Skippable(lines[b]) && Indent(lines[b]) <= indent)
  }

  lemma NumberedOn(lines: seq<string>, a: nat, n: nat)
    requires a + n < |lines|
    ensures Numbering(lines, a, n + 1) == [Numbered(a, lines[a])] + Numbering(lines, a + 1, n)
  {
  }

  lemma {:induction false} BodyIs(lines: seq<string>, a: nat, b: nat, indent: nat)
    requires a <= b <= |lines| && (forall i :: a <= i < b ==> Deep(lines[i], indent)) && Shallow(lines, b, indent)
    ensures Body(lines, a, indent) == Numbering(lines, a, b - a) && BodyEnd(lines, a, indent) == b
    decreases b - a
  {
    if a < b {
      assert Deep(lines[a], indent);
      BodyIs(lines, a + 1, b, indent);
      NumberedOn(lines, a, b - a - 1);
    }
  }

  lemma LineOfWord(n: nat, bare: string)
    requires Word(bare) && bare[0] != '#'
    ensures var line := Spaces(n) + bare;
            !Skippable(line) && Indent(line) == n && Strip(line) == bare && LStrip(line) == bare
  {
    Padded(n, bare);
    LStripOfWord(bare);
  }

  lemma LStripOfWord(bare: string)
    requires Word(bare)
    ensures LStrip(bare) == bare && RStrip(bare) == bare
  {
    StripKeepsIff(bare);
  }

  lemma ColumnLine(n: nat, dash: string, text: string)
    requires Word(text) && (if dash == "" then text[0] != '#' else dash == "- ")
    ensures var line := Spaces(n) + (dash + text);
            !Skippable(line) && Indent(line) == n && Strip(line) == dash + text && LStrip(line) == dash + text
  {
    var bare := dash + text;
    assert bare[|bare| - 1] == text[|text| - 1];
    assert bare[0] == if dash == "" then text[0] else '-';
    LineOfWord(n, bare);
  }

  lemma {:induction false} ItemsRead(body: seq<Numbered>, items: seq<string>)
    requires |body| == |items|
    requires forall k :: 0 <= k < |items| ==> ItemText(items[k]) && Strip(body[k].text) == "- " + items[k]
    ensures ListItems(body) == Some(items)
  {
    if items != [] {
      assert ("- " + items[0])[2..] == items[0];
      StripKeepsIff(items[0]);
      UnquoteKeepsIff(items[0]);
      ItemsRead(body[1..], items[1..]);
      assert [items[0]] + items[1..] == items;
    }
  }

  lemma ItemLine(lines: seq<string>, a: nat, n: nat, items: seq<string>, k: nat)
    requires Stand(lines, a, Column(n, "- ", items)) && k < |items| && Word(items[k])
    ensures var line := lines[a + k];
            !Skippable(line) && Indent(line) == n && Strip(line) == "- " + items[k] && LStrip(line) == "- " + items[k]
  {
    StandsAt(lines, a, Column(n, "- ", items), k);
    ColumnLine(n, "- ", items[k]);
  }

  /** All these lines are items of a list. */
  ghost predicate ItemLines(lines: seq<string>, a: nat, indent: nat, items: seq<string>) {
    a + |items| <= |lines| && forall k :: 0 <= k < |items| ==> IsItemLine(lines[a + k], indent, items[k])
  }

  ghost predicate IsItemLine(line: string, indent: nat, item: string) {
    Deep(line, indent) && Strip(line) == "- " + item && LStrip(line) == "- " + item && ItemText(item)
  }

  lemma ItemLinesAreBody(lines: seq<string>, a: nat, indent: nat, items: seq<string>)
    requires ItemLines(lines, a, indent, items) && Shallow(lines, a + |items|, indent)
    ensures Body(lines, a, indent) == Numbering(lines, a, |items|) && BodyEnd(lines, a, indent) == a + |items|
  {
    forall i | a <= i < a + |items|
      ensures Deep(lines[i], indent)
    {
      assert IsItemLine(lines[a + (i - a)], indent, items[i - a]);
    }
    BodyIs(lines, a, a + |items|, indent);
  }

  lemma ItemLinesAreItems(lines: seq<string>, a: nat, indent: nat, items: seq<string>)
    requires ItemLines(lines, a, indent, items)
    ensures ListItems(Numbering(lines, a, |items|)) == Some(items)
  {
    forall k | 0 <= k < |items|
      ensures ItemText(items[k]) && Strip(Numbering(lines, a, |items|)[k].text) == "- " + items[k]
    {
      assert IsItemLine(lines[a + k], indent, items[k]);
    }
    ItemsRead(Numbering(lines, a, |items|), items);
  }

  lemma ListReads(lines: seq<string>, a: nat, indent: nat, n: nat, items: seq<string>)
    requires items != [] && indent < n && forall k :: 0 <= k < |items| ==> ItemText(items[k])
    requires Stand(lines, a, Column(n, "- ", items)) && Shallow(lines, a + |items|, indent)
    ensures ParseBlock(lines, a, indent) == Parsed(Items(items), a + |items|)
  {
    forall k | 0 <= k < |items|
      ensures IsItemLine(lines[a + k], indent, items[k])
    {
      ItemLine(lines, a, n, items, k);
    }
    ItemLinesAreBody(lines, a, indent, items);
    ItemLinesAreItems(lines, a, indent, items);
    FirstIsItem(lines, a, indent, items);
  }

  lemma FirstIsItem(lines: seq<string>, a: nat, indent: nat, items: seq<string>)
    requires items != [] && ItemLines(lines, a, indent, items)
    ensures Numbering(lines, a, |items|) != [] && IsItem(LStrip(Numbering(lines, a, |items|)[0].text))
  {
    assert IsItemLine(lines[a + 0], indent, items[0]);
  }

  lemma OneMoreWord(lines: seq<string>, a: nat, indent: nat, word: string, text: string)
    requires a < |lines| && Strip(lines[a]) == word && word != "" && Indent(lines[a]) > indent
    ensures Folded(lines, a, indent, text)
            == Folded(lines, a + 1, indent, (if text == "" then "" else text + " ") + word)
  {
  }

  lemma WordStands(lines: seq<string>, a: nat, n: nat, words: seq<string>)
    requires words != [] && Word(words[0]) && words[0][0] != '#' && Stand(lines, a, Column(n, "", words))
    ensures Strip(lines[a]) == words[0] && Indent(lines[a]) == n
  {
    StandsAt(lines, a, Column(n, "", words), 0);
    assert "" + words[0] == words[0];
    ColumnLine(n, "", words[0]);
  }

  lemma {:induction false} FoldedReads(lines: seq<string>, a: nat, indent: nat, n: nat, words: seq<string>,
                                       text: string)
    requires indent < n && forall k :: 0 <= k < |words| ==> Word(words[k]) && words[k][0] != '#'
    requires Stand(lines, a, Column(n, "", words)) && Shallow(lines, a + |words|, indent)
    ensures Folded(lines, a, indent, text)
            == if words == [] then text else (if text == "" then "" else text + " ") + Joined(words, " ")
    decreases |words|
  {
    if words == [] {
      if a < |lines| { NotBlank(lines[a]); }
    } else {
      WordStands(lines, a, n, words);
      OneMoreWord(lines, a, indent, words[0], text);
      NextWords(lines, a, n, words);
      FoldedReads(lines, a + 1, indent, n, words[1..], (if text == "" then "" else text + " ") + words[0]);
      JoinedWithFirst(text, words);
    }
  }

  lemma JoinedWithFirst(text: string, words: seq<string>)
    requires words != []
    ensures var more := (if text == "" then "" else text + " ") + words[0];
            (if text == "" then "" else text + " ") + Joined(words, " ")
            == if |words| == 1 then more else more + " " + Joined(words[1..], " ")
  {
  }

  lemma NextWords(lines: seq<string>, a: nat, n: nat, words: seq<string>)
    requires words != [] && Stand(lines, a, Column(n, "", words))
    ensures Stand(lines, a + 1, Column(n, "", words[1..]))
  {
    var column := Column(n, "", words);
    assert column == column[..1] + Column(n, "", words[1..]);
    StandOneByOne(lines, a, column[..1], Column(n, "", words[1..]));
  }

  // ----- a document is read as what it says

  /** All lines of the block belong to it. */
  ghost predicate Solidly(block: seq<string>, n: nat) {
    forall k :: 0 <= k < |block| ==> !Skippable(block[k]) && Indent(block[k]) >= n
  }

  lemma ColumnIsSolid(n: nat, dash: string, texts: seq<string>)
    requires dash == "" || dash == "- "
    requires forall k :: 0 <= k < |texts| ==> Word(texts[k]) && (dash == "" ==> texts[k][0] != '#')
    ensures Solidly(Column(n, dash, texts), n) && AllOneLine(Column(n, dash, texts))
  {
    forall k | 0 <= k < |texts|
      ensures var line := Column(n, dash, texts)[k]; OneLine(line) && !Skippable(line) && Indent(line) >= n
    {
      ColumnLine(n, dash, texts[k]);
      PaddedIsOneLine(n, dash + texts[k]);
    }
  }

  lemma {:induction false} BelowIsSolid(doc: Doc, n: nat)
    requires WellSpelled(doc)
    ensures Solidly(Below(doc, n), n + 2) && AllOneLine(Below(doc, n))
    decreases doc
  {
    match doc
    case Folding(_, words) => ColumnIsSolid(n + 2, "", words);
    case Listed(items) => ColumnIsSolid(n + 2, "- ", items);
    case Nested(fields) => LinesAreSolid(fields, 0, n + 2);
    case _ =>
  }

  lemma {:induction false} LinesAreSolid(fields: seq<Field>, k: nat, n: nat)
    requires AllWellSpelled(fields) && k <= |fields|
    ensures Solidly(LinesFrom(fields, k, n), n) && AllOneLine(LinesFrom(fields, k, n))
    decreases fields, |fields| - k
  {
    if k < |fields| {
      SpelledAt(fields, k);
      FieldHeadReads(fields[k], n);
      FieldHeadIsOneLine(fields[k], n);
      BelowIsSolid(fields[k].doc, n);
      LinesAreSolid(fields, k + 1, n);
      SolidlyTogether(HeadLine(n, fields[k].name, Tail(fields[k].doc)), Below(fields[k].doc, n),
                      LinesFrom(fields, k + 1, n), n);
    }
  }

  lemma SolidlyTogether(head: string, below: seq<string>, others: seq<string>, n: nat)
    requires !Skippable(head) && Indent(head) >= n && Solidly(below, n + 2) && Solidly(others, n)
    requires OneLine(head) && AllOneLine(below) && AllOneLine(others)
    ensures Solidly([head] + (below + others), n) && AllOneLine([head] + (below + others))
  {
  }

  lemma FieldHeadIsOneLine(field: Field, n: nat)
    requires Spelled(field.name) && WellSpelled(field.doc)
    ensures OneLine(HeadLine(n, field.name, Tail(field.doc)))
  {
    TailIsOneLine(field.doc);
    HeadLineIsOneLine(n, field.name, Tail(field.doc));
  }

  lemma FieldHeadReads(field: Field, n: nat)
    requires Spelled(field.name) && WellSpelled(field.doc)
    ensures HeadRead(HeadLine(n, field.name, Tail(field.doc)), n, field.name, Tail(field.doc))
  {
    TailStands(field.doc);
    HeadLineReads(n, field.name, Tail(field.doc));
  }

  /** The `k`-th field stands at line `h`: its line, what is below it, and the others from `next` on. */
  ghost predicate FieldStands(lines: seq<string>, h: nat, fields: seq<Field>, k: nat, n: nat, next: nat) {
    && h < |lines| && k < |fields| && next == h + 1 + |Below(fields[k].doc, n)|
    && lines[h] == HeadLine(n, fields[k].name, Tail(fields[k].doc))
    && Stand(lines, h + 1, Below(fields[k].doc, n)) && Stand(lines, next, LinesFrom(fields, k + 1, n))
  }

  lemma LineStands(lines: seq<string>, h: nat, fields: seq<Field>, k: nat, n: nat, next: nat)
    requires k < |fields| && Stand(lines, h, LinesFrom(fields, k, n)) && next == h + 1 + |Below(fields[k].doc, n)|
    ensures FieldStands(lines, h, fields, k, n, next)
    ensures h + |LinesFrom(fields, k, n)| == next + |LinesFrom(fields, k + 1, n)|
  {
    FirstOfThree(lines, h, LinesFrom(fields, k, n), HeadLine(n, fields[k].name, Tail(fields[k].doc)),
                 Below(fields[k].doc, n), LinesFrom(fields, k + 1, n), next);
  }

  lemma FirstOfThree(lines: seq<string>, h: nat, block: seq<string>, head: string, below: seq<string>,
                     others: seq<string>, next: nat)
    requires Stand(lines, h, block) && block == [head] + (below + others) && next == h + 1 + |below|
    ensures h < |lines| && lines[h] == head && h + |block| == next + |others|
    ensures Stand(lines, h + 1, below) && Stand(lines, next, others)
  {
    StandOneByOne(lines, h, [head], below + others);
    StandOneByOne(lines, h + 1, below, others);
    StandsAt(lines, h, [head], 0);
  }

  lemma {:induction false} NestedUpTo(body: seq<Numbered>, position: nat, end: nat, own: nat)
    requires position <= end <= |body| && forall k :: position <= k < end ==> Indent(body[k].text) > own
    requires end < |body| ==> Indent(body[end].text) <= own
    ensures SkipNested(body, position, own) == end
    decreases end - position
  {
    if position < end { NestedUpTo(body, position + 1, end, own); }
  }

  lemma NumberedAt(lines: seq<string>, a: nat, size: nat, p: nat)
    requires a + size <= |lines| && p < size
    ensures Numbering(lines, a, size)[p] == Numbered(a + p, lines[a + p])
  {
  }

  lemma BelowIsDeeper(lines: seq<string>, a: nat, size: nat, first: nat, block: seq<string>, n: nat)
    requires a + size <= |lines| && Solidly(block, n + 1)
    requires first + |block| <= size && Stand(lines, a + first, block)
    ensures forall k :: first <= k < first + |block| ==> Indent(Numbering(lines, a, size)[k].text) > n
  {
    forall k | first <= k < first + |block|
      ensures Indent(Numbering(lines, a, size)[k].text) > n
    {
      NumberedAt(lines, a, size, k);
      StandsAt(lines, a + first, block, k - first);
    }
  }

  /** Reading goes on after the last line below the key. */
  lemma EndReads(lines: seq<string>, a: nat, size: nat, position: nat, n: nat, doc: Doc, next: nat)
    requires a + size <= |lines| && WellSpelled(doc) && next == position + 1 + |Below(doc, n)| && next <= size
    requires Stand(lines, a + position + 1, Below(doc, n)) && Shallow(lines, a + next, n)
    ensures EntryEnd(Numbering(lines, a, size), position, n, Tail(doc)) == next
  {
    BelowIsSolid(doc, n);
    BelowIsDeeper(lines, a, size, position + 1, Below(doc, n), n);
    if next < size { NumberedAt(lines, a, size, next); }
    NestedUpTo(Numbering(lines, a, size), position + 1, next, n);
    EndsHere(Numbering(lines, a, size), position, n, doc, next);
  }

  lemma EndsHere(body: seq<Numbered>, position: nat, n: nat, doc: Doc, next: nat)
    requires WellSpelled(doc) && position < |body| && SkipNested(body, position + 1, n) == next
    requires next == position + 1 + |Below(doc, n)|
    ensures EntryEnd(body, position, n, Tail(doc)) == next
  {
    TailStands(doc);
  }

  lemma {:induction false} ValueReads(lines: seq<string>, start: nat, number: nat, n: nat, doc: Doc)
    requires WellSpelled(doc) && start <= number < |lines|
    requires Stand(lines, number + 1, Below(doc, n)) && Shallow(lines, number + 1 + |Below(doc, n)|, n)
    ensures EntryValue(lines, start, number, n, Tail(doc)) == Meaning(doc)
    decreases doc, 0, 0
  {
    TailStands(doc);
    match doc
    case Bare(text) => UnquoteKeepsIff(text);
    case Quoted(text) => QuotesAreTaken(text);
    case Inline(items) =>
      var tail := Tail(doc);
      assert tail[1..|tail| - 1] == Joined(items, ", ");
      InlineReads(items);
    case Folding(_, words) =>
      FoldedReads(lines, number + 1, n, n + 2, words, "");
      assert "" + Joined(words, " ") == Joined(words, " ");
    case Listed(items) => ListReads(lines, number + 1, n, n + 2, items);
    case Nested(fields) => BlockReads(lines, number + 1, n, fields, n + 2);
  }

  /** One turn of the parser: the line has this key and this after its colon. */
  lemma OneEntry(lines: seq<string>, start: nat, body: seq<Numbered>, position: nat, line: Numbered, own: nat,
                 read: map<string, Yaml>, name: string, tail: string)
    requires start <= |lines| && position < |body| && body[position] == line && HeadRead(line.text, own, name, tail)
    requires forall k :: 0 <= k < |body| ==> start <= body[k].number < |lines|
    ensures Entries(lines, start, body, position, own, read) ==
            if name in read then None
            else
              match EntryValue(lines, start, line.number, own, tail)
              case None => None
              case Some(value) =>
                Entries(lines, start, body, EntryEnd(body, position, own, tail), own, read[name := value])
  {
  }

  /** From line `h` up to `end` stand the lines of the fields from the `k`-th on, and there they are over. */
  ghost predicate Remain(lines: seq<string>, h: nat, end: nat, n: nat, fields: seq<Field>, k: nat) {
    && k <= |fields| && h + |LinesFrom(fields, k, n)| == end <= |lines|
    && Stand(lines, h, LinesFrom(fields, k, n)) && Shallow(lines, end, n)
  }

  lemma NextRemain(lines: seq<string>, h: nat, end: nat, n: nat, fields: seq<Field>, k: nat, next: nat)
    requires Remain(lines, h, end, n, fields, k) && k < |fields|
    requires next == h + 1 + |Below(fields[k].doc, n)|
    ensures h < next <= end && Remain(lines, next, end, n, fields, k + 1)
    ensures FieldStands(lines, h, fields, k, n, next)
  {
    LineStands(lines, h, fields, k, n, next);
  }

  /** What follows a field is no deeper than the field. */
  lemma NextIsOver(lines: seq<string>, h: nat, end: nat, n: nat, fields: seq<Field>, k: nat)
    requires Remain(lines, h, end, n, fields, k) && AllWellSpelled(fields)
    ensures Shallow(lines, h, n)
  {
    if k < |fields| {
      LineStands(lines, h, fields, k, n, h + 1 + |Below(fields[k].doc, n)|);
      SpelledAt(fields, k);
      FieldHeadReads(fields[k], n);
    }
  }

  /** What the parser makes of the block from line `h` on. */
  function Turn(lines: seq<string>, a: nat, size: nat, h: nat, n: nat, read: map<string, Yaml>)
    : Option<map<string, Yaml>>
    requires a + size <= |lines| && a <= h <= a + size
  {
    Entries(lines, a, Numbering(lines, a, size), h - a, n, read)
  }

  /** The parser sees this field at line `h`: its key, its value, and that the next one begins at `next`. */
  ghost predicate Seen(lines: seq<string>, a: nat, size: nat, h: nat, n: nat, field: Field, next: nat) {
    && a + size <= |lines| && a <= h < next <= a + size
    && HeadRead(lines[h], n, field.name, Tail(field.doc))
    && EntryValue(lines, a, h, n, Tail(field.doc)) == Meaning(field.doc)
    && EntryEnd(Numbering(lines, a, size), h - a, n, Tail(field.doc)) == next - a
  }

  lemma SeenHead(lines: seq<string>, h: nat, end: nat, n: nat, fields: seq<Field>, k: nat)
    requires Remain(lines, h, end, n, fields, k) && k < |fields| && AllWellSpelled(fields)
    ensures h < |lines| && HeadRead(lines[h], n, fields[k].name, Tail(fields[k].doc))
  {
    NextRemain(lines, h, end, n, fields, k, h + 1 + |Below(fields[k].doc, n)|);
    SpelledAt(fields, k);
    FieldHeadReads(fields[k], n);
  }

  /** What is below a field stands there, and the next line does not belong to it. */
  ghost predicate BelowStands(lines: seq<string>, h: nat, n: nat, doc: Doc, next: nat) {
    next == h + 1 + |Below(doc, n)| && Stand(lines, h + 1, Below(doc, n)) && Shallow(lines, next, n)
  }

  lemma SeenBelow(lines: seq<string>, h: nat, end: nat, n: nat, fields: seq<Field>, k: nat, next: nat)
    requires Remain(lines, h, end, n, fields, k) && k < |fields| && AllWellSpelled(fields)
    requires next == h + 1 + |Below(fields[k].doc, n)|
    ensures h < next <= end && BelowStands(lines, h, n, fields[k].doc, next)
  {
    NextRemain(lines, h, end, n, fields, k, next);
    NextIsOver(lines, next, end, n, fields, k + 1);
  }

  lemma SeenEnd(lines: seq<string>, a: nat, size: nat, h: nat, n: nat, doc: Doc, next: nat)
    requires a + size <= |lines| && a <= h < next <= a + size && WellSpelled(doc)
    requires BelowStands(lines, h, n, doc, next)
    ensures EntryEnd(Numbering(lines, a, size), h - a, n, Tail(doc)) == next - a
  {
    EndReads(lines, a, size, h - a, n, doc, next - a);
  }

  lemma {:induction false} SeenValue(lines: seq<string>, a: nat, h: nat, n: nat, doc: Doc, next: nat)
    requires a <= h < |lines| && WellSpelled(doc) && BelowStands(lines, h, n, doc, next)
    ensures EntryValue(lines, a, h, n, Tail(doc)) == Meaning(doc)
    decreases doc, 0, 1
  {
    ValueReads(lines, a, h, n, doc);
  }

  lemma {:induction false} FieldIsSeen(lines: seq<string>, a: nat, size: nat, h: nat, n: nat, fields: seq<Field>,
                                       k: nat, next: nat)
    requires a <= h && Remain(lines, h, a + size, n, fields, k) && k < |fields| && AllWellSpelled(fields)
    requires next == h + 1 + |Below(fields[k].doc, n)|
    ensures Seen(lines, a, size, h, n, fields[k], next)
    decreases fields, |fields| - k, 1
  {
    SeenHead(lines, h, a + size, n, fields, k);
    SeenBelow(lines, h, a + size, n, fields, k, next);
    SeenRest(lines, a, size, h, n, fields, k, next);
  }

  lemma {:induction false} SeenRest(lines: seq<string>, a: nat, size: nat, h: nat, n: nat, fields: seq<Field>, k: nat,
                                    next: nat)
    requires k < |fields| && AllWellSpelled(fields) && a + size <= |lines| && a <= h < next <= a + size
    requires BelowStands(lines, h, n, fields[k].doc, next)
    ensures EntryValue(lines, a, h, n, Tail(fields[k].doc)) == Meaning(fields[k].doc)
    ensures EntryEnd(Numbering(lines, a, size), h - a, n, Tail(fields[k].doc)) == next - a
    decreases fields, |fields| - k, 0
  {
    SpelledAt(fields, k);
    SeenValue(lines, a, h, n, fields[k].doc, next);
    SeenEnd(lines, a, size, h, n, fields[k].doc, next);
  }

  lemma TurnUnfolds(lines: seq<string>, a: nat, size: nat, h: nat, n: nat, name: string, tail: string, next: nat,
                    read: map<string, Yaml>)
    requires a + size <= |lines| && a <= h < next <= a + size && HeadRead(lines[h], n, name, tail)
    requires EntryEnd(Numbering(lines, a, size), h - a, n, tail) == next - a
    ensures Turn(lines, a, size, h, n, read) ==
            if name in read then None
            else
              match EntryValue(lines, a, h, n, tail)
              case None => None
              case Some(value) => Turn(lines, a, size, next, n, read[name := value])
  {
    NumberedAt(lines, a, size, h - a);
    OneEntry(lines, a, Numbering(lines, a, size), h - a, Numbered(h, lines[h]), n, read, name, tail);
  }

  lemma OneTurn(lines: seq<string>, a: nat, size: nat, h: nat, n: nat, field: Field, next: nat, read: map<string, Yaml>)
    requires Seen(lines, a, size, h, n, field, next)
    ensures Turn(lines, a, size, h, n, read) ==
            if field.name in read || Meaning(field.doc).None? then None
            else Turn(lines, a, size, next, n, read[field.name := Meaning(field.doc).value])
  {
    TurnUnfolds(lines, a, size, h, n, field.name, Tail(field.doc), next, read);
  }

  /** Where the `k`-th field begins if the first one begins at line `a`. */
  function StartOf(fields: seq<Field>, k: nat, n: nat, a: nat): nat
    requires k <= |fields|
  {
    if k == 0 then a else StartOf(fields, k - 1, n, a) + 1 + |Below(fields[k - 1].doc, n)|
  }

  lemma {:induction false} RemainFrom(lines: seq<string>, a: nat, end: nat, n: nat, fields: seq<Field>, k: nat)
    requires Remain(lines, a, end, n, fields, 0) && k <= |fields| && AllWellSpelled(fields)
    ensures a <= StartOf(fields, k, n, a) && Remain(lines, StartOf(fields, k, n, a), end, n, fields, k)
  {
    if k > 0 {
      RemainFrom(lines, a, end, n, fields, k - 1);
      NextRemain(lines, StartOf(fields, k - 1, n, a), end, n, fields, k - 1, StartOf(fields, k, n, a));
    }
  }

  type Turns = (nat, map<string, Yaml>) -> Option<map<string, Yaml>>

  /** A reader that has come to the `k`-th field takes it as it is meant. */
  ghost predicate TakesField(turn: Turns, fields: seq<Field>, k: nat, read: map<string, Yaml>)
    requires k < |fields|
  {
    turn(k, read) == if fields[k].name in read || Meaning(fields[k].doc).None? then None
                     else turn(k + 1, read[fields[k].name := Meaning(fields[k].doc).value])
  }

  /** A reader that takes field by field, and is done with the last, reads what they mean. */
  lemma {:induction false} FieldByField(turn: Turns, fields: seq<Field>, k: nat, read: map<string, Yaml>)
    requires k <= |fields|
    requires forall i, r :: k <= i < |fields| ==> TakesField(turn, fields, i, r)
    requires forall r :: turn(|fields|, r) == Some(r)
    ensures turn(k, read) == MeaningFrom(fields, k, read)
    decreases |fields| - k
  {
    if k < |fields| {
      assert TakesField(turn, fields, k, read);
      if fields[k].name !in read && Meaning(fields[k].doc).Some? {
        FieldByField(turn, fields, k + 1, read[fields[k].name := Meaning(fields[k].doc).value]);
      }
    }
  }

  /** The reader that the parser's loop is. */
  function LoopFrom(lines: seq<string>, a: nat, size: nat, n: nat, fields: seq<Field>): Turns
  {
    (k: nat, read: map<string, Yaml>) =>
      if k <= |fields| && a + size <= |lines| && a <= StartOf(fields, k, n, a) <= a + size
      then Turn(lines, a, size, StartOf(fields, k, n, a), n, read) else None
  }

  lemma {:induction false} LoopTakesField(lines: seq<string>, a: nat, size: nat, n: nat, fields: seq<Field>, k: nat,
                                          read: map<string, Yaml>)
    requires Remain(lines, a, a + size, n, fields, 0) && k < |fields| && AllWellSpelled(fields)
    ensures TakesField(LoopFrom(lines, a, size, n, fields), fields, k, read)
    decreases fields, |fields| + 1, 1
  {
    var h, next := StartOf(fields, k, n, a), StartOf(fields, k + 1, n, a);
    RemainFrom(lines, a, a + size, n, fields, k);
    FieldIsSeen(lines, a, size, h, n, fields, k, next);
    OneTurn(lines, a, size, h, n, fields[k], next, read);
  }

  lemma LoopEnds(lines: seq<string>, a: nat, size: nat, n: nat, fields: seq<Field>, read: map<string, Yaml>)
    requires StartOf(fields, |fields|, n, a) == a + size <= |lines|
    ensures LoopFrom(lines, a, size, n, fields)(|fields|, read) == Some(read)
  {
  }

  lemma LoopBegins(lines: seq<string>, a: nat, size: nat, n: nat, fields: seq<Field>)
    requires a + size <= |lines|
    ensures LoopFrom(lines, a, size, n, fields)(0, map[]) == Turn(lines, a, size, a, n, map[])
  {
  }

  lemma LastStart(lines: seq<string>, a: nat, size: nat, n: nat, fields: seq<Field>)
    requires Remain(lines, a, a + size, n, fields, 0) && AllWellSpelled(fields)
    ensures StartOf(fields, |fields|, n, a) == a + size <= |lines|
  {
    RemainFrom(lines, a, a + size, n, fields, |fields|);
  }

  lemma {:induction false} AllTurns(lines: seq<string>, a: nat, size: nat, n: nat, fields: seq<Field>)
    requires Remain(lines, a, a + size, n, fields, 0) && AllWellSpelled(fields)
    ensures Turn(lines, a, size, a, n, map[]) == MeaningFrom(fields, 0, map[])
    decreases fields, |fields| + 1, 2
  {
    var turn := LoopFrom(lines, a, size, n, fields);
    forall k, read | 0 <= k < |fields|
      ensures TakesField(turn, fields, k, read)
    {
      LoopTakesField(lines, a, size, n, fields, k, read);
    }
    LastStart(lines, a, size, n, fields);
    LoopBegins(lines, a, size, n, fields);
    forall read
      ensures turn(|fields|, read) == Some(read)
    {
      LoopEnds(lines, a, size, n, fields, read);
    }
    FieldByField(turn, fields, 0, map[]);
  }

  lemma {:induction false} OwnIndentIs(body: seq<Numbered>, own: nat)
    requires body != [] && forall k :: 0 <= k < |body| ==> Indent(body[k].text) >= own
    ensures OwnIndent(body) >= own && (Indent(body[0].text) == own ==> OwnIndent(body) == own)
  {
    if |body| > 1 { OwnIndentIs(body[1..], own); }
  }

  lemma LinesAreDeep(lines: seq<string>, a: nat, block: seq<string>, n: nat)
    requires Stand(lines, a, block) && Solidly(block, n)
    ensures forall i :: a <= i < a + |block| ==> !Skippable(lines[i]) && Indent(lines[i]) >= n
  {
    forall i | a <= i < a + |block|
      ensures !Skippable(lines[i]) && Indent(lines[i]) >= n
    {
      StandsAt(lines, a, block, i - a);
    }
  }

  /** The block's lines are its body, and its own indentation is that of its first line. */
  lemma BlockStands(lines: seq<string>, a: nat, indent: nat, block: seq<string>, n: nat)
    requires block != [] && Solidly(block, n) && indent < n && Indent(block[0]) == n
    requires Stand(lines, a, block) && Shallow(lines, a + |block|, indent)
    ensures var body := Numbering(lines, a, |block|);
            && Body(lines, a, indent) == body && BodyEnd(lines, a, indent) == a + |block|
            && body != [] && body[0].text == block[0] && OwnIndent(body) == n
  {
    LinesAreDeep(lines, a, block, n);
    StandsAt(lines, a, block, 0);
    DeepLinesAreBody(lines, a, |block|, indent, n);
  }

  lemma DeepLinesAreBody(lines: seq<string>, a: nat, size: nat, indent: nat, n: nat)
    requires a + size <= |lines| && size > 0 && indent < n && Shallow(lines, a + size, indent)
    requires forall i :: a <= i < a + size ==> !Skippable(lines[i]) && Indent(lines[i]) >= n
    requires Indent(lines[a]) == n
    ensures var body := Numbering(lines, a, size);
            && Body(lines, a, indent) == body && BodyEnd(lines, a, indent) == a + size
            && body != [] && body[0].text == lines[a] && OwnIndent(body) == n
  {
    BodyIs(lines, a, a + size, indent);
    OwnIndentIs(Numbering(lines, a, size), n);
  }

  /** A block of fields, wherever it stands, is read as the mapping it spells, or refused if a key is repeated. */
  lemma {:induction false} BlockReads(lines: seq<string>, a: nat, indent: nat, fields: seq<Field>, n: nat)
    requires WellSpelled(Nested(fields)) && indent < n
    requires Stand(lines, a, LinesFrom(fields, 0, n)) && Shallow(lines, a + |LinesFrom(fields, 0, n)|, indent)
    ensures ParseBlock(lines, a, indent) ==
            match MeaningFrom(fields, 0, map[])
            case None => Failed
            case Some(entries) => Parsed(Mapping(entries), a + |LinesFrom(fields, 0, n)|)
    decreases fields, |fields| + 2, 0
  {
    BlockIsBody(lines, a, indent, fields, n);
    AllTurns(lines, a, |LinesFrom(fields, 0, n)|, n, fields);
    MappingBlock(lines, a, indent, |LinesFrom(fields, 0, n)|, n);
  }

  lemma BlockIsBody(lines: seq<string>, a: nat, indent: nat, fields: seq<Field>, n: nat)
    requires WellSpelled(Nested(fields)) && indent < n
    requires Stand(lines, a, LinesFrom(fields, 0, n)) && Shallow(lines, a + |LinesFrom(fields, 0, n)|, indent)
    ensures var size := |LinesFrom(fields, 0, n)|;
            && size > 0 && Body(lines, a, indent) == Numbering(lines, a, size)
            && BodyEnd(lines, a, indent) == a + size
            && !IsItem(LStrip(lines[a])) && OwnIndent(Numbering(lines, a, size)) == n
  {
    var block := LinesFrom(fields, 0, n);
    LinesAreSolid(fields, 0, n);
    SpelledAt(fields, 0);
    FieldHeadReads(fields[0], n);
    assert block[0] == HeadLine(n, fields[0].name, Tail(fields[0].doc));
    BlockStands(lines, a, indent, block, n);
  }

  lemma MappingBlock(lines: seq<string>, a: nat, indent: nat, size: nat, n: nat)
    requires a + size <= |lines| && size > 0
    requires Body(lines, a, indent) == Numbering(lines, a, size) && BodyEnd(lines, a, indent) == a + size
    requires !IsItem(LStrip(lines[a])) && OwnIndent(Numbering(lines, a, size)) == n
    ensures ParseBlock(lines, a, indent) ==
            match Turn(lines, a, size, a, n, map[])
            case None => Failed
            case Some(entries) => Parsed(Mapping(entries), a + size)
  {
    NumberedAt(lines, a, size, 0);
  }

  // ----- a registry is the document of its events

  /** The text with these keys at its top level. */
  function Document(events: seq<Field>): string {
    Unlines(LinesFrom(events, 0, 0))
  }

  function AsYaml(events: Events): map<string, Yaml> {
    map name | name in events :: Mapping(events[name])
  }

  ghost predicate AllNested(events: seq<Field>) {
    NestedFrom(events, 0)
  }

  ghost predicate NestedFrom(events: seq<Field>, k: nat) {
    forall i :: k <= i < |events| ==> events[i].doc.Nested?
  }

  lemma TopLine(name: string, doc: Doc)
    requires Spelled(name) && WellSpelled(doc)
    ensures var line := HeadLine(0, name, Tail(doc));
            var (key, separated, rest) := Partition(line, ':');
            line != "" && !Skippable(line) && !IsSpace(line[0]) && key == name && separated && Strip(rest) == Tail(doc)
  {
    var tail := Tail(doc);
    TailStands(doc);
    StripKeepsIff(tail);
    HeadLineReads(0, name, tail);
    var line := HeadLine(0, name, tail);
    var after := if tail == "" then "" else " " + tail;
    assert line == name + [':'] + after;
    PartitionAt(name, ':', after);
    if tail != "" { assert after[1..] == tail && LStrip(after) == LStrip(tail); }
  }

  /** What the event comes to: its mapping, or a refusal. */
  function EventMeant(doc: Doc): Option<map<string, Yaml>> {
    if doc.Nested? then MeaningFrom(doc.fields, 0, map[]) else None
  }

  /** What stands below the name of an event is a mapping only if it is spelled as one. */
  lemma EventBlock(lines: seq<string>, a: nat, doc: Doc)
    requires WellSpelled(doc) && Tail(doc) == "" && a < |lines|
    requires Stand(lines, a + 1, Below(doc, 0)) && Shallow(lines, a + 1 + |Below(doc, 0)|, 0)
    ensures var block := ParseBlock(lines, a + 1, 0);
            if EventMeant(doc).None? then block.Failed? || !block.value.Mapping?
            else block == Parsed(Mapping(EventMeant(doc).value), a + 1 + |Below(doc, 0)|)
  {
    TailStands(doc);
    match doc
    case Listed(items) => ListReads(lines, a + 1, 0, 2, items);
    case Nested(fields) => BlockReads(lines, a + 1, 0, fields, 2);
    case _ =>
  }

  /** One turn of the parser of registries: the line begins an event with this name and this after its colon. */
  lemma OneEvent(lines: seq<string>, a: nat, name: string, tail: string, read: Events)
    requires a < |lines| && lines[a] != "" && !Skippable(lines[a]) && !IsSpace(lines[a][0])
    requires var (key, separated, rest) := Partition(lines[a], ':'); key == name && separated && Strip(rest) == tail
    ensures var block := ParseBlock(lines, a + 1, 0);
            EventsFrom(lines, a, read) ==
            if tail != "" || name in read || block.Failed? || !block.value.Mapping? then None
            else EventsFrom(lines, block.next, read[name := block.value.entries])
  {
  }

  lemma OneEventReads(lines: seq<string>, a: nat, name: string, doc: Doc, next: nat, read: Events)
    requires Spelled(name) && WellSpelled(doc) && a < |lines| && lines[a] == HeadLine(0, name, Tail(doc))
    requires next == a + 1 + |Below(doc, 0)| && Stand(lines, a + 1, Below(doc, 0)) && Shallow(lines, next, 0)
    ensures next <= |lines| && EventsFrom(lines, a, read) ==
            if name in read || EventMeant(doc).None? then None
            else EventsFrom(lines, next, read[name := EventMeant(doc).value])
  {
    TopLine(name, doc);
    OneEvent(lines, a, name, Tail(doc), read);
    if Tail(doc) == "" {
      EventBlock(lines, a, doc);
    } else {
      TailStands(doc);
    }
  }

  /** What was found is what the events from the `k`-th on mean, added to what was read before. */
  ghost predicate AsMeant(found: Option<Events>, events: seq<Field>, k: nat, read: Events) {
    k <= |events| &&
    var meant := MeaningFrom(events, k, AsYaml(read));
    && (found.Some? <==> NestedFrom(events, k) && meant.Some?)
    && (found.Some? ==> AsYaml(found.value) == meant.value)
  }

  lemma OneMoreAsYaml(read: Events, name: string, entries: map<string, Yaml>)
    ensures AsYaml(read[name := entries]) == AsYaml(read)[name := Mapping(entries)]
  {
  }

  lemma AsMeantFromFirst(found: Option<Events>, events: seq<Field>, k: nat, read: Events)
    requires k < |events|
    requires var name, entries := events[k].name, EventMeant(events[k].doc);
             if name in read || entries.None? then found.None?
             else AsMeant(found, events, k + 1, read[name := entries.value])
    ensures AsMeant(found, events, k, read)
  {
    if EventMeant(events[k].doc).Some? { OneMoreAsYaml(read, events[k].name, EventMeant(events[k].doc).value); }
    assert NestedFrom(events, k) <==> events[k].doc.Nested? && NestedFrom(events, k + 1);
  }

  lemma OneEventTurn(lines: seq<string>, a: nat, events: seq<Field>, k: nat, next: nat, read: Events)
    requires Remain(lines, a, |lines|, 0, events, k) && k < |events| && AllWellSpelled(events)
    requires next == a + 1 + |Below(events[k].doc, 0)|
    ensures next <= |lines| && EventsFrom(lines, a, read) ==
            if events[k].name in read || EventMeant(events[k].doc).None? then None
            else EventsFrom(lines, next, read[events[k].name := EventMeant(events[k].doc).value])
  {
    NextRemain(lines, a, |lines|, 0, events, k, next);
    NextIsOver(lines, next, |lines|, 0, events, k + 1);
    SpelledAt(events, k);
    OneEventReads(lines, a, events[k].name, events[k].doc, next, read);
  }

  lemma {:induction false} EventsRead(lines: seq<string>, a: nat, events: seq<Field>, k: nat, read: Events)
    requires Remain(lines, a, |lines|, 0, events, k) && AllWellSpelled(events)
    ensures AsMeant(EventsFrom(lines, a, read), events, k, read)
    decreases |events| - k
  {
    if k < |events| {
      var name, doc := events[k].name, events[k].doc;
      var next := a + 1 + |Below(doc, 0)|;
      OneEventTurn(lines, a, events, k, next, read);
      NextRemain(lines, a, |lines|, 0, events, k, next);
      if name !in read && EventMeant(doc).Some? {
        EventsRead(lines, next, events, k + 1, read[name := EventMeant(doc).value]);
      }
      AsMeantFromFirst(EventsFrom(lines, a, read), events, k, read);
    }
  }

  /**
   * Every document of the subset is read, and as what it says: exactly if all its events are mappings and no mapping in
   * it has a key twice.
   */
  lemma DocumentIsRead(events: seq<Field>)
    requires AllWellSpelled(events)
    ensures var found, meant := EventsOf(Document(events)), MeaningFrom(events, 0, map[]);
            && (found.Some? <==> AllNested(events) && meant.Some?)
            && (found.Some? ==> AsYaml(found.value) == meant.value)
  {
    var lines := LinesFrom(events, 0, 0);
    LinesAreSolid(events, 0, 0);
    LinesReadBack(lines);
    assert AsYaml(map[]) == map[];
    assert lines[0..|lines|] == lines;
    EventsRead(lines, 0, events, 0, map[]);
  }

  // ----- what the mapping of some fields is

  ghost predicate NamesDiffer(fields: seq<Field>) {
    forall j, k :: 0 <= j < k < |fields| ==> fields[j].name != fields[k].name
  }

  ghost predicate AllMeant(fields: seq<Field>) {
    forall k :: 0 <= k < |fields| ==> Meaning(fields[k].doc).Some?
  }

  /** From the `k`-th field on: each has a value, and a name that is new. */
  ghost predicate MeantFrom(fields: seq<Field>, k: nat, read: map<string, Yaml>) {
    && (forall i :: k <= i < |fields| ==> Meaning(fields[i].doc).Some? && fields[i].name !in read)
    && (forall i, j :: k <= i < j < |fields| ==> fields[i].name != fields[j].name)
  }

  /** The mapping has what was read before and the fields from the `k`-th on, each with its value, and nothing else. */
  ghost predicate HoldsFrom(entries: map<string, Yaml>, fields: seq<Field>, k: nat, read: map<string, Yaml>) {
    && (forall name :: name in entries <==> name in read || exists i :: k <= i < |fields| && fields[i].name == name)
    && (forall name :: name in read ==> name in entries && entries[name] == read[name])
    && (forall i :: k <= i < |fields| ==>
          fields[i].name in entries && Some(entries[fields[i].name]) == Meaning(fields[i].doc))
  }

  lemma MeantWithFirst(fields: seq<Field>, k: nat, read: map<string, Yaml>, more: map<string, Yaml>)
    requires k < |fields| && fields[k].name !in read && more.Keys == read.Keys + {fields[k].name}
    requires Meaning(fields[k].doc).Some?
    ensures MeantFrom(fields, k, read) <==> MeantFrom(fields, k + 1, more)
  {
  }

  lemma HoldsWithFirst(entries: map<string, Yaml>, fields: seq<Field>, k: nat, read: map<string, Yaml>)
    requires k < |fields| && fields[k].name !in read && Meaning(fields[k].doc).Some?
    requires HoldsFrom(entries, fields, k + 1, read[fields[k].name := Meaning(fields[k].doc).value])
    ensures HoldsFrom(entries, fields, k, read)
  {
  }

  lemma {:induction false} MeaningFromIff(fields: seq<Field>, k: nat, read: map<string, Yaml>)
    requires k <= |fields|
    ensures MeaningFrom(fields, k, read).Some? <==> MeantFrom(fields, k, read)
    ensures MeaningFrom(fields, k, read).Some? ==> HoldsFrom(MeaningFrom(fields, k, read).value, fields, k, read)
    decreases |fields| - k
  {
    if k < |fields| && fields[k].name !in read && Meaning(fields[k].doc).Some? {
      var more := read[fields[k].name := Meaning(fields[k].doc).value];
      MeaningFromIff(fields, k + 1, more);
      MeantWithFirst(fields, k, read, more);
      if MeaningFrom(fields, k, read).Some? { HoldsWithFirst(MeaningFrom(fields, k, read).value, fields, k, read); }
    }
  }

  /** These are the entries: the fields' names and no others, each with the value it is spelled with. */
  ghost predicate Holds(entries: map<string, Yaml>, fields: seq<Field>) {
    && (forall name :: name in entries <==> exists i :: 0 <= i < |fields| && fields[i].name == name)
    && (forall i :: 0 <= i < |fields| ==>
          fields[i].name in entries && Some(entries[fields[i].name]) == Meaning(fields[i].doc))
  }

  /** Fields make a mapping exactly if their names are different and each has a value, and it is theirs. */
  lemma MeaningIff(fields: seq<Field>)
    ensures MeaningFrom(fields, 0, map[]).Some? <==> NamesDiffer(fields) && AllMeant(fields)
    ensures MeaningFrom(fields, 0, map[]).Some? ==> Holds(MeaningFrom(fields, 0, map[]).value, fields)
  {
    MeaningFromIff(fields, 0, map[]);
  }
}
