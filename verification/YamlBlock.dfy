/** The strict subset of YAML that the event registry and its snapshot are written in. */
module YamlBlock {
  import opened Outcomes
  import opened Text

  datatype Yaml = Scalar(text: string) | Items(items: seq<string>) | Mapping(entries: map<string, Yaml>)

  /** A block and the index of the line after it, or a refusal to understand it. */
  datatype Parsed = Parsed(value: Yaml, next: nat) | Failed

  /** A line of a block with its number. */
  datatype Numbered = Numbered(number: nat, text: string)

  predicate Skippable(line: string) {
    var bare := LStrip(line);
    bare == "" || bare[0] == '#'
  }

  predicate IsItem(line: string) {
    |line| >= 2 && line[0] == '-' && line[1] == ' '
  }

  predicate FoldMark(rest: string) {
    rest == ">-" || rest == ">" || rest == "|" || rest == "|-"
  }

  predicate Bracketed(rest: string) {
    rest != "" && rest[0] == '[' && rest[|rest| - 1] == ']'
  }

  /** The lines that belong to the block: indented deeper than `indent`, blank lines and comments left out. */
  function Body(lines: seq<string>, index: nat, indent: nat): (body: seq<Numbered>)
    requires index <= |lines|
    ensures forall k :: 0 <= k < |body| ==> index <= body[k].number < |lines| && body[k].text == lines[body[k].number]
    decreases |lines| - index
  {
    if index == |lines| then []
    else if Skippable(lines[index]) then Body(lines, index + 1, indent)
    else if Indent(lines[index]) <= indent then []
    else [Numbered(index, lines[index])] + Body(lines, index + 1, indent)
  }

  function BodyEnd(lines: seq<string>, index: nat, indent: nat): (end: nat)
    requires index <= |lines|
    ensures index <= end <= |lines|
    decreases |lines| - index
  {
    if index == |lines| then index
    else if Skippable(lines[index]) || Indent(lines[index]) > indent then BodyEnd(lines, index + 1, indent)
    else index
  }

  function OwnIndent(body: seq<Numbered>): nat
    requires body != []
  {
    var first := Indent(body[0].text);
    if |body| == 1 then first
    else
      var rest := OwnIndent(body[1..]);
      if first <= rest then first else rest
  }

  /** A list: every line is an item. */
  function ListItems(body: seq<Numbered>): Option<seq<string>> {
    if body == [] then Some([])
    else
      var stripped := Strip(body[0].text);
      if !IsItem(stripped) then None
      else match ListItems(body[1..])
        case None => None
        case Some(rest) => Some([Unquote(Strip(stripped[2..]))] + rest)
  }

  function Trimmed(pieces: seq<string>): seq<string> {
    if pieces == [] then []
    else if Strip(pieces[0]) == "" then Trimmed(pieces[1..])
    else [Unquote(Strip(pieces[0]))] + Trimmed(pieces[1..])
  }

  /** Folded text: the stripped lines of the block joined with spaces. */
  function Folded(lines: seq<string>, index: nat, indent: nat, text: string): string
    requires index <= |lines|
    decreases |lines| - index
  {
    if index == |lines| then text
    else if Strip(lines[index]) == "" then Folded(lines, index + 1, indent, text)
    else if Indent(lines[index]) <= indent then text
    else Folded(lines, index + 1, indent, (if text == "" then "" else text + " ") + Strip(lines[index]))
  }

  /** Past an entry and everything nested under it. */
  function SkipNested(body: seq<Numbered>, position: nat, own: nat): (next: nat)
    requires position <= |body|
    ensures position <= next <= |body|
    decreases |body| - position
  {
    if position == |body| || Indent(body[position].text) <= own then position else SkipNested(body, position + 1, own)
  }

  function ParseBlock(lines: seq<string>, start: nat, indent: nat): (parsed: Parsed)
    requires start <= |lines|
    ensures parsed.Parsed? ==> parsed.next == BodyEnd(lines, start, indent)
    decreases |lines| - start, 2, 0
  {
    var body, end := Body(lines, start, indent), BodyEnd(lines, start, indent);
    if body == [] then Parsed(Scalar(""), end)
    else if IsItem(LStrip(body[0].text)) then
      match ListItems(body)
      case None => Failed
      case Some(items) => Parsed(Items(items), end)
    else
      match Entries(lines, start, body, 0, OwnIndent(body), map[])
      case None => Failed
      case Some(entries) => Parsed(Mapping(entries), end)
  }

  /** The value after a key: folded text, a nested block, an inline list, or the rest of the line. */
  function EntryValue(lines: seq<string>, start: nat, number: nat, own: nat, rest: string): Option<Yaml>
    requires start <= number < |lines|
    decreases |lines| - start, 0, 0
  {
    if FoldMark(rest) then Some(Scalar(Folded(lines, number + 1, own, "")))
    else if rest == "" then
      match ParseBlock(lines, number + 1, own)
      case Failed => None
      case Parsed(value, _) => Some(value)
    else if Bracketed(rest) then Some(Items(Trimmed(Split(rest[1..|rest| - 1], ','))))
    else Some(Scalar(Unquote(rest)))
  }

  function EntryEnd(body: seq<Numbered>, position: nat, own: nat, rest: string): (next: nat)
    requires position < |body|
    ensures position < next <= |body|
  {
    if FoldMark(rest) || rest == "" then SkipNested(body, position + 1, own) else position + 1
  }

  /** The remaining entries of a mapping, added to those read so far. */
  function Entries(lines: seq<string>, start: nat, body: seq<Numbered>, position: nat, own: nat,
                   mapping: map<string, Yaml>)
    : Option<map<string, Yaml>>
    requires start <= |lines| && position <= |body|
    requires forall k :: 0 <= k < |body| ==> start <= body[k].number < |lines|
    decreases |lines| - start, 1, |body| - position
  {
    if position == |body| then Some(mapping)
    else
      var line := body[position];
      var (key, separated, tail) := Partition(Strip(line.text), ':');
      if Indent(line.text) != own || !separated || key in mapping then None
      else
        match EntryValue(lines, start, line.number, own, Strip(tail))
        case None => None
        case Some(value) => Entries(lines, start, body, EntryEnd(body, position, own, Strip(tail)), own,
                                    mapping[key := value])
  }

  // ----- the parser's own loops

  method CollectBody(lines: seq<string>, start: nat, indent: nat) returns (body: seq<Numbered>, index: nat)
    requires start <= |lines|
    ensures body == Body(lines, start, indent) && index == BodyEnd(lines, start, indent)
  {
    body, index := [], start;
    while index < |lines|
      invariant start <= index <= |lines|
      invariant body + Body(lines, index, indent) == Body(lines, start, indent)
      invariant BodyEnd(lines, index, indent) == BodyEnd(lines, start, indent)
    {
      if Skippable(lines[index]) {
        index := index + 1;
        continue;
      }
      if Indent(lines[index]) <= indent {
        break;
      }
      body := body + [Numbered(index, lines[index])];
      index := index + 1;
    }
  }

  function AddItems(read: seq<string>, rest: Option<seq<string>>): Option<seq<string>> {
    if rest.None? then None else Some(read + rest.value)
  }

  lemma OneMoreItem(read: seq<string>, body: seq<Numbered>, k: nat)
    requires k < |body|
    ensures var stripped := Strip(body[k].text);
            AddItems(read, ListItems(body[k..])) ==
            if IsItem(stripped) then AddItems(read + [Unquote(Strip(stripped[2..]))], ListItems(body[k + 1..]))
                else None
  {
    assert body[k..][1..] == body[k + 1..];
    var stripped := Strip(body[k].text);
    if IsItem(stripped) && ListItems(body[k + 1..]).Some? {
      var item, rest := Unquote(Strip(stripped[2..])), ListItems(body[k + 1..]).value;
      assert read + ([item] + rest) == read + [item] + rest;
    }
  }

  method ReadItems(body: seq<Numbered>) returns (items: Option<seq<string>>)
    ensures items == AddItems([], ListItems(body))
  {
    var read: seq<string> := [];
    assert body[0..] == body;
    for k := 0 to |body|
      invariant AddItems([], ListItems(body)) == AddItems(read, ListItems(body[k..]))
    {
      OneMoreItem(read, body, k);
      var stripped := Strip(body[k].text);
      if !IsItem(stripped) {
        return None;
      }
      read := read + [Unquote(Strip(stripped[2..]))];
    }
    assert read + [] == read;
    return Some(read);
  }

  method ReadBlock(lines: seq<string>, start: nat, indent: nat) returns (parsed: Parsed)
    requires start <= |lines|
    ensures parsed == ParseBlock(lines, start, indent)
    decreases |lines| - start, 2
  {
    var body, end := CollectBody(lines, start, indent);
    if body == [] {
      return Parsed(Scalar(""), end);
    }
    if IsItem(LStrip(body[0].text)) {
      var items := ReadItems(body);
      assert ListItems(body).Some? ==> [] + ListItems(body).value == ListItems(body).value;
      return if items.None? then Failed else Parsed(Items(items.value), end);
    }
    var mapping := ReadEntries(lines, start, body, OwnIndent(body));
    return if mapping.None? then Failed else Parsed(Mapping(mapping.value), end);
  }

  method ReadEntries(lines: seq<string>, start: nat, body: seq<Numbered>, own: nat)
    returns (entries: Option<map<string, Yaml>>)
    requires start <= |lines|
    requires forall k :: 0 <= k < |body| ==> start <= body[k].number < |lines|
    ensures entries == Entries(lines, start, body, 0, own, map[])
    decreases |lines| - start, 1
  {
    var mapping: map<string, Yaml> := map[];
    var position := 0;
    while position < |body|
      invariant 0 <= position <= |body|
      invariant Entries(lines, start, body, position, own, mapping) == Entries(lines, start, body, 0, own, map[])
      decreases |body| - position
    {
      var line := body[position];
      if Indent(line.text) != own {
        return None;
      }
      var (key, separated, tail) := Partition(Strip(line.text), ':');
      if !separated || key in mapping {
        return None;
      }
      var value := ReadValue(lines, start, line.number, own, Strip(tail));
      if value.None? {
        return None;
      }
      mapping := mapping[key := value.value];
      position := EntryEnd(body, position, own, Strip(tail));
    }
    return Some(mapping);
  }

  method ReadValue(lines: seq<string>, start: nat, number: nat, own: nat, rest: string) returns (value: Option<Yaml>)
    requires start <= number < |lines|
    ensures value == EntryValue(lines, start, number, own, rest)
    decreases |lines| - start, 0
  {
    if FoldMark(rest) {
      return Some(Scalar(Folded(lines, number + 1, own, "")));
    }
    if rest == "" {
      var nested := ReadBlock(lines, number + 1, own);
      return if nested.Failed? then None else Some(nested.value);
    }
    if Bracketed(rest) {
      return Some(Items(Trimmed(Split(rest[1..|rest| - 1], ','))));
    }
    return Some(Scalar(Unquote(rest)));
  }
}
