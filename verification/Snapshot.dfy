/** The append-only snapshot of published event schemas: its text, its parser, and `--update`. */
module Snapshot {
  import opened Outcomes
  import opened Text
  import opened Chunks
  import opened Sorting
  import opened YamlBlock

  /** A published pair; the version comes from `int` and may be anything that accepts. */
  datatype Key = Key(name: string, version: int)

  type Fields = map<string, string>
  type Published = map<Key, Fields>

  predicate KeyLe(a: Key, b: Key) {
    if a.name == b.name then a.version <= b.version else StringLe(a.name, b.name)
  }

  lemma KeyOrder()
    ensures TotalOrder(KeyLe)
  {
    StringOrder();
  }

  function SortedKeys(keys: set<Key>): (r: seq<Key>)
    ensures forall x :: x in r <==> x in keys
    ensures forall i, j :: 0 <= i < j < |r| ==> r[i] != r[j]
  {
    KeyOrder();
    Sorted(keys, KeyLe)
  }

  function SortedFields(names: set<string>): seq<string> {
    StringOrder();
    Sorted(names, StringLe)
  }

  ghost predicate Distinct(names: seq<string>) {
    forall j, k :: 0 <= j < k < |names| ==> names[j] != names[k]
  }

  lemma SortedFieldsFacts(names: set<string>)
    ensures Distinct(SortedFields(names)) && forall f :: f in SortedFields(names) <==> f in names
  {
    StringOrder();
  }

  // ----- the text of a snapshot

  /** The explanatory header: whatever it says, every line of it is a comment. */
  ghost predicate IsHeader(head: seq<string>) {
    forall k :: 0 <= k < |head| ==> OneLine(head[k]) && head[k] != "" && head[k][0] == '#'
  }

  function KeyText(key: Key): string {
    key.name + "@" + FromInt(key.version)
  }

  function FieldLine(field: string, kind: string): string {
    "  " + field + ": " + kind
  }

  function FieldLines(names: seq<string>, fields: Fields): (lines: seq<string>)
    ensures |lines| == |names|
  {
    seq(|names|, k requires 0 <= k < |names| =>
      FieldLine(names[k], if names[k] in fields then fields[names[k]] else ""))
  }

  /** A pair as it is going to be written: its fields are listed in the order of their names. */
  datatype Entry = Entry(key: Key, names: seq<string>, fields: Fields)

  /** The pairs of a snapshot in order. */
  function Listing(snapshot: Published): (entries: seq<Entry>)
    ensures |entries| == |SortedKeys(snapshot.Keys)|
  {
    var keys := SortedKeys(snapshot.Keys);
    seq(|keys|, j requires 0 <= j < |keys| && keys[j] in snapshot =>
      Entry(keys[j], SortedFields(snapshot[keys[j]].Keys), snapshot[keys[j]]))
  }

  /** A blank line, the pair, its fields. */
  function PairLines(entry: Entry): seq<string> {
    ["", KeyText(entry.key) + ":"] + FieldLines(entry.names, entry.fields)
  }

  function Texts(entries: seq<Entry>): (chunks: seq<seq<string>>)
    ensures |chunks| == |entries|
  {
    seq(|entries|, j requires 0 <= j < |entries| => PairLines(entries[j]))
  }

  function SnapshotLines(head: seq<string>, snapshot: Published): seq<string> {
    head + Flat(Texts(Listing(snapshot)), 0)
  }

  function Render(head: seq<string>, snapshot: Published): string {
    Unlines(SnapshotLines(head, snapshot))
  }

  // ----- reading it back

  predicate NameChar(c: char) {
    'a' <= c <= 'z' || '0' <= c <= '9' || c == '_' || c == '.'
  }

  predicate NameOk(name: string) {
    name != "" && 'a' <= name[0] <= 'z' && forall i :: 0 <= i < |name| ==> NameChar(name[i])
  }

  /** `type@version`, with the version in decimal digits. */
  function ParseKey(text: string): Option<Key> {
    var (name, found, digits) := Partition(text, '@');
    if found && NameOk(name) && Digits(digits) then Some(Key(name, ToNat(digits))) else None
  }

  /** The text of a field's kind; what Python would print for anything but a plain scalar is `repr`'s business. */
  function KindText(value: Yaml, repr: Yaml -> string): string {
    if value.Scalar? then value.text else repr(value)
  }

  function Kinds(entries: map<string, Yaml>, repr: Yaml -> string): Fields {
    map f | f in entries :: KindText(entries[f], repr)
  }

  function ParseFrom(lines: seq<string>, index: nat, published: Published, repr: Yaml -> string): Option<Published>
    requires index <= |lines|
    decreases |lines| - index
  {
    if index == |lines| then Some(published)
    else if Skippable(lines[index]) then ParseFrom(lines, index + 1, published, repr)
    else if IsSpace(lines[index][0]) then None
    else
      match ParseKey(Strip(Partition(lines[index], ':').0))
      case None => None
      case Some(key) =>
        var block := ParseBlock(lines, index + 1, 0);
        if block.Failed? || !block.value.Mapping? then None
        else ParseFrom(lines, block.next, published[key := Kinds(block.value.entries, repr)], repr)
  }

  function ParsePublished(text: string, repr: Yaml -> string): Option<Published> {
    ParseFrom(SplitLines(text), 0, map[], repr)
  }

  // ----- which snapshots survive being written and read

  /** What can stand before the colon of a line that is neither blank nor a comment. */
  predicate Spelled(name: string) {
    OneLine(name) && ':' !in name && (name == "" || (!IsSpace(name[0]) && name[0] != '#'))
  }

  /** What the parsers hand over: names they cut out of lines, at least one field, and kinds without line breaks. */
  ghost predicate SpelledPair(key: Key, fields: Fields) {
    Spelled(key.name) && fields != map[] && forall f :: f in fields ==> Spelled(f) && OneLine(fields[f])
  }

  ghost predicate Spellable(snapshot: Published) {
    forall k :: k in snapshot ==> SpelledPair(k, snapshot[k])
  }

  /** The key matches what the parser expects of a key. */
  predicate KeyOk(key: Key) {
    NameOk(key.name) && key.version >= 0
  }

  ghost predicate Readable(snapshot: Published) {
    forall k :: k in snapshot ==> KeyOk(k)
  }

  /** The field that is written first does not look like an item of a list. */
  predicate FirstNameOk(names: seq<string>) {
    names == [] || !IsItem(names[0])
  }

  /** The parser takes the written text: no key and no first field stops it. */
  ghost predicate Legible(snapshot: Published) {
    forall k :: k in snapshot ==> KeyOk(k) && FirstNameOk(SortedFields(snapshot[k].Keys))
  }

  /** The value of an entry under which nothing is nested. */
  function ReadAlone(rest: string): Yaml {
    if FoldMark(rest) || rest == "" then Scalar("")
    else if Bracketed(rest) then Items(Trimmed(Split(rest[1..|rest| - 1], ',')))
    else Scalar(Unquote(rest))
  }

  /** What becomes of a kind that is written and read. */
  function KindRead(kind: string, repr: Yaml -> string): string {
    KindText(ReadAlone(Strip(kind)), repr)
  }

  function RereadFields(fields: Fields, repr: Yaml -> string): Fields {
    map f | f in fields :: KindRead(fields[f], repr)
  }

  /** The snapshot after its text was written and read. */
  function Reread(snapshot: Published, repr: Yaml -> string): Published {
    map k | k in snapshot :: RereadFields(snapshot[k], repr)
  }

  /** Every kind is read as what was written. */
  ghost predicate Faithful(snapshot: Published, repr: Yaml -> string) {
    forall k, f :: k in snapshot && f in snapshot[k] ==> KindRead(snapshot[k][f], repr) == snapshot[k][f]
  }

  lemma FaithfulIff(snapshot: Published, repr: Yaml -> string)
    ensures Reread(snapshot, repr) == snapshot <==> Faithful(snapshot, repr)
  {
    if Faithful(snapshot, repr) {
      forall k | k in snapshot
        ensures RereadFields(snapshot[k], repr) == snapshot[k]
      {
      }
    } else {
      var k, f :| k in snapshot && f in snapshot[k] && KindRead(snapshot[k][f], repr) != snapshot[k][f];
      assert Reread(snapshot, repr)[k][f] != snapshot[k][f];
    }
  }

  lemma {:induction false} RStripKeepsIff(s: string)
    ensures RStrip(s) == s <==> s == "" || !IsSpace(s[|s| - 1])
  {
    RStripFacts(s);
    if s != "" && IsSpace(s[|s| - 1]) { RStripFacts(s[..|s| - 1]); }
  }

  /** Only what has nothing to strip at either end is stripped to itself. */
  lemma StripKeepsIff(s: string)
    ensures if Trim(s) then Strip(s) == s else |Strip(s)| < |s|
  {
    LStripFacts(s);
    RStripFacts(LStrip(s));
    RStripKeepsIff(LStrip(s));
  }

  /** No quotation mark at either end. */
  predicate Unquoted(s: string) {
    s == "" || (!IsQuote(s[0]) && !IsQuote(s[|s| - 1]))
  }

  lemma {:induction false} UnquoteKeepsIff(s: string)
    ensures if Unquoted(s) then Unquote(s) == s else |Unquote(s)| < |s|
  {
    if s != "" && IsQuote(s[0]) {
      UnquoteKeepsIff(s[1..]);
    } else if s != "" && IsQuote(s[|s| - 1]) {
      UnquoteKeepsIff(s[..|s| - 1]);
    }
  }

  /** What can be a kind as it stands: nothing to strip, no fold mark, and no quotation mark at either end. */
  predicate Plain(kind: string) {
    Trim(kind) && !FoldMark(kind) && Unquoted(kind)
  }

  /** The list that an inline list is read as. */
  function InlineList(kind: string): Yaml
    requires Bracketed(Strip(kind))
  {
    var rest := Strip(kind);
    Items(Trimmed(Split(rest[1..|rest| - 1], ',')))
  }

  /**
   * Which kinds are read as what was written: an inline list if it is printed just as it is spelled, and anything else
   * if it is plain.
   */
  lemma KindIsKeptIff(kind: string, repr: Yaml -> string)
    ensures KindRead(kind, repr) == kind
            <==> if Bracketed(Strip(kind)) then repr(InlineList(kind)) == kind else Plain(kind)
  {
    StripKeepsIff(kind);
    UnquoteKeepsIff(Strip(kind));
  }

  // ----- one line

  lemma IndentedByTwo(bare: string)
    requires bare != "" && !IsSpace(bare[0])
    ensures LStrip("  " + bare) == bare && Indent("  " + bare) == 2
  {
    var line := "  " + bare;
    assert line[1..] == " " + bare && line[1..][1..] == bare;
    assert LStrip(line[1..]) == LStrip(bare) == bare && Indent(line[1..]) == 1 + Indent(bare);
  }

  lemma AfterASpace(kind: string)
    ensures Strip(RStrip(" " + kind)) == Strip(kind)
  {
    StripOfRStrip(" " + kind);
    assert (" " + kind)[1..] == kind;
    assert LStrip(" " + kind) == LStrip(kind);
  }

  /** The line without its indentation. */
  lemma BareFieldLine(field: string, kind: string)
    requires ':' !in field
    ensures var bare := field + ": " + kind;
            var (key, separated, tail) := Partition(RStrip(bare), ':');
            key == field && separated && Strip(tail) == Strip(kind)
  {
    assert field + ": " + kind == field + [':'] + (" " + kind);
    RStripAfter(field, ':', " " + kind);
    PartitionAt(field, ':', RStrip(" " + kind));
    AfterASpace(kind);
  }

  lemma FieldLineReadsBack(field: string, kind: string)
    requires Spelled(field)
    ensures var line := FieldLine(field, kind);
            Indent(line) == 2 && !Skippable(line) && (IsItem(LStrip(line)) <==> IsItem(field)) &&
            var (key, separated, tail) := Partition(Strip(line), ':');
            key == field && separated && Strip(tail) == Strip(kind)
  {
    var line, bare := FieldLine(field, kind), field + ": " + kind;
    assert line == "  " + bare;
    assert bare[0] == if field == "" then ':' else field[0];
    IndentedByTwo(bare);
    BareFieldLine(field, kind);
  }

  lemma FromIntFacts(n: int)
    ensures FromInt(n) != "" && IsDigit(FromInt(n)[|FromInt(n)| - 1])
    ensures forall i :: 0 <= i < |FromInt(n)| ==> IsDigit(FromInt(n)[i]) || FromInt(n)[i] == '-'
    ensures Digits(FromInt(n)) <==> n >= 0
  {
    if n < 0 { assert FromInt(n)[0] == '-'; }
  }

  lemma KeyLineReadsBack(key: Key)
    requires Spelled(key.name)
    ensures var line := KeyText(key) + ":";
            OneLine(line) && Indent(line) == 0 && !Skippable(line) && Partition(line, ':').0 == KeyText(key)
            && Strip(KeyText(key)) == KeyText(key)
  {
    FromIntFacts(key.version);
    var text := KeyText(key);
    assert ':' !in text;
    PartitionAt(text, ':', "");
    assert text + [':'] + "" == text + ":";
    assert text[0] == if key.name == "" then '@' else key.name[0];
  }

  lemma {:induction false} PartitionSkips(s: string, separator: char, more: string)
    requires separator in s
    ensures Partition(s + more, separator).2 == Partition(s, separator).2 + more
  {
    assert s[0] != separator ==> separator in s[1..];
    assert (s + more)[1..] == s[1..] + more;
    if s[0] != separator { PartitionSkips(s[1..], separator, more); }
  }

  /** A key reads back as itself, or not at all. */
  lemma KeyReadsBack(key: Key)
    ensures ParseKey(KeyText(key)) == if KeyOk(key) then Some(key) else None
  {
    FromIntFacts(key.version);
    if '@' in key.name {
      PartitionSkips(key.name, '@', "@" + FromInt(key.version));
      assert KeyText(key) == key.name + ("@" + FromInt(key.version));
      var digits := Partition(key.name, '@').2 + ("@" + FromInt(key.version));
      assert digits[|Partition(key.name, '@').2|] == '@';
      assert !NameOk(key.name);
    } else {
      PartitionAt(key.name, '@', FromInt(key.version));
      assert key.name + ['@'] + FromInt(key.version) == KeyText(key);
      if key.version >= 0 { NumbersReadBack(key.version); }
    }
  }

  // ----- one pair: its field lines, up to the next pair or the end of the text

  ghost predicate FieldsAt(lines: seq<string>, a: nat, names: seq<string>, fields: Fields) {
    a + |names| <= |lines| && SpelledNames(names, fields) && FieldsStand(lines, a, names, fields)
        && PairEnds(lines, a + |names|)
  }

  ghost predicate SpelledNames(names: seq<string>, fields: Fields) {
    forall k :: 0 <= k < |names| ==> names[k] in fields && Spelled(names[k]) && OneLine(fields[names[k]])
  }

  ghost predicate FieldsStand(lines: seq<string>, a: nat, names: seq<string>, fields: Fields) {
    && a + |names| <= |lines|
    && forall k :: 0 <= k < |names| ==> names[k] in fields && lines[a + k] == FieldLine(names[k], fields[names[k]])
  }

  ghost predicate PairEnds(lines: seq<string>, b: nat) {
    b == |lines| || (b + 1 < |lines| && lines[b] == "" && !Skippable(lines[b + 1]) && Indent(lines[b + 1]) == 0)
  }

  function Numbering(lines: seq<string>, a: nat, n: nat): seq<Numbered>
    requires a + n <= |lines|
  {
    seq(n, k requires 0 <= k < n => Numbered(a + k, lines[a + k]))
  }

  lemma FirstField(lines: seq<string>, a: nat, names: seq<string>, fields: Fields)
    requires names != [] && FieldsAt(lines, a, names, fields)
    ensures Indent(lines[a]) == 2 && !Skippable(lines[a]) && FieldsAt(lines, a + 1, names[1..], fields)
  {
    FieldLineReadsBack(names[0], fields[names[0]]);
    assert lines[a + 0] == FieldLine(names[0], fields[names[0]]);
    forall k | 0 <= k < |names[1..]|
      ensures lines[a + 1 + k] == FieldLine(names[1..][k], fields[names[1..][k]])
    {
      assert lines[a + (k + 1)] == FieldLine(names[k + 1], fields[names[k + 1]]);
    }
  }

  lemma OneMoreLine(lines: seq<string>, a: nat, n: nat)
    requires a + n < |lines| && !Skippable(lines[a]) && Indent(lines[a]) > 0
    ensures Body(lines, a, 0) == [Numbered(a, lines[a])] + Body(lines, a + 1, 0)
    ensures BodyEnd(lines, a, 0) == BodyEnd(lines, a + 1, 0)
    ensures Numbering(lines, a, n + 1) == [Numbered(a, lines[a])] + Numbering(lines, a + 1, n)
  {
  }

  lemma {:induction false} BodyOfFields(lines: seq<string>, a: nat, names: seq<string>, fields: Fields)
    requires FieldsAt(lines, a, names, fields)
    ensures Body(lines, a, 0) == Numbering(lines, a, |names|)
    ensures var b := a + |names|; BodyEnd(lines, a, 0) == if b == |lines| then b else b + 1
    decreases |names|
  {
    if names == [] {
    } else {
      FirstField(lines, a, names, fields);
      OneMoreLine(lines, a, |names| - 1);
      BodyOfFields(lines, a + 1, names[1..], fields);
    }
  }

  lemma {:induction false} FieldsAreIndentedByTwo(body: seq<Numbered>)
    requires body != [] && forall k :: 0 <= k < |body| ==> Indent(body[k].text) == 2
    ensures OwnIndent(body) == 2
  {
    if |body| > 1 { FieldsAreIndentedByTwo(body[1..]); }
  }

  /** Nothing is nested under a field. */
  lemma NothingNested(lines: seq<string>, a: nat, names: seq<string>, fields: Fields, p: nat)
    requires FieldsAt(lines, a, names, fields) && p < |names|
    ensures Body(lines, a + p + 1, 2) == []
  {
    if p + 1 < |names| {
      FieldLineReadsBack(names[p + 1], fields[names[p + 1]]);
      assert lines[a + (p + 1)] == FieldLine(names[p + 1], fields[names[p + 1]]);
    } else if a + p + 1 < |lines| {
      assert Skippable("");
    }
  }

  /** Text folded under a field is empty: the next line belongs to something else. */
  lemma NothingFolded(lines: seq<string>, a: nat, names: seq<string>, fields: Fields, p: nat)
    requires FieldsAt(lines, a, names, fields) && p < |names|
    ensures Folded(lines, a + p + 1, 2, "") == ""
  {
    if p + 1 < |names| {
      FieldLineReadsBack(names[p + 1], fields[names[p + 1]]);
      assert lines[a + (p + 1)] == FieldLine(names[p + 1], fields[names[p + 1]]);
      NotBlank(lines[a + p + 1]);
    } else if a + p + 1 < |lines| {
      NotBlank(lines[a + p + 2]);
      assert Folded(lines, a + p + 1, 2, "") == Folded(lines, a + p + 2, 2, "");
    }
  }

  lemma NotBlank(line: string)
    requires !Skippable(line)
    ensures Strip(line) != ""
  {
    LStripFacts(line);
    RStripFacts(LStrip(line));
  }

  /** The mapping after the first `p` field lines. */
  function ReadSoFar(names: seq<string>, fields: Fields, p: nat): map<string, Yaml>
    requires p <= |names|
  {
    map f | f in names[..p] && f in fields :: ReadAlone(Strip(fields[f]))
  }

  lemma OneMoreField(names: seq<string>, fields: Fields, p: nat)
    requires p < |names| && Distinct(names) && names[p] in fields
    ensures names[p] !in ReadSoFar(names, fields, p)
    ensures ReadSoFar(names, fields, p)[names[p] := ReadAlone(Strip(fields[names[p]]))]
            == ReadSoFar(names, fields, p + 1)
  {
    assert names[..p + 1] == names[..p] + [names[p]];
  }

  /** The value of one field line depends on nothing around it. */
  lemma FieldValue(lines: seq<string>, a: nat, names: seq<string>, fields: Fields, p: nat, rest: string)
    requires FieldsAt(lines, a, names, fields) && p < |names|
    ensures EntryValue(lines, a, a + p, 2, rest) == Some(ReadAlone(rest))
  {
    NothingNested(lines, a, names, fields, p);
    NothingFolded(lines, a, names, fields, p);
  }

  lemma FieldEnd(lines: seq<string>, a: nat, names: seq<string>, fields: Fields, p: nat, rest: string)
    requires FieldsAt(lines, a, names, fields) && p < |names|
    ensures EntryEnd(Numbering(lines, a, |names|), p, 2, rest) == p + 1
  {
    if p + 1 < |names| {
      assert lines[a + (p + 1)] == FieldLine(names[p + 1], fields[names[p + 1]]);
      FieldLineReadsBack(names[p + 1], fields[names[p + 1]]);
    }
  }

  lemma OneFieldEntry(lines: seq<string>, a: nat, names: seq<string>, fields: Fields, p: nat)
    requires FieldsAt(lines, a, names, fields) && Distinct(names) && p < |names|
    ensures Entries(lines, a, Numbering(lines, a, |names|), p, 2, ReadSoFar(names, fields, p))
            == Entries(lines, a, Numbering(lines, a, |names|), p + 1, 2, ReadSoFar(names, fields, p + 1))
  {
    assert Numbering(lines, a, |names|)[p] == Numbered(a + p, FieldLine(names[p], fields[names[p]]));
    FieldLineReadsBack(names[p], fields[names[p]]);
    FieldValue(lines, a, names, fields, p, Strip(fields[names[p]]));
    FieldEnd(lines, a, names, fields, p, Strip(fields[names[p]]));
    OneMoreField(names, fields, p);
  }

  lemma {:induction false} EntriesOfFields(lines: seq<string>, a: nat, names: seq<string>, fields: Fields, p: nat)
    requires FieldsAt(lines, a, names, fields) && Distinct(names) && p <= |names|
    ensures Entries(lines, a, Numbering(lines, a, |names|), p, 2, ReadSoFar(names, fields, p))
            == Some(ReadSoFar(names, fields, |names|))
    decreases |names| - p
  {
    if p < |names| {
      OneFieldEntry(lines, a, names, fields, p);
      EntriesOfFields(lines, a, names, fields, p + 1);
    }
  }

  lemma FieldsParse(lines: seq<string>, a: nat, names: seq<string>, fields: Fields)
    requires names != [] && FieldsAt(lines, a, names, fields) && Distinct(names)
    ensures var b := a + |names|;
            var block := ParseBlock(lines, a, 0);
            if IsItem(names[0]) then block.Failed? || block.value.Items?
            else block == Parsed(Mapping(ReadSoFar(names, fields, |names|)), if b == |lines| then b else b + 1)
  {
    var body := Numbering(lines, a, |names|);
    BodyOfFields(lines, a, names, fields);
    forall k | 0 <= k < |body|
      ensures Indent(body[k].text) == 2 && (IsItem(LStrip(body[k].text)) <==> IsItem(names[k]))
    {
      assert body[k].text == lines[a + k];
      FieldLineReadsBack(names[k], fields[names[k]]);
    }
    if !IsItem(names[0]) {
      FieldsAreIndentedByTwo(body);
      EntriesOfFields(lines, a, names, fields, 0);
    }
  }

  /** The entry lists fields of its own, each once, and can be told from what stands around it. */
  ghost predicate GoodEntry(entry: Entry) {
    Spelled(entry.key.name) && entry.names != [] && Distinct(entry.names) && SpelledNames(entry.names, entry.fields)
  }

  /** The entry lists its fields, all of them. */
  ghost predicate Covers(entry: Entry) {
    && (forall k :: 0 <= k < |entry.names| ==> entry.names[k] in entry.fields)
    && (forall f :: f in entry.fields ==> f in entry.names)
  }

  /** The parser takes the entry's text. */
  predicate LegibleEntry(entry: Entry) {
    KeyOk(entry.key) && FirstNameOk(entry.names)
  }

  /**
   * The block at line `a` is read as the entry's fields, and reading goes on after line `b` or at the end of the text;
   * unless the first field looks like an item, then it is not read as a mapping at all.
   */
  ghost predicate BlockReads(lines: seq<string>, a: nat, b: nat, entry: Entry, repr: Yaml -> string)
  {
    a <= |lines| &&
    var block := ParseBlock(lines, a, 0);
    if !FirstNameOk(entry.names) then block.Failed? || block.value.Items?
    else block.Parsed? && block.value.Mapping? && Kinds(block.value.entries, repr) == RereadFields(entry.fields, repr)
         && block.next == if b == |lines| then b else b + 1
  }

  /** The lines of a pair's fields parse to exactly these fields, with the kinds that are read for those written. */
  lemma FieldsReadBack(lines: seq<string>, a: nat, entry: Entry, repr: Yaml -> string)
    requires GoodEntry(entry) && Covers(entry) && FieldsAt(lines, a, entry.names, entry.fields)
    ensures BlockReads(lines, a, a + |entry.names|, entry, repr)
  {
    FieldsParse(lines, a, entry.names, entry.fields);
  }

  // ----- the whole text

  ghost predicate PairAt(lines: seq<string>, i: nat, entry: Entry) {
    && i + 2 + |entry.names| <= |lines| && lines[i] == "" && lines[i + 1] == KeyText(entry.key) + ":"
    && FieldsStand(lines, i + 2, entry.names, entry.fields)
  }

  /** What was read before, with the pairs from the `j`-th on added as they are read. */
  function WithPairs(published: Published, entries: seq<Entry>, j: nat, repr: Yaml -> string): Published
    requires j <= |entries|
    decreases |entries| - j
  {
    if j == |entries| then published
    else WithPairs(published[entries[j].key := RereadFields(entries[j].fields, repr)], entries, j + 1, repr)
  }

  predicate AllOk(entries: seq<Entry>, j: nat)
    decreases |entries| - j
  {
    j >= |entries| || (LegibleEntry(entries[j]) && AllOk(entries, j + 1))
  }

  ghost predicate AllGood(entries: seq<Entry>) {
    forall j :: 0 <= j < |entries| ==> GoodEntry(entries[j])
  }

  /** The `j`-th pair stands from line `starts[j]` on, and the text ends with the last. */
  ghost predicate PairsAt(lines: seq<string>, starts: seq<nat>, entries: seq<Entry>) {
    && |starts| == |entries| + 1 && starts[|entries|] == |lines|
    && forall j :: 0 <= j < |entries| ==> PairBetween(lines, starts[j], starts[j + 1], entries[j])
  }

  ghost predicate PairBetween(lines: seq<string>, i: nat, b: nat, entry: Entry) {
    b == i + 2 + |entry.names| && PairAt(lines, i, entry)
  }

  lemma PairStands(lines: seq<string>, i: nat, entry: Entry)
    requires GoodEntry(entry) && i + |PairLines(entry)| <= |lines|
             && lines[i..i + |PairLines(entry)|] == PairLines(entry)
    ensures PairAt(lines, i, entry)
  {
    var pair := lines[i..i + |PairLines(entry)|];
    assert lines[i] == pair[0] && lines[i + 1] == pair[1];
    forall k | 0 <= k < |entry.names|
      ensures lines[i + 2 + k] == FieldLine(entry.names[k], entry.fields[entry.names[k]])
    {
      assert lines[i + 2 + k] == pair[2 + k] == FieldLines(entry.names, entry.fields)[k];
    }
  }

  lemma WrittenPairStands(lines: seq<string>, base: nat, entries: seq<Entry>, j: nat)
    requires AllGood(entries) && RestIs(lines, base, Flat(Texts(entries), 0)) && j < |entries|
    ensures PairBetween(lines, Start(Texts(entries), base, j), Start(Texts(entries), base, j + 1), entries[j])
  {
    var chunks := Texts(entries);
    RestStands(lines, base, chunks, j);
    FirstPairStands(lines, Start(chunks, base, j), entries[j], Flat(chunks, j + 1));
  }

  lemma FirstPairStands(lines: seq<string>, i: nat, entry: Entry, rest: seq<string>)
    requires GoodEntry(entry) && RestIs(lines, i, PairLines(entry) + rest)
    ensures PairBetween(lines, i, i + |PairLines(entry)|, entry)
  {
    AfterFirst(lines, i, PairLines(entry), rest);
    PairStands(lines, i, entry);
  }

  lemma WrittenPairsStand(lines: seq<string>, base: nat, entries: seq<Entry>) returns (starts: seq<nat>)
    requires AllGood(entries) && RestIs(lines, base, Flat(Texts(entries), 0))
    ensures PairsAt(lines, starts, entries) && starts[0] == base
  {
    var chunks := Texts(entries);
    starts := Starts(chunks, base);
    forall j | 0 <= j < |entries|
      ensures PairBetween(lines, starts[j], starts[j + 1], entries[j])
    {
      WrittenPairStands(lines, base, entries, j);
    }
    LastChunkEndsTheWhole(lines, base, chunks);
  }

  /** A pair ends where the next begins, or where the text does. */
  lemma PairEndsWhereTheNextBegins(lines: seq<string>, starts: seq<nat>, entries: seq<Entry>, j: nat)
    requires AllGood(entries) && PairsAt(lines, starts, entries) && j < |entries|
    ensures PairEnds(lines, starts[j + 1])
  {
    if j + 1 < |entries| {
      assert PairBetween(lines, starts[j + 1], starts[j + 2], entries[j + 1]);
      KeyLineReadsBack(entries[j + 1].key);
    }
  }

  /** The blank line is skipped, the key line read, and its block taken. */
  lemma OneKeyLine(lines: seq<string>, i: nat, key: Key, published: Published, repr: Yaml -> string)
    requires i + 2 <= |lines| && lines[i] == "" && lines[i + 1] == KeyText(key) + ":" && Spelled(key.name)
    ensures ParseFrom(lines, i, published, repr) ==
            if !KeyOk(key) then None
            else
              var block := ParseBlock(lines, i + 2, 0);
              if block.Failed? || !block.value.Mapping? then None
              else ParseFrom(lines, block.next, published[key := Kinds(block.value.entries, repr)], repr)
  {
    KeyLineReadsBack(key);
    KeyReadsBack(key);
    assert Skippable(lines[i]);
    assert !IsSpace(lines[i + 1][0]);
    assert ParseFrom(lines, i, published, repr) == ParseFrom(lines, i + 1, published, repr);
  }

  lemma KeyAndBlock(lines: seq<string>, i: nat, entry: Entry, b: nat, published: Published, repr: Yaml -> string)
    requires i + 2 <= |lines| && lines[i] == "" && lines[i + 1] == KeyText(entry.key) + ":" && Spelled(entry.key.name)
    requires b <= |lines| && PairEnds(lines, b)
    requires BlockReads(lines, i + 2, b, entry, repr)
    ensures ParseFrom(lines, i, published, repr)
            == if LegibleEntry(entry)
               then ParseFrom(lines, b, published[entry.key := RereadFields(entry.fields, repr)], repr)
               else None
  {
    OneKeyLine(lines, i, entry.key, published, repr);
    if b < |lines| {
      assert Skippable(lines[b]);
    }
  }

  /** Reading one pair adds exactly it, as it is read, if the parser takes it. */
  lemma PairReadsBack(lines: seq<string>, i: nat, entry: Entry, published: Published, repr: Yaml -> string)
    requires PairAt(lines, i, entry) && GoodEntry(entry) && Covers(entry) && PairEnds(lines, i + 2 + |entry.names|)
    ensures ParseFrom(lines, i, published, repr)
            == if LegibleEntry(entry)
               then ParseFrom(lines, i + 2 + |entry.names|, published[entry.key := RereadFields(entry.fields, repr)],
                              repr)
               else None
  {
    FieldsReadBack(lines, i + 2, entry, repr);
    KeyAndBlock(lines, i, entry, i + 2 + |entry.names|, published, repr);
  }

  lemma PairFacts(lines: seq<string>, starts: seq<nat>, entries: seq<Entry>, j: nat)
    requires AllGood(entries) && AllCover(entries) && PairsAt(lines, starts, entries) && j < |entries|
    ensures PairBetween(lines, starts[j], starts[j + 1], entries[j]) && PairEnds(lines, starts[j + 1])
    ensures GoodEntry(entries[j]) && Covers(entries[j])
  {
    PairEndsWhereTheNextBegins(lines, starts, entries, j);
  }

  lemma PairBetweenReadsBack(lines: seq<string>, i: nat, b: nat, entry: Entry, published: Published,
                             repr: Yaml -> string)
    requires PairBetween(lines, i, b, entry) && GoodEntry(entry) && Covers(entry) && PairEnds(lines, b)
    ensures i <= |lines| && b <= |lines|
    ensures ParseFrom(lines, i, published, repr)
            == if LegibleEntry(entry)
               then ParseFrom(lines, b, published[entry.key := RereadFields(entry.fields, repr)], repr)
               else None
  {
    PairReadsBack(lines, i, entry, published, repr);
  }

  lemma OnePairReadsBack(lines: seq<string>, starts: seq<nat>, entries: seq<Entry>, j: nat, published: Published,
                         repr: Yaml -> string)
    requires AllGood(entries) && AllCover(entries) && PairsAt(lines, starts, entries) && j < |entries|
    ensures starts[j] <= |lines| && starts[j + 1] <= |lines|
    ensures ParseFrom(lines, starts[j], published, repr)
            == if LegibleEntry(entries[j])
               then ParseFrom(lines, starts[j + 1], published[entries[j].key := RereadFields(entries[j].fields, repr)],
                              repr)
               else None
  {
    PairFacts(lines, starts, entries, j);
    PairBetweenReadsBack(lines, starts[j], starts[j + 1], entries[j], published, repr);
  }

  /** A parser that stands before the `n`-th entry takes it, as it is read, or refuses. */
  ghost predicate TakesEntry(parse: (nat, Published) -> Option<Published>, starts: seq<nat>, entries: seq<Entry>,
                             n: nat, p: Published, repr: Yaml -> string)
  {
    && |starts| == |entries| + 1 && n < |entries|
    && parse(starts[n], p)
    == if LegibleEntry(entries[n])
       then parse(starts[n + 1], p[entries[n].key := RereadFields(entries[n].fields, repr)])
       else None
  }

  ghost predicate Finishes(parse: (nat, Published) -> Option<Published>, end: nat, p: Published) {
    parse(end, p) == Some(p)
  }

  lemma {:induction false} EntryByEntry(parse: (nat, Published) -> Option<Published>, starts: seq<nat>,
                                        entries: seq<Entry>, j: nat, published: Published,
                                        repr: Yaml -> string)
    requires |starts| == |entries| + 1 && j <= |entries|
    requires forall n, p :: 0 <= n < |entries| ==> TakesEntry(parse, starts, entries, n, p, repr)
    requires forall p :: Finishes(parse, starts[|entries|], p)
    ensures parse(starts[j], published)
            == if AllOk(entries, j) then Some(WithPairs(published, entries, j, repr)) else None
    decreases |entries| - j
  {
    if j < |entries| {
      assert TakesEntry(parse, starts, entries, j, published, repr);
      EntryByEntry(parse, starts, entries, j + 1, published[entries[j].key := RereadFields(entries[j].fields, repr)],
                   repr);
    } else {
      assert Finishes(parse, starts[|entries|], published);
    }
  }

  lemma PairsReadBack(lines: seq<string>, starts: seq<nat>, entries: seq<Entry>, repr: Yaml -> string)
    requires AllGood(entries) && AllCover(entries) && PairsAt(lines, starts, entries)
    ensures starts[0] <= |lines|
    ensures ParseFrom(lines, starts[0], map[], repr)
            == if AllOk(entries, 0) then Some(WithPairs(map[], entries, 0, repr)) else None
  {
    var parse := (i: nat, p: Published) => if i <= |lines| then ParseFrom(lines, i, p, repr) else None;
    forall n, p | 0 <= n < |entries|
      ensures TakesEntry(parse, starts, entries, n, p, repr)
    {
      OnePairReadsBack(lines, starts, entries, n, p, repr);
    }
    if entries != [] { assert PairBetween(lines, starts[0], starts[1], entries[0]); }
    EntryByEntry(parse, starts, entries, 0, map[], repr);
  }

  lemma {:induction false} HeaderIsSkipped(lines: seq<string>, i: nat, n: nat, published: Published,
                                           repr: Yaml -> string)
    requires i <= n <= |lines| && IsHeader(lines[i..n])
    ensures ParseFrom(lines, i, published, repr) == ParseFrom(lines, n, published, repr)
    decreases n - i
  {
    if i < n {
      assert lines[i..n][0] == lines[i] && '#' == lines[i][0];
      assert Skippable(lines[i]);
      assert lines[i..n][1..] == lines[i + 1..n];
      HeaderIsSkipped(lines, i + 1, n, published, repr);
    }
  }

  ghost predicate AllOneLine(lines: seq<string>) {
    forall k :: 0 <= k < |lines| ==> OneLine(lines[k])
  }

  lemma PairIsLines(entry: Entry)
    requires GoodEntry(entry)
    ensures AllOneLine(PairLines(entry))
  {
    KeyLineReadsBack(entry.key);
    forall k | 0 <= k < |entry.names|
      ensures OneLine(FieldLines(entry.names, entry.fields)[k])
    {
      assert FieldLines(entry.names, entry.fields)[k] == FieldLine(entry.names[k], entry.fields[entry.names[k]]);
    }
  }

  lemma {:induction false} FlatIsLines(chunks: seq<seq<string>>, j: nat)
    requires j <= |chunks| && forall k :: 0 <= k < |chunks| ==> AllOneLine(chunks[k])
    ensures AllOneLine(Flat(chunks, j))
    decreases |chunks| - j
  {
    if j < |chunks| { FlatIsLines(chunks, j + 1); }
  }

  lemma EntriesAreLines(entries: seq<Entry>)
    requires AllGood(entries)
    ensures AllOneLine(Flat(Texts(entries), 0))
  {
    forall j | 0 <= j < |entries|
      ensures AllOneLine(Texts(entries)[j])
    {
      PairIsLines(entries[j]);
    }
    FlatIsLines(Texts(entries), 0);
  }

  lemma {:induction false} WithPairsMembers(published: Published, entries: seq<Entry>, j: nat, snapshot: Published,
                                            k: Key, repr: Yaml -> string)
    requires j <= |entries|
    requires forall n :: 0 <= n < |entries| ==>
               entries[n].key in snapshot && entries[n].fields == snapshot[entries[n].key]
    ensures k in WithPairs(published, entries, j, repr)
            <==> k in published || exists n :: j <= n < |entries| && entries[n].key == k
    ensures k in WithPairs(published, entries, j, repr)
            ==> WithPairs(published, entries, j, repr)[k]
                == if exists n :: j <= n < |entries| && entries[n].key == k then RereadFields(snapshot[k], repr)
                    else published[k]
    decreases |entries| - j
  {
    if j < |entries| {
      WithPairsMembers(published[entries[j].key := RereadFields(entries[j].fields, repr)], entries, j + 1, snapshot, k,
                       repr);
    }
  }

  lemma {:induction false} AllOkMeans(entries: seq<Entry>, j: nat)
    requires j <= |entries|
    ensures AllOk(entries, j) <==> forall n :: j <= n < |entries| ==> LegibleEntry(entries[n])
    decreases |entries| - j
  {
    if j < |entries| { AllOkMeans(entries, j + 1); }
  }

  lemma ListingHoldsThePairs(snapshot: Published)
    ensures var entries := Listing(snapshot);
            (forall n :: 0 <= n < |entries| ==>
               entries[n].key in snapshot && entries[n].fields == snapshot[entries[n].key])
            && (forall n :: 0 <= n < |entries| ==> entries[n].names == SortedFields(entries[n].fields.Keys))
            && forall k :: k in snapshot ==> exists n :: 0 <= n < |entries| && entries[n].key == k
  {
    var entries, keys := Listing(snapshot), SortedKeys(snapshot.Keys);
    forall n | 0 <= n < |entries|
      ensures entries[n].key in snapshot && entries[n].fields == snapshot[entries[n].key]
      ensures entries[n].names == SortedFields(entries[n].fields.Keys)
    {
      assert keys[n] in keys;
    }
    forall k | k in snapshot
      ensures exists n :: 0 <= n < |entries| && entries[n].key == k
    {
      assert k in keys;
      var n :| 0 <= n < |keys| && keys[n] == k;
      assert entries[n].key == k;
    }
  }

  ghost predicate AllCover(entries: seq<Entry>) {
    forall j :: 0 <= j < |entries| ==> Covers(entries[j])
  }

  lemma ListingCovers(snapshot: Published)
    ensures AllCover(Listing(snapshot))
  {
    var entries, keys := Listing(snapshot), SortedKeys(snapshot.Keys);
    forall n | 0 <= n < |entries|
      ensures Covers(entries[n])
    {
      assert keys[n] in keys;
      SortedFieldsFacts(snapshot[keys[n]].Keys);
      assert forall k :: 0 <= k < |entries[n].names| ==> entries[n].names[k] in entries[n].names;
    }
  }

  lemma EntryIsGood(key: Key, fields: Fields)
    requires SpelledPair(key, fields)
    ensures GoodEntry(Entry(key, SortedFields(fields.Keys), fields))
  {
    var names := SortedFields(fields.Keys);
    SortedFieldsFacts(fields.Keys);
    var f :| f in fields;
    assert f in names;
    forall k | 0 <= k < |names|
      ensures names[k] in fields
    {
      assert names[k] in names;
    }
  }

  lemma ListingIsGood(snapshot: Published)
    requires Spellable(snapshot)
    ensures AllGood(Listing(snapshot))
  {
    var entries, keys := Listing(snapshot), SortedKeys(snapshot.Keys);
    forall n | 0 <= n < |entries|
      ensures GoodEntry(entries[n])
    {
      assert keys[n] in keys;
      EntryIsGood(keys[n], snapshot[keys[n]]);
    }
  }

  lemma PairIsTogether(snapshot: Published, repr: Yaml -> string, k: Key)
    ensures var all := WithPairs(map[], Listing(snapshot), 0, repr);
            (k in all <==> k in snapshot) && (k in snapshot ==> all[k] == RereadFields(snapshot[k], repr))
  {
    ListingHoldsThePairs(snapshot);
    WithPairsMembers(map[], Listing(snapshot), 0, snapshot, k, repr);
  }

  lemma AllPairsTogether(snapshot: Published, repr: Yaml -> string)
    ensures WithPairs(map[], Listing(snapshot), 0, repr) == Reread(snapshot, repr)
  {
    var all := WithPairs(map[], Listing(snapshot), 0, repr);
    forall k
      ensures k in all <==> k in snapshot
      ensures k in snapshot ==> all[k] == RereadFields(snapshot[k], repr)
    {
      PairIsTogether(snapshot, repr, k);
    }
  }

  lemma AllLegibleTogether(snapshot: Published)
    ensures AllOk(Listing(snapshot), 0) <==> Legible(snapshot)
  {
    var entries := Listing(snapshot);
    ListingHoldsThePairs(snapshot);
    AllOkMeans(entries, 0);
    if AllOk(entries, 0) {
      forall k | k in snapshot
        ensures KeyOk(k) && FirstNameOk(SortedFields(snapshot[k].Keys))
      {
        var n :| 0 <= n < |entries| && entries[n].key == k;
        assert LegibleEntry(entries[n]);
      }
    }
  }

  lemma SnapshotIsLines(head: seq<string>, snapshot: Published)
    requires IsHeader(head) && Spellable(snapshot)
    ensures SplitLines(Render(head, snapshot)) == SnapshotLines(head, snapshot)
  {
    ListingIsGood(snapshot);
    EntriesAreLines(Listing(snapshot));
    LinesReadBack(SnapshotLines(head, snapshot));
  }

  lemma WrittenListingStands(head: seq<string>, snapshot: Published) returns (starts: seq<nat>)
    requires Spellable(snapshot)
    ensures PairsAt(SnapshotLines(head, snapshot), starts, Listing(snapshot)) && starts[0] == |head|
    ensures AllGood(Listing(snapshot)) && AllCover(Listing(snapshot))
  {
    var lines := SnapshotLines(head, snapshot);
    ListingIsGood(snapshot);
    ListingCovers(snapshot);
    assert lines[|head|..] == Flat(Texts(Listing(snapshot)), 0);
    starts := WrittenPairsStand(lines, |head|, Listing(snapshot));
  }

  /**
   * What every written snapshot is read as: its pairs and fields with the kinds that are read for those written; or
   * nothing, if some key or some first field is not what the parser expects there.
   */
  lemma WrittenSnapshotIsReread(head: seq<string>, snapshot: Published, repr: Yaml -> string)
    requires IsHeader(head) && Spellable(snapshot)
    ensures ParsePublished(Render(head, snapshot), repr)
            == if Legible(snapshot) then Some(Reread(snapshot, repr)) else None
  {
    var lines := SnapshotLines(head, snapshot);
    SnapshotIsLines(head, snapshot);
    assert lines[0..|head|] == head;
    HeaderIsSkipped(lines, 0, |head|, map[], repr);
    var starts := WrittenListingStands(head, snapshot);
    PairsReadBack(lines, starts, Listing(snapshot), repr);
    AllPairsTogether(snapshot, repr);
    AllLegibleTogether(snapshot);
  }

  /**
   * The round trip: a written snapshot reads back as itself exactly when every key has the form the parser expects, no
   * pair begins with a field that looks like an item, and every kind is read as what was written.
   */
  lemma WrittenSnapshotReadsBackIff(head: seq<string>, snapshot: Published, repr: Yaml -> string)
    requires IsHeader(head) && Spellable(snapshot)
    ensures ParsePublished(Render(head, snapshot), repr) == Some(snapshot)
            <==> Legible(snapshot) && Faithful(snapshot, repr)
  {
    WrittenSnapshotIsReread(head, snapshot, repr);
    FaithfulIff(snapshot, repr);
  }

  // ----- different snapshots have different texts

  lemma SeparatorInside(a: string, b: string, c: string, d: string)
    requires a + "@" + b == c + "@" + d && |b| < |d|
    ensures '@' in d
  {
    assert (a + "@" + b)[|a|] == '@' && (c + "@" + d)[|a|] == d[|a| - |c| - 1];
  }

  /** What stands before the last separator, and after it, is determined by the text. */
  lemma LastSeparator(a: string, b: string, c: string, d: string)
    requires '@' !in b && '@' !in d && a + "@" + b == c + "@" + d
    ensures a == c && b == d
  {
    if |b| < |d| {
      SeparatorInside(a, b, c, d);
    } else if |d| < |b| {
      SeparatorInside(c, d, a, b);
    } else {
      var s := a + "@" + b;
      assert s[..|a|] == a && (c + "@" + d)[..|c|] == c && s[|a| + 1..] == b && (c + "@" + d)[|c| + 1..] == d;
    }
  }

  lemma KeyTextIsInjective(one: Key, other: Key)
    requires KeyText(one) == KeyText(other)
    ensures one == other
  {
    FromIntFacts(one.version);
    FromIntFacts(other.version);
    LastSeparator(one.name, FromInt(one.version), other.name, FromInt(other.version));
    FromIntIsInjective(one.version, other.version);
  }

  lemma FieldLineIsInjective(field: string, kind: string, other: string, another: string)
    requires Spelled(field) && Spelled(other) && FieldLine(field, kind) == FieldLine(other, another)
    ensures field == other && kind == another
  {
    FieldLineReadsBack(field, kind);
    FieldLineReadsBack(other, another);
    var line := FieldLine(field, kind);
    assert line[|field| + 4..] == kind && line[|other| + 4..] == another;
  }

  lemma SamePair(lines: seq<string>, i: nat, one: Entry, other: Entry)
    requires GoodEntry(one) && GoodEntry(other) && PairAt(lines, i, one) && PairAt(lines, i, other)
    requires PairEnds(lines, i + 2 + |one.names|) && PairEnds(lines, i + 2 + |other.names|)
    ensures one.key == other.key && one.names == other.names
    ensures forall k :: 0 <= k < |one.names| ==> one.fields[one.names[k]] == other.fields[one.names[k]]
  {
    assert (KeyText(one.key) + ":")[..|KeyText(one.key)|] == KeyText(one.key);
    assert (KeyText(other.key) + ":")[..|KeyText(other.key)|] == KeyText(other.key);
    KeyTextIsInjective(one.key, other.key);
    SameLength(lines, i, one, other);
    SameLength(lines, i, other, one);
    forall k | 0 <= k < |one.names|
      ensures one.names[k] == other.names[k] && one.fields[one.names[k]] == other.fields[one.names[k]]
    {
      FieldLineIsInjective(one.names[k], one.fields[one.names[k]], other.names[k], other.fields[other.names[k]]);
    }
  }

  lemma FieldLinesAreNotEmpty(lines: seq<string>, i: nat, entry: Entry, k: nat)
    requires PairAt(lines, i, entry) && k < |entry.names|
    ensures lines[i + 2 + k] != ""
  {
    assert lines[i + 2 + k] == FieldLine(entry.names[k], entry.fields[entry.names[k]]);
  }

  lemma SameLength(lines: seq<string>, i: nat, one: Entry, other: Entry)
    requires PairAt(lines, i, one) && PairAt(lines, i, other) && PairEnds(lines, i + 2 + |one.names|)
    ensures |other.names| <= |one.names|
  {
    if |one.names| < |other.names| { FieldLinesAreNotEmpty(lines, i, other, |one.names|); }
  }

  lemma SameNextPair(lines: seq<string>, starts: seq<nat>, one: seq<Entry>, others: seq<nat>, other: seq<Entry>, j: nat)
    requires AllGood(one) && AllGood(other) && PairsAt(lines, starts, one) && PairsAt(lines, others, other)
    requires j < |one| && j < |other| && starts[j] == others[j]
    ensures starts[j + 1] == others[j + 1] && SameEntry(one[j], other[j])
  {
    assert PairBetween(lines, starts[j], starts[j + 1], one[j])
           && PairBetween(lines, others[j], others[j + 1], other[j]);
    PairEndsWhereTheNextBegins(lines, starts, one, j);
    PairEndsWhereTheNextBegins(lines, others, other, j);
    SamePair(lines, starts[j], one[j], other[j]);
  }

  /** Two listings that stand in the same lines are the same, pair by pair. */
  lemma {:induction false} SameListing(lines: seq<string>, starts: seq<nat>, one: seq<Entry>, others: seq<nat>,
                                       other: seq<Entry>, j: nat)
    requires AllGood(one) && AllGood(other) && PairsAt(lines, starts, one) && PairsAt(lines, others, other)
    requires j <= |one| && j <= |other| && starts[0] == others[0]
    ensures starts[j] == others[j]
    ensures forall n :: 0 <= n < j ==> SameEntry(one[n], other[n])
  {
    if j > 0 {
      SameListing(lines, starts, one, others, other, j - 1);
      SameNextPair(lines, starts, one, others, other, j - 1);
    }
  }

  ghost predicate SameEntry(one: Entry, other: Entry) {
    one.key == other.key && one.names == other.names
    && forall k :: 0 <= k < |one.names| ==> SameKind(one.names[k], one.fields, other.fields)
  }

  predicate SameKind(name: string, one: Fields, other: Fields) {
    name in one && name in other && one[name] == other[name]
  }

  lemma SameFields(one: Entry, other: Entry)
    requires Covers(one) && Covers(other) && SameEntry(one, other)
    ensures one.fields == other.fields
  {
    forall f | f in one.fields
      ensures f in other.fields && one.fields[f] == other.fields[f]
    {
      assert f in one.names;
    }
    forall f | f in other.fields
      ensures f in one.fields
    {
      assert f in other.names;
    }
  }

  lemma PairsHaveLines(lines: seq<string>, starts: seq<nat>, entries: seq<Entry>, j: nat)
    requires PairsAt(lines, starts, entries) && j < |entries|
    ensures starts[j] < |lines|
  {
    assert PairBetween(lines, starts[j], starts[j + 1], entries[j]);
  }

  /** One snapshot is part of another with the same text. */
  lemma SameTextHoldsAll(head: seq<string>, one: Published, other: Published, k: Key)
    requires IsHeader(head) && Spellable(one) && Spellable(other) && Render(head, one) == Render(head, other)
             && k in one
    ensures k in other && other[k] == one[k]
  {
    SnapshotIsLines(head, one);
    SnapshotIsLines(head, other);
    var lines := SnapshotLines(head, one);
    var starts := WrittenListingStands(head, one);
    var others := WrittenListingStands(head, other);
    var es, fs := Listing(one), Listing(other);
    SameListing(lines, starts, es, others, fs, if |es| <= |fs| then |es| else |fs|);
    if |fs| < |es| { PairsHaveLines(lines, starts, es, |fs|); }
    ListingHoldsThePairs(one);
    ListingHoldsThePairs(other);
    var n :| 0 <= n < |es| && es[n].key == k;
    assert SameEntry(es[n], fs[n]);
    SameFields(es[n], fs[n]);
  }

  ghost predicate HoldsAll(other: Published, one: Published) {
    forall k :: k in one ==> k in other && other[k] == one[k]
  }

  lemma SameTextHolds(head: seq<string>, one: Published, other: Published)
    requires IsHeader(head) && Spellable(one) && Spellable(other) && Render(head, one) == Render(head, other)
    ensures HoldsAll(other, one)
  {
    forall k | k in one
      ensures k in other && other[k] == one[k]
    {
      SameTextHoldsAll(head, one, other, k);
    }
  }

  /** Different snapshots have different texts. */
  lemma TextIsCanonical(head: seq<string>, one: Published, other: Published)
    requires IsHeader(head) && Spellable(one) && Spellable(other)
    requires Render(head, one) == Render(head, other)
    ensures one == other
  {
    SameTextHolds(head, one, other);
    SameTextHolds(head, other, one);
  }
}
