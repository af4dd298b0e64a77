/** What the registry's parser guarantees about names, and what is left to its authors. */
module RegistrySpelling {
  import opened Outcomes
  import opened Text
  import opened YamlBlock
  import opened Snapshot
  import opened Registry

  /** Some name does not look like an item of a list: a block whose first line does is read as a list. */
  ghost predicate BeginsPlainly(names: set<string>) {
    exists f :: f in names && !IsItem(f)
  }

  /** A value as lines can spell it: names that stand before a colon, and scalars of one line. */
  ghost predicate FromLines(value: Yaml) {
    match value
    case Scalar(text) => OneLine(text)
    case Items(_) => true
    case Mapping(entries) =>
      BeginsPlainly(entries.Keys) && forall f :: f in entries ==> Spelled(f) && FromLines(entries[f])
  }

  lemma {:induction false} FirstLineHasNoBreak(s: string)
    ensures OneLine(s[..FirstBreak(s)])
  {
    if s != "" && !IsBreak(s[0]) {
      FirstLineHasNoBreak(s[1..]);
      forall i | 0 <= i < FirstBreak(s)
        ensures !IsBreak(s[..FirstBreak(s)][i])
      {
        if i > 0 { assert s[i] == s[1..][..FirstBreak(s[1..])][i - 1]; }
      }
    }
  }

  lemma {:induction false} SplitLinesAreLines(s: string)
    ensures AllOneLine(SplitLines(s))
  {
    if s != "" {
      var n := FirstBreak(s);
      var skip := if n + 1 < |s| && s[n] == '\r' && s[n + 1] == '\n' then n + 2 else if n < |s| then n + 1 else n;
      FirstLineHasNoBreak(s);
      SplitLinesAreLines(s[skip..]);
    }
  }

  lemma {:induction false} PartitionCutsAPrefix(s: string, separator: char)
    ensures var before := Partition(s, separator).0; separator !in before && before <= s
  {
    if s != "" && s[0] != separator {
      PartitionCutsAPrefix(s[1..], separator);
      var before := Partition(s[1..], separator).0;
      assert s == [s[0]] + s[1..];
      assert ([s[0]] + before)[1..] == before;
    }
  }

  lemma TopLevelName(line: string)
    requires OneLine(line) && !Skippable(line) && !IsSpace(line[0])
    ensures Spelled(Partition(line, ':').0)
  {
    PartitionCutsAPrefix(line, ':');
  }

  lemma NestedName(line: string)
    requires OneLine(line) && !Skippable(line)
    ensures Spelled(Partition(Strip(line), ':').0)
  {
    LStripFacts(line);
    RStripFacts(LStrip(line));
    PartitionCutsAPrefix(Strip(line), ':');
    assert forall i :: 0 <= i < |LStrip(line)| ==> LStrip(line)[i] == line[|line| - |LStrip(line)| + i];
  }

  lemma NameOfNoItem(line: string)
    requires !IsItem(LStrip(line))
    ensures !IsItem(Partition(Strip(line), ':').0)
  {
    PartitionCutsAPrefix(Strip(line), ':');
    RStripFacts(LStrip(line));
  }

  lemma {:induction false} PartitionIsOneLine(s: string, separator: char)
    requires OneLine(s)
    ensures OneLine(Partition(s, separator).2)
  {
    if s != "" && s[0] != separator { PartitionIsOneLine(s[1..], separator); }
  }

  ghost predicate Solid(body: seq<Numbered>) {
    forall k :: 0 <= k < |body| ==> OneLine(body[k].text) && !Skippable(body[k].text)
  }

  lemma {:induction false} BodyIsSolid(lines: seq<string>, index: nat, indent: nat)
    requires index <= |lines| && AllOneLine(lines)
    ensures Solid(Body(lines, index, indent))
    decreases |lines| - index
  {
    if index < |lines| { BodyIsSolid(lines, index + 1, indent); }
  }

  lemma {:induction false} FoldedIsOneLine(lines: seq<string>, index: nat, indent: nat, text: string)
    requires index <= |lines| && AllOneLine(lines) && OneLine(text)
    ensures OneLine(Folded(lines, index, indent, text))
    decreases |lines| - index
  {
    if index < |lines| {
      StripIsOneLine(lines[index]);
      if Strip(lines[index]) == "" {
        FoldedIsOneLine(lines, index + 1, indent, text);
      } else if Indent(lines[index]) > indent {
        FoldedIsOneLine(lines, index + 1, indent, (if text == "" then "" else text + " ") + Strip(lines[index]));
      }
    }
  }

  ghost predicate EntriesOk(entries: map<string, Yaml>) {
    forall f :: f in entries ==> Spelled(f) && FromLines(entries[f])
  }

  /** The recursive parser, level by level: a block, the value of an entry, and the entries of a mapping. */
  lemma {:induction false} BlockFromLines(lines: seq<string>, start: nat, indent: nat)
    requires start <= |lines| && AllOneLine(lines)
    ensures var block := ParseBlock(lines, start, indent); block.Parsed? ==> FromLines(block.value)
    decreases |lines| - start, 2, 0
  {
    var body := Body(lines, start, indent);
    BodyIsSolid(lines, start, indent);
    if body != [] {
      EntriesFromLines(lines, start, body, 0, OwnIndent(body), map[]);
      if !IsItem(LStrip(body[0].text)) { NameOfNoItem(body[0].text); }
    }
  }

  lemma {:induction false} ValueFromLines(lines: seq<string>, start: nat, number: nat, own: nat, rest: string)
    requires start <= number < |lines| && AllOneLine(lines) && OneLine(rest)
    ensures var value := EntryValue(lines, start, number, own, rest); value.Some? ==> FromLines(value.value)
    decreases |lines| - start, 0, 0
  {
    FoldedIsOneLine(lines, number + 1, own, "");
    BlockFromLines(lines, number + 1, own);
    UnquoteIsOneLine(rest);
  }

  lemma RestIsOneLine(line: string)
    requires OneLine(line)
    ensures OneLine(Strip(Partition(Strip(line), ':').2))
  {
    StripIsOneLine(line);
    PartitionIsOneLine(Strip(line), ':');
    StripIsOneLine(Partition(Strip(line), ':').2);
  }

  lemma {:induction false} EntriesFromLines(lines: seq<string>, start: nat, body: seq<Numbered>, position: nat,
                                            own: nat, mapping: map<string, Yaml>)
    requires start <= |lines| && position <= |body| && AllOneLine(lines) && Solid(body)
    requires forall k :: 0 <= k < |body| ==> start <= body[k].number < |lines|
    requires EntriesOk(mapping)
    ensures var r := Entries(lines, start, body, position, own, mapping);
            r.Some? ==> EntriesOk(r.value) && mapping.Keys <= r.value.Keys
                        && (position < |body| ==> Partition(Strip(body[position].text), ':').0 in r.value)
    decreases |lines| - start, 1, |body| - position
  {
    if position < |body| {
      var line := body[position];
      var (key, separated, tail) := Partition(Strip(line.text), ':');
      NestedName(line.text);
      RestIsOneLine(line.text);
      if Indent(line.text) == own && separated && key !in mapping {
        ValueFromLines(lines, start, line.number, own, Strip(tail));
        match EntryValue(lines, start, line.number, own, Strip(tail))
        case None =>
        case Some(value) =>
          EntriesFromLines(lines, start, body, EntryEnd(body, position, own, Strip(tail)), own, mapping[key := value]);
      }
    }
  }

  // ----- the registry

  ghost predicate AllFromLines(events: Events) {
    forall name :: name in events ==> Spelled(name) && FromLines(Mapping(events[name]))
  }

  /** Whatever text the registry's parser takes, its names, fields and scalars are spelled as lines can spell them. */
  lemma {:induction false} EventsAreSpelled(lines: seq<string>, index: nat, events: Events)
    requires index <= |lines| && AllOneLine(lines) && AllFromLines(events)
    ensures var r := EventsFrom(lines, index, events); r.Some? ==> AllFromLines(r.value)
    decreases |lines| - index
  {
    if index < |lines| {
      if Skippable(lines[index]) {
        EventsAreSpelled(lines, index + 1, events);
      } else if !IsSpace(lines[index][0]) {
        var name := Partition(lines[index], ':').0;
        var block := ParseBlock(lines, index + 1, 0);
        if block.Parsed? && block.value.Mapping? {
          TopLevelName(lines[index]);
          BlockFromLines(lines, index + 1, 0);
          EventsAreSpelled(lines, block.next, events[name := block.value.entries]);
        }
      }
    }
  }

  /** What Python prints for a list or a mapping has no line breaks. */
  ghost predicate OneLineRepr(repr: Yaml -> string) {
    forall value :: OneLine(repr(value))
  }

  lemma SchemaIsSpelled(name: string, event: Event, repr: Yaml -> string)
    requires Spelled(name) && FromLines(Mapping(event)) && HasSchema(event) && OneLineRepr(repr)
    ensures SpelledPair(Key(name, VersionOf(event).value), SchemaOf(event, repr))
    ensures BeginsPlainly(SchemaOf(event, repr).Keys)
  {
    var fields, schema := event["fields"].entries, SchemaOf(event, repr);
    assert FromLines(event["fields"]);
    forall f | f in schema
      ensures Spelled(f) && OneLine(schema[f])
    {
      assert Spelled(f) && FromLines(fields[f]);
    }
    var f :| f in fields && !IsItem(f);
    assert f in schema;
  }

  /** Every registry that can be read declares schemas that can be spelled out, with some field unlike an item. */
  lemma DeclaredSchemasAreSpellable(registry: string, repr: Yaml -> string)
    requires EventsOf(registry).Some? && OneLineRepr(repr)
    ensures var current := CurrentSnapshot(EventsOf(registry).value, repr);
            Spellable(current) && forall k :: k in current ==> BeginsPlainly(current[k].Keys)
  {
    var events := EventsOf(registry).value;
    SplitLinesAreLines(registry);
    EventsAreSpelled(SplitLines(registry), 0, map[]);
    forall k | k in CurrentSnapshot(events, repr)
      ensures SpelledPair(k, CurrentSnapshot(events, repr)[k]) && BeginsPlainly(CurrentSnapshot(events, repr)[k].Keys)
    {
      SchemaIsSpelled(k.name, events[k.name], repr);
    }
  }

  // ----- the snapshot, whoever wrote it

  lemma KindsAreSpelled(key: Key, entries: map<string, Yaml>, repr: Yaml -> string)
    requires NameOk(key.name) && FromLines(Mapping(entries)) && OneLineRepr(repr)
    ensures SpelledPair(key, Kinds(entries, repr))
  {
    var kinds := Kinds(entries, repr);
    forall f | f in kinds
      ensures Spelled(f) && OneLine(kinds[f])
    {
      assert Spelled(f) && FromLines(entries[f]);
    }
    var f :| f in entries;
    assert f in kinds;
  }

  /** The pairs have keys that the parser expects, and everything in them can be spelled out again. */
  ghost predicate Trusted(published: Published) {
    Readable(published) && Spellable(published)
  }

  /** Whatever text is read as a snapshot, its keys are of the expected form and it can be spelled out again. */
  lemma {:induction false} WhatIsReadIsTrusted(lines: seq<string>, index: nat, published: Published,
                                               repr: Yaml -> string)
    requires index <= |lines| && AllOneLine(lines) && Trusted(published) && OneLineRepr(repr)
    ensures ParseFrom(lines, index, published, repr).Some? ==> Trusted(ParseFrom(lines, index, published, repr).value)
    decreases |lines| - index
  {
    if index < |lines| {
      if Skippable(lines[index]) {
        WhatIsReadIsTrusted(lines, index + 1, published, repr);
      } else if !IsSpace(lines[index][0]) {
        var key := ParseKey(Strip(Partition(lines[index], ':').0));
        var block := ParseBlock(lines, index + 1, 0);
        if key.Some? && block.Parsed? && block.value.Mapping? {
          BlockFromLines(lines, index + 1, 0);
          KindsAreSpelled(key.value, block.value.entries, repr);
          WhatIsReadIsTrusted(lines, block.next, published[key.value := Kinds(block.value.entries, repr)], repr);
        }
      }
    }
  }

  lemma PublishedIsTrusted(file: Option<string>, repr: Yaml -> string)
    requires OneLineRepr(repr)
    ensures PublishedIn(file, repr).Some? ==> Trusted(PublishedIn(file, repr).value)
  {
    if file.Some? {
      SplitLinesAreLines(file.value);
      WhatIsReadIsTrusted(SplitLines(file.value), 0, map[], repr);
    }
  }

  lemma ReadAloneIsOneLine(rest: string, repr: Yaml -> string)
    requires OneLine(rest) && OneLineRepr(repr)
    ensures OneLine(KindText(ReadAlone(rest), repr))
  {
    UnquoteIsOneLine(rest);
  }

  lemma RereadIsSpelled(key: Key, fields: Fields, repr: Yaml -> string)
    requires SpelledPair(key, fields) && OneLineRepr(repr)
    ensures SpelledPair(key, RereadFields(fields, repr))
  {
    forall f | f in fields
      ensures OneLine(KindRead(fields[f], repr))
    {
      StripIsOneLine(fields[f]);
      ReadAloneIsOneLine(Strip(fields[f]), repr);
    }
    var f :| f in fields;
    assert f in RereadFields(fields, repr);
  }

  lemma RereadIsSpellable(snapshot: Published, repr: Yaml -> string)
    requires Spellable(snapshot) && OneLineRepr(repr)
    ensures Spellable(Reread(snapshot, repr))
  {
    forall k | k in snapshot
      ensures SpelledPair(k, Reread(snapshot, repr)[k])
    {
      RereadIsSpelled(k, snapshot[k], repr);
    }
  }
}
