/** What the parsers accept, for every text: which lines begin an entry, and what has to hold of them. */
module ReadingRules {
  import opened Outcomes
  import opened Text
  import opened YamlBlock
  import opened Snapshot
  import opened Registry
  import opened Documents

  // ----- which lines belong to a block

  ghost predicate NumbersAscend(body: seq<Numbered>) {
    forall j, k :: 0 <= j < k < |body| ==> body[j].number < body[k].number
  }

  ghost predicate Covers(body: seq<Numbered>, i: nat) {
    exists k :: 0 <= k < |body| && body[k].number == i
  }

  lemma CoversFirst(body: seq<Numbered>, first: Numbered, i: nat)
    ensures Covers([first] + body, i) <==> first.number == i || Covers(body, i)
  {
    var more := [first] + body;
    assert more[0] == first;
    if k :| 0 <= k < |body| && body[k].number == i { assert more[k + 1].number == i; }
  }

  /** The block goes on to the first line that is neither blank, nor a comment, nor deeper. */
  ghost predicate EndsAt(lines: seq<string>, index: nat, indent: nat, end: nat) {
    && index <= end <= |lines|
    && (forall i :: index <= i < end ==> Skippable(lines[i]) || Indent(lines[i]) > indent)
    && (end < |lines| ==> !Skippable(lines[end]) && Indent(lines[end]) <= indent)
  }

  /** Its body is all of these lines but blank ones and comments, in order. */
  lemma {:induction false} BodyIsExactly(lines: seq<string>, index: nat, indent: nat)
    requires index <= |lines|
    ensures EndsAt(lines, index, indent, BodyEnd(lines, index, indent))
    ensures NumbersAscend(Body(lines, index, indent))
    ensures forall i: nat :: Covers(Body(lines, index, indent), i) <==>
              index <= i < BodyEnd(lines, index, indent) && !Skippable(lines[i])
    decreases |lines| - index
  {
    if index < |lines| && (Skippable(lines[index]) || Indent(lines[index]) > indent) {
      BodyIsExactly(lines, index + 1, indent);
      if !Skippable(lines[index]) {
        forall i: nat
          ensures Covers(Body(lines, index, indent), i) <==> i == index || Covers(Body(lines, index + 1, indent), i)
        {
          CoversFirst(Body(lines, index + 1, indent), Numbered(index, lines[index]), i);
        }
      }
    }
  }

  // ----- lists

  /** Which blocks are read as lists, and as which: every line is an item, and each item is what follows its dash. */
  lemma {:induction false} ListIsReadIff(body: seq<Numbered>)
    ensures ListItems(body).Some? <==> forall k :: 0 <= k < |body| ==> "- " <= Strip(body[k].text)
    ensures ListItems(body).Some? ==>
              && |ListItems(body).value| == |body|
              && forall k :: 0 <= k < |body| ==> ListItems(body).value[k] == Unquote(Strip(Strip(body[k].text)[2..]))
  {
    if body != [] {
      ListIsReadIff(body[1..]);
      assert IsItem(Strip(body[0].text)) <==> "- " <= Strip(body[0].text);
      if ListItems(body).Some? {
        forall k | 0 <= k < |body|
          ensures ListItems(body).value[k] == Unquote(Strip(Strip(body[k].text)[2..]))
        {
          if k > 0 { assert body[1..][k - 1] == body[k]; }
        }
      }
    }
  }

  // ----- folded text

  /** The folded text goes on to the first line that is not blank and no deeper. */
  ghost predicate FoldEndsAt(lines: seq<string>, index: nat, indent: nat, end: nat) {
    && index <= end <= |lines|
    && (forall i :: index <= i < end ==> Strip(lines[i]) == "" || Indent(lines[i]) > indent)
    && (end < |lines| ==> Strip(lines[end]) != "" && Indent(lines[end]) <= indent)
  }

  /** These are the numbers of the lines up to `end` that are not blank, in order. */
  ghost predicate NumbersAre(lines: seq<string>, index: nat, end: nat, numbers: seq<nat>) {
    && (forall j, k :: 0 <= j < k < |numbers| ==> numbers[j] < numbers[k])
    && (forall i: nat :: i in numbers <==> index <= i < end && i < |lines| && Strip(lines[i]) != "")
  }

  function WordsAt(lines: seq<string>, numbers: seq<nat>): seq<string>
    requires forall k :: 0 <= k < |numbers| ==> numbers[k] < |lines|
  {
    seq(|numbers|, k requires 0 <= k < |numbers| => Strip(lines[numbers[k]]))
  }

  lemma OneMoreNumber(lines: seq<string>, index: nat, end: nat, numbers: seq<nat>)
    requires index < end <= |lines| && NumbersAre(lines, index + 1, end, numbers)
    ensures NumbersAre(lines, index, end, if Strip(lines[index]) == "" then numbers else [index] + numbers)
  {
    if Strip(lines[index]) != "" {
      forall k | 0 <= k < |numbers|
        ensures index < numbers[k]
      {
        assert numbers[k] in numbers;
      }
    }
  }

  /** The words are those lines, stripped, with a space between them, behind the text read before. */
  ghost predicate FoldsTo(lines: seq<string>, numbers: seq<nat>, text: string, folded: string) {
    && (forall k :: 0 <= k < |numbers| ==> numbers[k] < |lines|)
    && var words := WordsAt(lines, numbers);
       folded == if words == [] then text else (if text == "" then "" else text + " ") + Joined(words, " ")
  }

  lemma OneMoreFolded(lines: seq<string>, index: nat, numbers: seq<nat>, text: string, folded: string)
    requires index < |lines|
    requires FoldsTo(lines, numbers, (if text == "" then "" else text + " ") + Strip(lines[index]), folded)
    requires Strip(lines[index]) != ""
    ensures FoldsTo(lines, [index] + numbers, text, folded)
  {
    FirstWord(lines, index, numbers);
    JoinedWithFirst(text, WordsAt(lines, [index] + numbers));
  }

  lemma FoldEndsHere(lines: seq<string>, index: nat, indent: nat, text: string)
    requires index <= |lines|
    requires index < |lines| ==> Strip(lines[index]) != "" && Indent(lines[index]) <= indent
    ensures FoldEndsAt(lines, index, indent, index) && NumbersAre(lines, index, index, [])
    ensures FoldsTo(lines, [], text, Folded(lines, index, indent, text))
  {
  }

  lemma FoldGoesOn(lines: seq<string>, index: nat, indent: nat, end: nat)
    requires index < |lines| && (Strip(lines[index]) == "" || Indent(lines[index]) > indent)
    requires FoldEndsAt(lines, index + 1, indent, end)
    ensures FoldEndsAt(lines, index, indent, end)
  {
  }

  lemma OneBlankLine(lines: seq<string>, index: nat, indent: nat, text: string)
    requires index < |lines| && Strip(lines[index]) == ""
    ensures Folded(lines, index, indent, text) == Folded(lines, index + 1, indent, text)
  {
  }

  lemma {:induction false} FoldedIsExactly(lines: seq<string>, index: nat, indent: nat, text: string)
    returns (end: nat, numbers: seq<nat>)
    requires index <= |lines|
    ensures FoldEndsAt(lines, index, indent, end) && NumbersAre(lines, index, end, numbers)
    ensures FoldsTo(lines, numbers, text, Folded(lines, index, indent, text))
    decreases |lines| - index
  {
    if index == |lines| || (Strip(lines[index]) != "" && Indent(lines[index]) <= indent) {
      end, numbers := index, [];
      FoldEndsHere(lines, index, indent, text);
    } else {
      var bare := Strip(lines[index]);
      var more := if bare == "" then text else (if text == "" then "" else text + " ") + bare;
      end, numbers := FoldedIsExactly(lines, index + 1, indent, more);
      FoldGoesOn(lines, index, indent, end);
      OneMoreNumber(lines, index, end, numbers);
      if bare == "" {
        OneBlankLine(lines, index, indent, text);
      } else {
        OneMoreWord(lines, index, indent, bare, text);
        OneMoreFolded(lines, index, numbers, text, Folded(lines, index, indent, text));
        numbers := [index] + numbers;
      }
    }
  }

  lemma FirstWord(lines: seq<string>, index: nat, numbers: seq<nat>)
    requires index < |lines| && forall k :: 0 <= k < |numbers| ==> numbers[k] < |lines|
    ensures var words := WordsAt(lines, [index] + numbers);
            words[0] == Strip(lines[index]) && words[1..] == WordsAt(lines, numbers)
  {
  }

  // ----- mappings

  /** A line at the mapping's own indentation begins an entry. */
  predicate Begins(body: seq<Numbered>, p: nat, own: nat) {
    p < |body| && Indent(body[p].text) == own
  }

  function KeyAt(body: seq<Numbered>, p: nat): string
    requires p < |body|
  {
    Partition(Strip(body[p].text), ':').0
  }

  function RestAt(body: seq<Numbered>, p: nat): string
    requires p < |body|
  {
    Strip(Partition(Strip(body[p].text), ':').2)
  }

  /** Deeper lines may stand below it: its value is folded text or a block. */
  predicate Opens(body: seq<Numbered>, p: nat)
    requires p < |body|
  {
    FoldMark(RestAt(body, p)) || RestAt(body, p) == ""
  }

  ghost predicate InBlock(lines: seq<string>, start: nat, body: seq<Numbered>, own: nat) {
    && start <= |lines|
    && forall k :: 0 <= k < |body| ==> start <= body[k].number < |lines| && Indent(body[k].text) >= own
  }

  /** The entry that begins here has a colon, a value, and below it only what may stand there. */
  ghost predicate EntryOk(lines: seq<string>, start: nat, body: seq<Numbered>, own: nat, p: nat)
    requires InBlock(lines, start, body, own) && p < |body|
  {
    && Partition(Strip(body[p].text), ':').1
    && EntryValue(lines, start, body[p].number, own, RestAt(body, p)).Some?
    && (p + 1 < |body| && !Begins(body, p + 1, own) ==> Opens(body, p))
  }

  /** From this line on: an entry begins here, all entries are right, and their keys are new. */
  ghost predicate EntriesOk(lines: seq<string>, start: nat, body: seq<Numbered>, position: nat, own: nat,
                            read: map<string, Yaml>)
    requires InBlock(lines, start, body, own)
  {
    && (position < |body| ==> Begins(body, position, own))
    && (forall p: nat :: position <= p && Begins(body, p, own) ==>
          EntryOk(lines, start, body, own, p) && KeyAt(body, p) !in read)
    && (forall p: nat, q: nat :: position <= p < q && Begins(body, p, own) && Begins(body, q, own) ==>
          KeyAt(body, p) != KeyAt(body, q))
  }

  /** These are the entries read before, and those that begin from here on, with their values. */
  ghost predicate EntriesAre(entries: map<string, Yaml>, lines: seq<string>, start: nat, body: seq<Numbered>,
                             position: nat, own: nat, read: map<string, Yaml>)
    requires InBlock(lines, start, body, own)
  {
    && (forall name :: name in entries <==>
          name in read || exists p: nat :: position <= p && Begins(body, p, own) && KeyAt(body, p) == name)
    && (forall name :: name in read ==> name in entries && entries[name] == read[name])
    && (forall p: nat :: position <= p && Begins(body, p, own) ==>
          KeyAt(body, p) in entries
          && Some(entries[KeyAt(body, p)]) == EntryValue(lines, start, body[p].number, own, RestAt(body, p)))
  }

  lemma {:induction false} SkippedAreDeeper(body: seq<Numbered>, position: nat, own: nat)
    requires position <= |body| && forall k :: 0 <= k < |body| ==> Indent(body[k].text) >= own
    ensures var next := SkipNested(body, position, own);
            && (forall p: nat :: position <= p < next ==> !Begins(body, p, own))
            && (next < |body| ==> Begins(body, next, own))
    decreases |body| - position
  {
    if position < |body| && Indent(body[position].text) > own { SkippedAreDeeper(body, position + 1, own); }
  }

  /** After an entry the next one begins, or a line that is too deep stands in the way. */
  lemma NextBegins(body: seq<Numbered>, position: nat, own: nat)
    requires position < |body| && forall k :: 0 <= k < |body| ==> Indent(body[k].text) >= own
    ensures var next := EntryEnd(body, position, own, RestAt(body, position));
            && (forall p: nat :: position < p < next ==> !Begins(body, p, own))
            && (Opens(body, position) && next < |body| ==> Begins(body, next, own))
            && (!Opens(body, position) ==> next == position + 1)
  {
    SkippedAreDeeper(body, position + 1, own);
  }

  /** The first entry is right in itself, whatever follows. */
  ghost predicate FirstOk(lines: seq<string>, start: nat, body: seq<Numbered>, position: nat, own: nat,
                          read: map<string, Yaml>)
    requires InBlock(lines, start, body, own) && position < |body|
  {
    && Begins(body, position, own) && Partition(Strip(body[position].text), ':').1 && KeyAt(body, position) !in read
    && EntryValue(lines, start, body[position].number, own, RestAt(body, position)).Some?
  }

  lemma OkWithFirst(lines: seq<string>, start: nat, body: seq<Numbered>, position: nat, own: nat,
                    read: map<string, Yaml>, next: nat, more: map<string, Yaml>)
    requires InBlock(lines, start, body, own) && position < next <= |body|
    requires FirstOk(lines, start, body, position, own, read)
    requires next == EntryEnd(body, position, own, RestAt(body, position))
    requires more.Keys == read.Keys + {KeyAt(body, position)}
    ensures EntriesOk(lines, start, body, position, own, read) <==> EntriesOk(lines, start, body, next, own, more)
  {
    NextBegins(body, position, own);
    if EntriesOk(lines, start, body, position, own, read) {
      assert EntryOk(lines, start, body, own, position);
      assert next < |body| ==> Begins(body, next, own);
    }
    if EntriesOk(lines, start, body, next, own, more) {
      assert EntryOk(lines, start, body, own, position);
      forall p: nat | position <= p && Begins(body, p, own)
        ensures p == position || next <= p
      {
      }
    }
  }

  lemma AreWithFirst(entries: map<string, Yaml>, lines: seq<string>, start: nat, body: seq<Numbered>, position: nat,
                     own: nat, read: map<string, Yaml>, next: nat, more: map<string, Yaml>)
    requires InBlock(lines, start, body, own) && position < next <= |body|
    requires FirstOk(lines, start, body, position, own, read)
    requires next == EntryEnd(body, position, own, RestAt(body, position))
    requires var value := EntryValue(lines, start, body[position].number, own, RestAt(body, position)).value;
             more == read[KeyAt(body, position) := value]
    requires EntriesAre(entries, lines, start, body, next, own, more)
    ensures EntriesAre(entries, lines, start, body, position, own, read)
  {
    NextBegins(body, position, own);
    forall p: nat | position <= p && Begins(body, p, own)
      ensures p == position || next <= p
    {
    }
  }

  /**
   * Which blocks are read as mappings: those whose first line begins an entry, in which every entry has a colon, a key
   * of its own and a value, and deeper lines stand only below entries without a value on their own line. The mapping
   * has these keys and values.
   */
  lemma {:induction false} MappingIsReadIff(lines: seq<string>, start: nat, body: seq<Numbered>, position: nat,
                                            own: nat, read: map<string, Yaml>)
    requires InBlock(lines, start, body, own) && position <= |body|
    ensures var entries := Entries(lines, start, body, position, own, read);
            && (entries.Some? <==> EntriesOk(lines, start, body, position, own, read))
            && (entries.Some? ==> EntriesAre(entries.value, lines, start, body, position, own, read))
    decreases |body| - position
  {
    if position < |body| && FirstOk(lines, start, body, position, own, read) {
      var rest := RestAt(body, position);
      var next := EntryEnd(body, position, own, rest);
      var more := read[KeyAt(body, position) := EntryValue(lines, start, body[position].number, own, rest).value];
      MappingIsReadIff(lines, start, body, next, own, more);
      OkWithFirst(lines, start, body, position, own, read, next, more);
      var entries := Entries(lines, start, body, position, own, read);
      assert entries == Entries(lines, start, body, next, own, more);
      if entries.Some? { AreWithFirst(entries.value, lines, start, body, position, own, read, next, more); }
    } else if position < |body| {
      assert Entries(lines, start, body, position, own, read).None?;
    }
  }

  // ----- registries

  /** A line that names an event. */
  predicate Names(lines: seq<string>, i: nat) {
    i < |lines| && !Skippable(lines[i]) && !IsSpace(lines[i][0])
  }

  function NameAt(lines: seq<string>, i: nat): string
    requires i < |lines|
  {
    Partition(lines[i], ':').0
  }

  /** Its name is followed by a colon and nothing else, and below it stands a mapping. */
  predicate NamesEvent(lines: seq<string>, i: nat)
    requires i < |lines|
  {
    var (_, separated, rest) := Partition(lines[i], ':');
    var block := ParseBlock(lines, i + 1, 0);
    separated && Strip(rest) == "" && block.Parsed? && block.value.Mapping?
  }

  /** A line from `index` on that names an event. */
  predicate NamesFrom(lines: seq<string>, index: nat, i: nat) {
    index <= i && Names(lines, i)
  }

  /** Every line from `index` on that is neither blank nor a comment names an event or stands below one that does. */
  ghost predicate AllBelow(lines: seq<string>, index: nat) {
    forall i: nat :: index <= i < |lines| && !Skippable(lines[i]) ==>
      Names(lines, i) || exists h: nat :: h < i && NamesFrom(lines, index, h)
  }

  ghost predicate NamesAreNew(lines: seq<string>, index: nat, read: Events) {
    && (forall i: nat :: NamesFrom(lines, index, i) ==> NameAt(lines, i) !in read)
    && (forall i: nat, j: nat :: i < j && NamesFrom(lines, index, i) && NamesFrom(lines, index, j) ==>
          NameAt(lines, i) != NameAt(lines, j))
  }

  /** From this line on: nothing stands before the first event, every event is right, and their names are new. */
  ghost predicate EventsOk(lines: seq<string>, index: nat, read: Events) {
    && AllBelow(lines, index) && NamesAreNew(lines, index, read)
    && (forall i: nat :: NamesFrom(lines, index, i) ==> NamesEvent(lines, i))
  }

  /** The event under this name is the mapping below this line. */
  ghost predicate IsEvent(events: Events, lines: seq<string>, i: nat)
    requires i < |lines|
  {
    NameAt(lines, i) in events && ParseBlock(lines, i + 1, 0).Parsed?
    && Mapping(events[NameAt(lines, i)]) == ParseBlock(lines, i + 1, 0).value
  }

  ghost predicate EventsAre(events: Events, lines: seq<string>, index: nat, read: Events) {
    && (forall name :: name in events <==>
          name in read || exists i: nat :: NamesFrom(lines, index, i) && NameAt(lines, i) == name)
    && (forall name :: name in read ==> name in events && events[name] == read[name])
    && (forall i: nat :: NamesFrom(lines, index, i) ==> IsEvent(events, lines, i))
  }

  /** No line of an event's block names an event, and the line after it does. */
  lemma NextNames(lines: seq<string>, index: nat)
    requires Names(lines, index)
    ensures var next := BodyEnd(lines, index + 1, 0);
            && (forall i: nat :: NamesFrom(lines, index, i) <==> i == index || NamesFrom(lines, next, i))
            && (next < |lines| ==> Names(lines, next))
  {
    BodyIsExactly(lines, index + 1, 0);
  }

  lemma AllBelowFirst(lines: seq<string>, index: nat)
    requires Names(lines, index)
    ensures AllBelow(lines, index) && AllBelow(lines, BodyEnd(lines, index + 1, 0))
  {
    var next := BodyEnd(lines, index + 1, 0);
    NextNames(lines, index);
    assert NamesFrom(lines, index, index);
    assert next < |lines| ==> NamesFrom(lines, next, next);
  }

  lemma NewWithFirst(lines: seq<string>, index: nat, read: Events, next: nat, more: Events)
    requires index < next && Names(lines, index) && NameAt(lines, index) !in read
    requires forall i: nat :: NamesFrom(lines, index, i) <==> i == index || NamesFrom(lines, next, i)
    requires more.Keys == read.Keys + {NameAt(lines, index)}
    ensures NamesAreNew(lines, index, read) <==> NamesAreNew(lines, next, more)
  {
  }

  lemma EventsOkWithFirst(lines: seq<string>, index: nat, read: Events, next: nat, more: Events)
    requires Names(lines, index) && NamesEvent(lines, index) && NameAt(lines, index) !in read
    requires next == BodyEnd(lines, index + 1, 0) && more.Keys == read.Keys + {NameAt(lines, index)}
    ensures EventsOk(lines, index, read) <==> EventsOk(lines, next, more)
  {
    NextNames(lines, index);
    AllBelowFirst(lines, index);
    NewWithFirst(lines, index, read, next, more);
  }

  lemma EventsAreWithFirst(events: Events, lines: seq<string>, index: nat, read: Events, next: nat, more: Events,
                           entries: Event)
    requires Names(lines, index) && NameAt(lines, index) !in read && more == read[NameAt(lines, index) := entries]
    requires forall i: nat :: NamesFrom(lines, index, i) <==> i == index || NamesFrom(lines, next, i)
    requires ParseBlock(lines, index + 1, 0) == Parsed(Mapping(entries), next)
    requires EventsAre(events, lines, next, more)
    ensures EventsAre(events, lines, index, read)
  {
    NamesWithFirst(events, lines, index, read, next, more);
    forall i: nat | NamesFrom(lines, index, i)
      ensures IsEvent(events, lines, i)
    {
      if i != index { assert NamesFrom(lines, next, i); }
    }
  }

  lemma NamesWithFirst(events: Events, lines: seq<string>, index: nat, read: Events, next: nat, more: Events)
    requires Names(lines, index) && more.Keys == read.Keys + {NameAt(lines, index)}
    requires forall i: nat :: NamesFrom(lines, index, i) <==> i == index || NamesFrom(lines, next, i)
    requires forall name :: name in events <==>
               name in more || exists i: nat :: NamesFrom(lines, next, i) && NameAt(lines, i) == name
    ensures forall name :: name in events <==>
              name in read || exists i: nat :: NamesFrom(lines, index, i) && NameAt(lines, i) == name
  {
    assert NamesFrom(lines, index, index);
  }

  lemma SkippedLine(lines: seq<string>, index: nat, next: nat, read: Events)
    requires index < |lines| && Skippable(lines[index]) && next == index + 1
    ensures forall i: nat :: NamesFrom(lines, index, i) <==> NamesFrom(lines, next, i)
    ensures EventsOk(lines, index, read) <==> EventsOk(lines, next, read)
  {
    forall i: nat
      ensures NamesFrom(lines, index, i) <==> NamesFrom(lines, next, i)
    {
    }
    SameBelow(lines, index, next);
  }

  lemma SameBelow(lines: seq<string>, index: nat, next: nat)
    requires index < |lines| && Skippable(lines[index]) && next == index + 1
    requires forall i: nat :: NamesFrom(lines, index, i) <==> NamesFrom(lines, next, i)
    ensures AllBelow(lines, index) <==> AllBelow(lines, next)
  {
  }

  lemma SameEvents(events: Events, lines: seq<string>, index: nat, next: nat, read: Events)
    requires forall i: nat :: NamesFrom(lines, index, i) <==> NamesFrom(lines, next, i)
    requires EventsAre(events, lines, next, read)
    ensures EventsAre(events, lines, index, read)
  {
  }

  lemma {:induction false} EventsAreReadFrom(lines: seq<string>, index: nat, read: Events)
    requires index <= |lines|
    ensures var events := EventsFrom(lines, index, read);
            && (events.Some? <==> EventsOk(lines, index, read))
            && (events.Some? ==> EventsAre(events.value, lines, index, read))
    decreases |lines| - index
  {
    var events := EventsFrom(lines, index, read);
    if index == |lines| {
    } else if Skippable(lines[index]) {
      EventsAreReadFrom(lines, index + 1, read);
      SkippedLine(lines, index, index + 1, read);
      if events.Some? { SameEvents(events.value, lines, index, index + 1, read); }
    } else if Names(lines, index) && NamesEvent(lines, index) && NameAt(lines, index) !in read {
      var block := ParseBlock(lines, index + 1, 0);
      var more := read[NameAt(lines, index) := block.value.entries];
      EventsAreReadFrom(lines, block.next, more);
      assert events == EventsFrom(lines, block.next, more);
      EventsOkWithFirst(lines, index, read, block.next, more);
      NextNames(lines, index);
      if events.Some? {
        EventsAreWithFirst(events.value, lines, index, read, block.next, more, block.value.entries);
      }
    } else {
      FirstIsWrong(lines, index, read);
    }
  }

  lemma FirstIsWrong(lines: seq<string>, index: nat, read: Events)
    requires index < |lines| && !Skippable(lines[index])
    requires !Names(lines, index) || !NamesEvent(lines, index) || NameAt(lines, index) in read
    ensures EventsFrom(lines, index, read).None? && !EventsOk(lines, index, read)
  {
    assert NamesFrom(lines, index, index) <==> Names(lines, index);
  }

  /**
   * Which registries are read, and as what: nothing stands before the first unindented line, each unindented line names
   * an event of its own, followed by a colon and nothing else, and below it stands a mapping. These are the events, all
   * of them.
   */
  lemma RegistryIsReadIff(registry: string)
    ensures var lines := SplitLines(registry);
            && (EventsOf(registry).Some? <==> EventsOk(lines, 0, map[]))
            && (EventsOf(registry).Some? ==> EventsAre(EventsOf(registry).value, lines, 0, map[]))
  {
    EventsAreReadFrom(SplitLines(registry), 0, map[]);
  }

  // ----- lines, blanks and quotation marks

  /** Every line break of the subset ends a line, and a carriage return with a line feed is one of them. */
  predicate EndsLine(mark: string, rest: string) {
    mark == "\r\n" || (|mark| == 1 && IsBreak(mark[0]) && !(mark == "\r" && rest != "" && rest[0] == '\n'))
  }

  lemma {:induction false} FirstBreakAt(line: string, rest: string)
    requires OneLine(line) && (rest != "" ==> IsBreak(rest[0]))
    ensures FirstBreak(line + rest) == |line|
  {
    if line == "" {
      assert line + rest == rest;
    } else {
      assert (line + rest)[1..] == line[1..] + rest;
      FirstBreakAt(line[1..], rest);
    }
  }

  lemma LineIsSplitOff(line: string, mark: string, rest: string)
    requires OneLine(line) && EndsLine(mark, rest)
    ensures SplitLines(line + mark + rest) == [line] + SplitLines(rest)
  {
    var s := line + mark + rest;
    assert s == line + (mark + rest);
    FirstBreakAt(line, mark + rest);
    assert s[..|line|] == line && s[|line| + |mark|..] == rest;
    assert s[|line|] == mark[0];
    if |mark| == 1 && rest != "" { assert s[|line| + 1] == rest[0]; }
    if |mark| == 2 { assert s[|line| + 1] == mark[1]; }
  }

  lemma LastLineIsALine(line: string)
    requires OneLine(line) && line != ""
    ensures SplitLines(line) == [line]
  {
    assert line + "" == line;
    FirstBreakAt(line, "");
    assert line[..|line|] == line;
  }

  predicate Blanks(s: string) {
    forall i :: 0 <= i < |s| ==> IsSpace(s[i])
  }

  lemma OneBlankAfter(s: string, bare: string, after: string)
    requires s != "" && IsSpace(s[|s| - 1]) && s[..|s| - 1] == bare + after && Blanks(after)
    ensures s == bare + (after + s[|s| - 1..]) && Blanks(after + s[|s| - 1..])
  {
    assert s == s[..|s| - 1] + s[|s| - 1..];
  }

  lemma OneBlankBefore(s: string, before: string, bare: string)
    requires s != "" && IsSpace(s[0]) && s[1..] == before + bare && Blanks(before)
    ensures s == s[..1] + before + bare && Blanks(s[..1] + before)
  {
    assert s == s[..1] + s[1..];
  }

  lemma {:induction false} RStripCuts(s: string) returns (after: string)
    ensures s == RStrip(s) + after && Blanks(after)
    ensures RStrip(s) == "" || !IsSpace(RStrip(s)[|RStrip(s)| - 1])
  {
    if s != "" && IsSpace(s[|s| - 1]) {
      after := RStripCuts(s[..|s| - 1]);
      OneBlankAfter(s, RStrip(s[..|s| - 1]), after);
      after := after + s[|s| - 1..];
    } else {
      after := "";
    }
  }

  lemma {:induction false} LStripCuts(s: string) returns (before: string)
    ensures s == before + LStrip(s) && Blanks(before) && |before| == Indent(s)
  {
    if s != "" && IsSpace(s[0]) {
      before := LStripCuts(s[1..]);
      OneBlankBefore(s, before, LStrip(s[1..]));
      before := s[..1] + before;
    } else {
      before := "";
    }
  }

  lemma BothEndsAreBare(s: string)
    ensures Trim(Strip(s))
  {
    var bare := LStrip(s);
    LStripFacts(s);
    RStripFacts(bare);
    var after := RStripCuts(bare);
    if RStrip(bare) != "" { assert RStrip(bare)[0] == bare[0]; }
  }

  /** `strip` takes the blanks at both ends, all and nothing else; the indentation is those at the beginning. */
  lemma StripTakesTheBlanks(s: string) returns (before: string, after: string)
    ensures s == before + Strip(s) + after && Blanks(before) && Blanks(after) && Trim(Strip(s))
    ensures LStrip(s) == Strip(s) + after && |before| == Indent(s)
  {
    before := LStripCuts(s);
    after := RStripCuts(LStrip(s));
    BothEndsAreBare(s);
    assert before + (Strip(s) + after) == before + Strip(s) + after;
  }

  predicate Mark(c: char) {
    c == '\'' || c == '"'
  }

  predicate Quotes(s: string) {
    forall i :: 0 <= i < |s| ==> Mark(s[i])
  }

  lemma OneMarkBefore(s: string, before: string, bare: string, after: string)
    requires s != "" && Mark(s[0]) && s[1..] == before + bare + after && Quotes(before)
    ensures s == s[..1] + before + bare + after && Quotes(s[..1] + before)
  {
    assert s == s[..1] + s[1..];
  }

  lemma OneMarkAfter(s: string, before: string, bare: string, after: string)
    requires s != "" && Mark(s[|s| - 1]) && s[..|s| - 1] == before + bare + after && Quotes(after)
    ensures s == before + bare + (after + s[|s| - 1..]) && Quotes(after + s[|s| - 1..])
  {
    assert s == s[..|s| - 1] + s[|s| - 1..];
  }

  /** And so it is with the quotation marks. */
  lemma {:induction false} UnquoteTakesTheMarks(s: string) returns (before: string, after: string)
    ensures s == before + Unquote(s) + after && Quotes(before) && Quotes(after)
    ensures Unquote(s) != "" ==> !Mark(Unquote(s)[0]) && !Mark(Unquote(s)[|Unquote(s)| - 1])
  {
    if s != "" && IsQuote(s[0]) {
      before, after := UnquoteTakesTheMarks(s[1..]);
      OneMarkBefore(s, before, Unquote(s[1..]), after);
      before := s[..1] + before;
    } else if s != "" && IsQuote(s[|s| - 1]) {
      before, after := UnquoteTakesTheMarks(s[..|s| - 1]);
      OneMarkAfter(s, before, Unquote(s[..|s| - 1]), after);
      after := after + s[|s| - 1..];
    } else {
      before, after := "", "";
    }
  }

  /** A text is parted at the first separator, or not at all. */
  lemma {:induction false} PartitionIff(s: string, separator: char)
    ensures var (before, found, after) := Partition(s, separator);
            && separator !in before && (found <==> separator in s)
            && s == if found then before + [separator] + after else before
    ensures !Partition(s, separator).1 ==> Partition(s, separator).2 == ""
  {
    if s != "" && s[0] != separator {
      PartitionIff(s[1..], separator);
      assert s == [s[0]] + s[1..];
    } else if s != "" {
      assert s == "" + [separator] + s[1..];
    }
  }

  // ----- versions

  /** A sign, and groups of digits with an underscore between them. */
  ghost predicate Numeral(text: string, sign: string, groups: seq<string>) {
    && (sign == "" || sign == "+" || sign == "-") && groups != []
    && (forall k :: 0 <= k < |groups| ==> Digits(groups[k])) && Strip(text) == sign + Joined(groups, "_")
  }

  function Concatenated(groups: seq<string>): string {
    if groups == [] then "" else groups[0] + Concatenated(groups[1..])
  }

  function LeadingDigits(s: string): (n: nat)
    ensures n <= |s| && (forall i :: 0 <= i < n ==> IsDigit(s[i])) && (n < |s| ==> !IsDigit(s[n]))
  {
    if s == "" || !IsDigit(s[0]) then 0 else 1 + LeadingDigits(s[1..])
  }

  lemma RestIsGrouped(s: string, n: nat)
    requires Grouped(s) && n < |s| && !IsDigit(s[n])
    ensures s[n] == '_' && n + 1 < |s| && Grouped(s[n + 1..])
  {
    assert DigitOrBetween(s, n);
    var rest := s[n + 1..];
    forall i | 0 <= i < |rest|
      ensures DigitOrBetween(rest, i)
    {
      assert DigitOrBetween(s, n + 1 + i);
    }
  }

  lemma {:induction false} GroupsOf(s: string) returns (groups: seq<string>)
    requires Grouped(s)
    ensures groups != [] && (forall k :: 0 <= k < |groups| ==> Digits(groups[k])) && Joined(groups, "_") == s
    decreases |s|
  {
    var n := LeadingDigits(s);
    if n == |s| {
      groups := [s];
    } else {
      RestIsGrouped(s, n);
      var rest := GroupsOf(s[n + 1..]);
      groups := [s[..n]] + rest;
      assert groups[1..] == rest;
      assert s == s[..n] + "_" + s[n + 1..];
    }
  }

  lemma OneMoreGroup(group: string, rest: string)
    requires Digits(group) && Grouped(rest)
    ensures Grouped(group + "_" + rest)
  {
    var s := group + "_" + rest;
    forall i | 0 <= i < |s|
      ensures DigitOrBetween(s, i)
    {
      if i > |group| { assert DigitOrBetween(rest, i - |group| - 1); }
    }
  }

  lemma {:induction false} DigitsAreGrouped(digits: string)
    requires Digits(digits)
    ensures Grouped(digits) && DigitsOf(digits) == digits
  {
    assert IsDigit(digits[0]);
    if |digits| > 1 {
      assert Digits(digits[1..]);
      DigitsAreGrouped(digits[1..]);
    } else {
      assert digits[1..] == "";
    }
    assert [digits[0]] + digits[1..] == digits;
    forall i | 0 <= i < |digits|
      ensures DigitOrBetween(digits, i)
    {
    }
  }

  lemma {:induction false} DigitsOfMore(s: string, rest: string)
    ensures DigitsOf(s + rest) == DigitsOf(s) + DigitsOf(rest)
  {
    if s == "" {
      assert s + rest == rest;
    } else {
      assert (s + rest)[1..] == s[1..] + rest;
      DigitsOfMore(s[1..], rest);
    }
  }

  lemma DigitsOfGroup(group: string, rest: string)
    requires Digits(group)
    ensures DigitsOf(group + "_" + rest) == group + DigitsOf(rest)
  {
    DigitsAreGrouped(group);
    DigitsOfMore(group, "_" + rest);
    assert group + "_" + rest == group + ("_" + rest) && ("_" + rest)[1..] == rest;
  }

  lemma {:induction false} JoinedIsGrouped(groups: seq<string>)
    requires groups != [] && forall k :: 0 <= k < |groups| ==> Digits(groups[k])
    ensures Grouped(Joined(groups, "_")) && DigitsOf(Joined(groups, "_")) == Concatenated(groups)
  {
    if |groups| > 1 {
      var first, rest := groups[0], Joined(groups[1..], "_");
      JoinedIsGrouped(groups[1..]);
      OneMoreGroup(first, rest);
      DigitsOfGroup(first, rest);
    } else {
      DigitsAreGrouped(groups[0]);
      assert Concatenated(groups[1..]) == "" && groups[0] + "" == groups[0];
    }
  }

  lemma {:induction false} ConcatenatedIsDigits(groups: seq<string>)
    requires forall k :: 0 <= k < |groups| ==> Digits(groups[k])
    ensures forall i :: 0 <= i < |Concatenated(groups)| ==> IsDigit(Concatenated(groups)[i])
  {
    if groups != [] { ConcatenatedIsDigits(groups[1..]); }
  }

  /** The number that these groups and this sign spell. */
  function Spelling(sign: string, groups: seq<string>): int
    requires forall k :: 0 <= k < |groups| ==> Digits(groups[k])
  {
    ConcatenatedIsDigits(groups);
    var n: int := ToNat(Concatenated(groups));
    if sign == "-" then -n else n
  }

  lemma NumeralIsRead(text: string, sign: string, groups: seq<string>)
    requires Numeral(text, sign, groups)
    ensures PyInt(text) == Some(Spelling(sign, groups))
  {
    var s, joined := Strip(text), Joined(groups, "_");
    JoinedIsGrouped(groups);
    assert IsDigit(joined[0]);
    if sign == "" {
      assert s == joined;
    } else {
      assert s[0] == sign[0] && s[1..] == joined;
    }
  }

  lemma ReadIsNumeral(text: string) returns (sign: string, groups: seq<string>)
    requires PyInt(text).Some?
    ensures Numeral(text, sign, groups)
  {
    var s := Strip(text);
    var signed := s != "" && (s[0] == '-' || s[0] == '+');
    sign := if signed then s[..1] else "";
    groups := GroupsOf(if signed then s[1..] else s);
    assert s == sign + if signed then s[1..] else s;
  }

  ghost predicate Reads(text: string, n: int, sign: string, groups: seq<string>) {
    Numeral(text, sign, groups) && n == Spelling(sign, groups)
  }

  /** What counts as a version: an optional sign and digits, which underscores may group, blanks around them aside. */
  lemma PyIntIff(text: string, n: int)
    ensures PyInt(text) == Some(n) <==> exists sign, groups :: Reads(text, n, sign, groups)
  {
    if PyInt(text) == Some(n) {
      var sign, groups := ReadIsNumeral(text);
      NumeralIsRead(text, sign, groups);
      assert Reads(text, n, sign, groups);
    }
    if sign, groups :| Reads(text, n, sign, groups) { NumeralIsRead(text, sign, groups); }
  }

  // ----- the characters that matter

  const BREAKS := "\n\U{000B}\U{000C}\r\U{001C}\U{001D}\U{001E}\U{0085}\U{2028}\U{2029}"
  const OTHER_BLANKS := "\t\U{001F} \U{00A0}\U{1680}\U{202F}\U{205F}\U{3000}"
  const WIDE_BLANKS := "\U{2000}\U{2001}\U{2002}\U{2003}\U{2004}\U{2005}\U{2006}\U{2007}\U{2008}\U{2009}\U{200A}"

  lemma BreaksAre(c: char)
    ensures IsBreak(c) <==> c in BREAKS
  {
    if '\n' <= c <= '\r' { assert BREAKS[c as int - 10] == c; }
    if '\U{001C}' <= c <= '\U{001E}' { assert BREAKS[4 + (c as int - 28)] == c; }
    assert c in BREAKS[7..] <==> c == '\U{0085}' || c == '\U{2028}' || c == '\U{2029}';
    assert BREAKS == BREAKS[..7] + BREAKS[7..];
  }

  lemma BlanksAre(c: char)
    ensures IsSpace(c) <==> c in BREAKS || c in OTHER_BLANKS || c in WIDE_BLANKS
  {
    BreaksAre(c);
    if '\U{2000}' <= c <= '\U{200A}' { assert WIDE_BLANKS[c as int - 0x2000] == c; }
  }

  /** A name of letters, figures, underscores and dots that begins with a letter. */
  ghost predicate PlainName(name: string) {
    && name != "" && name[0] in LETTERS
    && forall i :: 0 <= i < |name| ==> name[i] in LETTERS || name[i] in FIGURES || name[i] == '_' || name[i] == '.'
  }

  lemma NameOkIff(name: string)
    ensures NameOk(name) <==> PlainName(name)
  {
    forall i | 0 <= i < |name|
      ensures NameChar(name[i]) <==> name[i] in LETTERS || name[i] in FIGURES || name[i] == '_' || name[i] == '.'
    {
      LettersAre(name[i]);
      FiguresAre(name[i]);
    }
    if name != "" { LettersAre(name[0]); }
  }

  /** The text names this key: its name, the sign, and the figures of its version. */
  ghost predicate NamesKey(text: string, key: Key, digits: string) {
    && text == key.name + "@" + digits && PlainName(key.name)
    && Digits(digits) && ToNat(digits) == key.version
  }

  /** What the snapshot's parser takes for a key, and for which. */
  lemma ParseKeyIff(text: string, key: Key)
    ensures ParseKey(text) == Some(key) <==> exists digits :: NamesKey(text, key, digits)
  {
    PartitionIff(text, '@');
    NameOkIff(key.name);
    if ParseKey(text) == Some(key) {
      assert NamesKey(text, key, Partition(text, '@').2);
    }
    if digits :| NamesKey(text, key, digits) {
      assert '@' !in key.name;
      PartitionAt(key.name, '@', digits);
    }
  }

  // ----- snapshots, whoever wrote them

  function KeyAtLine(lines: seq<string>, i: nat): Option<Key>
    requires i < |lines|
  {
    ParseKey(Strip(Partition(lines[i], ':').0))
  }

  /** The line names a pair, and below it stands a mapping. */
  predicate NamesPair(lines: seq<string>, i: nat)
    requires i < |lines|
  {
    var block := ParseBlock(lines, i + 1, 0);
    KeyAtLine(lines, i).Some? && block.Parsed? && block.value.Mapping?
  }

  ghost predicate PairsOk(lines: seq<string>, index: nat) {
    AllBelow(lines, index) && forall i: nat :: NamesFrom(lines, index, i) ==> NamesPair(lines, i)
  }

  /** The line is the last from `index` on that names this pair. */
  ghost predicate LastNaming(lines: seq<string>, index: nat, i: nat, key: Key) {
    && NamesFrom(lines, index, i) && KeyAtLine(lines, i) == Some(key)
    && forall j: nat :: j > i && NamesFrom(lines, index, j) ==> KeyAtLine(lines, j) != Some(key)
  }

  /** The pair has the kinds of the mapping below this line. */
  ghost predicate IsPair(published: Published, lines: seq<string>, i: nat, key: Key, repr: Yaml -> string)
    requires i < |lines|
  {
    && NamesPair(lines, i) && key in published
    && published[key] == Kinds(ParseBlock(lines, i + 1, 0).value.entries, repr)
  }

  ghost predicate Named(lines: seq<string>, index: nat, key: Key) {
    exists i: nat :: LastNaming(lines, index, i, key)
  }

  /** Each pair is what stands below the last line that names it, or what was read before if none does. */
  ghost predicate PairsAre(found: Published, lines: seq<string>, index: nat, read: Published, repr: Yaml -> string) {
    && (forall key :: key in found <==> key in read || Named(lines, index, key))
    && (forall key :: key in read && !Named(lines, index, key) ==> key in found && found[key] == read[key])
    && (forall i: nat, key :: LastNaming(lines, index, i, key) ==> IsPair(found, lines, i, key, repr))
  }

  lemma LastWithFirst(lines: seq<string>, index: nat, next: nat, key: Key)
    requires index < next && Names(lines, index)
    requires forall i: nat :: NamesFrom(lines, index, i) <==> i == index || NamesFrom(lines, next, i)
    ensures forall i: nat :: LastNaming(lines, next, i, key) ==> LastNaming(lines, index, i, key)
    ensures forall i: nat :: LastNaming(lines, index, i, key) ==> i == index || LastNaming(lines, next, i, key)
    ensures LastNaming(lines, index, index, key) ==> !Named(lines, next, key) && KeyAtLine(lines, index) == Some(key)
  {
  }

  lemma {:induction false} SomeIsLast(lines: seq<string>, index: nat, i: nat, key: Key) returns (last: nat)
    requires NamesFrom(lines, index, i) && KeyAtLine(lines, i) == Some(key)
    ensures LastNaming(lines, index, last, key)
    decreases |lines| - i
  {
    if j: nat :| j > i && NamesFrom(lines, index, j) && KeyAtLine(lines, j) == Some(key) {
      last := SomeIsLast(lines, index, j, key);
    } else {
      last := i;
    }
  }

  lemma NamedWithFirst(lines: seq<string>, index: nat, next: nat, key: Key)
    requires index < next && Names(lines, index)
    requires forall i: nat :: NamesFrom(lines, index, i) <==> i == index || NamesFrom(lines, next, i)
    ensures Named(lines, index, key) <==> KeyAtLine(lines, index) == Some(key) || Named(lines, next, key)
  {
    LastWithFirst(lines, index, next, key);
    if KeyAtLine(lines, index) == Some(key) {
      var last := SomeIsLast(lines, index, index, key);
    }
  }

  lemma PairsAreWithFirst(found: Published, lines: seq<string>, index: nat, read: Published, next: nat, key: Key,
                          fields: Fields, repr: Yaml -> string)
    requires Names(lines, index) && NamesPair(lines, index) && KeyAtLine(lines, index) == Some(key) && index < next
    requires forall i: nat :: NamesFrom(lines, index, i) <==> i == index || NamesFrom(lines, next, i)
    requires fields == Kinds(ParseBlock(lines, index + 1, 0).value.entries, repr)
    requires PairsAre(found, lines, next, read[key := fields], repr)
    ensures PairsAre(found, lines, index, read, repr)
  {
    forall k
      ensures Named(lines, index, k) <==> k == key || Named(lines, next, k)
    {
      NamedWithFirst(lines, index, next, k);
    }
    forall i: nat, k | LastNaming(lines, index, i, k)
      ensures IsPair(found, lines, i, k, repr)
    {
      LastWithFirst(lines, index, next, k);
      if i != index { assert LastNaming(lines, next, i, k); }
    }
  }

  lemma PairsOkWithFirst(lines: seq<string>, index: nat, next: nat)
    requires Names(lines, index) && NamesPair(lines, index) && next == BodyEnd(lines, index + 1, 0)
    ensures PairsOk(lines, index) <==> PairsOk(lines, next)
  {
    NextNames(lines, index);
    AllBelowFirst(lines, index);
  }

  lemma SkippedPairLine(lines: seq<string>, index: nat, next: nat)
    requires index < |lines| && Skippable(lines[index]) && next == index + 1
    requires forall i: nat :: NamesFrom(lines, index, i) <==> NamesFrom(lines, next, i)
    ensures PairsOk(lines, index) <==> PairsOk(lines, next)
    ensures forall i: nat, key :: LastNaming(lines, index, i, key) <==> LastNaming(lines, next, i, key)
  {
    SameBelow(lines, index, next);
  }

  lemma SamePairs(found: Published, lines: seq<string>, index: nat, next: nat, read: Published, repr: Yaml -> string)
    requires forall i: nat, key :: LastNaming(lines, index, i, key) <==> LastNaming(lines, next, i, key)
    requires PairsAre(found, lines, next, read, repr)
    ensures PairsAre(found, lines, index, read, repr)
  {
    forall key
      ensures Named(lines, index, key) <==> Named(lines, next, key)
    {
    }
  }

  lemma FirstPairIsWrong(lines: seq<string>, index: nat, read: Published, repr: Yaml -> string)
    requires index < |lines| && !Skippable(lines[index]) && (!Names(lines, index) || !NamesPair(lines, index))
    ensures ParseFrom(lines, index, read, repr).None? && !PairsOk(lines, index)
  {
    assert NamesFrom(lines, index, index) <==> Names(lines, index);
  }

  lemma {:induction false} PairsAreReadFrom(lines: seq<string>, index: nat, read: Published, repr: Yaml -> string)
    requires index <= |lines|
    ensures var found := ParseFrom(lines, index, read, repr);
            && (found.Some? <==> PairsOk(lines, index))
            && (found.Some? ==> PairsAre(found.value, lines, index, read, repr))
    decreases |lines| - index
  {
    var found := ParseFrom(lines, index, read, repr);
    if index == |lines| {
    } else if Skippable(lines[index]) {
      PairsAreReadFrom(lines, index + 1, read, repr);
      SkippedLine(lines, index, index + 1, map[]);
      SkippedPairLine(lines, index, index + 1);
      if found.Some? { SamePairs(found.value, lines, index, index + 1, read, repr); }
    } else if Names(lines, index) && NamesPair(lines, index) {
      var key, block := KeyAtLine(lines, index).value, ParseBlock(lines, index + 1, 0);
      var fields := Kinds(block.value.entries, repr);
      PairsAreReadFrom(lines, block.next, read[key := fields], repr);
      assert found == ParseFrom(lines, block.next, read[key := fields], repr);
      PairsOkWithFirst(lines, index, block.next);
      NextNames(lines, index);
      if found.Some? { PairsAreWithFirst(found.value, lines, index, read, block.next, key, fields, repr); }
    } else {
      FirstPairIsWrong(lines, index, read, repr);
    }
  }

  /**
   * Which texts are read as snapshots, and as what: nothing stands before the first unindented line, each unindented
   * line names a pair of the expected form, and below it stands a mapping. Of a pair named again the last one counts.
   */
  lemma SnapshotIsReadIff(text: string, repr: Yaml -> string)
    ensures var lines, found := SplitLines(text), ParsePublished(text, repr);
            && (found.Some? <==> PairsOk(lines, 0))
            && (found.Some? ==> PairsAre(found.value, lines, 0, map[], repr))
  {
    PairsAreReadFrom(SplitLines(text), 0, map[], repr);
  }

  // ----- blocks and values

  lemma {:induction false} OwnIndentIsLeast(body: seq<Numbered>)
    requires body != []
    ensures forall k :: 0 <= k < |body| ==> OwnIndent(body) <= Indent(body[k].text)
    ensures exists k :: 0 <= k < |body| && Indent(body[k].text) == OwnIndent(body)
  {
    if |body| > 1 {
      OwnIndentIsLeast(body[1..]);
      if Indent(body[0].text) > OwnIndent(body[1..]) {
        var k :| 0 <= k < |body[1..]| && Indent(body[1..][k].text) == OwnIndent(body[1..]);
        assert Indent(body[k + 1].text) == OwnIndent(body);
      } else {
        assert Indent(body[0].text) == OwnIndent(body);
      }
      forall k | 0 <= k < |body|
        ensures OwnIndent(body) <= Indent(body[k].text)
      {
        if k > 0 { assert body[1..][k - 1] == body[k]; }
      }
    }
  }

  /**
   * What a block is read as: nothing, if it has no lines; a list, if its first line begins with a dash; else a mapping,
   * whose entries begin at the least indentation. `ListIsReadIff` and `MappingIsReadIff` say of which lines.
   */
  lemma BlockIsRead(lines: seq<string>, start: nat, indent: nat)
    requires start <= |lines|
    ensures var body, parsed := Body(lines, start, indent), ParseBlock(lines, start, indent);
            && (parsed.Parsed? ==> EndsAt(lines, start, indent, parsed.next))
            && (body == [] ==> parsed.Parsed? && parsed.value == Scalar(""))
            && (body != [] && "- " <= LStrip(body[0].text) ==>
                  (parsed.Parsed? <==> forall k :: 0 <= k < |body| ==> "- " <= Strip(body[k].text))
                  && (parsed.Parsed? ==> Some(parsed.value) == AsItems(ListItems(body))))
            && (body != [] && !("- " <= LStrip(body[0].text)) ==>
                  InBlock(lines, start, body, OwnIndent(body))
                  && (parsed.Parsed? <==> EntriesOk(lines, start, body, 0, OwnIndent(body), map[]))
                  && (parsed.Parsed? ==>
                        parsed.value.Mapping?
                        && EntriesAre(parsed.value.entries, lines, start, body, 0, OwnIndent(body), map[])))
  {
    var body := Body(lines, start, indent);
    BodyIsExactly(lines, start, indent);
    if body != [] {
      assert IsItem(LStrip(body[0].text)) <==> "- " <= LStrip(body[0].text);
      if "- " <= LStrip(body[0].text) {
        ListIsReadIff(body);
      } else {
        OwnIndentIsLeast(body);
        MappingIsReadIff(lines, start, body, 0, OwnIndent(body), map[]);
      }
    }
  }

  function AsItems(items: Option<seq<string>>): Option<Yaml> {
    if items.None? then None else Some(Items(items.value))
  }

  /** What stands after a colon is one of four: an announcement of folded text, nothing, a list in brackets, a text. */
  lemma ValueIsRead(lines: seq<string>, start: nat, number: nat, own: nat, rest: string)
    requires start <= number < |lines|
    ensures var value, block := EntryValue(lines, start, number, own, rest), ParseBlock(lines, number + 1, own);
            if Announces(rest) then value == Some(Scalar(Folded(lines, number + 1, own, "")))
            else if rest == "" then value == if block.Failed? then None else Some(block.value)
            else if rest[0] == '[' && rest[|rest| - 1] == ']' && |rest| > 1 then
              value == Some(Items(Trimmed(Split(rest[1..|rest| - 1], ','))))
            else value == Some(Scalar(Unquote(rest)))
  {
  }
}
