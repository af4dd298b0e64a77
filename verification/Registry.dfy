/** The event registry, the schemas it declares now, and the two commands that compare them with the snapshot. */
module Registry {
  import opened Outcomes
  import opened Text
  import opened Chunks
  import opened YamlBlock
  import opened Snapshot

  type Event = map<string, Yaml>
  type Events = map<string, Event>

  function EventsFrom(lines: seq<string>, index: nat, events: Events): Option<Events>
    requires index <= |lines|
    decreases |lines| - index
  {
    if index == |lines| then Some(events)
    else if Skippable(lines[index]) then EventsFrom(lines, index + 1, events)
    else if IsSpace(lines[index][0]) then None
    else
      var (name, separated, rest) := Partition(lines[index], ':');
      if !separated || Strip(rest) != "" || name in events then None
      else
        var block := ParseBlock(lines, index + 1, 0);
        if block.Failed? || !block.value.Mapping? then None
        else EventsFrom(lines, block.next, events[name := block.value.entries])
  }

  method ParseEvents(text: string) returns (events: Option<Events>)
    ensures events == EventsFrom(SplitLines(text), 0, map[])
  {
    var lines, read: Events, index := SplitLines(text), map[], 0;
    while index < |lines|
      invariant 0 <= index <= |lines|
      invariant EventsFrom(lines, index, read) == EventsFrom(lines, 0, map[])
      decreases |lines| - index
    {
      var line := lines[index];
      if Skippable(line) {
        index := index + 1;
        continue;
      }
      if IsSpace(line[0]) {
        return None;
      }
      var (name, separated, rest) := Partition(line, ':');
      if !separated || Strip(rest) != "" || name in read {
        return None;
      }
      var block := ReadBlock(lines, index + 1, 0);
      if block.Failed? || !block.value.Mapping? {
        return None;
      }
      read, index := read[name := block.value.entries], block.next;
    }
    return Some(read);
  }

  method ParseSnapshot(text: string, repr: Yaml -> string) returns (published: Option<Published>)
    ensures published == ParsePublished(text, repr)
  {
    var lines, read: Published, index := SplitLines(text), map[], 0;
    while index < |lines|
      invariant 0 <= index <= |lines|
      invariant ParseFrom(lines, index, read, repr) == ParseFrom(lines, 0, map[], repr)
      decreases |lines| - index
    {
      var line := lines[index];
      if Skippable(line) {
        index := index + 1;
        continue;
      }
      if IsSpace(line[0]) {
        return None;
      }
      var key := ParseKey(Strip(Partition(line, ':').0));
      if key.None? {
        return None;
      }
      var block := ReadBlock(lines, index + 1, 0);
      if block.Failed? || !block.value.Mapping? {
        return None;
      }
      read, index := read[key.value := Kinds(block.value.entries, repr)], block.next;
    }
    return Some(read);
  }

  // ----- the schemas the registry declares

  /** Underscores may stand between digits. */
  predicate DigitOrBetween(s: string, i: nat) {
    i < |s| && (IsDigit(s[i]) || (s[i] == '_' && i + 1 < |s| && IsDigit(s[i + 1])))
  }

  predicate Grouped(s: string) {
    s != "" && IsDigit(s[0]) && IsDigit(s[|s| - 1]) && forall i :: 0 <= i < |s| ==> DigitOrBetween(s, i)
  }

  function DigitsOf(s: string): (digits: string)
    ensures forall i :: 0 <= i < |digits| ==> IsDigit(digits[i])
  {
    if s == "" then "" else (if IsDigit(s[0]) then [s[0]] else "") + DigitsOf(s[1..])
  }

  /** What Python's `int` makes of a text, `None` where it raises. */
  function PyInt(text: string): Option<int> {
    var s := Strip(text);
    var signed := s != "" && (s[0] == '-' || s[0] == '+');
    var digits := if signed then s[1..] else s;
    if !Grouped(digits) then None
    else
      var n: int := ToNat(DigitsOf(digits));
      Some(if signed && s[0] == '-' then -n else n)
  }

  function VersionOf(event: Event): Option<int> {
    if "version" in event && event["version"].Scalar? then PyInt(event["version"].text) else None
  }

  /** Only an event with a set of fields and a version that is a number has a schema. */
  predicate HasSchema(event: Event) {
    "fields" in event && event["fields"].Mapping? && VersionOf(event).Some?
  }

  function KindOf(body: Yaml, repr: Yaml -> string): string {
    if body.Mapping? && "type" in body.entries then KindText(body.entries["type"], repr) else ""
  }

  function SchemaOf(event: Event, repr: Yaml -> string): Fields
    requires HasSchema(event)
  {
    map f | f in event["fields"].entries :: KindOf(event["fields"].entries[f], repr)
  }

  predicate Declares(events: Events, key: Key) {
    key.name in events && HasSchema(events[key.name]) && VersionOf(events[key.name]) == Some(key.version)
  }

  function Declared(events: Events): (keys: set<Key>)
    ensures forall k :: k in keys <==> Declares(events, k)
  {
    set name | name in events && HasSchema(events[name]) :: Key(name, VersionOf(events[name]).value)
  }

  function CurrentSnapshot(events: Events, repr: Yaml -> string): Published {
    map k | k in Declared(events) :: SchemaOf(events[k.name], repr)
  }

  lemma OneMoreEvent(events: Events, name: string, event: Event, repr: Yaml -> string)
    requires name !in events
    ensures CurrentSnapshot(events[name := event], repr)
            == if !HasSchema(event) then CurrentSnapshot(events, repr)
               else CurrentSnapshot(events, repr)[Key(name, VersionOf(event).value) := SchemaOf(event, repr)]
  {
    var more := events[name := event];
    assert forall k: Key :: k.name != name ==> (Declares(more, k) <==> Declares(events, k));
    assert forall k: Key :: k.name == name && Declares(more, k) ==>
               HasSchema(event) && k == Key(name, VersionOf(event).value);
  }

  /** The events whose names were taken already. */
  function Without(events: Events, names: set<string>): Events {
    events - names
  }

  function Added(current: Published, name: string, event: Event, repr: Yaml -> string): Published {
    if HasSchema(event) then current[Key(name, VersionOf(event).value) := SchemaOf(event, repr)] else current
  }

  lemma TakingOne(events: Events, names: set<string>, name: string, repr: Yaml -> string)
    requires name in names && names <= events.Keys
    ensures CurrentSnapshot(Without(events, names - {name}), repr)
            == Added(CurrentSnapshot(Without(events, names), repr), name, events[name], repr)
  {
    assert Without(events, names - {name}) == Without(events, names)[name := events[name]];
    OneMoreEvent(Without(events, names), name, events[name], repr);
  }

  method ReadCurrent(events: Events, repr: Yaml -> string) returns (current: Published)
    ensures current == CurrentSnapshot(events, repr)
  {
    current := map[];
    var names := events.Keys;
    assert Without(events, names) == map[];
    while names != {}
      invariant names <= events.Keys
      invariant current == CurrentSnapshot(Without(events, names), repr)
      decreases |names|
    {
      var name :| name in names;
      TakingOne(events, names, name, repr);
      names := names - {name};
      if HasSchema(events[name]) {
        current := current[Key(name, VersionOf(events[name]).value) := SchemaOf(events[name], repr)];
      }
    }
    assert Without(events, {}) == events;
  }

  // ----- what may not be done to a published pair

  datatype Violation =
    | Lost(key: Key, field: string)
    | Retyped(key: Key, field: string, was: string, now: string)

  function FieldVerdict(key: Key, field: string, was: string, now: Fields): seq<Violation> {
    if field !in now then [Lost(key, field)]
    else if now[field] != was then [Retyped(key, field, was, now[field])]
    else []
  }

  function FieldVerdicts(entry: Entry, now: Fields): (verdicts: seq<seq<Violation>>)
    requires Covers(entry)
    ensures |verdicts| == |entry.names|
  {
    seq(|entry.names|, p requires 0 <= p < |entry.names| =>
      FieldVerdict(entry.key, entry.names[p], entry.fields[entry.names[p]], now))
  }

  /** What is wrong with one published pair. */
  function PairViolations(entry: Entry, current: Published): seq<Violation>
    requires Covers(entry)
  {
    if entry.key in current then Flat(FieldVerdicts(entry, current[entry.key]), 0) else []
  }

  function PairVerdicts(entries: seq<Entry>, current: Published): (verdicts: seq<seq<Violation>>)
    requires AllCover(entries)
    ensures |verdicts| == |entries|
  {
    seq(|entries|, j requires 0 <= j < |entries| => PairViolations(entries[j], current))
  }

  function FrozenSchemaViolations(current: Published, published: Published): seq<Violation> {
    ListingCovers(published);
    Flat(PairVerdicts(Listing(published), current), 0)
  }

  method FindPairViolations(entry: Entry, now: Fields) returns (violations: seq<Violation>)
    requires Covers(entry)
    ensures violations == Flat(FieldVerdicts(entry, now), 0)
  {
    violations := [];
    ghost var verdicts := FieldVerdicts(entry, now);
    GatherNone(verdicts, []);
    for p := 0 to |entry.names|
      invariant Gathered(violations, verdicts, [], p)
    {
      GatherOne(violations, verdicts, [], p);
      var field := entry.names[p];
      var verdict: seq<Violation> := [];
      if field !in now {
        verdict := [Lost(entry.key, field)];
      } else if now[field] != entry.fields[field] {
        verdict := [Retyped(entry.key, field, entry.fields[field], now[field])];
      }
      violations := violations + verdict;
    }
    GatheredAll(violations, verdicts, []);
  }

  method FindInEntries(entries: seq<Entry>, current: Published) returns (violations: seq<Violation>)
    requires AllCover(entries)
    ensures violations == Flat(PairVerdicts(entries, current), 0)
  {
    violations := [];
    ghost var verdicts := PairVerdicts(entries, current);
    GatherNone(verdicts, []);
    for j := 0 to |entries|
      invariant Gathered(violations, verdicts, [], j)
    {
      GatherOne(violations, verdicts, [], j);
      var more: seq<Violation> := [];
      if entries[j].key in current {
        more := FindPairViolations(entries[j], current[entries[j].key]);
      }
      violations := violations + more;
    }
    GatheredAll(violations, verdicts, []);
  }

  method FindViolations(current: Published, published: Published) returns (violations: seq<Violation>)
    ensures violations == FrozenSchemaViolations(current, published)
  {
    var entries := Listing(published);
    ListingCovers(published);
    violations := FindInEntries(entries, current);
  }

  // ----- what the list of violations means

  /** A published field is missing from the schema declared now, or has another kind there. */
  predicate Violates(v: Violation, current: Published, published: Published) {
    v.key in published && v.key in current && Breaks(v, published[v.key], current[v.key])
  }

  predicate Breaks(v: Violation, was: Fields, now: Fields) {
    v.field in was
    && match v
       case Lost(_, field) => field !in now
       case Retyped(_, field, before, after) =>
         before == was[field] && field in now && after == now[field] && before != after
  }

  /** Every published pair that is still declared keeps its fields and their kinds. */
  predicate Frozen(current: Published, published: Published) {
    forall k :: k in published && k in current ==> FieldsKept(published[k], current[k])
  }

  predicate FieldsKept(was: Fields, now: Fields) {
    forall f :: f in was ==> f in now && now[f] == was[f]
  }

  lemma PairViolationsAre(entry: Entry, current: Published, v: Violation)
    requires Covers(entry)
    ensures v in PairViolations(entry, current)
            <==> v.key == entry.key && entry.key in current && Breaks(v, entry.fields, current[entry.key])
  {
    if entry.key in current {
      var verdicts := FieldVerdicts(entry, current[entry.key]);
      InFlat(verdicts, 0, v);
      assert forall p :: 0 <= p < |entry.names| ==>
          verdicts[p] == FieldVerdict(entry.key, entry.names[p], entry.fields[entry.names[p]], current[entry.key]);
    }
  }

  /** The violations reported are the violations there are. */
  lemma ViolationsAreExact(current: Published, published: Published, v: Violation)
    ensures v in FrozenSchemaViolations(current, published) <==> Violates(v, current, published)
  {
    var entries := Listing(published);
    ListingCovers(published);
    ListingHoldsThePairs(published);
    InFlat(PairVerdicts(entries, current), 0, v);
    forall n | 0 <= n < |entries|
      ensures v in PairVerdicts(entries, current)[n]
              <==> (v.key == entries[n].key && entries[n].key in current
                    && Breaks(v, entries[n].fields, current[entries[n].key]))
    {
      PairViolationsAre(entries[n], current, v);
    }
  }

  lemma NoViolationsIff(current: Published, published: Published)
    ensures FrozenSchemaViolations(current, published) == [] <==> Frozen(current, published)
  {
    var violations := FrozenSchemaViolations(current, published);
    if violations == [] {
      forall k, f | k in published && k in current && f in published[k]
        ensures f in current[k] && current[k][f] == published[k][f]
      {
        ViolationsAreExact(current, published, Lost(k, f));
        if f in current[k] { ViolationsAreExact(current, published, Retyped(k, f, published[k][f], current[k][f])); }
      }
    } else {
      assert violations[0] in violations;
      ViolationsAreExact(current, published, violations[0]);
    }
  }

  // ----- the two commands

  datatype Problem = RegistryUnreadable | NoSnapshot | SnapshotUnreadable | Broken(violation: Violation) | Stale

  function Reported(violations: seq<Violation>): (problems: seq<Problem>)
    ensures |problems| == |violations|
  {
    seq(|violations|, k requires 0 <= k < |violations| => Broken(violations[k]))
  }

  function EventsOf(registry: string): Option<Events> {
    EventsFrom(SplitLines(registry), 0, map[])
  }

  /** What the snapshot file holds, no file being no pairs. */
  function PublishedIn(file: Option<string>, repr: Yaml -> string): Option<Published> {
    if file.None? then Some(map[]) else ParsePublished(file.value, repr)
  }

  /** The exit code of `--update` and the file after it. */
  function Updated(head: seq<string>, registry: string, file: Option<string>, repr: Yaml -> string)
    : (int, Option<string>)
  {
    match EventsOf(registry)
    case None => (1, file)
    case Some(events) => Written(head, CurrentSnapshot(events, repr), file, repr)
  }

  function Written(head: seq<string>, current: Published, file: Option<string>, repr: Yaml -> string)
    : (int, Option<string>)
  {
    match PublishedIn(file, repr)
    case None => (1, file)
    case Some(published) =>
      if FrozenSchemaViolations(current, published) != [] then (1, file)
          else (0, Some(Render(head, published + current)))
  }

  /** What the check says about the snapshot. */
  function Problems(head: seq<string>, registry: string, file: Option<string>, repr: Yaml -> string): seq<Problem> {
    match EventsOf(registry)
    case None => [RegistryUnreadable]
    case Some(events) => if file.None? then [NoSnapshot]
      else Compared(head, CurrentSnapshot(events, repr), file.value, repr)
  }

  function Compared(head: seq<string>, current: Published, text: string, repr: Yaml -> string): seq<Problem> {
    match ParsePublished(text, repr)
    case None => [SnapshotUnreadable]
    case Some(published) =>
      Reported(FrozenSchemaViolations(current, published))
      + if Render(head, published + current) != text then [Stale] else []
  }

  method RenderPair(entry: Entry) returns (parts: seq<string>)
    requires Covers(entry)
    ensures parts == PairLines(entry)
  {
    parts := ["", KeyText(entry.key) + ":"];
    for p := 0 to |entry.names|
      invariant parts == ["", KeyText(entry.key) + ":"] + FieldLines(entry.names, entry.fields)[..p]
    {
      var field := entry.names[p];
      parts := parts + [FieldLine(field, entry.fields[field])];
    }
  }

  method RenderEntries(head: seq<string>, entries: seq<Entry>) returns (parts: seq<string>)
    requires AllCover(entries)
    ensures parts == head + Flat(Texts(entries), 0)
  {
    parts := head;
    ghost var texts := Texts(entries);
    GatherNone(texts, head);
    for j := 0 to |entries|
      invariant Gathered(parts, texts, head, j)
    {
      GatherOne(parts, texts, head, j);
      var pair := RenderPair(entries[j]);
      parts := parts + pair;
    }
    GatheredAll(parts, texts, head);
  }

  method RenderPublished(head: seq<string>, snapshot: Published) returns (text: string)
    ensures text == Render(head, snapshot)
  {
    ListingCovers(snapshot);
    var parts := RenderEntries(head, Listing(snapshot));
    text := Unlines(parts);
  }

  /** A working copy of the repository: the registry people edit and the snapshot the machine writes. */
  class Checkout {
    var registry: string
    var snapshot: Option<string>

    method Update(head: seq<string>, repr: Yaml -> string) returns (code: int)
      modifies this`snapshot
      ensures (code, snapshot) == Updated(head, registry, old(snapshot), repr)
    {
      var events := ParseEvents(registry);
      if events.None? {
        return 1;
      }
      var published: Published := map[];
      if snapshot.Some? {
        var read := ParseSnapshot(snapshot.value, repr);
        if read.None? {
          return 1;
        }
        published := read.value;
      }
      var current := ReadCurrent(events.value, repr);
      var refusals := FindViolations(current, published);
      if refusals != [] {
        return 1;
      }
      var text := RenderPublished(head, published + current);
      snapshot := Some(text);
      return 0;
    }

    method Check(head: seq<string>, repr: Yaml -> string) returns (problems: seq<Problem>)
      ensures problems == Problems(head, registry, snapshot, repr)
    {
      var events := ParseEvents(registry);
      if events.None? {
        return [RegistryUnreadable];
      }
      if snapshot.None? {
        return [NoSnapshot];
      }
      var published := ParseSnapshot(snapshot.value, repr);
      if published.None? {
        return [SnapshotUnreadable];
      }
      var current := ReadCurrent(events.value, repr);
      var violations := FindViolations(current, published.value);
      problems := Reported(violations);
      var text := RenderPublished(head, published.value + current);
      if text != snapshot.value {
        problems := problems + [Stale];
      }
    }
  }

  // ----- what the two commands say, and when

  /** The pairs published before and those declared now; where both have a pair, it is as declared. */
  ghost predicate IsMerged(merged: Published, published: Published, current: Published) {
    && (forall k :: k in merged <==> k in published || k in current)
    && (forall k :: k in merged ==> merged[k] == if k in current then current[k] else published[k])
  }

  /** The commands can be carried out: registry and file are read as these. */
  ghost predicate Read(registry: string, file: Option<string>, repr: Yaml -> string, current: Published,
                       published: Published) {
    && EventsOf(registry).Some? && current == CurrentSnapshot(EventsOf(registry).value, repr)
    && PublishedIn(file, repr) == Some(published)
  }

  /**
   * `--update` succeeds exactly if registry and file can be read and every published pair that is still declared keeps
   * its fields and kinds; then the file holds both, and otherwise it stays as it was.
   */
  lemma UpdateSucceedsIff(head: seq<string>, registry: string, file: Option<string>, repr: Yaml -> string)
    ensures var (code, after) := Updated(head, registry, file, repr);
            && (code == 0 <==> exists current, published ::
                  Read(registry, file, repr, current, published) && Frozen(current, published))
            && (code != 0 ==> code == 1 && after == file)
            && (code == 0 ==> forall current, published :: Read(registry, file, repr, current, published) ==>
                  exists merged :: IsMerged(merged, published, current) && after == Some(Render(head, merged)))
  {
    if EventsOf(registry).Some? && PublishedIn(file, repr).Some? {
      var current := CurrentSnapshot(EventsOf(registry).value, repr);
      var published := PublishedIn(file, repr).value;
      assert Read(registry, file, repr, current, published);
      NoViolationsIff(current, published);
      MergedIsUnique(published + current, published, current);
    }
  }

  /** This is to be reported about registry and file. */
  ghost predicate Reportable(head: seq<string>, registry: string, file: Option<string>, repr: Yaml -> string,
                             problem: Problem) {
    if EventsOf(registry).None? then problem == RegistryUnreadable
    else if file.None? then problem == NoSnapshot
    else if ParsePublished(file.value, repr).None? then problem == SnapshotUnreadable
    else
      var current, published := CurrentSnapshot(EventsOf(registry).value, repr), ParsePublished(file.value, repr).value;
      match problem
      case Broken(violation) => Violates(violation, current, published)
      case Stale => OutOfDate(head, current, published, file.value)
      case _ => false
  }

  /** The text is not that of the pairs published before and declared now. */
  ghost predicate OutOfDate(head: seq<string>, current: Published, published: Published, text: string) {
    forall merged :: IsMerged(merged, published, current) ==> text != Render(head, merged)
  }

  lemma OutOfDateIff(head: seq<string>, current: Published, published: Published, text: string)
    ensures OutOfDate(head, current, published, text) <==> text != Render(head, published + current)
  {
    forall merged
      ensures IsMerged(merged, published, current) <==> merged == published + current
    {
      MergedIsUnique(merged, published, current);
    }
  }

  lemma MergedIsUnique(merged: Published, published: Published, current: Published)
    ensures IsMerged(merged, published, current) <==> merged == published + current
  {
  }

  lemma ReportedAre(violations: seq<Violation>, problem: Problem)
    ensures problem in Reported(violations) <==> problem.Broken? && problem.violation in violations
  {
    if problem in Reported(violations) {
      var k :| 0 <= k < |Reported(violations)| && Reported(violations)[k] == problem;
      assert problem == Broken(violations[k]);
    }
    if problem.Broken? && problem.violation in violations {
      var k :| 0 <= k < |violations| && violations[k] == problem.violation;
      assert Reported(violations)[k] == problem;
    }
  }

  lemma ComparedAre(head: seq<string>, current: Published, published: Published, text: string, repr: Yaml -> string,
                    problem: Problem)
    requires ParsePublished(text, repr) == Some(published)
    ensures problem in Compared(head, current, text, repr)
            <==> (problem.Broken? && Violates(problem.violation, current, published))
                 || (problem == Stale && text != Render(head, published + current))
  {
    var violations := FrozenSchemaViolations(current, published);
    var stale := if Render(head, published + current) != text then [Stale] else [];
    assert Compared(head, current, text, repr) == Reported(violations) + stale;
    InBoth(Reported(violations), stale, problem);
    ReportedAre(violations, problem);
    if problem.Broken? { ViolationsAreExact(current, published, problem.violation); }
  }

  lemma InBoth(one: seq<Problem>, other: seq<Problem>, problem: Problem)
    ensures problem in one + other <==> problem in one || problem in other
  {
  }

  /** The check reports exactly this: the first thing that cannot be read, or every violation and a text out of date. */
  lemma ReportsAreExact(head: seq<string>, registry: string, file: Option<string>, repr: Yaml -> string,
                        problem: Problem)
    ensures problem in Problems(head, registry, file, repr) <==> Reportable(head, registry, file, repr, problem)
  {
    if EventsOf(registry).Some? && file.Some? && ParsePublished(file.value, repr).Some? {
      var current, published := CurrentSnapshot(EventsOf(registry).value, repr), ParsePublished(file.value, repr).value;
      ComparedAre(head, current, published, file.value, repr, problem);
      OutOfDateIff(head, current, published, file.value);
    }
  }

  /** The kind that is declared under a field: what its `type` says, and nothing if it has none. */
  ghost predicate HasKind(body: Yaml, repr: Yaml -> string, kind: string) {
    if body.Mapping? && "type" in body.entries then
      match body.entries["type"]
      case Scalar(text) => kind == text
      case value => kind == repr(value)
    else
      kind == ""
  }

  /** An event has this schema: a version that is a number, and fields, each with its kind. */
  ghost predicate HasPair(event: Event, version: int, fields: Fields, repr: Yaml -> string) {
    && "version" in event && event["version"].Scalar? && PyInt(event["version"].text) == Some(version)
    && "fields" in event && event["fields"].Mapping? && event["fields"].entries.Keys == fields.Keys
    && forall f :: f in fields ==> HasKind(event["fields"].entries[f], repr, fields[f])
  }

  lemma SchemaHasKinds(event: Event, fields: Fields, repr: Yaml -> string)
    requires HasSchema(event)
    ensures SchemaOf(event, repr) == fields
            <==> event["fields"].entries.Keys == fields.Keys
                 && forall f :: f in fields ==> HasKind(event["fields"].entries[f], repr, fields[f])
  {
    var bodies := event["fields"].entries;
    forall f | f in bodies && f in fields
      ensures HasKind(bodies[f], repr, fields[f]) <==> SchemaOf(event, repr)[f] == fields[f]
    {
    }
    assert SchemaOf(event, repr).Keys == bodies.Keys;
  }

  /** The pairs of the current snapshot are those that events have, each its own and no others. */
  lemma CurrentIsExact(events: Events, repr: Yaml -> string, key: Key, fields: Fields)
    ensures key in CurrentSnapshot(events, repr) && CurrentSnapshot(events, repr)[key] == fields
            <==> key.name in events && HasPair(events[key.name], key.version, fields, repr)
  {
    if key.name in events && HasSchema(events[key.name]) { SchemaHasKinds(events[key.name], fields, repr); }
  }
}
