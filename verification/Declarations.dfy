/** Registries for given schemas: what can be declared, and what then happens to the snapshot. */
module Declarations {
  import opened Outcomes
  import opened Text
  import opened Sorting
  import opened YamlBlock
  import opened Snapshot
  import opened Registry
  import opened RegistrySpelling
  import opened SnapshotUpdates
  import opened Documents
  import opened ReadingRules

  // ----- registries that declare given schemas

  /** A schema and the order in which its fields are going to be listed. */
  datatype Schema = Schema(key: Key, order: seq<string>, fields: Fields)

  function KindIn(fields: Fields, f: string): string {
    if f in fields then fields[f] else ""
  }

  /** Each field with its kind in quotes. */
  function FieldDocs(order: seq<string>, fields: Fields): (docs: seq<Field>)
    ensures |docs| == |order|
  {
    seq(|order|, k requires 0 <= k < |order| =>
      Field(order[k], Nested([Field("type", Quoted(KindIn(fields, order[k])))])))
  }

  function EventDoc(schema: Schema): Field {
    Field(schema.key.name, Nested([Field("version", Bare(FromInt(schema.key.version))),
                                   Field("fields", Nested(FieldDocs(schema.order, schema.fields)))]))
  }

  function EventDocs(schemas: seq<Schema>): (docs: seq<Field>)
    ensures |docs| == |schemas|
  {
    seq(|schemas|, i requires 0 <= i < |schemas| => EventDoc(schemas[i]))
  }

  /** The text of a registry that declares these schemas, one after another. */
  function RegistryOf(schemas: seq<Schema>): string {
    Document(EventDocs(schemas))
  }

  /** The text of a registry that declares one schema, its fields in this order. */
  function Declaration(key: Key, order: seq<string>, fields: Fields): string {
    RegistryOf([Schema(key, order, fields)])
  }

  /** The order lists the fields, each once, and does not begin with one that looks like an item of a list. */
  ghost predicate ListsFields(order: seq<string>, fields: Fields) {
    && order != [] && !IsItem(order[0]) && Distinct(order)
    && (forall k :: 0 <= k < |order| ==> order[k] in fields)
    && (forall f :: f in fields ==> f in order)
  }

  ghost predicate Declarable(key: Key, order: seq<string>, fields: Fields) {
    && Spelled(key.name) && ListsFields(order, fields)
    && (forall f :: f in fields ==> Spelled(f) && OneLine(fields[f]) && Unquoted(fields[f]))
  }

  ghost predicate AllDeclarable(schemas: seq<Schema>) {
    forall i :: 0 <= i < |schemas| ==> Declarable(schemas[i].key, schemas[i].order, schemas[i].fields)
  }

  // ----- they are documents of the subset

  lemma TypeIsSpelled(kind: string)
    requires OneLine(kind) && Unquoted(kind)
    ensures WellSpelled(Nested([Field("type", Quoted(kind))]))
  {
    assert Spelled("type") && WellSpelled(Quoted(kind));
    EachIsSpelled([Field("type", Quoted(kind))], 0);
  }

  lemma FieldDocsAreSpelled(order: seq<string>, fields: Fields)
    requires forall k :: 0 <= k < |order| ==> order[k] in fields
    requires forall f :: f in fields ==> Spelled(f) && OneLine(fields[f]) && Unquoted(fields[f])
    ensures AllWellSpelled(FieldDocs(order, fields))
  {
    forall k | 0 <= k < |order|
      ensures Spelled(FieldDocs(order, fields)[k].name) && WellSpelled(FieldDocs(order, fields)[k].doc)
    {
      assert order[k] in fields;
      TypeIsSpelled(fields[order[k]]);
    }
    EachIsSpelled(FieldDocs(order, fields), 0);
  }

  lemma NumeralStands(s: string)
    requires s != "" && IsDigit(s[|s| - 1]) && forall i :: 0 <= i < |s| ==> IsDigit(s[i]) || s[i] == '-'
    ensures Strip(s) == s && !FoldMark(s) && !Bracketed(s) && ItemText(s)
  {
    assert IsDigit(s[0]) || s[0] == '-';
  }

  lemma EventDocIsSpelled(schema: Schema)
    requires Declarable(schema.key, schema.order, schema.fields)
    ensures Spelled(schema.key.name) && WellSpelled(EventDoc(schema).doc)
  {
    var order := schema.order;
    FromIntFacts(schema.key.version);
    NumeralStands(FromInt(schema.key.version));
    FieldDocsAreSpelled(order, schema.fields);
    var version, fields := Bare(FromInt(schema.key.version)), Nested(FieldDocs(order, schema.fields));
    assert WellSpelled(version) && WellSpelled(fields) && Spelled("version") && Spelled("fields");
    TwoFieldsAreSpelled(Field("version", version), Field("fields", fields));
  }

  lemma TwoFieldsAreSpelled(one: Field, other: Field)
    requires Spelled(one.name) && WellSpelled(one.doc) && Spelled(other.name) && WellSpelled(other.doc)
    requires !IsItem(one.name)
    ensures WellSpelled(Nested([one, other]))
  {
    EachIsSpelled([one, other], 0);
  }

  lemma EventDocsAreSpelled(schemas: seq<Schema>)
    requires AllDeclarable(schemas)
    ensures AllWellSpelled(EventDocs(schemas)) && AllNested(EventDocs(schemas))
  {
    forall i | 0 <= i < |schemas|
      ensures Spelled(EventDocs(schemas)[i].name) && WellSpelled(EventDocs(schemas)[i].doc)
    {
      EventDocIsSpelled(schemas[i]);
    }
    EachIsSpelled(EventDocs(schemas), 0);
  }

  // ----- what they say

  function KindDeclared(kind: string): Yaml {
    Mapping(map["type" := Scalar(kind)])
  }

  lemma KindMeans(kind: string)
    ensures Meaning(Nested([Field("type", Quoted(kind))])) == Some(KindDeclared(kind))
  {
    var fields, entries := [Field("type", Quoted(kind))], map["type" := Scalar(kind)];
    assert map[]["type" := Scalar(kind)] == entries;
    assert MeaningFrom(fields, 1, entries) == Some(entries);
    assert MeaningFrom(fields, 0, map[]) == Some(entries);
  }

  lemma FieldDocsMean(order: seq<string>, fields: Fields)
    requires ListsFields(order, fields)
    ensures MeaningFrom(FieldDocs(order, fields), 0, map[]) == Some(map f | f in fields :: KindDeclared(fields[f]))
  {
    var docs := FieldDocs(order, fields);
    forall k | 0 <= k < |order|
      ensures docs[k].name == order[k] && Meaning(docs[k].doc) == Some(KindDeclared(fields[order[k]]))
    {
      KindMeans(fields[order[k]]);
    }
    MeaningIff(docs);
    SameMapping(MeaningFrom(docs, 0, map[]).value, docs, order, fields);
  }

  lemma SameMapping(entries: map<string, Yaml>, docs: seq<Field>, order: seq<string>, fields: Fields)
    requires ListsFields(order, fields) && |docs| == |order| && Holds(entries, docs)
    requires forall k :: 0 <= k < |order| ==>
               docs[k].name == order[k] && Meaning(docs[k].doc) == Some(KindDeclared(fields[order[k]]))
    ensures entries == map f | f in fields :: KindDeclared(fields[f])
  {
    forall f
      ensures f in entries <==> f in fields
    {
      if f in fields { var k :| 0 <= k < |order| && order[k] == f; assert docs[k].name == f; }
    }
    forall f | f in fields
      ensures entries[f] == KindDeclared(fields[f])
    {
      var k :| 0 <= k < |order| && order[k] == f;
      assert docs[k].name == f;
    }
  }

  /** The event that a schema is declared by. */
  function EventDeclared(key: Key, fields: Fields): Event {
    map["version" := Scalar(FromInt(key.version)), "fields" := Mapping(map f | f in fields :: KindDeclared(fields[f]))]
  }

  lemma EventDocMeans(schema: Schema)
    requires ListsFields(schema.order, schema.fields)
    ensures Meaning(EventDoc(schema).doc) == Some(Mapping(EventDeclared(schema.key, schema.fields)))
  {
    FieldDocsMean(schema.order, schema.fields);
    var version, fields := Bare(FromInt(schema.key.version)), Nested(FieldDocs(schema.order, schema.fields));
    TwoFieldsMean(Field("version", version), Field("fields", fields));
  }

  lemma TwoFieldsMean(one: Field, other: Field)
    requires one.name != other.name && Meaning(one.doc).Some? && Meaning(other.doc).Some?
    ensures Meaning(Nested([one, other]))
            == Some(Mapping(map[one.name := Meaning(one.doc).value, other.name := Meaning(other.doc).value]))
  {
    var both, first := [one, other], map[][one.name := Meaning(one.doc).value];
    var second := first[other.name := Meaning(other.doc).value];
    assert MeaningFrom(both, 2, second) == Some(second);
    assert MeaningFrom(both, 1, first) == Some(second);
    assert MeaningFrom(both, 0, map[]) == Some(second);
    assert second == map[one.name := Meaning(one.doc).value, other.name := Meaning(other.doc).value];
  }

  lemma IntReadsBack(n: int)
    ensures PyInt(FromInt(n)) == Some(n)
  {
    var sign, k: nat := if n < 0 then "-" else "", if n < 0 then -n else n;
    var groups := [FromNat(k)];
    FromIntFacts(n);
    NumeralStands(FromInt(n));
    NumbersReadBack(k);
    assert Joined(groups, "_") == FromNat(k) && "" + FromNat(k) == FromNat(k);
    assert groups[1..] == [] && Concatenated([]) == "" && FromNat(k) + "" == FromNat(k);
    assert Concatenated(groups) == FromNat(k);
    NumeralIsRead(FromInt(n), sign, groups);
  }

  lemma SchemaDeclared(key: Key, fields: Fields, repr: Yaml -> string)
    ensures var event := EventDeclared(key, fields);
            HasSchema(event) && VersionOf(event) == Some(key.version) && SchemaOf(event, repr) == fields
  {
    var event := EventDeclared(key, fields);
    IntReadsBack(key.version);
    assert event["version"] == Scalar(FromInt(key.version));
    assert event["fields"] == Mapping(map f | f in fields :: KindDeclared(fields[f]));
  }

  /** No event is declared twice: a registry names each once, whatever the versions. */
  ghost predicate EventsDiffer(schemas: seq<Schema>) {
    forall i, j :: 0 <= i < j < |schemas| ==> schemas[i].key.name != schemas[j].key.name
  }

  /** The snapshot holds these schemas and nothing else. */
  ghost predicate HoldsExactly(current: Published, schemas: seq<Schema>) {
    && (forall k :: k in current <==> exists i :: 0 <= i < |schemas| && schemas[i].key == k)
    && (forall i :: 0 <= i < |schemas| ==> schemas[i].key in current && current[schemas[i].key] == schemas[i].fields)
  }

  /** These events are those of the schemas. */
  ghost predicate Declaring(events: Events, schemas: seq<Schema>) {
    && (forall name :: name in events <==> exists i :: 0 <= i < |schemas| && schemas[i].key.name == name)
    && (forall i :: 0 <= i < |schemas| ==>
          schemas[i].key.name in events
          && events[schemas[i].key.name] == EventDeclared(schemas[i].key, schemas[i].fields))
  }

  lemma DeclaringIsHolding(events: Events, schemas: seq<Schema>, repr: Yaml -> string)
    requires Declaring(events, schemas)
    ensures HoldsExactly(CurrentSnapshot(events, repr), schemas)
  {
    forall i | 0 <= i < |schemas|
      ensures Declares(events, schemas[i].key) && SchemaOf(events[schemas[i].key.name], repr) == schemas[i].fields
    {
      SchemaDeclared(schemas[i].key, schemas[i].fields, repr);
    }
    forall k | Declares(events, k)
      ensures exists i :: 0 <= i < |schemas| && schemas[i].key == k
    {
      var i :| 0 <= i < |schemas| && schemas[i].key.name == k.name;
      SchemaDeclared(schemas[i].key, schemas[i].fields, repr);
      assert schemas[i].key == k;
    }
  }

  lemma EventsMean(schemas: seq<Schema>)
    requires AllDeclarable(schemas)
    ensures var docs := EventDocs(schemas);
            && (MeaningFrom(docs, 0, map[]).Some? <==> EventsDiffer(schemas))
            && (MeaningFrom(docs, 0, map[]).Some? ==> Holds(MeaningFrom(docs, 0, map[]).value, docs))
            && forall i :: 0 <= i < |schemas| ==>
                 docs[i].name == schemas[i].key.name
                 && Meaning(docs[i].doc) == Some(Mapping(EventDeclared(schemas[i].key, schemas[i].fields)))
  {
    var docs := EventDocs(schemas);
    forall i | 0 <= i < |schemas|
      ensures docs[i].name == schemas[i].key.name
      ensures Meaning(docs[i].doc) == Some(Mapping(EventDeclared(schemas[i].key, schemas[i].fields)))
    {
      EventDocMeans(schemas[i]);
    }
    MeaningIff(docs);
  }

  lemma MeantIsDeclaring(events: Events, docs: seq<Field>, schemas: seq<Schema>)
    requires |docs| == |schemas| && Holds(AsYaml(events), docs)
    requires forall i :: 0 <= i < |schemas| ==>
               docs[i].name == schemas[i].key.name
               && Meaning(docs[i].doc) == Some(Mapping(EventDeclared(schemas[i].key, schemas[i].fields)))
    ensures Declaring(events, schemas)
  {
    forall name
      ensures name in events <==> exists i :: 0 <= i < |schemas| && schemas[i].key.name == name
    {
      assert name in events <==> name in AsYaml(events);
      if name in events {
        var k :| 0 <= k < |docs| && docs[k].name == name;
        assert schemas[k].key.name == name;
      }
      if i :| 0 <= i < |schemas| && schemas[i].key.name == name { assert docs[i].name == name; }
    }
    forall i | 0 <= i < |schemas|
      ensures schemas[i].key.name in events
      ensures events[schemas[i].key.name] == EventDeclared(schemas[i].key, schemas[i].fields)
    {
      assert docs[i].name in AsYaml(events);
      assert AsYaml(events)[docs[i].name] == Mapping(events[docs[i].name]);
    }
  }

  /**
   * Any schemas can be declared, one after another, whose names and fields can stand before a colon and whose kinds are
   * on one line, bear no quotation mark at an end, and are not all under fields that look like items. The text parses
   * exactly if no two of them have one name, and then it declares just them.
   */
  lemma SchemasCanBeDeclared(schemas: seq<Schema>, repr: Yaml -> string)
    requires AllDeclarable(schemas)
    ensures EventsOf(RegistryOf(schemas)).Some? <==> EventsDiffer(schemas)
    ensures EventsDiffer(schemas) ==> HoldsExactly(CurrentSnapshot(EventsOf(RegistryOf(schemas)).value, repr), schemas)
  {
    EventDocsAreSpelled(schemas);
    DocumentIsRead(EventDocs(schemas));
    EventsMean(schemas);
    if EventsDiffer(schemas) {
      var events := EventsOf(RegistryOf(schemas)).value;
      MeantIsDeclaring(events, EventDocs(schemas), schemas);
      DeclaringIsHolding(events, schemas, repr);
    }
  }

  lemma EverySchemaCanBeDeclared(key: Key, order: seq<string>, fields: Fields, repr: Yaml -> string)
    requires Declarable(key, order, fields)
    ensures EventsOf(Declaration(key, order, fields)).Some?
    ensures CurrentSnapshot(EventsOf(Declaration(key, order, fields)).value, repr) == map[key := fields]
  {
    var schemas := [Schema(key, order, fields)];
    SchemasCanBeDeclared(schemas, repr);
    OnlyOneIsHeld(CurrentSnapshot(EventsOf(RegistryOf(schemas)).value, repr), schemas[0]);
  }

  lemma OnlyOneIsHeld(current: Published, schema: Schema)
    requires HoldsExactly(current, [schema])
    ensures current == map[schema.key := schema.fields]
  {
    var schemas := [schema];
    assert schemas[0].key in current;
  }

  // ----- what becomes of the snapshot

  /** The registry parses, a first update succeeds, and the check complains about what it wrote. */
  ghost predicate PublishedAndFailing(head: seq<string>, registry: string, repr: Yaml -> string) {
    && EventsOf(registry).Some? && Updated(head, registry, None, repr).0 == 0
    && Problems(head, registry, Updated(head, registry, None, repr).1, repr) != []
  }

  /**
   * A schema that can be declared is published without complaint, and fails the check unless it reads back as itself.
   */
  lemma DeclarationFailsIff(head: seq<string>, key: Key, order: seq<string>, fields: Fields, repr: Yaml -> string)
    requires IsHeader(head) && OneLineRepr(repr) && Declarable(key, order, fields)
    ensures var snapshot := map[key := fields];
            PublishedAndFailing(head, Declaration(key, order, fields), repr)
            <==> !(Legible(snapshot) && Faithful(snapshot, repr))
  {
    var registry, snapshot := Declaration(key, order, fields), map[key := fields];
    EverySchemaCanBeDeclared(key, order, fields, repr);
    NothingPublishedYet(snapshot);
    assert map[] + snapshot == snapshot;
    assert Updated(head, registry, None, repr).0 == 0 && Merged(registry, None, repr) == snapshot;
    CheckPassesAfterUpdateIff(head, registry, None, repr);
  }

  lemma OneSchemaReadsBackIff(key: Key, fields: Fields, repr: Yaml -> string)
    ensures Legible(map[key := fields]) <==> KeyOk(key) && FirstNameOk(SortedFields(fields.Keys))
    ensures Faithful(map[key := fields], repr) <==> forall f :: f in fields ==> KindRead(fields[f], repr) == fields[f]
  {
    var snapshot := map[key := fields];
    assert key in snapshot && snapshot[key] == fields;
  }

  const PLAIN := "count"

  lemma PlainIsKept(repr: Yaml -> string)
    ensures KindRead(PLAIN, repr) == PLAIN && OneLine(PLAIN) && Unquoted(PLAIN)
  {
  }

  /** Plain kinds are never lost, so that only the key and the field that is written first matter. */
  lemma PlainDeclarationFailsIff(head: seq<string>, key: Key, order: seq<string>, fields: Fields, repr: Yaml -> string)
    requires IsHeader(head) && OneLineRepr(repr) && Declarable(key, order, fields)
    requires forall f :: f in fields ==> fields[f] == PLAIN
    ensures PublishedAndFailing(head, Declaration(key, order, fields), repr)
            <==> !(KeyOk(key) && FirstNameOk(SortedFields(fields.Keys)))
  {
    PlainIsKept(repr);
    OneSchemaReadsBackIff(key, fields, repr);
    DeclarationFailsIff(head, key, order, fields, repr);
  }

  lemma OneFieldIsListed(field: string, kind: string)
    requires Spelled(field) && !IsItem(field) && OneLine(kind) && Unquoted(kind)
    ensures Declarable(Key("a", 1), [field], map[field := kind]) && FirstNameOk(SortedFields({field}))
  {
    SortedFieldsFacts({field});
    var names := SortedFields({field});
    if names != [] { assert names[0] in names; }
  }

  /** With a plain schema under it, a key is lost exactly if it does not have the form the parser expects. */
  lemma KeyIsLostIff(head: seq<string>, key: Key, repr: Yaml -> string)
    requires IsHeader(head) && OneLineRepr(repr) && Spelled(key.name)
    ensures PublishedAndFailing(head, Declaration(key, ["f"], map["f" := PLAIN]), repr) <==> !KeyOk(key)
  {
    var fields := map["f" := PLAIN];
    PlainIsKept(repr);
    OneFieldIsListed("f", PLAIN);
    assert fields.Keys == {"f"};
    PlainDeclarationFailsIff(head, key, ["f"], fields, repr);
  }

  /** Under a good key and field, a kind is lost exactly if it is not read as what was written. */
  lemma KindIsLostIff(head: seq<string>, kind: string, repr: Yaml -> string)
    requires IsHeader(head) && OneLineRepr(repr) && OneLine(kind) && Unquoted(kind)
    ensures PublishedAndFailing(head, Declaration(Key("a", 1), ["f"], map["f" := kind]), repr)
            <==> KindRead(kind, repr) != kind
  {
    var fields := map["f" := kind];
    OneFieldIsListed("f", kind);
    assert fields.Keys == {"f"};
    DeclarationFailsIff(head, Key("a", 1), ["f"], fields, repr);
    OneSchemaReadsBackIff(Key("a", 1), fields, repr);
  }

  lemma FoldMarkIsNotKept(mark: string, repr: Yaml -> string)
    requires FoldMark(mark)
    ensures OneLine(mark) && Unquoted(mark) && KindRead(mark, repr) != mark
  {
    KindIsKeptIff(mark, repr);
  }

  /** So every fold mark that is declared in quotes is lost. */
  lemma QuotedFoldMarkIsLost(head: seq<string>, mark: string, repr: Yaml -> string)
    requires IsHeader(head) && OneLineRepr(repr) && FoldMark(mark)
    ensures PublishedAndFailing(head, Declaration(Key("a", 1), ["f"], map["f" := mark]), repr)
  {
    FoldMarkIsNotKept(mark, repr);
    KindIsLostIff(head, mark, repr);
  }

  lemma ItemsSortFirst(field: string)
    requires field != "b"
    ensures FirstNameOk(SortedFields({"b", field})) <==> !IsItem(field)
  {
    StringOrder();
    SortedFieldsFacts({"b", field});
    var names := SortedFields({"b", field});
    assert "b" in names && field in names;
    assert names[0] in names;
    if IsItem(field) { assert field[0] < 'b'; }
  }

  lemma TwoFieldsAreListed(field: string)
    requires Spelled(field) && field != "b"
    ensures var fields := map["b" := PLAIN, field := PLAIN];
            fields.Keys == {"b", field} && Declarable(Key("a", 1), ["b", field], fields)
  {
    var order, fields := ["b", field], map["b" := PLAIN, field := PLAIN];
    assert order[0] == "b" && order[1] == field && Spelled("b");
    assert forall f :: f in fields ==> f == order[0] || f == order[1];
  }

  /**
   * A second field makes the snapshot unreadable exactly if it looks like an item of a list: then it is written first.
   */
  lemma FieldIsLostIff(head: seq<string>, field: string, repr: Yaml -> string)
    requires IsHeader(head) && OneLineRepr(repr) && Spelled(field) && field != "b"
    ensures PublishedAndFailing(head, Declaration(Key("a", 1), ["b", field], map["b" := PLAIN, field := PLAIN]), repr)
            <==> IsItem(field)
  {
    var fields := map["b" := PLAIN, field := PLAIN];
    ItemsSortFirst(field);
    TwoFieldsAreListed(field);
    PlainDeclarationFailsIff(head, Key("a", 1), ["b", field], fields, repr);
  }
}
