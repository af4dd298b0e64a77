/** Any number of updates of the snapshot, over any registries, and what the check says after one. */
module SnapshotUpdates {
  import opened Outcomes
  import opened Text
  import opened YamlBlock
  import opened Snapshot
  import opened Registry
  import opened RegistrySpelling

  /** The two commands, told by what the snapshot's text is read as. */
  lemma CommandsOn(head: seq<string>, current: Published, text: string, read: Option<Published>, repr: Yaml -> string)
    requires ParsePublished(text, repr) == read
    ensures Written(head, current, Some(text), repr)
            == if read.Some? && Frozen(current, read.value) then (0, Some(Render(head, read.value + current)))
                else (1, Some(text))
    ensures Compared(head, current, text, repr) == []
            <==> read.Some? && Frozen(current, read.value) && Render(head, read.value + current) == text
  {
    if read.Some? { NoViolationsIff(current, read.value); }
  }

  lemma TogetherSpellable(published: Published, current: Published)
    requires Spellable(published) && Spellable(current)
    ensures Spellable(published + current)
  {
  }

  // ----- nothing published is ever lost

  function AfterUpdates(head: seq<string>, registries: seq<string>, file: Option<string>,
                        repr: Yaml -> string): Option<string> {
    if registries == [] then file
    else AfterUpdates(head, registries[1..], Updated(head, registries[0], file, repr).1, repr)
  }

  /**
   * One update on the snapshot itself: it is read back, and extended unless a published field would be lost or retyped.
   */
  ghost function Next(current: Published, snapshot: Published, repr: Yaml -> string): Published {
    if Legible(snapshot) && Frozen(current, Reread(snapshot, repr)) then Reread(snapshot, repr) + current else snapshot
  }

  ghost function Extended(registry: string, snapshot: Published, repr: Yaml -> string): Published {
    match EventsOf(registry)
    case None => snapshot
    case Some(events) => Next(CurrentSnapshot(events, repr), snapshot, repr)
  }

  ghost function ExtendedByAll(registries: seq<string>, snapshot: Published, repr: Yaml -> string): Published {
    if registries == [] then snapshot else ExtendedByAll(registries[1..], Extended(registries[0], snapshot, repr), repr)
  }

  /** Every pair and field is still there, and every kind that is read as what was written. */
  ghost predicate Keeps(after: Published, before: Published, repr: Yaml -> string) {
    forall k :: k in before ==> k in after && FieldsAndKindsKept(before[k], after[k], repr)
  }

  ghost predicate FieldsAndKindsKept(was: Fields, now: Fields, repr: Yaml -> string) {
    forall f :: f in was ==> f in now && (KindRead(was[f], repr) == was[f] ==> now[f] == was[f])
  }

  lemma NextKeeps(current: Published, snapshot: Published, repr: Yaml -> string)
    requires Spellable(snapshot) && Spellable(current) && OneLineRepr(repr)
    ensures Spellable(Next(current, snapshot, repr)) && Keeps(Next(current, snapshot, repr), snapshot, repr)
  {
    RereadIsSpellable(snapshot, repr);
    TogetherSpellable(Reread(snapshot, repr), current);
    forall k | k in snapshot
      ensures k in Next(current, snapshot, repr)
              && FieldsAndKindsKept(snapshot[k], Next(current, snapshot, repr)[k], repr)
    {
      PairIsKept(current, snapshot, repr, k);
    }
  }

  lemma PairIsKept(current: Published, snapshot: Published, repr: Yaml -> string, k: Key)
    requires k in snapshot
    ensures k in Next(current, snapshot, repr)
            && FieldsAndKindsKept(snapshot[k], Next(current, snapshot, repr)[k], repr)
  {
    if Legible(snapshot) && Frozen(current, Reread(snapshot, repr)) && k in current {
      assert FieldsKept(RereadFields(snapshot[k], repr), current[k]);
    }
  }

  lemma NextIsWritten(head: seq<string>, current: Published, snapshot: Published, repr: Yaml -> string)
    requires IsHeader(head) && Spellable(snapshot)
    ensures Written(head, current, Some(Render(head, snapshot)), repr).1
            == Some(Render(head, Next(current, snapshot, repr)))
  {
    WrittenSnapshotIsReread(head, snapshot, repr);
    var read := if Legible(snapshot) then Some(Reread(snapshot, repr)) else None;
    CommandsOn(head, current, Render(head, snapshot), read, repr);
  }

  lemma OneUpdateOfAWrittenSnapshot(head: seq<string>, registry: string, snapshot: Published, repr: Yaml -> string)
    requires IsHeader(head) && Spellable(snapshot) && OneLineRepr(repr)
    ensures Updated(head, registry, Some(Render(head, snapshot)), repr).1
            == Some(Render(head, Extended(registry, snapshot, repr)))
    ensures Spellable(Extended(registry, snapshot, repr)) && Keeps(Extended(registry, snapshot, repr), snapshot, repr)
    ensures !Legible(snapshot) ==> Extended(registry, snapshot, repr) == snapshot
  {
    if EventsOf(registry).Some? {
      var current := CurrentSnapshot(EventsOf(registry).value, repr);
      DeclaredSchemasAreSpellable(registry, repr);
      NextIsWritten(head, current, snapshot, repr);
      NextKeeps(current, snapshot, repr);
    }
  }

  lemma KeepsAll(last: Published, next: Published, first: Published, repr: Yaml -> string)
    requires Keeps(last, next, repr) && Keeps(next, first, repr)
    ensures Keeps(last, first, repr)
  {
    forall k | k in first
      ensures k in last && FieldsAndKindsKept(first[k], last[k], repr)
    {
      assert FieldsAndKindsKept(first[k], next[k], repr) && FieldsAndKindsKept(next[k], last[k], repr);
    }
  }

  /**
   * Whatever happens to the registry, a snapshot that was written only ever grows: it stays the text of some snapshot
   * that holds every pair and field it held before, and every kind that is read as what was written. Once it holds a
   * key or a first field that its parser refuses, it no longer changes at all.
   */
  lemma {:induction false} NothingPublishedIsEverLost(head: seq<string>, registries: seq<string>, snapshot: Published,
                                                      repr: Yaml -> string)
    requires IsHeader(head) && Spellable(snapshot) && OneLineRepr(repr)
    ensures var last := ExtendedByAll(registries, snapshot, repr);
            AfterUpdates(head, registries, Some(Render(head, snapshot)), repr) == Some(Render(head, last))
            && Spellable(last) && Keeps(last, snapshot, repr) && (!Legible(snapshot) ==> last == snapshot)
    decreases |registries|
  {
    if registries != [] {
      var next := Extended(registries[0], snapshot, repr);
      OneUpdateOfAWrittenSnapshot(head, registries[0], snapshot, repr);
      NothingPublishedIsEverLost(head, registries[1..], next, repr);
      KeepsAll(ExtendedByAll(registries, snapshot, repr), next, snapshot, repr);
    }
  }

  /** A first success over any file that can be read writes a snapshot that keeps all that was read. */
  lemma FirstSuccess(head: seq<string>, registry: string, file: Option<string>, repr: Yaml -> string)
    requires OneLineRepr(repr) && Updated(head, registry, file, repr).0 == 0
    ensures EventsOf(registry).Some? && PublishedIn(file, repr).Some?
    ensures var read := PublishedIn(file, repr).value;
            var merged := read + CurrentSnapshot(EventsOf(registry).value, repr);
            Updated(head, registry, file, repr).1 == Some(Render(head, merged)) && Spellable(merged)
                && Keeps(merged, read, repr)
  {
    var current, read := CurrentSnapshot(EventsOf(registry).value, repr), PublishedIn(file, repr).value;
    DeclaredSchemasAreSpellable(registry, repr);
    PublishedIsTrusted(file, repr);
    TogetherSpellable(read, current);
    NoViolationsIff(current, read);
    forall k | k in read
      ensures k in read + current && FieldsAndKindsKept(read[k], (read + current)[k], repr)
    {
      if k in current { assert FieldsKept(read[k], current[k]); }
    }
  }

  /** The text of some snapshot that holds all of this. */
  ghost predicate HoldsAll(head: seq<string>, file: Option<string>, read: Published, repr: Yaml -> string) {
    exists last :: file == Some(Render(head, last)) && Spellable(last) && Keeps(last, read, repr)
  }

  /**
   * From any file at all, absent or written by hand: over any registries the file stays as it is, or it becomes the
   * text of some snapshot that holds every pair and field that was read from it, and every kind that is read as what
   * was written. A file that cannot be read never changes.
   */
  lemma {:induction false} NothingReadIsEverLost(head: seq<string>, registries: seq<string>, file: Option<string>,
                                                 repr: Yaml -> string)
    requires IsHeader(head) && OneLineRepr(repr)
    ensures var after := AfterUpdates(head, registries, file, repr);
            after == file
            || (PublishedIn(file, repr).Some? && HoldsAll(head, after, PublishedIn(file, repr).value, repr))
    decreases |registries|
  {
    if registries != [] {
      if Updated(head, registries[0], file, repr).0 == 0 {
        FirstSuccess(head, registries[0], file, repr);
        var read := PublishedIn(file, repr).value;
        var merged := read + CurrentSnapshot(EventsOf(registries[0]).value, repr);
        NothingPublishedIsEverLost(head, registries[1..], merged, repr);
        KeepsAll(ExtendedByAll(registries[1..], merged, repr), merged, read, repr);
      } else {
        NothingReadIsEverLost(head, registries[1..], file, repr);
      }
    }
  }

  // ----- the check after an update

  lemma AlreadyHeld(current: Published, merged: Published)
    requires merged + current == merged
    ensures Frozen(current, merged)
  {
    assert forall k :: k in current ==> (merged + current)[k] == current[k];
  }

  /** If what is read keeps what is declared, and together they are the snapshot, every kind was read as written. */
  lemma KeptMeansFaithful(current: Published, merged: Published, repr: Yaml -> string)
    requires Frozen(current, Reread(merged, repr)) && Reread(merged, repr) + current == merged
    ensures Faithful(merged, repr)
  {
    var read := Reread(merged, repr);
    forall k, f | k in merged && f in merged[k]
      ensures KindRead(merged[k][f], repr) == merged[k][f]
    {
      assert (read + current)[k] == merged[k];
      if k in current { assert FieldsKept(read[k], current[k]); }
    }
  }

  /** What is declared, against the text of a snapshot that already holds all of it. */
  lemma NothingNewToPublishIff(head: seq<string>, current: Published, merged: Published, repr: Yaml -> string)
    requires IsHeader(head) && Spellable(merged) && Spellable(current) && OneLineRepr(repr)
             && merged + current == merged
    ensures Compared(head, current, Render(head, merged), repr) == [] <==> Legible(merged) && Faithful(merged, repr)
    ensures Written(head, current, Some(Render(head, merged)), repr) == (0, Some(Render(head, merged)))
            <==> Legible(merged) && Faithful(merged, repr)
  {
    var read := Reread(merged, repr);
    WrittenSnapshotIsReread(head, merged, repr);
    CommandsOn(head, current, Render(head, merged), if Legible(merged) then Some(read) else None, repr);
    if Legible(merged) {
      FaithfulIff(merged, repr);
      if Faithful(merged, repr) { AlreadyHeld(current, merged); }
      if Frozen(current, read) && Render(head, read + current) == Render(head, merged) {
        RereadIsSpellable(merged, repr);
        TogetherSpellable(read, current);
        TextIsCanonical(head, read + current, merged);
        KeptMeansFaithful(current, merged, repr);
      }
    }
  }

  /** The snapshot that a successful update writes. */
  function Merged(registry: string, file: Option<string>, repr: Yaml -> string): Published
    requires EventsOf(registry).Some? && PublishedIn(file, repr).Some?
  {
    PublishedIn(file, repr).value + CurrentSnapshot(EventsOf(registry).value, repr)
  }

  lemma MergedIsSpellable(current: Published, file: Option<string>, repr: Yaml -> string)
    requires Spellable(current) && OneLineRepr(repr) && PublishedIn(file, repr).Some?
    ensures var merged := PublishedIn(file, repr).value + current; Spellable(merged) && merged + current == merged
  {
    PublishedIsTrusted(file, repr);
    TogetherSpellable(PublishedIn(file, repr).value, current);
  }

  lemma PassesAfterWritingIff(head: seq<string>, current: Published, file: Option<string>, repr: Yaml -> string)
    requires IsHeader(head) && Spellable(current) && OneLineRepr(repr)
    requires PublishedIn(file, repr).Some? && Written(head, current, file, repr).0 == 0
    ensures var merged := PublishedIn(file, repr).value + current;
            var after := Written(head, current, file, repr).1;
            && after.Some?
            && (Compared(head, current, after.value, repr) == [] <==> Legible(merged) && Faithful(merged, repr))
            && (Written(head, current, after, repr) == (0, after) <==> Legible(merged) && Faithful(merged, repr))
  {
    MergedIsSpellable(current, file, repr);
    NothingNewToPublishIff(head, current, PublishedIn(file, repr).value + current, repr);
  }

  /**
   * After a successful update the check has nothing to say about the snapshot, and a second update succeeds without a
   * change, exactly when in what was written every key has the form the parser expects, no pair begins with a field
   * that looks like an item of a list, and every kind is read as what was written. The command itself does not look at
   * any of this.
   */
  lemma CheckPassesAfterUpdateIff(head: seq<string>, registry: string, file: Option<string>, repr: Yaml -> string)
    requires IsHeader(head) && OneLineRepr(repr)
    requires EventsOf(registry).Some? && PublishedIn(file, repr).Some? && Updated(head, registry, file, repr).0 == 0
    ensures var merged, after := Merged(registry, file, repr), Updated(head, registry, file, repr).1;
            && (Problems(head, registry, after, repr) == [] <==> Legible(merged) && Faithful(merged, repr))
            && (Updated(head, registry, after, repr) == (0, after) <==> Legible(merged) && Faithful(merged, repr))
  {
    DeclaredSchemasAreSpellable(registry, repr);
    PassesAfterWritingIff(head, CurrentSnapshot(EventsOf(registry).value, repr), file, repr);
  }

  /** Over a snapshot that reads back as itself, or none, it is only what the registry declares that matters. */
  lemma OnlyTheRegistryMatters(published: Published, current: Published, repr: Yaml -> string)
    requires Legible(published) && Faithful(published, repr)
    ensures Legible(published + current) && Faithful(published + current, repr)
            <==> Legible(current) && Faithful(current, repr)
  {
    var merged := published + current;
    if Legible(merged) && Faithful(merged, repr) {
      forall k, f | k in current && f in current[k]
        ensures KindRead(current[k][f], repr) == current[k][f]
      {
        assert merged[k] == current[k];
      }
      forall k | k in current
        ensures KeyOk(k) && FirstNameOk(SortedFields(current[k].Keys))
      {
        assert merged[k] == current[k];
      }
    }
  }

  // ----- schemas that are published without complaint and then do not pass

  lemma NothingPublishedYet(current: Published)
    ensures FrozenSchemaViolations(current, map[]) == []
  {
    NoViolationsIff(current, map[]);
  }

  /** What a first update does with schemas that do not read back: it succeeds, and neither command passes after it. */
  lemma PublishedButNotPassing(head: seq<string>, current: Published, repr: Yaml -> string)
    requires IsHeader(head) && Spellable(current) && OneLineRepr(repr) && !(Legible(current) && Faithful(current, repr))
    ensures var after := Written(head, current, None, repr).1;
            Written(head, current, None, repr).0 == 0 && after.Some?
            && Compared(head, current, after.value, repr) != [] && Written(head, current, after, repr) != (0, after)
  {
    NothingPublishedYet(current);
    assert map[] + current == current;
    PassesAfterWritingIff(head, current, None, repr);
  }
}
