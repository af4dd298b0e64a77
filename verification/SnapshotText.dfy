/** What a written snapshot looks like, and that it is canonical: an order and a layout, and nothing left to choose. */
module SnapshotText {
  import opened Text
  import opened Chunks
  import opened Sorting
  import opened Snapshot

  // ----- the order of names and of pairs

  /** At the first difference the smaller character, or nothing any more. */
  ghost predicate Precedes(a: string, b: string) {
    exists i :: FirstDifference(a, b, i)
  }

  ghost predicate FirstDifference(a: string, b: string, i: nat) {
    && i <= |a| && i < |b| && a[..i] == b[..i]
    && (i < |a| ==> a[i] < b[i])
  }

  lemma DifferenceShifted(a: string, b: string, i: nat)
    requires a != "" && b != "" && a[0] == b[0]
    ensures FirstDifference(a, b, i + 1) <==> FirstDifference(a[1..], b[1..], i)
  {
    if i + 1 <= |a| && i + 1 < |b| {
      assert a[..i + 1] == [a[0]] + a[1..][..i] && b[..i + 1] == [b[0]] + b[1..][..i];
      assert a[1..][..i] == a[..i + 1][1..] && b[1..][..i] == b[..i + 1][1..];
    }
  }

  lemma {:induction false} StringLeIff(a: string, b: string)
    ensures StringLe(a, b) <==> a == b || Precedes(a, b)
  {
    if a == "" {
      if b != "" { assert FirstDifference(a, b, 0); }
    } else if b != "" && a[0] == b[0] {
      StringLeIff(a[1..], b[1..]);
      assert a == [a[0]] + a[1..] && b == [b[0]] + b[1..];
      if i: nat :| FirstDifference(a[1..], b[1..], i) {
        DifferenceShifted(a, b, i);
        assert FirstDifference(a, b, i + 1);
      }
      if i: nat :| FirstDifference(a, b, i) {
        assert i != 0;
        DifferenceShifted(a, b, i - 1);
        assert FirstDifference(a[1..], b[1..], i - 1);
      }
    } else if b != "" {
      DifferentFirst(a, b);
    }
  }

  lemma DifferentFirst(a: string, b: string)
    requires a != "" && b != "" && a[0] != b[0]
    ensures Precedes(a, b) <==> a[0] < b[0]
  {
    if a[0] < b[0] { assert FirstDifference(a, b, 0); }
    if i: nat :| FirstDifference(a, b, i) {
      if i > 0 { assert a[..i][0] == b[..i][0]; }
    }
  }

  ghost predicate KeyPrecedes(a: Key, b: Key) {
    Precedes(a.name, b.name) || (a.name == b.name && a.version < b.version)
  }

  lemma KeyLeIff(a: Key, b: Key)
    ensures KeyLe(a, b) <==> a == b || KeyPrecedes(a, b)
  {
    StringLeIff(a.name, b.name);
    StringLeIff(a.name, a.name);
  }

  // ----- the layout

  /** The fields with their kinds, each on an indented line. */
  function FieldsText(names: seq<string>, fields: Fields): string
    requires forall k :: 0 <= k < |names| ==> names[k] in fields
  {
    if names == [] then "" else "  " + names[0] + ": " + fields[names[0]] + "\n" + FieldsText(names[1..], fields)
  }

  /** Name and version of a pair on a line of their own, after an empty one, and its fields below. */
  function PairText(key: Key, names: seq<string>, fields: Fields): string
    requires forall k :: 0 <= k < |names| ==> names[k] in fields
  {
    "\n" + key.name + "@" + FromInt(key.version) + ":\n" + FieldsText(names, fields)
  }

  /** These are the fields in order, each once. */
  ghost predicate FieldsInOrder(names: seq<string>, fields: Fields) {
    && (forall f :: f in names <==> f in fields)
    && forall i, j :: 0 <= i < j < |names| ==> Precedes(names[i], names[j])
  }

  ghost predicate KeysInOrder(keys: seq<Key>, snapshot: Published) {
    && (forall k :: k in keys <==> k in snapshot)
    && forall i, j :: 0 <= i < j < |keys| ==> KeyPrecedes(keys[i], keys[j])
  }

  /** The text of these entries, one after another. */
  function EntriesText(entries: seq<Entry>): string
    requires forall n :: 0 <= n < |entries| ==> Covers(entries[n])
  {
    if entries == [] then ""
    else
      assert Covers(entries[0]);
      PairText(entries[0].key, entries[0].names, entries[0].fields) + EntriesText(entries[1..])
  }

  lemma {:induction false} UnlinesTogether(one: seq<string>, other: seq<string>)
    ensures Unlines(one + other) == Unlines(one) + Unlines(other)
  {
    if one == [] {
      assert one + other == other;
    } else {
      assert (one + other)[1..] == one[1..] + other;
      UnlinesTogether(one[1..], other);
    }
  }

  lemma {:induction false} FieldLinesAre(names: seq<string>, fields: Fields)
    requires forall k :: 0 <= k < |names| ==> names[k] in fields
    ensures Unlines(FieldLines(names, fields)) == FieldsText(names, fields)
  {
    if names != [] {
      FieldLinesAre(names[1..], fields);
      assert FieldLines(names, fields)[1..] == FieldLines(names[1..], fields);
      assert FieldLine(names[0], fields[names[0]]) == "  " + names[0] + ": " + fields[names[0]];
    }
  }

  lemma PairLinesAre(entry: Entry)
    requires Covers(entry)
    ensures Unlines(PairLines(entry)) == PairText(entry.key, entry.names, entry.fields)
  {
    var first := ["", KeyText(entry.key) + ":"];
    FieldLinesAre(entry.names, entry.fields);
    UnlinesTogether(first, FieldLines(entry.names, entry.fields));
    assert first[1..] == [KeyText(entry.key) + ":"] && first[1..][1..] == [];
    assert Unlines(first) == "" + "\n" + (KeyText(entry.key) + ":" + "\n" + "");
  }

  lemma {:induction false} EntriesAre(entries: seq<Entry>, j: nat)
    requires AllCover(entries) && j <= |entries|
    ensures forall n :: 0 <= n < |entries[j..]| ==> Covers(entries[j..][n])
    ensures Unlines(Flat(Texts(entries), j)) == EntriesText(entries[j..])
    decreases |entries| - j
  {
    forall n | 0 <= n < |entries[j..]|
      ensures Covers(entries[j..][n])
    {
      assert Covers(entries[j + n]);
    }
    if j < |entries| {
      EntriesAre(entries, j + 1);
      PairLinesAre(entries[j]);
      UnlinesTogether(PairLines(entries[j]), Flat(Texts(entries), j + 1));
      assert entries[j..][1..] == entries[j + 1..];
    }
  }

  /** What is listed: the pairs in order, each with its fields in order, and their kinds. */
  ghost predicate Lists(entries: seq<Entry>, snapshot: Published) {
    && KeysInOrder(KeysOf(entries), snapshot)
    && forall n :: 0 <= n < |entries| ==>
         entries[n].key in snapshot && entries[n].fields == snapshot[entries[n].key]
         && FieldsInOrder(entries[n].names, entries[n].fields)
  }

  function KeysOf(entries: seq<Entry>): seq<Key> {
    seq(|entries|, n requires 0 <= n < |entries| => entries[n].key)
  }

  lemma SortedNamesAreInOrder(fields: Fields)
    ensures FieldsInOrder(SortedFields(fields.Keys), fields)
  {
    var names := SortedFields(fields.Keys);
    StringOrder();
    forall i, j | 0 <= i < j < |names|
      ensures Precedes(names[i], names[j])
    {
      StringLeIff(names[i], names[j]);
    }
  }

  lemma SortedKeysAreInOrder(snapshot: Published)
    ensures KeysInOrder(SortedKeys(snapshot.Keys), snapshot)
  {
    var keys := SortedKeys(snapshot.Keys);
    KeyOrder();
    forall i, j | 0 <= i < j < |keys|
      ensures KeyPrecedes(keys[i], keys[j])
    {
      KeyLeIff(keys[i], keys[j]);
    }
  }

  lemma ListingLists(snapshot: Published)
    ensures Lists(Listing(snapshot), snapshot)
  {
    var entries := Listing(snapshot);
    ListingHoldsThePairs(snapshot);
    SortedKeysAreInOrder(snapshot);
    assert KeysOf(entries) == SortedKeys(snapshot.Keys) by { ListedKeys(snapshot); }
    forall n | 0 <= n < |entries|
      ensures FieldsInOrder(entries[n].names, entries[n].fields)
    {
      SortedNamesAreInOrder(entries[n].fields);
    }
  }

  lemma ListedKeys(snapshot: Published)
    ensures KeysOf(Listing(snapshot)) == SortedKeys(snapshot.Keys)
  {
    var keys := SortedKeys(snapshot.Keys);
    forall n | 0 <= n < |keys|
      ensures Listing(snapshot)[n].key == keys[n]
    {
      assert keys[n] in keys;
    }
  }

  /**
   * The text of a snapshot: the header, and then the pairs in the order of their names and versions, each with its
   * fields in the order of their names, laid out as `PairText` says.
   */
  lemma TextIsLaidOut(head: seq<string>, snapshot: Published) returns (entries: seq<Entry>)
    ensures Lists(entries, snapshot) && forall n :: 0 <= n < |entries| ==> Covers(entries[n])
    ensures Render(head, snapshot) == Unlines(head) + EntriesText(entries)
  {
    entries := Listing(snapshot);
    ListingLists(snapshot);
    ListingCovers(snapshot);
    assert entries[0..] == entries;
    EntriesAre(entries, 0);
    UnlinesTogether(head, Flat(Texts(entries), 0));
  }

  /** Numbers are written in tens: digit by digit, the last one first to go. */
  lemma NumbersAreDecimal(n: nat, d: nat)
    requires d < 10
    ensures FromNat(d) == ["0123456789"[d]]
    ensures n > 0 ==> FromNat(10 * n + d) == FromNat(n) + ["0123456789"[d]]
  {
    assert (10 * n + d) / 10 == n && (10 * n + d) % 10 == d;
  }
}
