/** Applying numbered migrations to a database that may fail at any of them, and the checksum guard around it. */
module Migrations {
  import opened Outcomes

  /** A file of the directory; `version` is what its name says, if the name follows the rule. */
  datatype File = File(name: string, version: Option<nat>, sql: string, checksum: string, createsRegistry: bool)

  datatype Migration = Migration(version: nat, fileName: string, sql: string, checksum: string, createsRegistry: bool)

  /** `registry` is the table of applied versions and checksums; `executed` the migrations whose SQL took effect. */
  datatype Db = Db(registry: Option<map<nat, string>>, executed: seq<nat>)

  datatype Problem = Changed(fileName: string) | Missing(version: nat)

  const REGISTRY := "schema_version"
  const EMPTY := Db(None, [])

  // ----- the directory

  ghost predicate Ascending(dir: seq<Migration>) {
    forall i, j :: 0 <= i < j < |dir| ==> dir[i].version < dir[j].version
  }

  ghost predicate WellNamed(files: seq<File>) {
    (forall i :: 0 <= i < |files| ==> files[i].version.Some?) &&
    (forall i, j :: 0 <= i < j < |files| ==> files[i].version != files[j].version)
  }

  function AsMigration(file: File): Migration
    requires file.version.Some?
  {
    Migration(file.version.value, file.name, file.sql, file.checksum, file.createsRegistry)
  }

  /** A migration takes its place among those with smaller and larger numbers. */
  function Placed(sorted: seq<Migration>, m: Migration): (r: seq<Migration>)
    ensures multiset(r) == multiset(sorted) + multiset{m}
  {
    if sorted == [] then [m]
    else if m.version < sorted[0].version then [m] + sorted
    else
      assert sorted == [sorted[0]] + sorted[1..];
      [sorted[0]] + Placed(sorted[1..], m)
  }

  lemma {:induction false} PlacingKeepsOrder(sorted: seq<Migration>, m: Migration)
    requires Ascending(sorted) && forall i :: 0 <= i < |sorted| ==> sorted[i].version != m.version
    ensures Ascending(Placed(sorted, m))
  {
    if sorted != [] && m.version > sorted[0].version {
      var rest := Placed(sorted[1..], m);
      PlacingKeepsOrder(sorted[1..], m);
      forall k | 0 <= k < |rest|
        ensures sorted[0].version < rest[k].version
      {
        assert rest[k] in multiset(rest);
        assert rest[k] in multiset(sorted[1..]) || rest[k] == m;
      }
    }
  }

  /** The versions of the first `n` files. */
  ghost predicate Versions(files: seq<File>, n: nat, seen: set<nat>) {
    n <= |files| && forall v :: v in seen <==> exists k :: 0 <= k < n && files[k].version == Some(v)
  }

  /** The first `n` files as migrations, all and no others. */
  ghost predicate Lists(files: seq<File>, n: nat, sorted: seq<Migration>) {
    && n <= |files|
    && forall m :: m in sorted <==> exists k :: 0 <= k < n && files[k].version.Some? && m == AsMigration(files[k])
  }

  lemma OneMoreFile(files: seq<File>, i: nat, seen: set<nat>, sorted: seq<Migration>)
    requires i < |files| && files[i].version.Some? && files[i].version.value !in seen
    requires WellNamed(files[..i]) && Versions(files, i, seen) && Lists(files, i, sorted) && Ascending(sorted)
    ensures WellNamed(files[..i + 1]) && Versions(files, i + 1, seen + {files[i].version.value})
    ensures var placed := Placed(sorted, AsMigration(files[i])); Lists(files, i + 1, placed) && Ascending(placed)
  {
    var m := AsMigration(files[i]);
    PlacedMembers(sorted, m);
    forall k | 0 <= k < |sorted|
      ensures sorted[k].version != m.version
    {
      assert sorted[k] in sorted;
    }
    PlacingKeepsOrder(sorted, m);
  }

  /** All files by version; a misnamed file or a number given twice is refused. */
  method Load(files: seq<File>) returns (dir: Option<seq<Migration>>)
    ensures dir.Some? <==> WellNamed(files)
    ensures dir.Some? ==> Ascending(dir.value)
    ensures dir.Some? ==>
              forall m :: m in dir.value <==>
                exists k :: 0 <= k < |files| && files[k].version.Some? && m == AsMigration(files[k])
  {
    var sorted: seq<Migration> := [];
    var seen: set<nat> := {};
    for i := 0 to |files|
      invariant WellNamed(files[..i]) && Versions(files, i, seen)
      invariant Lists(files, i, sorted) && Ascending(sorted)
    {
      if files[i].version.None? {
        return None;
      }
      var version := files[i].version.value;
      if version in seen {
        return None;
      }
      OneMoreFile(files, i, seen, sorted);
      seen := seen + {version};
      sorted := Placed(sorted, AsMigration(files[i]));
    }
    assert files[..|files|] == files;
    return Some(sorted);
  }

  lemma PlacedMembers(sorted: seq<Migration>, m: Migration)
    ensures forall x :: x in Placed(sorted, m) <==> x in sorted || x == m
  {
    forall x
      ensures x in Placed(sorted, m) <==> x in sorted || x == m
    {
      assert x in Placed(sorted, m) <==> x in multiset(Placed(sorted, m));
    }
  }

  // ----- the guard

  /** What the registry should say once every migration of the directory is applied. */
  function Recorded(dir: seq<Migration>): map<nat, string> {
    if dir == [] then map[] else Recorded(dir[..|dir| - 1])[dir[|dir| - 1].version := dir[|dir| - 1].checksum]
  }

  /** Every applied version still has its file, unchanged. */
  ghost predicate Agrees(dir: seq<Migration>, applied: map<nat, string>) {
    (forall m :: m in dir && m.version in applied ==> applied[m.version] == m.checksum) &&
    (forall v :: v in applied ==> exists m :: m in dir && m.version == v)
  }

  /** Applied under this number, but not with this text. */
  predicate Altered(m: Migration, applied: map<nat, string>) {
    m.version in applied && applied[m.version] != m.checksum
  }

  method Mismatches(dir: seq<Migration>, applied: map<nat, string>) returns (problems: seq<Problem>)
    ensures problems == [] <==> Agrees(dir, applied)
    ensures forall f :: Changed(f) in problems <==> exists m :: m in dir && m.fileName == f && Altered(m, applied)
    ensures forall v :: Missing(v) in problems <==> v in applied && forall m :: m in dir ==> m.version != v
  {
    var changed, versions := ChangedFiles(dir, applied);
    var orphans := applied.Keys - versions;
    var missing := MissingFiles(orphans);
    problems := changed + missing;
    assert problems == [] <==> changed == [] && orphans == {};
    assert forall v :: v in orphans <==> v in applied && forall m :: m in dir ==> m.version != v;
    assert changed == [] <==> forall m :: m in dir ==> !Altered(m, applied) by {
      assert changed != [] ==> changed[0] in changed;
      assert forall m :: m in dir && Altered(m, applied) ==> Changed(m.fileName) in changed;
    }
  }

  method ChangedFiles(dir: seq<Migration>, applied: map<nat, string>)
    returns (problems: seq<Problem>, versions: set<nat>)
    ensures forall v :: v in versions <==> exists m :: m in dir && m.version == v
    ensures forall p :: p in problems <==> exists m :: m in dir && Altered(m, applied) && p == Changed(m.fileName)
  {
    problems, versions := [], {};
    for i := 0 to |dir|
      invariant forall v :: v in versions <==> exists m :: m in dir[..i] && m.version == v
      invariant forall p :: p in problems <==>
                  exists m :: m in dir[..i] && Altered(m, applied) && p == Changed(m.fileName)
    {
      assert dir[..i + 1] == dir[..i] + [dir[i]];
      versions := versions + {dir[i].version};
      if dir[i].version in applied && applied[dir[i].version] != dir[i].checksum {
        problems := problems + [Changed(dir[i].fileName)];
      }
    }
    assert dir[..|dir|] == dir;
  }

  method MissingFiles(orphans: set<nat>) returns (problems: seq<Problem>)
    ensures forall p :: p in problems <==> p.Missing? && p.version in orphans
    ensures problems == [] <==> orphans == {}
  {
    problems := [];
    var rest := orphans;
    while rest != {}
      invariant rest <= orphans
      invariant forall p :: p in problems <==> p.Missing? && p.version in orphans - rest
      invariant problems == [] <==> rest == orphans
      decreases rest
    {
      var version := Smallest(rest);
      problems := problems + [Missing(version)];
      rest := rest - {version};
    }
  }

  function Smallest(s: set<nat>): (v: nat)
    requires s != {}
    ensures v in s && forall w :: w in s ==> v <= w
  {
    assert exists v :: v in s && forall w :: w in s ==> v <= w by {
      var least := Least(s);
    }
    var v :| v in s && forall w :: w in s ==> v <= w;
    v
  }

  lemma {:induction false} Least(s: set<nat>) returns (v: nat)
    requires s != {}
    ensures v in s && forall w :: w in s ==> v <= w
  {
    var some :| some in s;
    v := some;
    if s != {some} {
      assert s - {some} != {};
      var least := Least(s - {some});
      v := if some < least then some else least;
      assert forall w :: w in s ==> w == some || w in s - {some};
    }
  }

  // ----- one run of `apply`

  predicate Mentions(text: string, word: string) {
    exists i :: 0 <= i <= |text| && StandsAt(text, i, word)
  }

  predicate StandsAt(text: string, i: nat, word: string) {
    i <= |text| && word <= text[i..]
  }

  function LowerCase(text: string): string {
    seq(|text|, i requires 0 <= i < |text| => if 'A' <= text[i] <= 'Z' then text[i] - 'A' + 'a' else text[i])
  }

  function Pending(dir: seq<Migration>, applied: map<nat, string>): seq<Migration> {
    if dir == [] then []
    else if dir[0].version in applied then Pending(dir[1..], applied)
    else [dir[0]] + Pending(dir[1..], applied)
  }

  /**
   * The migration and its record are one transaction: it needs a registry to write to, by then, and a free version; and
   * it may fail for reasons of its own.
   */
  predicate Succeeds(db: Db, m: Migration, works: nat -> bool) {
    works(m.version) && (db.registry.Some? || m.createsRegistry) &&
    (db.registry.Some? ==> m.version !in db.registry.value)
  }

  function Applied(db: Db, m: Migration): Db {
    Db(Some((if db.registry.Some? then db.registry.value else map[])[m.version := m.checksum]),
       db.executed + [m.version])
  }

  function ApplyEach(db: Db, pending: seq<Migration>, works: nat -> bool): (Db, bool)
    decreases |pending|
  {
    if pending == [] then (db, true)
    else if !Succeeds(db, pending[0], works) then (db, false)
    else ApplyEach(Applied(db, pending[0]), pending[1..], works)
  }

  /** 0: done. 1: refused before touching anything. 2: the database failed on the way. */
  ghost function Apply(db: Db, dir: seq<Migration>, works: nat -> bool): (Db, int) {
    if dir == [] then (db, 0)
    else if db.registry.Some? && !Agrees(dir, db.registry.value) then (db, 1)
    else if db.registry.None? && !Mentions(LowerCase(dir[0].sql), REGISTRY) then (db, 1)
    else
      var (after, ok) := ApplyEach(db, Pending(dir, if db.registry.Some? then db.registry.value else map[]), works);
      (after, if ok then 0 else 2)
  }

  class Database {
    var db: Db

    constructor ()
      ensures db == EMPTY
    {
      db := EMPTY;
    }

    method ApplyOne(m: Migration, works: nat -> bool) returns (ok: bool)
      modifies this
      ensures ok == Succeeds(old(db), m, works)
      ensures db == if ok then Applied(old(db), m) else old(db)
    {
      ok := Succeeds(db, m, works);
      if ok {
        db := Applied(db, m);
      }
    }

    method CommandApply(dir: seq<Migration>, works: nat -> bool) returns (code: int)
      modifies this
      ensures (db, code) == Apply(old(db), dir, works)
    {
      if dir == [] {
        return 0;
      }
      var applied: map<nat, string> := map[];
      if db.registry.Some? {
        applied := db.registry.value;
        var problems := Mismatches(dir, applied);
        if problems != [] {
          return 1;
        }
      } else if !Mentions(LowerCase(dir[0].sql), REGISTRY) {
        return 1;
      }
      var pending := Pending(dir, applied);
      for i := 0 to |pending|
        invariant ApplyEach(db, pending[i..], works) == ApplyEach(old(db), pending, works)
      {
        assert pending[i..][0] == pending[i] && pending[i..][1..] == pending[i + 1..];
        var ok := ApplyOne(pending[i], works);
        if !ok {
          return 2;
        }
      }
      return 0;
    }

    method CommandVerify(dir: seq<Migration>) returns (code: int)
      ensures code == if Verified(db, dir) then 0 else 1
    {
      if db.registry.None? {
        return 1;
      }
      var problems := Mismatches(dir, db.registry.value);
      var pending := Pending(dir, db.registry.value);
      PendingIsTheRest(dir, db.registry.value);
      return if problems != [] || pending != [] then 1 else 0;
    }
  }

  /** The registry exists, agrees with the files, and nothing waits. */
  ghost predicate Verified(db: Db, dir: seq<Migration>) {
    db.registry.Some? && Agrees(dir, db.registry.value) && forall m :: m in dir ==> m.version in db.registry.value
  }

  lemma {:induction false} PendingIsTheRest(dir: seq<Migration>, applied: map<nat, string>)
    ensures forall m :: m in Pending(dir, applied) <==> m in dir && m.version !in applied
    ensures Pending(dir, applied) == [] <==> forall m :: m in dir ==> m.version in applied
  {
    if dir != [] {
      PendingIsTheRest(dir[1..], applied);
      assert dir == [dir[0]] + dir[1..];
      assert dir[0] in dir;
    }
  }

  // ----- what holds over any number of runs

  /** One run of `apply`: the directory it saw, and which migrations would have worked. */
  datatype Run = Run(dir: seq<Migration>, works: nat -> bool)

  ghost function After(db: Db, runs: seq<Run>): Db {
    if runs == [] then db else Apply(After(db, runs[..|runs| - 1]), runs[|runs| - 1].dir, runs[|runs| - 1].works).0
  }

  /** Every executed migration is in the registry, and none was executed twice. */
  ghost predicate Sound(db: Db) {
    (db.registry.None? ==> db.executed == []) &&
    (db.registry.Some? ==> forall v :: v in db.executed <==> v in db.registry.value) &&
    (forall i, j :: 0 <= i < j < |db.executed| ==> db.executed[i] != db.executed[j])
  }

  ghost predicate Keeps(before: map<nat, string>, after: map<nat, string>) {
    forall v :: v in before ==> v in after && after[v] == before[v]
  }

  /** Records are only ever added. */
  ghost predicate Extends(before: Db, after: Db) {
    before.executed <= after.executed &&
    (before.registry.Some? ==> after.registry.Some? && Keeps(before.registry.value, after.registry.value))
  }

  lemma {:induction false} ApplyEachIsSound(db: Db, pending: seq<Migration>, works: nat -> bool)
    requires Sound(db)
    ensures Sound(ApplyEach(db, pending, works).0) && Extends(db, ApplyEach(db, pending, works).0)
    decreases |pending|
  {
    if pending != [] && Succeeds(db, pending[0], works) {
      ApplyEachIsSound(Applied(db, pending[0]), pending[1..], works);
    }
  }

  lemma OneRunIsSound(db: Db, run: Run)
    requires Sound(db)
    ensures Sound(Apply(db, run.dir, run.works).0) && Extends(db, Apply(db, run.dir, run.works).0)
  {
    ApplyEachIsSound(db, Pending(run.dir, if db.registry.Some? then db.registry.value else map[]), run.works);
  }

  /** Over any history of runs, failures and directories, no migration is executed twice and no record is lost. */
  lemma {:induction false} ExecutedAtMostOnce(runs: seq<Run>)
    ensures Sound(After(EMPTY, runs))
    ensures forall k :: 0 <= k <= |runs| ==> Extends(After(EMPTY, runs[..k]), After(EMPTY, runs))
  {
    if runs == [] {
      assert runs[..0] == [];
    } else {
      var earlier, last := runs[..|runs| - 1], runs[|runs| - 1];
      ExecutedAtMostOnce(earlier);
      OneRunIsSound(After(EMPTY, earlier), last);
      forall k | 0 <= k <= |runs|
        ensures Extends(After(EMPTY, runs[..k]), After(EMPTY, runs))
      {
        if k == |runs| {
          assert runs[..k] == runs;
        } else {
          assert runs[..k] == earlier[..k];
        }
      }
    }
  }

  /** Over any history, the registry lists exactly the migrations that were executed: both move together or neither. */
  lemma RecordedExactlyWhenExecuted(runs: seq<Run>, v: nat)
    ensures var db := After(EMPTY, runs); v in db.executed <==> db.registry.Some? && v in db.registry.value
  {
    ExecutedAtMostOnce(runs);
  }

  /** The migration was in the directory of some run, with this checksum. */
  ghost predicate FiledIn(runs: seq<Run>, v: nat, checksum: string) {
    exists r, m :: 0 <= r < |runs| && m in runs[r].dir && m.version == v && m.checksum == checksum
  }

  lemma {:induction false} ApplyEachRecordsFiles(db: Db, pending: seq<Migration>, works: nat -> bool, v: nat)
    ensures var after := ApplyEach(db, pending, works).0;
            after.registry.Some? && v in after.registry.value ==>
              (db.registry.Some? && v in db.registry.value && db.registry.value[v] == after.registry.value[v])
              || exists m :: m in pending && m.version == v && m.checksum == after.registry.value[v]
    decreases |pending|
  {
    if pending != [] && Succeeds(db, pending[0], works) {
      assert pending == [pending[0]] + pending[1..];
      ApplyEachRecordsFiles(Applied(db, pending[0]), pending[1..], works, v);
      assert pending[0] in pending;
    }
  }

  /** Over any history, every recorded checksum is that of a file some run saw under that number. */
  lemma {:induction false} RecordsComeFromFiles(runs: seq<Run>, v: nat)
    requires After(EMPTY, runs).registry.Some? && v in After(EMPTY, runs).registry.value
    ensures FiledIn(runs, v, After(EMPTY, runs).registry.value[v])
  {
    var earlier, last := runs[..|runs| - 1], runs[|runs| - 1];
    var db := After(EMPTY, earlier);
    var checksum := After(EMPTY, runs).registry.value[v];
    if db.registry.Some? && v in db.registry.value && db.registry.value[v] == checksum {
      RecordsComeFromFiles(earlier, v);
      var r, m :| 0 <= r < |earlier| && m in earlier[r].dir && m.version == v && m.checksum == checksum;
      assert m in runs[r].dir;
    } else {
      var applied := if db.registry.Some? then db.registry.value else map[];
      ApplyEachRecordsFiles(db, Pending(last.dir, applied), last.works, v);
      PendingIsTheRest(last.dir, applied);
      var m :| m in Pending(last.dir, applied) && m.version == v && m.checksum == checksum;
      assert m in runs[|runs| - 1].dir;
    }
  }

  /** The database after the first `k` migrations of the directory and no others. */
  function Progress(dir: seq<Migration>, k: nat): Db
    requires k <= |dir|
  {
    if k == 0 then EMPTY else Applied(Progress(dir, k - 1), dir[k - 1])
  }

  lemma {:induction false} ProgressIsAPrefix(dir: seq<Migration>, k: nat)
    requires Ascending(dir) && k <= |dir|
    ensures |Progress(dir, k).executed| == k
    ensures forall i :: 0 <= i < k ==> Progress(dir, k).executed[i] == dir[i].version
    ensures k > 0 ==> Progress(dir, k).registry == Some(Recorded(dir[..k]))
  {
    if k > 0 {
      ProgressIsAPrefix(dir, k - 1);
      assert dir[..k][..k - 1] == dir[..k - 1];
      assert k == 1 ==> Recorded(dir[..0]) == map[];
    }
  }

  /** What waits is the rest of the directory. */
  ghost predicate AppliedUpTo(dir: seq<Migration>, k: nat, applied: map<nat, string>) {
    k <= |dir| && forall i :: 0 <= i < |dir| ==> (dir[i].version in applied <==> i < k)
  }

  lemma {:induction false} PendingIsASuffix(dir: seq<Migration>, k: nat, applied: map<nat, string>)
    requires AppliedUpTo(dir, k, applied)
    ensures Pending(dir, applied) == dir[k..]
  {
    if dir != [] {
      PendingIsASuffix(dir[1..], if k == 0 then 0 else k - 1, applied);
      assert dir[k..] == if k == 0 then [dir[0]] + dir[1..][0..] else dir[1..][k - 1..];
    }
  }

  lemma {:induction false} RecordedVersions(dir: seq<Migration>, v: nat)
    ensures v in Recorded(dir) <==> exists m :: m in dir && m.version == v
  {
    if dir != [] {
      var rest, last := dir[..|dir| - 1], dir[|dir| - 1];
      RecordedVersions(rest, v);
      assert last in dir && dir == rest + [last];
    }
  }

  lemma PendingOfProgress(dir: seq<Migration>, k: nat)
    requires Ascending(dir) && k <= |dir|
    ensures var registry := Progress(dir, k).registry;
            Pending(dir, if registry.Some? then registry.value else map[]) == dir[k..]
  {
    var db := Progress(dir, k);
    var applied := if db.registry.Some? then db.registry.value else map[];
    ProgressIsAPrefix(dir, k);
    forall i | 0 <= i < |dir|
      ensures dir[i].version in applied <==> i < k
    {
      RecordedVersions(dir[..k], dir[i].version);
      if i < k { assert dir[..k][i] in dir[..k]; }
    }
    PendingIsASuffix(dir, k, applied);
  }

  lemma RunFromProgress(dir: seq<Migration>, k: nat, works: nat -> bool) returns (n: nat)
    requires Ascending(dir) && k <= |dir|
    ensures k <= n <= |dir| && Apply(Progress(dir, k), dir, works).0 == Progress(dir, n)
    ensures dir != [] && Apply(Progress(dir, k), dir, works).1 == 0 ==> n == |dir|
  {
    n := k;
    if dir != [] && Apply(Progress(dir, k), dir, works).1 != 1 {
      PendingOfProgress(dir, k);
      n := ApplyEachStops(dir, k, works);
    }
  }

  /**
   * Over an unchanged directory, from an empty database and through any failures, the executed migrations are always
   * the first so many in ascending order; when a run finally succeeds they are all of them, and the database is what
   * one uninterrupted run leaves.
   */
  lemma {:induction false} RerunsOnlyProgress(dir: seq<Migration>, runs: seq<Run>) returns (n: nat)
    requires Ascending(dir) && forall r :: r in runs ==> r.dir == dir
    ensures n <= |dir| && After(EMPTY, runs) == Progress(dir, n)
    ensures runs != [] && dir != [] && Apply(After(EMPTY, runs[..|runs| - 1]), dir, runs[|runs| - 1].works).1 == 0
            ==> n == |dir|
  {
    if runs == [] {
      n := 0;
    } else {
      var earlier := runs[..|runs| - 1];
      assert runs[|runs| - 1] in runs;
      var k := RerunsOnlyProgress(dir, earlier);
      n := RunFromProgress(dir, k, runs[|runs| - 1].works);
    }
  }

  lemma SuccessfulRerunsEqualOneRun(dir: seq<Migration>, runs: seq<Run>, works: nat -> bool)
    requires Ascending(dir) && dir != [] && runs != [] && forall r :: r in runs ==> r.dir == dir
    requires Apply(After(EMPTY, runs[..|runs| - 1]), dir, runs[|runs| - 1].works).1 == 0
    requires Apply(EMPTY, dir, works).1 == 0
    ensures After(EMPTY, runs) == Apply(EMPTY, dir, works).0
  {
    var n := RerunsOnlyProgress(dir, runs);
    var one := RunFromProgress(dir, 0, works);
  }

  // ----- verify and apply agree

  lemma {:induction false} RecordedChecksums(dir: seq<Migration>, i: nat)
    requires Ascending(dir) && i < |dir|
    ensures dir[i].version in Recorded(dir) && Recorded(dir)[dir[i].version] == dir[i].checksum
  {
    if i < |dir| - 1 { RecordedChecksums(dir[..|dir| - 1], i); }
  }

  /** `verify` succeeds exactly when the registry is there and says what the directory says. */
  lemma VerifiedIffRegistryIsTheDirectory(db: Db, dir: seq<Migration>)
    requires Ascending(dir)
    ensures Verified(db, dir) <==> db.registry == Some(Recorded(dir))
  {
    forall v
      ensures v in Recorded(dir) <==> exists m :: m in dir && m.version == v
    {
      RecordedVersions(dir, v);
    }
    forall m | m in dir
      ensures m.version in Recorded(dir) && Recorded(dir)[m.version] == m.checksum
    {
      var i :| 0 <= i < |dir| && dir[i] == m;
      RecordedChecksums(dir, i);
    }
    if Verified(db, dir) {
      assert db.registry.value == Recorded(dir);
    }
  }

  lemma {:induction false} ApplyEachKeeps(db: Db, pending: seq<Migration>, works: nat -> bool)
    requires db.registry.Some?
    ensures ApplyEach(db, pending, works).0.registry.Some?
    ensures Keeps(db.registry.value, ApplyEach(db, pending, works).0.registry.value)
    decreases |pending|
  {
    if pending != [] && Succeeds(db, pending[0], works) {
      ApplyEachKeeps(Applied(db, pending[0]), pending[1..], works);
    }
  }

  /** A record after a complete run is an old one or that of a migration that waited. */
  lemma {:induction false} ApplyEachCompletes(db: Db, pending: seq<Migration>, works: nat -> bool)
    requires ApplyEach(db, pending, works).1 && db.registry.Some?
    ensures var after := ApplyEach(db, pending, works).0.registry;
            after.Some? && Keeps(db.registry.value, after.value) &&
            (forall m :: m in pending ==> m.version in after.value && after.value[m.version] == m.checksum) &&
            (forall v :: v in after.value && v !in db.registry.value ==> exists m :: m in pending && m.version == v)
    decreases |pending|
  {
    ApplyEachKeeps(db, pending, works);
    if pending != [] {
      assert pending == [pending[0]] + pending[1..] && pending[0] in pending;
      ApplyEachKeeps(Applied(db, pending[0]), pending[1..], works);
      ApplyEachCompletes(Applied(db, pending[0]), pending[1..], works);
    }
  }

  /** A successful `apply` of at least one migration leaves a database that `verify` accepts. */
  lemma SuccessfulApplyIsVerified(db: Db, dir: seq<Migration>, works: nat -> bool)
    requires Ascending(dir) && dir != [] && Apply(db, dir, works).1 == 0
    ensures Verified(Apply(db, dir, works).0, dir)
  {
    var applied := if db.registry.Some? then db.registry.value else map[];
    var pending := Pending(dir, applied);
    PendingIsTheRest(dir, applied);
    if db.registry.None? {
      assert dir[0] in dir;
      assert db.registry.None? ==> pending != [];
      var first := Applied(db, pending[0]);
      ApplyEachCompletes(first, pending[1..], works);
      ApplyEachKeeps(first, pending[1..], works);
      assert pending == [pending[0]] + pending[1..];
    } else {
      ApplyEachCompletes(db, pending, works);
    }
  }

  // ----- when a run is refused, when it stops, and when it goes through

  /** The text has the name of the registry in it, each letter small or capital. */
  ghost predicate NamesRegistry(text: string) {
    exists i: nat :: NamedAt(text, i)
  }

  ghost predicate NamedAt(text: string, i: nat) {
    var small, capital := "schema_version", "SCHEMA_VERSION";
    i + 14 <= |text| && forall k :: 0 <= k < 14 ==> text[i + k] == small[k] || text[i + k] == capital[k]
  }

  lemma SmallOrCapital(c: char, k: nat)
    requires k < 14
    ensures "schema_version"[k] == (if 'A' <= c <= 'Z' then c - 'A' + 'a' else c)
            <==> c == "schema_version"[k] || c == "SCHEMA_VERSION"[k]
  {
  }

  lemma NamedAtIff(text: string, i: nat)
    ensures NamedAt(text, i) <==> StandsAt(LowerCase(text), i, REGISTRY)
  {
    var lower := LowerCase(text);
    if i + 14 <= |text| {
      forall k | 0 <= k < 14
        ensures lower[i..][k] == REGISTRY[k]
                <==> text[i + k] == "schema_version"[k] || text[i + k] == "SCHEMA_VERSION"[k]
      {
        SmallOrCapital(text[i + k], k);
      }
      assert REGISTRY <= lower[i..] <==> lower[i..][..14] == REGISTRY;
      assert lower[i..][..14] == REGISTRY <==> forall k :: 0 <= k < 14 ==> lower[i..][k] == REGISTRY[k];
    }
  }

  lemma NamesRegistryIff(text: string)
    ensures Mentions(LowerCase(text), REGISTRY) <==> NamesRegistry(text)
  {
    var lower := LowerCase(text);
    if i :| 0 <= i <= |lower| && StandsAt(lower, i, REGISTRY) { NamedAtIff(text, i); }
    if i: nat :| NamedAt(text, i) {
      NamedAtIff(text, i);
      assert 0 <= i <= |lower| && StandsAt(lower, i, REGISTRY);
    }
  }

  /**
   * `apply` refuses, and then changes nothing, exactly when there is something to apply and an applied file changed or
   * vanished, or there is no registry and the first migration does not name one in any case. An empty directory is
   * never refused.
   */
  lemma RefusesExactlyWhen(db: Db, dir: seq<Migration>, works: nat -> bool)
    ensures Apply(db, dir, works).1 == 1 <==>
            dir != [] && (if db.registry.Some?
                          then (exists m :: m in dir && Altered(m, db.registry.value))
                               || (exists v :: v in db.registry.value && forall m :: m in dir ==> m.version != v)
                          else !NamesRegistry(dir[0].sql))
    ensures Apply(db, dir, works).1 == 1 ==> Apply(db, dir, works).0 == db
  {
    if dir != [] { NamesRegistryIff(dir[0].sql); }
  }

  /** The migration fails of itself, or would have nowhere to be recorded. */
  predicate Stops(dir: seq<Migration>, n: nat, works: nat -> bool) {
    n < |dir| && (!works(dir[n].version) || (n == 0 && !dir[0].createsRegistry))
  }

  lemma SucceedsIff(dir: seq<Migration>, k: nat, works: nat -> bool)
    requires Ascending(dir) && k < |dir|
    ensures Succeeds(Progress(dir, k), dir[k], works) <==> !Stops(dir, k, works)
  {
    PendingOfProgress(dir, k);
    ProgressIsAPrefix(dir, k);
    RecordedVersions(dir[..k], dir[k].version);
  }

  lemma {:induction false} ApplyEachStops(dir: seq<Migration>, k: nat, works: nat -> bool) returns (n: nat)
    requires Ascending(dir) && k <= |dir|
    ensures k <= n <= |dir| && ApplyEach(Progress(dir, k), dir[k..], works) == (Progress(dir, n), n == |dir|)
    ensures (forall i :: k <= i < n ==> !Stops(dir, i, works)) && (n < |dir| ==> Stops(dir, n, works))
    decreases |dir| - k
  {
    n := k;
    if k < |dir| {
      SucceedsIff(dir, k, works);
      if !Stops(dir, k, works) {
        assert dir[k..][1..] == dir[k + 1..];
        n := ApplyEachStops(dir, k + 1, works);
      }
    }
  }

  lemma ProgressAgrees(dir: seq<Migration>, k: nat)
    requires Ascending(dir) && k <= |dir|
    ensures Progress(dir, k).registry.Some? ==> Agrees(dir, Progress(dir, k).registry.value)
  {
    ProgressIsAPrefix(dir, k);
    if k > 0 {
      forall v
        ensures v in Recorded(dir[..k]) <==> exists m :: m in dir[..k] && m.version == v
      {
        RecordedVersions(dir[..k], v);
      }
      forall i | 0 <= i < k
        ensures dir[i].version in Recorded(dir[..k]) && Recorded(dir[..k])[dir[i].version] == dir[i].checksum
      {
        RecordedChecksums(dir[..k], i);
      }
    }
  }

  /**
   * A run over a directory of which the first `k` migrations are applied goes on exactly to the first that stops it:
   * it reports success if there is none, and is refused only at the very beginning.
   */
  lemma ApplyGoesOnToTheFirstThatStops(dir: seq<Migration>, k: nat, works: nat -> bool) returns (n: nat)
    requires Ascending(dir) && dir != [] && k <= |dir|
    ensures k <= n <= |dir| && Apply(Progress(dir, k), dir, works).0 == Progress(dir, n)
    ensures if k == 0 && !NamesRegistry(dir[0].sql) then n == 0 && Apply(Progress(dir, k), dir, works).1 == 1
            else (forall i :: k <= i < n ==> !Stops(dir, i, works)) && (n < |dir| ==> Stops(dir, n, works))
                 && Apply(Progress(dir, k), dir, works).1 == if n == |dir| then 0 else 2
  {
    NamesRegistryIff(dir[0].sql);
    if k == 0 && !NamesRegistry(dir[0].sql) {
      n := 0;
    } else {
      ProgressAgrees(dir, k);
      PendingOfProgress(dir, k);
      n := ApplyEachStops(dir, k, works);
    }
  }

  /**
   * From an empty database `apply` succeeds exactly if the first migration names the registry, in any case, and creates
   * it, and every migration works. Then all have been executed, in order, and are recorded.
   */
  lemma ApplySucceedsIff(dir: seq<Migration>, works: nat -> bool)
    requires Ascending(dir) && dir != []
    ensures Apply(EMPTY, dir, works).1 == 0
            <==> NamesRegistry(dir[0].sql) && dir[0].createsRegistry && forall m :: m in dir ==> works(m.version)
    ensures Apply(EMPTY, dir, works).1 == 0 ==>
              var after := Apply(EMPTY, dir, works).0;
              && after.registry == Some(Recorded(dir)) && |after.executed| == |dir|
              && forall i :: 0 <= i < |dir| ==> after.executed[i] == dir[i].version
  {
    var n := ApplyGoesOnToTheFirstThatStops(dir, 0, works);
    ProgressIsAPrefix(dir, n);
    assert dir[..|dir|] == dir;
    if n == |dir| && NamesRegistry(dir[0].sql) {
      assert !Stops(dir, 0, works);
      forall m | m in dir
        ensures works(m.version)
      {
        var i :| 0 <= i < |dir| && dir[i] == m;
        assert !Stops(dir, i, works);
      }
    }
  }

  // ----- several runs at once, each with the list it made when it began

  /** A run begins and lists what is pending, or takes the next migration of its list. */
  datatype Move = Begin(dir: seq<Migration>) | Advance(p: nat, works: nat -> bool)

  /** The database, and what each run still has before it; a run that failed or refused has nothing. */
  datatype Runs = Runs(db: Db, waiting: seq<seq<Migration>>)

  ghost function Listed(db: Db, dir: seq<Migration>): seq<Migration> {
    if dir == [] || (db.registry.Some? && !Agrees(dir, db.registry.value))
       || (db.registry.None? && !Mentions(LowerCase(dir[0].sql), REGISTRY)) then []
    else Pending(dir, if db.registry.Some? then db.registry.value else map[])
  }

  ghost function Moved(w: Runs, move: Move): Runs {
    match move
    case Begin(dir) => Runs(w.db, w.waiting + [Listed(w.db, dir)])
    case Advance(p, works) =>
      if p >= |w.waiting| || w.waiting[p] == [] then w
      else if Succeeds(w.db, w.waiting[p][0], works)
          then Runs(Applied(w.db, w.waiting[p][0]), w.waiting[p := w.waiting[p][1..]])
      else Runs(w.db, w.waiting[p := []])
  }

  ghost function AfterMoves(moves: seq<Move>): Runs {
    if moves == [] then Runs(EMPTY, []) else Moved(AfterMoves(moves[..|moves| - 1]), moves[|moves| - 1])
  }

  /** However runs over any directories interleave, none is executed twice, and the registry lists what was executed. */
  lemma {:induction false} ExecutedAtMostOnceInterleaved(moves: seq<Move>)
    ensures Sound(AfterMoves(moves).db)
  {
    if moves != [] { ExecutedAtMostOnceInterleaved(moves[..|moves| - 1]); }
  }

  /** What this run still has before it begins at or before the first migration that is not applied yet. */
  ghost predicate NotAhead(dir: seq<Migration>, n: nat, pending: seq<Migration>) {
    pending == [] || (|pending| <= |dir| && pending == dir[|dir| - |pending|..] && |dir| - |pending| <= n)
  }

  ghost predicate InStep(dir: seq<Migration>, n: nat, w: Runs) {
    n <= |dir| && w.db == Progress(dir, n) && forall p :: 0 <= p < |w.waiting| ==> NotAhead(dir, n, w.waiting[p])
  }

  lemma OvertakenFails(dir: seq<Migration>, n: nat, k: nat, works: nat -> bool)
    requires Ascending(dir) && k < n <= |dir|
    ensures !Succeeds(Progress(dir, n), dir[k], works)
  {
    ProgressIsAPrefix(dir, n);
    RecordedVersions(dir[..n], dir[k].version);
    assert dir[..n][k] in dir[..n];
  }

  lemma AdvanceKeepsStep(dir: seq<Migration>, n: nat, w: Runs, p: nat, works: nat -> bool) returns (m: nat)
    requires Ascending(dir) && InStep(dir, n, w) && p < |w.waiting| && w.waiting[p] != []
    ensures n <= m <= n + 1 && InStep(dir, m, Moved(w, Advance(p, works)))
  {
    var pending := w.waiting[p];
    var k := |dir| - |pending|;
    if k < n { OvertakenFails(dir, n, k, works); }
    m := if Succeeds(w.db, pending[0], works) then n + 1 else n;
    forall q | 0 <= q < |w.waiting| && q != p
      ensures NotAhead(dir, m, w.waiting[q])
    {
      assert NotAhead(dir, n, w.waiting[q]);
    }
  }

  lemma MoveKeepsStep(dir: seq<Migration>, n: nat, w: Runs, move: Move) returns (m: nat)
    requires Ascending(dir) && InStep(dir, n, w) && (move.Begin? ==> move.dir == dir)
    ensures n <= m <= n + 1 && InStep(dir, m, Moved(w, move))
  {
    m := n;
    match move
    case Begin(_) => PendingOfProgress(dir, n);
    case Advance(p, works) =>
      if p < |w.waiting| && w.waiting[p] != [] { m := AdvanceKeepsStep(dir, n, w, p, works); }
  }

  /**
   * However many runs over one directory interleave, each with its own, perhaps stale, list: what was executed is
   * always the first so many migrations in ascending order, as if one run had done it. A run that was overtaken fails
   * on the registry.
   */
  lemma {:induction false} InterleavedRunsOnlyProgress(dir: seq<Migration>, moves: seq<Move>) returns (n: nat)
    requires Ascending(dir) && forall k :: 0 <= k < |moves| && moves[k].Begin? ==> moves[k].dir == dir
    ensures InStep(dir, n, AfterMoves(moves))
  {
    if moves == [] {
      n := 0;
    } else {
      n := InterleavedRunsOnlyProgress(dir, moves[..|moves| - 1]);
      n := MoveKeepsStep(dir, n, AfterMoves(moves[..|moves| - 1]), moves[|moves| - 1]);
    }
  }
}
