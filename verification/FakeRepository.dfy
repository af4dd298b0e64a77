/** The in-memory twin of the tenant-scoped store: row policy inside a scope, and a rollback out of it. */
module FakeRepository {

  datatype Row = Row(tenant: string, payload: string)

  /** What one operation of a piece of work is; `Touch` changes the world outside the rows and registers its undo. */
  datatype Op<!X> =
    | SelectAll
    | Insert(payload: string)
    | InsertFor(owner: string, payload: string)
    | DeleteAll
    | Touch(change: X -> X, undo: X -> X)
    | Nothing

  datatype Answer = Seen(payloads: seq<string>) | Accepted(yes: bool) | Removed(count: nat) | Done

  /** Work in a scope: every operation, and whether it ends in an exception, may depend on all answers so far. */
  datatype Work<!X> = Work(next: seq<Answer> -> Op<X>, length: nat, throws: seq<Answer> -> bool)

  // ----- the rows as the two sides of the policy see them

  function Own(rows: seq<Row>, tenant: string): (payloads: seq<string>)
    ensures |payloads| <= |rows|
  {
    if rows == [] then []
    else
      var earlier := Own(rows[..|rows| - 1], tenant);
      if rows[|rows| - 1].tenant == tenant then earlier + [rows[|rows| - 1].payload] else earlier
  }

  function Others(rows: seq<Row>, tenant: string): seq<Row> {
    if rows == [] then []
    else
      var earlier := Others(rows[..|rows| - 1], tenant);
      if rows[|rows| - 1].tenant == tenant then earlier else earlier + [rows[|rows| - 1]]
  }

  /** One operation: the rows after it, and its answer. */
  function Perform<X>(rows: seq<Row>, tenant: string, op: Op<X>): (seq<Row>, Answer) {
    match op
    case SelectAll => (rows, Seen(Own(rows, tenant)))
    case Insert(payload) => (rows + [Row(tenant, payload)], Done)
    case InsertFor(owner, payload) =>
      if owner == tenant then (rows + [Row(owner, payload)], Accepted(true)) else (rows, Accepted(false))
    case DeleteAll => (Others(rows, tenant), Removed(|Own(rows, tenant)|))
    case Touch(_, _) => (rows, Done)
    case Nothing => (rows, Done)
  }

  /** The rows and the answers after the first `n` operations. */
  function Play<X>(rows: seq<Row>, tenant: string, work: Work<X>, n: nat): (r: (seq<Row>, seq<Answer>))
    ensures |r.1| == n
  {
    if n == 0 then (rows, [])
    else
      var (before, answers) := Play(rows, tenant, work, n - 1);
      var (after, answer) := Perform(before, tenant, work.next(answers));
      (after, answers + [answer])
  }

  /** The outside world and the registered undo steps after the operations that got these answers. */
  function World<X>(x: X, work: Work<X>, answers: seq<Answer>): (X, seq<X -> X>) {
    if answers == [] then (x, [])
    else
      var earlier := answers[..|answers| - 1];
      var (world, undo) := World(x, work, earlier);
      match work.next(earlier)
      case Touch(change, back) => (change(world), undo + [back])
      case _ => (world, undo)
  }

  /** The undo steps, last one first. */
  function Unwound<X>(x: X, undo: seq<X -> X>): X {
    if undo == [] then x else Unwound(undo[|undo| - 1](x), undo[..|undo| - 1])
  }

  // ----- the store and its sessions

  class Repository<X> {
    var rows: seq<Row>
    var declarations: nat
    var outside: X

    constructor (outside: X)
      ensures rows == [] && declarations == 0 && this.outside == outside
    {
      rows, declarations, this.outside := [], 0, outside;
    }

    /** A scope: what the work did stays if it returned, and is gone without a trace if it threw. */
    method Run(tenant: string, work: Work<X>) returns (threw: bool, answers: seq<Answer>)
      modifies this
      ensures declarations == old(declarations) + 1
      ensures answers == Play(old(rows), tenant, work, work.length).1
      ensures threw == work.throws(answers)
      ensures !threw ==> rows == Play(old(rows), tenant, work, work.length).0
                         && outside == World(old(outside), work, answers).0
      ensures threw ==> rows == old(rows)
                        && var (world, undo) := World(old(outside), work, answers); outside == Unwound(world, undo)
      ensures threw && Faithful(old(outside), work, answers) ==> outside == old(outside)
    {
      declarations := declarations + 1;
      var before := rows;
      var session := new Session<X>(this, tenant);
      answers := [];
      for n := 0 to work.length
        invariant declarations == old(declarations) + 1
        invariant session.repository == this && session.tenant == tenant && fresh(session)
        invariant (rows, answers) == Play(before, tenant, work, n)
        invariant (outside, session.undo) == World(old(outside), work, answers)
      {
        var answer := session.Do(work.next(answers));
        assert (answers + [answer])[..|answers|] == answers;
        answers := answers + [answer];
      }
      threw := work.throws(answers);
      if threw {
        session.Unwind();
        rows := before;
        if Faithful(old(outside), work, answers) {
          UnwindingRestoresTheWorld(old(outside), work, answers);
        }
      }
    }
  }

  class Session<X> {
    const repository: Repository<X>
    const tenant: string
    var undo: seq<X -> X>

    constructor (repository: Repository<X>, tenant: string)
      ensures this.repository == repository && this.tenant == tenant && undo == []
    {
      this.repository, this.tenant, undo := repository, tenant, [];
    }

    method Do(op: Op<X>) returns (answer: Answer)
      modifies this`undo, repository`rows, repository`outside
      ensures (repository.rows, answer) == Perform(old(repository.rows), tenant, op)
      ensures op.Touch? ==> repository.outside == op.change(old(repository.outside)) && undo == old(undo) + [op.undo]
      ensures !op.Touch? ==> repository.outside == old(repository.outside) && undo == old(undo)
    {
      answer := Done;
      match op
      case SelectAll =>
        var payloads := this.SelectAll();
        answer := Seen(payloads);
      case Insert(payload) =>
        repository.rows := repository.rows + [Row(tenant, payload)];
      case InsertFor(owner, payload) =>
        var accepted := this.InsertFor(owner, payload);
        answer := Accepted(accepted);
      case DeleteAll =>
        var count := this.DeleteAll();
        answer := Removed(count);
      case Touch(change, back) =>
        repository.outside := change(repository.outside);
        undo := undo + [back];
      case Nothing =>
    }

    method SelectAll() returns (visible: seq<string>)
      ensures visible == Own(repository.rows, tenant)
    {
      visible := [];
      for i := 0 to |repository.rows|
        invariant visible == Own(repository.rows[..i], tenant)
      {
        assert repository.rows[..i + 1][..i] == repository.rows[..i];
        if repository.rows[i].tenant == tenant {
          visible := visible + [repository.rows[i].payload];
        }
      }
      assert repository.rows[..|repository.rows|] == repository.rows;
    }

    method InsertFor(owner: string, payload: string) returns (accepted: bool)
      modifies repository`rows
      ensures accepted <==> owner == tenant
      ensures repository.rows == if accepted then old(repository.rows) + [Row(owner, payload)] else old(repository.rows)
    {
      if owner != tenant {
        return false;
      }
      repository.rows := repository.rows + [Row(owner, payload)];
      return true;
    }

    method DeleteAll() returns (count: nat)
      modifies repository`rows
      ensures repository.rows == Others(old(repository.rows), tenant)
      ensures count == |Own(old(repository.rows), tenant)|
    {
      var kept: seq<Row> := [];
      for i := 0 to |repository.rows|
        invariant repository.rows == old(repository.rows)
        invariant kept == Others(repository.rows[..i], tenant)
        invariant i == |kept| + |Own(repository.rows[..i], tenant)|
      {
        assert repository.rows[..i + 1][..i] == repository.rows[..i];
        if repository.rows[i].tenant != tenant {
          kept := kept + [repository.rows[i]];
        }
      }
      assert repository.rows[..|repository.rows|] == repository.rows;
      count := |repository.rows| - |kept|;
      repository.rows := kept;
    }

    /** Everything registered is undone, in reverse. */
    method Unwind()
      modifies this`undo, repository`outside
      ensures repository.outside == Unwound(old(repository.outside), old(undo))
      ensures undo == []
    {
      var i := |undo|;
      assert undo[..i] == undo;
      while i > 0
        invariant 0 <= i <= |undo| && undo == old(undo)
        invariant Unwound(repository.outside, undo[..i]) == Unwound(old(repository.outside), old(undo))
      {
        assert undo[..i][..i - 1] == undo[..i - 1];
        i := i - 1;
        repository.outside := undo[i](repository.outside);
      }
      undo := [];
    }
  }

  // ----- tenants do not see each other

  lemma AppendingARow(rows: seq<Row>, row: Row, tenant: string)
    ensures Own(rows + [row], tenant) == if row.tenant == tenant then Own(rows, tenant) + [row.payload]
            else Own(rows, tenant)
    ensures Others(rows + [row], tenant) == if row.tenant == tenant then Others(rows, tenant)
            else Others(rows, tenant) + [row]
  {
    assert (rows + [row])[..|rows|] == rows;
  }

  lemma {:induction false} OthersOfOthers(rows: seq<Row>, tenant: string)
    ensures Own(Others(rows, tenant), tenant) == [] && Others(Others(rows, tenant), tenant) == Others(rows, tenant)
  {
    if rows != [] {
      var rest, last := rows[..|rows| - 1], rows[|rows| - 1];
      OthersOfOthers(rest, tenant);
      if last.tenant != tenant { AppendingARow(Others(rest, tenant), last, tenant); }
    }
  }

  lemma PerformRespectsThePolicy<X>(rows: seq<Row>, other: seq<Row>, tenant: string, op: Op<X>)
    requires Own(rows, tenant) == Own(other, tenant)
    ensures Perform(rows, tenant, op).1 == Perform(other, tenant, op).1
    ensures Own(Perform(rows, tenant, op).0, tenant) == Own(Perform(other, tenant, op).0, tenant)
    ensures Others(Perform(rows, tenant, op).0, tenant) == Others(rows, tenant)
  {
    match op
    case Insert(payload) =>
      AppendingARow(rows, Row(tenant, payload), tenant);
      AppendingARow(other, Row(tenant, payload), tenant);
    case InsertFor(owner, payload) =>
      AppendingARow(rows, Row(owner, payload), tenant);
      AppendingARow(other, Row(owner, payload), tenant);
    case DeleteAll =>
      OthersOfOthers(rows, tenant);
      OthersOfOthers(other, tenant);
    case _ =>
  }

  /**
   * Whatever a piece of work does, its answers and its own rows depend on its tenant's rows alone, and everybody else's
   * rows keep their content and their order.
   */
  lemma {:induction false} TenantsDoNotInterfere<X>(rows: seq<Row>, other: seq<Row>, tenant: string, work: Work<X>,
                                                    n: nat)
    requires Own(rows, tenant) == Own(other, tenant)
    ensures Play(rows, tenant, work, n).1 == Play(other, tenant, work, n).1
    ensures Own(Play(rows, tenant, work, n).0, tenant) == Own(Play(other, tenant, work, n).0, tenant)
    ensures Others(Play(rows, tenant, work, n).0, tenant) == Others(rows, tenant)
  {
    if n > 0 {
      TenantsDoNotInterfere(rows, other, tenant, work, n - 1);
      var (before, answers) := Play(rows, tenant, work, n - 1);
      var (otherBefore, _) := Play(other, tenant, work, n - 1);
      PerformRespectsThePolicy(before, otherBefore, tenant, work.next(answers));
    }
  }

  // ----- leaving by an exception undoes everything

  /** Each registered step takes back the change made just before it. */
  ghost predicate Faithful<X>(x: X, work: Work<X>, answers: seq<Answer>) {
    forall k :: 0 <= k < |answers| ==> TakesBack(World(x, work, answers[..k]).0, work.next(answers[..k]))
  }

  ghost predicate TakesBack<X>(world: X, op: Op<X>) {
    op.Touch? ==> op.undo(op.change(world)) == world
  }

  lemma {:induction false} UnwindingRestoresTheWorld<X>(x: X, work: Work<X>, answers: seq<Answer>)
    requires Faithful(x, work, answers)
    ensures var (world, undo) := World(x, work, answers); Unwound(world, undo) == x
  {
    if answers != [] {
      var earlier := answers[..|answers| - 1];
      forall k | 0 <= k < |earlier|
        ensures TakesBack(World(x, work, earlier[..k]).0, work.next(earlier[..k]))
      {
        assert earlier[..k] == answers[..k];
      }
      UnwindingRestoresTheWorld(x, work, earlier);
      assert TakesBack(World(x, work, answers[..|answers| - 1]).0, work.next(answers[..|answers| - 1]));
      var (world, undo) := World(x, work, earlier);
      match work.next(earlier)
      case Touch(change, back) => assert (undo + [back])[..|undo|] == undo;
      case _ =>
    }
  }

  // ----- what each operation shows and leaves

  /**
   * What a tenant sees of its own rows after an operation, and what it is told: an insert adds the row at the end,
   * under the tenant itself or not at all, a deletion leaves none and tells how many there were, and the rest changes
   * nothing.
   */
  lemma OperationsShow<X>(rows: seq<Row>, tenant: string, op: Op<X>)
    ensures var own, (after, answer) := Own(rows, tenant), Perform(rows, tenant, op);
            match op
            case SelectAll => after == rows && answer == Seen(own)
            case Insert(payload) => Own(after, tenant) == own + [payload] && answer == Done
            case InsertFor(owner, payload) =>
              answer == Accepted(owner == tenant)
              && Own(after, tenant) == own + if owner == tenant then [payload] else []
            case DeleteAll => Own(after, tenant) == [] && answer == Removed(|own|)
            case Touch(_, _) => after == rows && answer == Done
            case Nothing => after == rows && answer == Done
  {
    match op
    case Insert(payload) => AppendingARow(rows, Row(tenant, payload), tenant);
    case InsertFor(owner, payload) => AppendingARow(rows, Row(owner, payload), tenant);
    case DeleteAll => OthersOfOthers(rows, tenant);
    case _ =>
  }

  /** Own rows and others' rows together are all rows. */
  lemma {:induction false} RowsAreOwnOrOthers(rows: seq<Row>, tenant: string)
    ensures |Own(rows, tenant)| + |Others(rows, tenant)| == |rows|
    ensures forall row :: row in Others(rows, tenant) <==> row in rows && row.tenant != tenant
    ensures forall payload :: payload in Own(rows, tenant) <==> Row(tenant, payload) in rows
  {
    if rows != [] {
      RowsAreOwnOrOthers(rows[..|rows| - 1], tenant);
      assert rows == rows[..|rows| - 1] + [rows[|rows| - 1]];
    }
  }
}
