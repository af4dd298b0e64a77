/** Periodic jobs: a trace per action decides who performs it, however many workers plan the same work. */
module Jobs {
  datatype Item = Item(tenant: string, key: string)

  /** The primary key of `jobs_effect`. */
  datatype Trace = Trace(tenant: string, job: string, key: string)

  datatype Outcome = DoneAll | LockLost | TimedOut

  /** Where a worker stands between two items or inside one. `Lost` died after its claim and before the action. */
  datatype Phase = Ready | Inserting | Claimed | Finished(outcome: Outcome) | Dead | Lost

  datatype Worker = Worker(job: string, plan: seq<Item>, next: nat, phase: Phase, produced: nat, repeated: nat)

  /** `traces` are committed; `granted` and `performed` list the successful claims and the actions in order. */
  datatype State = State(traces: set<Trace>, granted: seq<Trace>, performed: seq<Trace>, workers: seq<Worker>)

  const INITIAL := State({}, [], [], [])

  datatype Step =
    | Start(job: string, plan: seq<Item>)     // any plan: a successor plans anew
    | Stop(i: nat, outcome: Outcome)          // the lock is gone or the time is up, noticed between two items
    | Insert(i: nat)                          // the trace is written but not committed
    | Repeat(i: nat)                          // the trace was there already
    | Commit(i: nat)
    | Perform(i: nat)
    | Finish(i: nat)
    | Die(i: nat)                             // at any point, lock or no lock

  predicate Busy(phase: Phase) {
    phase.Ready? || phase.Inserting? || phase.Claimed?
  }

  /** The trace of the item a worker is at. */
  function Current(w: Worker): Trace
    requires w.next < |w.plan|
  {
    Trace(w.plan[w.next].tenant, w.job, w.plan[w.next].key)
  }

  ghost predicate Held(s: State, i: nat, trace: Trace) {
    exists j :: 0 <= j < |s.workers| && j != i && Writing(s.workers[j], trace)
  }

  predicate Writing(w: Worker, trace: Trace) {
    w.phase.Inserting? && w.next < |w.plan| && Current(w) == trace
  }

  ghost predicate Enabled(s: State, step: Step) {
    match step
    case Start(_, _) => true
    case Stop(i, outcome) =>
      i < |s.workers| && s.workers[i].phase.Ready? && s.workers[i].next < |s.workers[i].plan|
      && outcome != DoneAll
    case Insert(i) =>
      i < |s.workers| && s.workers[i].phase.Ready? && s.workers[i].next < |s.workers[i].plan|
      && Current(s.workers[i]) !in s.traces && !Held(s, i, Current(s.workers[i]))
    case Repeat(i) =>
      i < |s.workers| && s.workers[i].phase.Ready? && s.workers[i].next < |s.workers[i].plan|
          && Current(s.workers[i]) in s.traces
    case Commit(i) => i < |s.workers| && s.workers[i].phase.Inserting?
    case Perform(i) => i < |s.workers| && s.workers[i].phase.Claimed?
    case Finish(i) => i < |s.workers| && s.workers[i].phase.Ready? && s.workers[i].next == |s.workers[i].plan|
    case Die(i) => i < |s.workers| && Busy(s.workers[i].phase)
  }

  /** Inside an item a worker has one: the part of the invariant that makes the steps well defined. */
  ghost predicate Typed(s: State) {
    forall i :: 0 <= i < |s.workers| ==>
      s.workers[i].next <= |s.workers[i].plan| &&
      (s.workers[i].phase.Inserting? || s.workers[i].phase.Claimed? || s.workers[i].phase.Lost? ==>
         s.workers[i].next < |s.workers[i].plan|)
  }

  function Moved(w: Worker, step: Step): Worker {
    match step
    case Stop(_, outcome) => w.(phase := Finished(outcome))
    case Insert(_) => w.(phase := Inserting)
    case Repeat(_) => w.(next := w.next + 1, repeated := w.repeated + 1)
    case Commit(_) => w.(phase := Claimed)
    case Perform(_) => w.(phase := Ready, next := w.next + 1, produced := w.produced + 1)
    case Finish(_) => w.(phase := Finished(DoneAll))
    case Die(_) => w.(phase := if w.phase.Claimed? then Lost else Dead)
    case Start(_, _) => w
  }

  ghost function Apply(s: State, step: Step): (t: State)
    requires Typed(s) && Enabled(s, step)
    ensures Typed(t)
  {
    match step
    case Start(job, plan) => s.(workers := s.workers + [Worker(job, plan, 0, Ready, 0, 0)])
    case Commit(i) =>
      var trace := Current(s.workers[i]);
      s.(workers := s.workers[i := Moved(s.workers[i], step)], traces := s.traces + {trace},
         granted := s.granted + [trace])
    case Perform(i) =>
      s.(workers := s.workers[i := Moved(s.workers[i], step)], performed := s.performed + [Current(s.workers[i])])
    case _ => s.(workers := s.workers[step.i := Moved(s.workers[step.i], step)])
  }

  ghost predicate Possible(s: State, steps: seq<Step>)
    requires Typed(s)
    decreases |steps|
  {
    steps == [] || (Enabled(s, steps[0]) && Possible(Apply(s, steps[0]), steps[1..]))
  }

  ghost function After(s: State, steps: seq<Step>): (t: State)
    requires Typed(s) && Possible(s, steps)
    ensures Typed(t)
    decreases |steps|
  {
    if steps == [] then s else After(Apply(s, steps[0]), steps[1..])
  }

  // ----- what every reachable state satisfies

  ghost predicate Distinct(xs: seq<Trace>) {
    forall i, j :: 0 <= i < j < |xs| ==> xs[i] != xs[j]
  }

  /** This worker owes the action of a trace it claimed, or died owing it. */
  predicate Owes(w: Worker, trace: Trace) {
    (w.phase.Claimed? || w.phase.Lost?) && w.next < |w.plan| && Current(w) == trace
  }

  /** Claims and traces are the same thing, one each. */
  ghost predicate ClaimsOk(s: State) {
    Distinct(s.granted) && forall t :: t in s.granted <==> t in s.traces
  }

  /** No uncommitted trace has a committed or an uncommitted double. */
  ghost predicate InsertsOk(s: State) {
    forall i :: 0 <= i < |s.workers| && s.workers[i].phase.Inserting? && s.workers[i].next < |s.workers[i].plan| ==>
      Current(s.workers[i]) !in s.traces && !Held(s, i, Current(s.workers[i]))
  }

  /** Each claimed action was performed, or exactly one worker owes it. */
  ghost predicate ActionsOk(s: State) {
    && Distinct(s.performed)
    && (forall t :: t in s.performed ==> t in s.traces)
    && (forall i, t :: 0 <= i < |s.workers| && Owes(s.workers[i], t) ==> t in s.traces && t !in s.performed)
    && (forall i, j, t :: 0 <= i < j < |s.workers| && Owes(s.workers[i], t) ==> !Owes(s.workers[j], t))
    && (forall t :: t in s.traces && t !in s.performed ==> exists i :: 0 <= i < |s.workers| && Owes(s.workers[i], t))
  }

  /** Everything a worker has passed in its plan left a trace, and its counters add up. */
  ghost predicate WorkerOk(s: State, w: Worker) {
    w.next <= |w.plan| && w.produced + w.repeated == w.next &&
    (forall k :: 0 <= k < w.next ==> Trace(w.plan[k].tenant, w.job, w.plan[k].key) in s.traces) &&
    (w.phase == Finished(DoneAll) ==> w.next == |w.plan|)
  }

  ghost predicate WorkersOk(s: State) {
    forall i :: 0 <= i < |s.workers| ==> WorkerOk(s, s.workers[i])
  }

  ghost predicate Inv(s: State) {
    Typed(s) && ClaimsOk(s) && InsertsOk(s) && ActionsOk(s) && WorkersOk(s)
  }

  lemma StepKeepsInserts(s: State, step: Step)
    requires Typed(s) && InsertsOk(s) && Enabled(s, step)
    ensures InsertsOk(Apply(s, step))
  {
    var t := Apply(s, step);
    forall i | 0 <= i < |t.workers| && t.workers[i].phase.Inserting?
      ensures Current(t.workers[i]) !in t.traces && !Held(t, i, Current(t.workers[i]))
    {
      var trace := Current(t.workers[i]);
      assert i < |s.workers| && trace == Current(s.workers[i]);
      assert trace !in s.traces && !Held(s, i, trace);
      if step.Commit? && step.i != i { assert !Writing(s.workers[step.i], trace); }
      forall j | 0 <= j < |t.workers| && j != i
        ensures !Writing(t.workers[j], trace)
      {
        if step.Insert? && step.i == j { assert Writing(s.workers[i], trace); }
      }
    }
  }

  lemma CommitKeepsActions(s: State, i: nat)
    requires Typed(s) && ActionsOk(s) && InsertsOk(s) && Enabled(s, Commit(i))
    ensures ActionsOk(Apply(s, Commit(i)))
  {
    var t := Apply(s, Commit(i));
    var trace := Current(s.workers[i]);
    forall j, x | 0 <= j < |t.workers|
      ensures Owes(t.workers[j], x) <==> (if j == i then x == trace else Owes(s.workers[j], x))
    {
    }
    forall x | x in t.traces && x !in t.performed
      ensures exists j :: 0 <= j < |t.workers| && Owes(t.workers[j], x)
    {
      if x == trace {
        assert Owes(t.workers[i], x);
      } else {
        var j :| 0 <= j < |s.workers| && Owes(s.workers[j], x);
        assert Owes(t.workers[j], x);
      }
    }
  }

  lemma PerformKeepsActions(s: State, i: nat)
    requires Typed(s) && ActionsOk(s) && Enabled(s, Perform(i))
    ensures ActionsOk(Apply(s, Perform(i)))
  {
    var t := Apply(s, Perform(i));
    var trace := Current(s.workers[i]);
    assert Owes(s.workers[i], trace) && trace !in s.performed;
    forall j, k | 0 <= j < k < |t.performed|
      ensures t.performed[j] != t.performed[k]
    {
      assert s.performed[j] in s.performed;
    }
    forall j, x | 0 <= j < |t.workers|
      ensures Owes(t.workers[j], x) <==> j != i && Owes(s.workers[j], x)
    {
    }
    forall x | x in t.traces && x !in t.performed
      ensures exists j :: 0 <= j < |t.workers| && Owes(t.workers[j], x)
    {
      assert t.performed[|s.performed|] == trace;
      var j :| 0 <= j < |s.workers| && Owes(s.workers[j], x);
      assert Owes(t.workers[j], x);
    }
    forall j, x | 0 <= j < |t.workers| && Owes(t.workers[j], x)
      ensures x !in t.performed
    {
      assert x != trace;
    }
  }

  lemma StepKeepsActions(s: State, step: Step)
    requires Typed(s) && ActionsOk(s) && InsertsOk(s) && Enabled(s, step)
    ensures ActionsOk(Apply(s, step))
  {
    match step
    case Commit(i) => CommitKeepsActions(s, i);
    case Perform(i) => PerformKeepsActions(s, i);
    case _ =>
      var t := Apply(s, step);
      forall j, x | 0 <= j < |t.workers|
        ensures Owes(t.workers[j], x) <==> j < |s.workers| && Owes(s.workers[j], x)
      {
      }
  }

  lemma StepKeepsInv(s: State, step: Step)
    requires Inv(s) && Enabled(s, step)
    ensures Inv(Apply(s, step))
  {
    StepKeepsInserts(s, step);
    StepKeepsActions(s, step);
    forall i | 0 <= i < |s.workers| && s.workers[i].phase.Claimed?
      ensures Current(s.workers[i]) in s.traces
    {
      assert Owes(s.workers[i], Current(s.workers[i]));
    }
  }

  lemma {:induction false} InvAlways(s: State, steps: seq<Step>)
    requires Inv(s) && Possible(s, steps)
    ensures Inv(After(s, steps))
    decreases |steps|
  {
    if steps != [] {
      StepKeepsInv(s, steps[0]);
      InvAlways(Apply(s, steps[0]), steps[1..]);
    }
  }

  // ----- what every history keeps

  /** However workers interleave, stop, die and plan again, no key is claimed twice and no action performed twice. */
  lemma ClaimedAndPerformedAtMostOnce(steps: seq<Step>)
    requires Possible(INITIAL, steps)
    ensures Distinct(After(INITIAL, steps).granted) && Distinct(After(INITIAL, steps).performed)
    ensures forall t :: t in After(INITIAL, steps).performed ==> t in After(INITIAL, steps).granted
  {
    InvAlways(INITIAL, steps);
  }

  /** A claimed action is missing only while its one claimer is about to perform it, or died on the way. */
  lemma MissingActionHasOneCulprit(steps: seq<Step>, trace: Trace)
    requires Possible(INITIAL, steps)
    requires trace in After(INITIAL, steps).granted && trace !in After(INITIAL, steps).performed
    ensures exists i :: 0 <= i < |After(INITIAL, steps).workers| && Owes(After(INITIAL, steps).workers[i], trace) &&
              forall j :: 0 <= j < |After(INITIAL, steps).workers| && j != i
                  ==> !Owes(After(INITIAL, steps).workers[j], trace)
  {
    InvAlways(INITIAL, steps);
    var s := After(INITIAL, steps);
    var i :| 0 <= i < |s.workers| && Owes(s.workers[i], trace);
  }

  lemma {:induction false} LostStaysLost(s: State, steps: seq<Step>, i: nat)
    requires Typed(s) && Possible(s, steps) && i < |s.workers| && s.workers[i].phase.Lost?
    ensures i < |After(s, steps).workers| && After(s, steps).workers[i] == s.workers[i]
    decreases |steps|
  {
    if steps != [] {
      assert Apply(s, steps[0]).workers[i] == s.workers[i];
      LostStaysLost(Apply(s, steps[0]), steps[1..], i);
    }
  }

  /** What a worker owed when it died is never performed, by anybody. */
  lemma LostIsNeverPerformed(s: State, steps: seq<Step>, i: nat, trace: Trace)
    requires Inv(s) && Possible(s, steps)
    requires i < |s.workers| && s.workers[i].phase.Lost? && Owes(s.workers[i], trace)
    ensures trace !in After(s, steps).performed
  {
    InvAlways(s, steps);
    LostStaysLost(s, steps, i);
    assert Owes(After(s, steps).workers[i], trace);
  }

  lemma ClaimedCanBePerformed(s: State, i: nat, trace: Trace)
    requires Inv(s) && i < |s.workers| && s.workers[i].phase.Claimed? && Owes(s.workers[i], trace)
    ensures Possible(s, [Perform(i)]) && trace in After(s, [Perform(i)]).performed
  {
    assert [Perform(i)][1..] == [];
    assert After(s, [Perform(i)]) == Apply(s, Perform(i));
  }

  ghost predicate NeverPerformed(s: State, trace: Trace)
    requires Typed(s)
  {
    forall steps :: Possible(s, steps) ==> trace !in After(s, steps).performed
  }

  /** A claimed action is undone for good exactly when the worker that claimed it died before performing it. */
  lemma UndoneForGoodIff(history: seq<Step>, trace: Trace)
    requires Possible(INITIAL, history) && trace in After(INITIAL, history).granted
    ensures var s := After(INITIAL, history);
            NeverPerformed(s, trace)
            <==> exists i :: 0 <= i < |s.workers| && s.workers[i].phase.Lost? && Owes(s.workers[i], trace)
  {
    InvAlways(INITIAL, history);
    var s := After(INITIAL, history);
    if i :| 0 <= i < |s.workers| && s.workers[i].phase.Lost? && Owes(s.workers[i], trace) {
      forall steps | Possible(s, steps)
        ensures trace !in After(s, steps).performed
      {
        LostIsNeverPerformed(s, steps, i, trace);
      }
    } else if trace in s.performed {
      assert Possible(s, []) && After(s, []) == s;
    } else {
      var i :| 0 <= i < |s.workers| && Owes(s.workers[i], trace);
      ClaimedCanBePerformed(s, i, trace);
    }
  }

  /** A worker that went through its whole plan leaves every planned key claimed, whoever claimed it. */
  lemma CompletePassCoversItsPlan(steps: seq<Step>, i: nat, k: nat)
    requires Possible(INITIAL, steps) && i < |After(INITIAL, steps).workers|
    requires After(INITIAL, steps).workers[i].phase == Finished(DoneAll) && k < |After(INITIAL, steps).workers[i].plan|
    ensures var s := After(INITIAL, steps);
            var w := s.workers[i];
            var trace := Trace(w.plan[k].tenant, w.job, w.plan[k].key);
            trace in s.traces && trace in s.granted && w.produced + w.repeated == |w.plan|
  {
    InvAlways(INITIAL, steps);
    assert WorkerOk(After(INITIAL, steps), After(INITIAL, steps).workers[i]);
  }

  // ----- one run of the code, item by item

  /** The traces of one job as a worker sees them, and the actions it has performed. */
  class Ledger {
    const job: string
    var traces: set<Item>
    var performed: seq<Item>

    constructor (job: string)
      ensures this.job == job && traces == {} && performed == []
    {
      this.job, traces, performed := job, {}, [];
    }

    /** True if the trace was set here and the action is to be performed. */
    method Claim(item: Item) returns (claimed: bool)
      modifies this`traces
      ensures claimed <==> item !in old(traces)
      ensures traces == old(traces) + {item}
    {
      claimed := item !in traces;
      traces := traces + {item};
    }
  }

  /** The items of a plan that still need their action, in order, each once. */
  function Fresh(plan: seq<Item>, traces: set<Item>): seq<Item> {
    if plan == [] then []
    else
      var earlier := plan[..|plan| - 1];
      var last := plan[|plan| - 1];
      if last in traces || last in earlier then Fresh(earlier, traces) else Fresh(earlier, traces) + [last]
  }

  datatype Record = Record(outcome: Outcome, produced: nat, repeated: nat)

  /**
   * One run: before every item the lock and the clock are asked. `held` and `inTime` are what they answer before the
   * item at that index.
   */
  method Execute(ledger: Ledger, plan: seq<Item>, held: nat -> bool, inTime: nat -> bool) returns (record: Record)
    modifies ledger
    ensures var n := record.produced + record.repeated;
            n <= |plan| && ledger.traces == old(ledger.traces) + (set x | x in plan[..n])
            && ledger.performed == old(ledger.performed) + Fresh(plan[..n], old(ledger.traces))
            && record.produced == |Fresh(plan[..n], old(ledger.traces))|
            && (forall k :: 0 <= k < n ==> held(k) && inTime(k))
            && match record.outcome
               case DoneAll => n == |plan|
               case LockLost => n < |plan| && !held(n)
               case TimedOut => n < |plan| && held(n) && !inTime(n)
  {
    var outcome := DoneAll;
    var produced, repeated := 0, 0;
    var i := 0;
    while i < |plan|
      invariant 0 <= i <= |plan| && i == produced + repeated
      invariant outcome == DoneAll
      invariant ledger.traces == old(ledger.traces) + (set x | x in plan[..i])
      invariant ledger.performed == old(ledger.performed) + Fresh(plan[..i], old(ledger.traces))
      invariant produced == |Fresh(plan[..i], old(ledger.traces))|
      invariant forall k :: 0 <= k < i ==> held(k) && inTime(k)
    {
      if !held(i) {
        outcome := LockLost;
        break;
      }
      if !inTime(i) {
        outcome := TimedOut;
        break;
      }
      assert plan[..i + 1][..i] == plan[..i] && plan[..i + 1] == plan[..i] + [plan[i]];
      var claimed := ledger.Claim(plan[i]);
      if claimed {
        ledger.performed := ledger.performed + [plan[i]];
        produced := produced + 1;
      } else {
        repeated := repeated + 1;
      }
      i := i + 1;
    }
    record := Record(outcome, produced, repeated);
  }

  lemma {:induction false} FreshMembers(plan: seq<Item>, traces: set<Item>, x: Item)
    ensures x in Fresh(plan, traces) <==> x in plan && x !in traces
  {
    if plan != [] {
      var earlier := plan[..|plan| - 1];
      assert plan == earlier + [plan[|plan| - 1]];
      FreshMembers(earlier, traces, x);
    }
  }

  lemma {:induction false} NothingFresh(plan: seq<Item>, traces: set<Item>)
    requires forall x :: x in plan ==> x in traces
    ensures Fresh(plan, traces) == []
  {
    if plan != [] {
      assert plan[|plan| - 1] in plan;
      NothingFresh(plan[..|plan| - 1], traces);
    }
  }

  lemma {:induction false} FreshHasNoRepeats(plan: seq<Item>, traces: set<Item>)
    ensures forall i, j :: 0 <= i < j < |Fresh(plan, traces)| ==> Fresh(plan, traces)[i] != Fresh(plan, traces)[j]
  {
    if plan != [] {
      FreshHasNoRepeats(plan[..|plan| - 1], traces);
      FreshMembers(plan[..|plan| - 1], traces, plan[|plan| - 1]);
    }
  }

  /**
   * A worker that loses the lock after `n` items and a successor with the same plan perform together, in order, exactly
   * what one undisturbed worker would have performed: nothing twice and nothing left out.
   */
  lemma {:induction false} HandoverLosesAndRepeatsNothing(plan: seq<Item>, n: nat, traces: set<Item>)
    requires n <= |plan|
    ensures Fresh(plan[..n], traces) + Fresh(plan, traces + (set x | x in plan[..n])) == Fresh(plan, traces)
  {
    var done := traces + (set x | x in plan[..n]);
    if n == |plan| {
      assert plan[..n] == plan;
      NothingFresh(plan, done);
    } else {
      var earlier, last := plan[..|plan| - 1], plan[|plan| - 1];
      assert earlier[..n] == plan[..n];
      HandoverLosesAndRepeatsNothing(earlier, n, traces);
      assert last in plan[..n] ==> last in earlier;
    }
  }

  // ----- the code's own loop is one path through this system

  function TraceOf(job: string, item: Item): Trace {
    Trace(item.tenant, job, item.key)
  }

  function TracesOf(job: string, items: seq<Item>): (traces: seq<Trace>)
    ensures |traces| == |items|
  {
    seq(|items|, k requires 0 <= k < |items| => TraceOf(job, items[k]))
  }

  /** The items of one job that have a trace: what its ledger shows. */
  function Claimable(job: string, traces: set<Trace>): (items: set<Item>)
    ensures forall x :: x in items <==> TraceOf(job, x) in traces
  {
    set t | t in traces && t.job == job :: Item(t.tenant, t.key)
  }

  lemma {:induction false} OneMoreStep(s: State, steps: seq<Step>, step: Step)
    requires Typed(s) && Possible(s, steps) && Enabled(After(s, steps), step)
    ensures Possible(s, steps + [step]) && After(s, steps + [step]) == Apply(After(s, steps), step)
    decreases |steps|
  {
    if steps == [] {
      assert [] + [step] == [step] && [step][1..] == [];
    } else {
      assert (steps + [step])[1..] == steps[1..] + [step];
      OneMoreStep(Apply(s, steps[0]), steps[1..], step);
    }
  }

  /** One step further on a path from `s`. */
  lemma Further(s: State, steps: seq<Step>, t: State, step: Step) returns (more: seq<Step>, u: State)
    requires Typed(s) && Possible(s, steps) && After(s, steps) == t && Enabled(t, step)
    ensures more == steps + [step] && Possible(s, more) && After(s, more) == u == Apply(t, step)
  {
    OneMoreStep(s, steps, step);
    more, u := steps + [step], Apply(t, step);
  }

  function ItemsIn(items: seq<Item>): set<Item> {
    set x | x in items
  }

  ghost predicate NobodyInserts(s: State) {
    forall j :: 0 <= j < |s.workers| ==> !s.workers[j].phase.Inserting?
  }

  /** One more worker has worked off `n` items of its plan since state `s`, and nobody else moved. */
  ghost predicate WorkedOff(s: State, t: State, job: string, plan: seq<Item>, n: nat) {
    CountedOff(s, t, job, plan, n) && BookedOff(s, t, job, plan, n)
  }

  ghost predicate CountedOff(s: State, t: State, job: string, plan: seq<Item>, n: nat) {
    n <= |plan| &&
    var due := |Fresh(plan[..n], Claimable(job, s.traces))|;
    due <= n && t.workers == s.workers + [Worker(job, plan, n, Ready, due, n - due)]
  }

  ghost predicate BookedOff(s: State, t: State, job: string, plan: seq<Item>, n: nat) {
    && n <= |plan|
    && t.performed == s.performed + TracesOf(job, Fresh(plan[..n], Claimable(job, s.traces)))
    && Claimable(job, t.traces) == Claimable(job, s.traces) + ItemsIn(plan[..n])
  }

  lemma NextItem(plan: seq<Item>, n: nat, traces: set<Item>)
    requires n < |plan|
    ensures Fresh(plan[..n + 1], traces)
            == if plan[n] in traces || plan[n] in plan[..n] then Fresh(plan[..n], traces)
                else Fresh(plan[..n], traces) + [plan[n]]
    ensures ItemsIn(plan[..n + 1]) == ItemsIn(plan[..n]) + {plan[n]}
  {
    assert plan[..n + 1][..n] == plan[..n] && plan[..n + 1] == plan[..n] + [plan[n]];
  }

  lemma OneMoreTrace(job: string, items: seq<Item>, item: Item)
    ensures TracesOf(job, items + [item]) == TracesOf(job, items) + [TraceOf(job, item)]
  {
  }

  lemma OneMoreClaimable(job: string, traces: set<Trace>, item: Item)
    ensures Claimable(job, traces + {TraceOf(job, item)}) == Claimable(job, traces) + {item}
  {
  }

  /** A claim and its action, undisturbed. */
  lemma ClaimAndPerform(s: State, steps: seq<Step>, t: State, i: nat) returns (more: seq<Step>, u: State)
    requires Typed(s) && Possible(s, steps) && After(s, steps) == t && NobodyInserts(t)
    requires i < |t.workers| && t.workers[i].phase.Ready? && t.workers[i].next < |t.workers[i].plan|
    requires Current(t.workers[i]) !in t.traces
    ensures Possible(s, more) && After(s, more) == u
    ensures var w, trace := t.workers[i], Current(t.workers[i]);
            u == State(t.traces + {trace}, t.granted + [trace], t.performed + [trace],
                       t.workers[i := w.(next := w.next + 1, produced := w.produced + 1)])
  {
    more, u := Further(s, steps, t, Insert(i));
    more, u := Further(s, more, u, Commit(i));
    more, u := Further(s, more, u, Perform(i));
    assert u.workers == t.workers[i := t.workers[i].(next := t.workers[i].next + 1,
                                                     produced := t.workers[i].produced + 1)];
  }

  lemma LastReplaced(earlier: seq<Worker>, last: Worker, now: Worker)
    ensures (earlier + [last])[|earlier| := now] == earlier + [now]
  {
  }

  lemma Regrouped(first: seq<Trace>, middle: seq<Trace>, last: seq<Trace>)
    ensures first + middle + last == first + (middle + last)
  {
  }

  lemma Counted(s: State, t: State, u: State, job: string, plan: seq<Item>, n: nat)
    requires n < |plan| && CountedOff(s, t, job, plan, n) && BookedOff(s, t, job, plan, n)
    requires var w := t.workers[|s.workers|];
             u.workers == t.workers[|s.workers| :=
               if TraceOf(job, plan[n]) in t.traces then w.(next := w.next + 1, repeated := w.repeated + 1)
               else w.(next := w.next + 1, produced := w.produced + 1)]
    ensures CountedOff(s, u, job, plan, n + 1)
  {
    OneMoreDue(s, t, job, plan, n);
    LastReplaced(s.workers, t.workers[|s.workers|], u.workers[|s.workers|]);
  }

  lemma OneMoreDue(s: State, t: State, job: string, plan: seq<Item>, n: nat)
    requires n < |plan| && BookedOff(s, t, job, plan, n)
    ensures |Fresh(plan[..n + 1], Claimable(job, s.traces))|
            == |Fresh(plan[..n], Claimable(job, s.traces))| + if TraceOf(job, plan[n]) in t.traces then 0 else 1
  {
    NextItem(plan, n, Claimable(job, s.traces));
  }

  lemma BookedRepeat(s: State, t: State, u: State, job: string, plan: seq<Item>, n: nat)
    requires n < |plan| && BookedOff(s, t, job, plan, n) && TraceOf(job, plan[n]) in t.traces
    requires u.traces == t.traces && u.performed == t.performed
    ensures BookedOff(s, u, job, plan, n + 1)
  {
    NextItem(plan, n, Claimable(job, s.traces));
    assert plan[n] in Claimable(job, t.traces);
  }

  lemma BookedClaim(s: State, t: State, u: State, job: string, plan: seq<Item>, n: nat)
    requires n < |plan| && BookedOff(s, t, job, plan, n) && TraceOf(job, plan[n]) !in t.traces
    requires u.traces == t.traces + {TraceOf(job, plan[n])} && u.performed == t.performed + [TraceOf(job, plan[n])]
    ensures BookedOff(s, u, job, plan, n + 1)
  {
    NextItem(plan, n, Claimable(job, s.traces));
    OneMoreClaimable(job, t.traces, plan[n]);
    OneMoreTrace(job, Fresh(plan[..n], Claimable(job, s.traces)), plan[n]);
    Regrouped(s.performed, TracesOf(job, Fresh(plan[..n], Claimable(job, s.traces))), [TraceOf(job, plan[n])]);
  }

  /** The next item of the plan: a repeat, or a claim and the action. */
  lemma WorkOffOne(s: State, steps: seq<Step>, t: State, job: string, plan: seq<Item>, n: nat)
    returns (more: seq<Step>, u: State)
    requires Typed(s) && NobodyInserts(s) && Possible(s, steps) && After(s, steps) == t
    requires n < |plan| && WorkedOff(s, t, job, plan, n)
    ensures Possible(s, more) && After(s, more) == u && WorkedOff(s, u, job, plan, n + 1)
  {
    var i := |s.workers|;
    assert Current(t.workers[i]) == TraceOf(job, plan[n]);
    if TraceOf(job, plan[n]) in t.traces {
      more, u := Further(s, steps, t, Repeat(i));
      BookedRepeat(s, t, u, job, plan, n);
    } else {
      more, u := ClaimAndPerform(s, steps, t, i);
      BookedClaim(s, t, u, job, plan, n);
    }
    Counted(s, t, u, job, plan, n);
  }

  lemma {:induction false} WorkOff(s: State, job: string, plan: seq<Item>, n: nat) returns (steps: seq<Step>, t: State)
    requires Typed(s) && NobodyInserts(s) && n <= |plan|
    ensures Possible(s, steps) && After(s, steps) == t && WorkedOff(s, t, job, plan, n)
  {
    if n == 0 {
      steps, t := Further(s, [], s, Start(job, plan));
      assert plan[..0] == [] && TracesOf(job, []) == [];
    } else {
      steps, t := WorkOff(s, job, plan, n - 1);
      steps, t := WorkOffOne(s, steps, t, job, plan, n - 1);
    }
  }

  /**
   * From any state in which nobody is about to insert, a worker can work off any part of any plan and stop there, and
   * that leaves exactly the traces, actions and counters that `Execute` ensures.
   */
  lemma UndisturbedWorkerExecutes(s: State, job: string, plan: seq<Item>, n: nat, outcome: Outcome)
    returns (steps: seq<Step>)
    requires Typed(s) && NobodyInserts(s) && n <= |plan| && (outcome == DoneAll <==> n == |plan|)
    ensures Possible(s, steps)
    ensures var t := After(s, steps);
            var due := Fresh(plan[..n], Claimable(job, s.traces));
            && |t.workers| == |s.workers| + 1 && t.workers[|s.workers|].phase == Finished(outcome)
            && t.workers[|s.workers|].produced == |due|
            && t.workers[|s.workers|].produced + t.workers[|s.workers|].repeated == n
            && t.performed == s.performed + TracesOf(job, due)
            && Claimable(job, t.traces) == Claimable(job, s.traces) + ItemsIn(plan[..n])
  {
    var t;
    steps, t := WorkOff(s, job, plan, n);
    steps, t := Further(s, steps, t, if outcome == DoneAll then Finish(|s.workers|) else Stop(|s.workers|, outcome));
  }
}
