/**
 * Any number of guarded requests against one database, step by step and interleaved: uncommitted writes are private to
 * their run, an insert waits for a rival's open insert of the same key, and any run may be cut off at any point, also
 * between the database's commit and the handler's hearing of it.
 */
module Protocol {
  import opened Outcomes
  import opened Idempotency

  /**
   * How far one run has come. `Closing` has sent its commit, `Failing` will roll back; `Landed` is committed, but the
   * handler has not heard of it yet. `Gone` died, or got an exception from a broken connection, and left nothing;
   * `CutOff` did so when its effect had landed; of `InDoubt` the database has yet to decide. `threw` tells whether the
   * client hears of it.
   */
  datatype Phase =
    | Opened
    | Asking(snapshot: Option<Row>)
    | Holding
    | Produced(answer: SavedAnswer)
    | Closing(served: Served)
    | Failing(cause: Attempt<Served>)
    | Landed(served: Served)
    | Ended(reply: Attempt<Served>)
    | InDoubt(served: Served, threw: bool)
    | CutOff(answer: SavedAnswer, threw: bool)
    | Gone(threw: bool)

  /** A run, its phase, and what its transaction has written and not committed. */
  datatype Run = Run(work: Work, phase: Phase, row: Option<Row>, writes: seq<string>)

  datatype State = State(keys: map<KeyId, Row>, effects: seq<Effect>, runs: seq<Run>, now: int, swept: seq<KeyId>)

  const INITIAL := State(map[], [], [], 0, [])

  datatype Step =
    | Arrive(work: Work)                      // a handler opens the tenant scope
    | Ask(i: nat)                             // the claim statement takes its snapshot
    | Resolve(i: nat, current: bool)          // it inserts, or reads the current row or the one of its snapshot
    | Operate(i: nat, operation: Operation)   // the scenario runs
    | Close(i: nat)                           // the answer is saved on the key
    | Land(i: nat)                            // the database commits
    | Return(i: nat)                          // the handler hears of it and answers
    | Rollback(i: nat)
    | Sever(i: nat, threw: bool)              // the process dies, or its connection breaks and the handler throws
    | Abandon(i: nat)                         // the database gives up a commit it was sent by a severed run
    | Tick(ticks: nat)
    | Sweep(id: KeyId)                        // db/http/prune.sql takes an expired row

  /** Nobody else has an uncommitted row under this key: an insert does not have to wait. */
  ghost predicate Unrivalled(s: State, i: nat, id: KeyId) {
    forall j :: 0 <= j < |s.runs| && j != i && s.runs[j].work.id == id ==> s.runs[j].row.None?
  }

  predicate Over(phase: Phase) {
    phase.Ended? || phase.InDoubt? || phase.CutOff? || phase.Gone?
  }

  ghost predicate Enabled(s: State, step: Step) {
    match step
    case Arrive(work) => work.run == |s.runs|
    case Ask(i) => i < |s.runs| && s.runs[i].phase.Opened?
    case Resolve(i, _) => i < |s.runs| && s.runs[i].phase.Asking? && Unrivalled(s, i, s.runs[i].work.id)
    case Operate(i, _) => i < |s.runs| && s.runs[i].phase.Holding?
    case Close(i) => i < |s.runs| && s.runs[i].phase.Produced?
    case Land(i) => i < |s.runs| && (s.runs[i].phase.Closing? || s.runs[i].phase.InDoubt?)
    case Return(i) => i < |s.runs| && s.runs[i].phase.Landed?
    case Rollback(i) => i < |s.runs| && s.runs[i].phase.Failing?
    case Sever(i, _) => i < |s.runs| && !Over(s.runs[i].phase)
    case Abandon(i) => i < |s.runs| && s.runs[i].phase.InDoubt?
    case Tick(_) => true
    case Sweep(id) => id in s.keys && s.keys[id].expiresAt <= s.now
  }

  function Resolved(run: Run, keys: map<KeyId, Row>, current: bool): Run
    requires run.phase.Asking?
  {
    var id := run.work.id;
    if id !in keys then
      run.(phase := Holding, row := Some(InProgress(run.work.fingerprint, run.work.expiresAt)))
    else
      match if current then Some(keys[id]) else run.phase.snapshot
      case None => run.(phase := Failing(Thrown))
      case Some(seen) =>
        match Judge(seen, run.work.fingerprint)
        case Value(claim) => run.(phase := Closing(Served(claim.outcome, claim.answer)))
        case Refused(error) => run.(phase := Failing(Refused(error)))
        case Thrown => run.(phase := Failing(Thrown))
  }

  function Operated(run: Run, operation: Operation): Run {
    run.(writes := run.writes + operation.writes,
         phase := match operation.result
         case Value(body) => Produced(SavedAnswer(OK, body))
         case Refused(error) => Failing(Refused(error))
         case Thrown => Failing(Thrown))
  }

  function Closed(run: Run): Run
    requires run.phase.Produced?
  {
    match run.row
    case Some(InProgress(fingerprint, expiresAt)) =>
      run.(row := Some(Completed(fingerprint, expiresAt, run.phase.answer)),
           phase := Closing(Served(Taken, run.phase.answer)))
    case _ => run.(phase := Failing(Thrown))
  }

  /** Where a run is once the database has committed it. */
  function LandedPhase(phase: Phase): Phase
    requires phase.Closing? || phase.InDoubt?
  {
    match phase
    case Closing(served) => Landed(served)
    case InDoubt(served, threw) => if served.outcome == Taken then CutOff(served.answer, threw) else Gone(threw)
  }

  function Committed(s: State, i: nat): State
    requires i < |s.runs| && (s.runs[i].phase.Closing? || s.runs[i].phase.InDoubt?)
  {
    var run := s.runs[i];
    var done := s.(runs := s.runs[i := Dropped(run, LandedPhase(run.phase))]);
    if run.row.None? then done
    else done.(keys := s.keys[run.work.id := run.row.value],
               effects := s.effects + [Effect(run.work, run.writes, run.phase.served.answer, s.now)])
  }

  function Dropped(run: Run, phase: Phase): Run {
    run.(phase := phase, row := None, writes := [])
  }

  /** A run that loses its process or its connection: only the database can still decide about a commit it was sent. */
  function Severed(run: Run, threw: bool): Run {
    match run.phase
    case Closing(served) => run.(phase := InDoubt(served, threw))
    case Landed(Served(Taken, answer)) => run.(phase := CutOff(answer, threw))
    case _ => Dropped(run, Gone(threw))
  }

  /** Steps that move one run along and commit nothing. */
  ghost predicate IsMove(step: Step) {
    step.Ask? || step.Resolve? || step.Operate? || step.Close? || step.Return? || step.Rollback? || step.Sever?
        || step.Abandon?
  }

  ghost function Moved(s: State, step: Step): Run
    requires Enabled(s, step) && IsMove(step)
  {
    var run := s.runs[step.i];
    match step
    case Ask(_) => run.(phase := Asking(Lookup(s.keys, run.work.id)))
    case Resolve(_, current) => Resolved(run, s.keys, current)
    case Operate(_, operation) => Operated(run, operation)
    case Close(_) => Closed(run)
    case Return(_) => run.(phase := Ended(Value(run.phase.served)))
    case Rollback(_) => Dropped(run, Ended(run.phase.cause))
    case Sever(_, threw) => Severed(run, threw)
    case Abandon(_) => Dropped(run, Gone(run.phase.threw))
  }

  ghost function Apply(s: State, step: Step): State
    requires Enabled(s, step)
  {
    match step
    case Arrive(work) => s.(runs := s.runs + [Run(work, Opened, None, [])])
    case Land(i) => Committed(s, i)
    case Tick(ticks) => s.(now := s.now + ticks)
    case Sweep(id) => s.(keys := s.keys - {id}, swept := s.swept + [id])
    case _ => s.(runs := s.runs[step.i := Moved(s, step)])
  }

  /** A history: steps that can be taken one after the other from `s`. */
  ghost predicate Possible(s: State, steps: seq<Step>)
    decreases |steps|
  {
    steps == [] || (Enabled(s, steps[0]) && Possible(Apply(s, steps[0]), steps[1..]))
  }

  ghost function After(s: State, steps: seq<Step>): State
    requires Possible(s, steps)
    decreases |steps|
  {
    if steps == [] then s else After(Apply(s, steps[0]), steps[1..])
  }

  // ----- what every reachable state satisfies

  /** A committed row is the saved answer of a committed scenario that brought the same key and body. */
  ghost predicate Backed(s: State, id: KeyId, row: Row) {
    row.Completed? &&
    exists e :: 0 <= e < |s.effects| && Explains(s.effects[e], id, row)
  }

  ghost predicate Explains(effect: Effect, id: KeyId, row: Row) {
    effect.work.id == id && row == Completed(effect.work.fingerprint, effect.work.expiresAt, effect.answer)
  }

  ghost predicate RowsOk(s: State) {
    forall id :: id in s.keys ==> Backed(s, id, s.keys[id])
  }

  ghost predicate RunsOk(s: State) {
    forall i :: 0 <= i < |s.runs| ==> RunOk(s, s.runs[i])
  }

  /** Which uncommitted writes belong to which phase, and what a run was told is true of the committed effects. */
  ghost predicate RunOk(s: State, run: Run) {
    match run.phase
    case Opened => run.row.None? && run.writes == []
    case Asking(snapshot) => run.row.None? && run.writes == []
      && (snapshot.Some? ==> Backed(s, run.work.id, snapshot.value))
    case Holding => run.row == Some(InProgress(run.work.fingerprint, run.work.expiresAt)) && run.writes == []
    case Produced(_) => run.row == Some(InProgress(run.work.fingerprint, run.work.expiresAt))
    case Closing(served) => SentOk(s, run, served)
    case InDoubt(served, _) => SentOk(s, run, served)
    case Failing(cause) => (cause.Value? ==> false) && Truthful(s, run.work, cause)
    case Landed(served) => run.row.None? && run.writes == [] && Truthful(s, run.work, Value(served))
    case Ended(reply) => run.row.None? && run.writes == [] && Truthful(s, run.work, reply)
    case CutOff(_, _) => run.row.None? && run.writes == []
    case Gone(_) => run.row.None? && run.writes == []
  }

  /** What a commit that was sent will publish: a completed row with its answer, or nothing. */
  ghost predicate SentOk(s: State, run: Run, served: Served) {
    if served.outcome == Taken
    then run.row == Some(Completed(run.work.fingerprint, run.work.expiresAt, served.answer))
    else run.row.None? && run.writes == [] && Truthful(s, run.work, Value(served))
  }

  /**
   * A reply never lies: a replay carries the answer of a committed scenario with this key and this body, "reused"
   * means the key belongs to another body, and nobody is ever told "in flight".
   */
  ghost predicate Truthful(s: State, work: Work, reply: Attempt<Served>) {
    match reply
    case Value(Served(Taken, _)) => true
    case Value(Served(InFlight, _)) => false
    case Value(Served(Replay, answer)) =>
      exists e :: 0 <= e < |s.effects| && s.effects[e].work.id == work.id
                  && s.effects[e].work.fingerprint == work.fingerprint && s.effects[e].answer == answer
    case Refused(_) => true
    case Thrown => true
  }

  /** The lock: a run that holds an uncommitted row holds it alone, and nobody has committed one meanwhile. */
  ghost predicate Exclusive(s: State) {
    forall i :: 0 <= i < |s.runs| && s.runs[i].row.Some? ==>
      s.runs[i].work.id !in s.keys && Unrivalled(s, i, s.runs[i].work.id)
  }

  /** This run was told that its scenario ran now. */
  ghost predicate ToldTaken(run: Run) {
    run.phase.Ended? && run.phase.reply.Value? && run.phase.reply.value.outcome == Taken
  }

  /**
   * The answer this run's effect was committed with, if it was: told to the client, not told yet, or never to be told.
   */
  function LandedAnswer(phase: Phase): Option<SavedAnswer> {
    match phase
    case Landed(Served(Taken, answer)) => Some(answer)
    case Ended(Value(Served(Taken, answer))) => Some(answer)
    case CutOff(answer, _) => Some(answer)
    case _ => None
  }

  ghost predicate MadeBy(effect: Effect, run: Run) {
    run.work == effect.work && LandedAnswer(run.phase) == Some(effect.answer)
  }

  /** An effect and the run that made it belong together, one to one. */
  ghost predicate Owned(s: State) {
    && (forall i :: 0 <= i < |s.runs| ==> s.runs[i].work.run == i)
    && (forall e :: 0 <= e < |s.effects| ==>
          s.effects[e].work.run < |s.runs| && MadeBy(s.effects[e], s.runs[s.effects[e].work.run]))
    && (forall e, f :: 0 <= e < f < |s.effects| ==> s.effects[e].work.run != s.effects[f].work.run)
    && (forall i :: 0 <= i < |s.runs| && LandedAnswer(s.runs[i].phase).Some? ==> HasEffect(s, i))
  }

  ghost predicate HasEffect(s: State, i: nat) {
    exists e :: 0 <= e < |s.effects| && s.effects[e].work.run == i
  }

  /** A second effect under a key can only land after the first one's deadline; a missing row means it has passed. */
  ghost predicate Spaced(s: State) {
    (forall e :: 0 <= e < |s.effects| ==> s.effects[e].at <= s.now) &&
    (forall e, f :: 0 <= e < f < |s.effects| && s.effects[e].work.id == s.effects[f].work.id ==>
      s.effects[e].work.expiresAt <= s.effects[f].at) &&
    (forall e :: 0 <= e < |s.effects| && s.effects[e].work.id !in s.keys ==> s.effects[e].work.expiresAt <= s.now) &&
    (forall e :: 0 <= e < |s.effects| && s.effects[e].work.id in s.keys ==>
      s.effects[e].work.expiresAt <= s.now || Explains(s.effects[e], s.effects[e].work.id,
                                                       s.keys[s.effects[e].work.id]))
  }

  /** How often a scenario was executed under this key. */
  function Executed(effects: seq<Effect>, id: KeyId): nat {
    if effects == [] then 0
    else Executed(effects[..|effects| - 1], id) + if effects[|effects| - 1].work.id == id then 1 else 0
  }

  function Times(ids: seq<KeyId>, id: KeyId): nat {
    if ids == [] then 0 else Times(ids[..|ids| - 1], id) + if ids[|ids| - 1] == id then 1 else 0
  }

  ghost predicate Balanced(s: State, id: KeyId) {
    Executed(s.effects, id) == Times(s.swept, id) + if id in s.keys then 1 else 0
  }

  /** Bookkeeping: an executed scenario left exactly one row, and each row is still there or was swept. */
  ghost predicate Conserved(s: State) {
    forall id :: Balanced(s, id)
  }

  ghost predicate Inv(s: State) {
    Owned(s) && Exclusive(s) && Spaced(s) && Conserved(s) && RowsOk(s) && RunsOk(s)
  }

  // ----- every step keeps the invariant, part by part

  /** Same runs up to the ones that move; nothing committed, and what had landed has. */
  lemma OwnedStays(s: State, t: State)
    requires Owned(s) && t.effects == s.effects && |s.runs| <= |t.runs|
    requires forall j :: 0 <= j < |t.runs| ==> t.runs[j].work.run == j
    requires forall j :: 0 <= j < |s.runs| ==> t.runs[j].work == s.runs[j].work
    requires forall j :: 0 <= j < |s.runs| ==> LandedAnswer(t.runs[j].phase) == LandedAnswer(s.runs[j].phase)
    requires forall j :: |s.runs| <= j < |t.runs| ==> LandedAnswer(t.runs[j].phase).None?
    ensures Owned(t)
  {
    forall j | 0 <= j < |t.runs| && LandedAnswer(t.runs[j].phase).Some?
      ensures HasEffect(t, j)
    {
      HasEffectStays(s, t, j);
    }
  }

  lemma HasEffectStays(s: State, t: State, i: nat)
    requires HasEffect(s, i) && s.effects <= t.effects
    ensures HasEffect(t, i)
  {
    var e :| 0 <= e < |s.effects| && s.effects[e].work.run == i;
    assert t.effects[e].work.run == i;
  }

  lemma BackedStays(s: State, t: State, id: KeyId, row: Row)
    requires Backed(s, id, row) && s.effects <= t.effects
    ensures Backed(t, id, row)
  {
    var e :| 0 <= e < |s.effects| && Explains(s.effects[e], id, row);
    assert Explains(t.effects[e], id, row);
  }

  lemma ReplyStaysTrue(s: State, t: State, work: Work, reply: Attempt<Served>)
    requires Truthful(s, work, reply) && s.effects <= t.effects
    ensures Truthful(t, work, reply)
  {
    if reply.Value? && reply.value.outcome == Replay {
      var e :| 0 <= e < |s.effects| && s.effects[e].work.id == work.id
               && s.effects[e].work.fingerprint == work.fingerprint && s.effects[e].answer == reply.value.answer;
      assert t.effects[e] == s.effects[e];
    }
  }

  lemma RunStaysOk(s: State, t: State, run: Run)
    requires RunOk(s, run) && s.effects <= t.effects
    ensures RunOk(t, run)
  {
    match run.phase
    case Asking(snapshot) => if snapshot.Some? { BackedStays(s, t, run.work.id, snapshot.value); }
    case Closing(served) => if served.outcome != Taken { ReplyStaysTrue(s, t, run.work, Value(served)); }
    case InDoubt(served, _) => if served.outcome != Taken { ReplyStaysTrue(s, t, run.work, Value(served)); }
    case Landed(served) => ReplyStaysTrue(s, t, run.work, Value(served));
    case Failing(cause) => ReplyStaysTrue(s, t, run.work, cause);
    case Ended(reply) => ReplyStaysTrue(s, t, run.work, reply);
    case _ =>
  }

  lemma RecordsStayOk(s: State, t: State)
    requires RowsOk(s) && RunsOk(s) && s.effects <= t.effects
    requires forall id :: id in t.keys ==> (id in s.keys && t.keys[id] == s.keys[id]) || Backed(t, id, t.keys[id])
    requires forall j :: 0 <= j < |t.runs| ==> (j < |s.runs| && t.runs[j] == s.runs[j]) || RunOk(t, t.runs[j])
    ensures RowsOk(t) && RunsOk(t)
  {
    forall id | id in t.keys
      ensures Backed(t, id, t.keys[id])
    {
      if id in s.keys && t.keys[id] == s.keys[id] { BackedStays(s, t, id, s.keys[id]); }
    }
    forall j | 0 <= j < |t.runs|
      ensures RunOk(t, t.runs[j])
    {
      if j < |s.runs| && t.runs[j] == s.runs[j] { RunStaysOk(s, t, s.runs[j]); }
    }
  }

  lemma ExclusiveStays(s: State, t: State, i: nat)
    requires Exclusive(s) && |s.runs| <= |t.runs| && t.keys.Keys <= s.keys.Keys
    requires forall j :: 0 <= j < |s.runs| ==> t.runs[j].work == s.runs[j].work
    requires forall j :: 0 <= j < |t.runs| && j != i && t.runs[j].row.Some? ==> j < |s.runs| && s.runs[j].row.Some?
    requires i < |t.runs| && t.runs[i].row.Some? ==>
               i < |s.runs| && t.runs[i].work.id !in s.keys && Unrivalled(s, i, t.runs[i].work.id)
    ensures Exclusive(t)
  {
    forall j | 0 <= j < |t.runs| && t.runs[j].row.Some?
      ensures t.runs[j].work.id !in t.keys && Unrivalled(t, j, t.runs[j].work.id)
    {
      assert j == i || Unrivalled(s, j, s.runs[j].work.id);
    }
  }

  lemma SpacedStays(s: State, t: State)
    requires Spaced(s) && Conserved(s) && t.keys == s.keys && t.effects == s.effects && t.swept == s.swept
             && s.now <= t.now
    ensures Spaced(t) && Conserved(t)
  {
    forall id
      ensures Balanced(t, id)
    {
      assert Balanced(s, id);
    }
  }

  lemma MovingKeepsOwned(s: State, i: nat, run: Run)
    requires Owned(s) && i < |s.runs| && run.work == s.runs[i].work
             && LandedAnswer(run.phase) == LandedAnswer(s.runs[i].phase)
    ensures Owned(s.(runs := s.runs[i := run]))
  {
    OwnedStays(s, s.(runs := s.runs[i := run]));
  }

  lemma MovingKeepsExclusive(s: State, i: nat, run: Run)
    requires Exclusive(s) && i < |s.runs| && run.work == s.runs[i].work
    requires run.row.Some? ==> run.work.id !in s.keys && Unrivalled(s, i, run.work.id)
    ensures Exclusive(s.(runs := s.runs[i := run]))
  {
    ExclusiveStays(s, s.(runs := s.runs[i := run]), i);
  }

  lemma MovingKeepsRecords(s: State, i: nat, run: Run)
    requires RowsOk(s) && RunsOk(s) && i < |s.runs| && RunOk(s, run)
    ensures RowsOk(s.(runs := s.runs[i := run])) && RunsOk(s.(runs := s.runs[i := run]))
  {
    RunStaysOk(s, s.(runs := s.runs[i := run]), run);
    RecordsStayOk(s, s.(runs := s.runs[i := run]));
  }

  /** Steps that only move one run along, and do not commit it. */
  lemma MovingARunKeepsInv(s: State, i: nat, run: Run)
    requires Inv(s) && i < |s.runs| && run.work == s.runs[i].work && RunOk(s, run)
    requires LandedAnswer(run.phase) == LandedAnswer(s.runs[i].phase)
    requires run.row.Some? ==> run.work.id !in s.keys && Unrivalled(s, i, run.work.id)
    ensures Inv(s.(runs := s.runs[i := run]))
  {
    MovingKeepsOwned(s, i, run);
    MovingKeepsExclusive(s, i, run);
    MovingKeepsRecords(s, i, run);
    SpacedStays(s, s.(runs := s.runs[i := run]));
  }

  lemma ArrivalKeepsOwned(s: State, work: Work)
    requires Owned(s) && work.run == |s.runs|
    ensures Owned(Apply(s, Arrive(work)))
  {
    OwnedStays(s, Apply(s, Arrive(work)));
  }

  lemma ArrivalKeepsExclusive(s: State, work: Work)
    requires Exclusive(s) && work.run == |s.runs|
    ensures Exclusive(Apply(s, Arrive(work)))
  {
    ExclusiveStays(s, Apply(s, Arrive(work)), |s.runs|);
  }

  lemma ArrivalKeepsRecords(s: State, work: Work)
    requires RowsOk(s) && RunsOk(s) && work.run == |s.runs|
    ensures RowsOk(Apply(s, Arrive(work))) && RunsOk(Apply(s, Arrive(work)))
  {
    RecordsStayOk(s, Apply(s, Arrive(work)));
  }

  lemma ArrivalKeepsInv(s: State, work: Work)
    requires Inv(s) && work.run == |s.runs|
    ensures Inv(Apply(s, Arrive(work)))
  {
    ArrivalKeepsOwned(s, work);
    ArrivalKeepsExclusive(s, work);
    ArrivalKeepsRecords(s, work);
    SpacedStays(s, Apply(s, Arrive(work)));
  }

  lemma ClockKeepsOwned(s: State, ticks: nat)
    requires Owned(s) && Exclusive(s)
    ensures Owned(Apply(s, Tick(ticks))) && Exclusive(Apply(s, Tick(ticks)))
  {
    OwnedStays(s, Apply(s, Tick(ticks)));
    ExclusiveStays(s, Apply(s, Tick(ticks)), |s.runs|);
  }

  lemma ClockKeepsInv(s: State, ticks: nat)
    requires Inv(s)
    ensures Inv(Apply(s, Tick(ticks)))
  {
    ClockKeepsOwned(s, ticks);
    RecordsStayOk(s, Apply(s, Tick(ticks)));
    SpacedStays(s, Apply(s, Tick(ticks)));
  }

  lemma SweepKeepsInv(s: State, id: KeyId)
    requires Inv(s) && Enabled(s, Sweep(id))
    ensures Inv(Apply(s, Sweep(id)))
  {
    var t := Apply(s, Sweep(id));
    OwnedStays(s, t);
    ExclusiveStays(s, t, |s.runs|);
    RecordsStayOk(s, t);
    SweepKeepsSpaced(s, id);
  }

  lemma SweepKeepsSpaced(s: State, id: KeyId)
    requires Spaced(s) && Conserved(s) && Enabled(s, Sweep(id))
    ensures Spaced(Apply(s, Sweep(id))) && Conserved(Apply(s, Sweep(id)))
  {
    var t := Apply(s, Sweep(id));
    assert t.swept[..|s.swept|] == s.swept;
    forall other
      ensures Balanced(t, other)
    {
      assert Balanced(s, other);
    }
  }

  lemma LandingKeepsOwned(s: State, i: nat)
    requires Owned(s) && Enabled(s, Land(i)) && s.runs[i].row.Some? && s.runs[i].phase.served.outcome == Taken
    ensures Owned(Committed(s, i))
  {
    var t := Committed(s, i);
    forall j | 0 <= j < |t.runs| && LandedAnswer(t.runs[j].phase).Some?
      ensures HasEffect(t, j)
    {
      if j == i {
        assert t.effects[|s.effects|].work.run == j;
      } else {
        HasEffectStays(s, t, j);
      }
    }
  }

  lemma LandingKeepsSpaced(s: State, i: nat)
    requires Spaced(s) && Enabled(s, Land(i))
    requires s.runs[i].row == Some(Completed(s.runs[i].work.fingerprint, s.runs[i].work.expiresAt,
                                             s.runs[i].phase.served.answer))
    requires s.runs[i].work.id !in s.keys
    ensures Spaced(Committed(s, i))
  {
  }

  lemma LandingKeepsConserved(s: State, i: nat)
    requires Conserved(s) && Enabled(s, Land(i)) && s.runs[i].row.Some? && s.runs[i].work.id !in s.keys
    ensures Conserved(Committed(s, i))
  {
    var t := Committed(s, i);
    assert t.effects[..|s.effects|] == s.effects;
    forall id
      ensures Balanced(t, id)
    {
      assert Balanced(s, id);
    }
  }

  lemma LandingKeepsRecords(s: State, i: nat)
    requires RowsOk(s) && RunsOk(s) && Enabled(s, Land(i))
    requires s.runs[i].row == Some(Completed(s.runs[i].work.fingerprint, s.runs[i].work.expiresAt,
                                             s.runs[i].phase.served.answer))
    requires s.runs[i].phase.served.outcome == Taken
    ensures RowsOk(Committed(s, i)) && RunsOk(Committed(s, i))
  {
    assert Explains(Committed(s, i).effects[|s.effects|], s.runs[i].work.id, s.runs[i].row.value);
    RecordsStayOk(s, Committed(s, i));
  }

  lemma LandingKeepsInv(s: State, i: nat)
    requires Inv(s) && Enabled(s, Land(i))
    ensures Inv(Committed(s, i))
  {
    var run := s.runs[i];
    assert RunOk(s, run);
    if run.row.None? {
      MovingARunKeepsInv(s, i, Dropped(run, LandedPhase(run.phase)));
    } else {
      LandingKeepsOwned(s, i);
      LandingKeepsSpaced(s, i);
      LandingKeepsConserved(s, i);
      LandingKeepsRecords(s, i);
      LandingKeepsExclusive(s, i);
    }
  }

  lemma LandingKeepsExclusive(s: State, i: nat)
    requires Exclusive(s) && Enabled(s, Land(i)) && s.runs[i].row.Some?
    ensures Exclusive(Committed(s, i))
  {
    var t := Committed(s, i);
    forall j | 0 <= j < |t.runs| && t.runs[j].row.Some?
      ensures t.runs[j].work.id !in t.keys && Unrivalled(t, j, t.runs[j].work.id)
    {
      assert Unrivalled(s, j, s.runs[j].work.id);
    }
  }

  lemma ResolvingIsOk(s: State, run: Run, current: bool)
    requires RunOk(s, run) && run.phase.Asking?
    requires run.work.id in s.keys ==> Backed(s, run.work.id, s.keys[run.work.id])
    ensures RunOk(s, Resolved(run, s.keys, current))
  {
    if run.work.id in s.keys {
      var seen := if current then Some(s.keys[run.work.id]) else run.phase.snapshot;
      if seen.Some? {
        var e :| 0 <= e < |s.effects| && Explains(s.effects[e], run.work.id, seen.value);
        assert s.effects[e].answer == seen.value.answer;
      }
    }
  }

  lemma MovedIsOk(s: State, step: Step)
    requires Enabled(s, step) && IsMove(step)
    requires RunOk(s, s.runs[step.i])
    requires s.runs[step.i].work.id in s.keys ==> Backed(s, s.runs[step.i].work.id, s.keys[s.runs[step.i].work.id])
    ensures RunOk(s, Moved(s, step)) && LandedAnswer(Moved(s, step).phase) == LandedAnswer(s.runs[step.i].phase)
    ensures Moved(s, step).work == s.runs[step.i].work
    ensures Moved(s, step).row.Some? ==>
              s.runs[step.i].row.Some? || (step.Resolve? && s.runs[step.i].work.id !in s.keys)
  {
    if step.Resolve? { ResolvingIsOk(s, s.runs[step.i], step.current); }
  }

  lemma StepKeepsInv(s: State, step: Step)
    requires Inv(s) && Enabled(s, step)
    ensures Inv(Apply(s, step))
  {
    match step
    case Arrive(work) => ArrivalKeepsInv(s, work);
    case Land(i) => LandingKeepsInv(s, i);
    case Tick(ticks) => ClockKeepsInv(s, ticks);
    case Sweep(id) => SweepKeepsInv(s, id);
    case _ =>
      MovedIsOk(s, step);
      MovingARunKeepsInv(s, step.i, Moved(s, step));
  }

  lemma {:induction false} InvAlways(s: State, steps: seq<Step>)
    requires Inv(s) && Possible(s, steps)
    ensures Inv(After(s, steps))
    decreases |steps|
  {
    if steps != [] {
      StepKeepsInv(s, steps[0]);
      InvAlways(Apply(s, steps[0]), steps[1..]);
    }
  }
}
