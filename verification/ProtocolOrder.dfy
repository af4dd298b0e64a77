/**
 * The order that the database gives to guarded requests: whatever their interleaving, keys and effects are those of the
 * committed scenarios taken one after another, and every client is told what its request would be told at one moment.
 */
module ProtocolOrder {
  import opened Outcomes
  import opened Idempotency
  import opened Protocol
  import opened ProtocolHistories

  // ----- the committed scenarios, one after another

  /** What changes the committed tables: a whole request, at the moment its commit lands, or the sweep of a key. */
  datatype Deed = Request(work: Work, operation: Operation, now: int) | Swept(id: KeyId)

  /**
   * The scenario of a run whose commit has been sent, as it can be told from what the run wrote and is going to answer.
   */
  function Scenario(run: Run): Operation
    requires run.phase.Closing? || run.phase.InDoubt?
  {
    Operation(run.writes, Value(run.phase.served.answer.body))
  }

  ghost function DeedOf(s: State, step: Step): seq<Deed>
    requires Enabled(s, step)
  {
    match step
    case Land(i) => if s.runs[i].row.Some? then [Request(s.runs[i].work, Scenario(s.runs[i]), s.now)] else []
    case Sweep(id) => [Swept(id)]
    case _ => []
  }

  ghost function Deeds(s: State, steps: seq<Step>): seq<Deed>
    requires Possible(s, steps)
    decreases |steps|
  {
    if steps == [] then [] else DeedOf(s, steps[0]) + Deeds(Apply(s, steps[0]), steps[1..])
  }

  datatype Tables = Tables(keys: map<KeyId, Row>, effects: seq<Effect>)

  /** One deed after another, a request as if no other were there. */
  function InOrder(tables: Tables, deeds: seq<Deed>): Tables
    decreases |deeds|
  {
    if deeds == [] then tables
    else
      match deeds[0]
      case Request(work, operation, now) =>
        var settled := Settle(tables.keys, tables.effects, work, operation, now);
        InOrder(Tables(settled.keys, settled.effects), deeds[1..])
      case Swept(id) => InOrder(Tables(tables.keys - {id}, tables.effects), deeds[1..])
  }

  function TablesOf(s: State): Tables {
    Tables(s.keys, s.effects)
  }

  /** A scenario that ended well is answered with one status. */
  ghost predicate WellAnswered(run: Run) {
    match run.phase
    case Produced(answer) => answer.status == OK
    case Closing(served) => served.outcome == Taken ==> served.answer.status == OK
    case InDoubt(served, _) => served.outcome == Taken ==> served.answer.status == OK
    case _ => true
  }

  ghost predicate AllWellAnswered(s: State) {
    forall i :: 0 <= i < |s.runs| ==> WellAnswered(s.runs[i])
  }

  lemma StepKeepsAnswers(s: State, step: Step)
    requires AllWellAnswered(s) && Enabled(s, step)
    ensures AllWellAnswered(Apply(s, step))
  {
    var t := Apply(s, step);
    forall i | 0 <= i < |t.runs|
      ensures WellAnswered(t.runs[i])
    {
      if i < |s.runs| { assert WellAnswered(s.runs[i]); }
      if IsMove(step) && step.i == i { MoveKeepsAnswer(s, step); }
    }
  }

  lemma MoveKeepsAnswer(s: State, step: Step)
    requires Enabled(s, step) && IsMove(step) && WellAnswered(s.runs[step.i])
    ensures WellAnswered(Moved(s, step))
  {
    if step.Resolve? && s.runs[step.i].work.id in s.keys {
      assert !Moved(s, step).phase.Closing? || Moved(s, step).phase.served.outcome != Taken;
    }
  }

  lemma OneDeed(tables: Tables, deed: Deed)
    ensures InOrder(tables, [deed])
            == match deed
               case Request(work, operation, now) =>
                 var settled := Settle(tables.keys, tables.effects, work, operation, now);
                 Tables(settled.keys, settled.effects)
               case Swept(id) => Tables(tables.keys - {id}, tables.effects)
  {
    assert [deed][1..] == [];
  }

  lemma LandingIsARequest(s: State, i: nat)
    requires Inv(s) && AllWellAnswered(s) && Enabled(s, Land(i)) && s.runs[i].row.Some?
    ensures var run := s.runs[i];
            var settled := Settle(s.keys, s.effects, run.work, Scenario(run), s.now);
            && settled.keys == Committed(s, i).keys && settled.effects == Committed(s, i).effects
            && run.phase.served.outcome == Taken && settled.reply == Value(run.phase.served)
  {
    assert RunOk(s, s.runs[i]) && WellAnswered(s.runs[i]);
  }

  lemma StepIsItsDeed(s: State, step: Step)
    requires Inv(s) && AllWellAnswered(s) && Enabled(s, step)
    ensures InOrder(TablesOf(s), DeedOf(s, step)) == TablesOf(Apply(s, step))
  {
    if DeedOf(s, step) != [] { OneDeed(TablesOf(s), DeedOf(s, step)[0]); }
    if step.Land? && s.runs[step.i].row.Some? { LandingIsARequest(s, step.i); }
  }

  lemma {:induction false} MoreDeeds(tables: Tables, deeds: seq<Deed>, more: seq<Deed>)
    ensures InOrder(tables, deeds + more) == InOrder(InOrder(tables, deeds), more)
    decreases |deeds|
  {
    if deeds == [] {
      assert deeds + more == more;
    } else {
      assert (deeds + more)[1..] == deeds[1..] + more;
      MoreDeeds(InOrder(tables, [deeds[0]]), deeds[1..], more);
      OneDeed(tables, deeds[0]);
    }
  }

  lemma {:induction false} DeedsInOrder(s: State, steps: seq<Step>)
    requires Inv(s) && AllWellAnswered(s) && Possible(s, steps)
    ensures InOrder(TablesOf(s), Deeds(s, steps)) == TablesOf(After(s, steps))
    decreases |steps|
  {
    if steps != [] {
      StepIsItsDeed(s, steps[0]);
      StepKeepsInv(s, steps[0]);
      StepKeepsAnswers(s, steps[0]);
      DeedsInOrder(Apply(s, steps[0]), steps[1..]);
      MoreDeeds(TablesOf(s), DeedOf(s, steps[0]), Deeds(Apply(s, steps[0]), steps[1..]));
    }
  }

  /**
   * In every history the committed tables are what the requests whose commits landed and the sweeps leave when they are
   * taken one after another in that order, each request by itself.
   */
  lemma OneAfterAnother(steps: seq<Step>)
    requires Possible(INITIAL, steps)
    ensures InOrder(Tables(map[], []), Deeds(INITIAL, steps)) == TablesOf(After(INITIAL, steps))
  {
    DeedsInOrder(INITIAL, steps);
  }

  // ----- every reply is that of one moment

  ghost predicate Prefix(steps: seq<Step>, m: nat) {
    m <= |steps| && Possible(INITIAL, steps[..m])
  }

  ghost function At(steps: seq<Step>, m: nat): State
    requires Prefix(steps, m)
  {
    After(INITIAL, steps[..m])
  }

  /** The request by itself would be told this; its scenario counts only under a free key, and then is the run's own. */
  ghost predicate Tells(s: State, steps: seq<Step>, i: nat, work: Work, reply: Attempt<Served>) {
    exists operation ::
      (work.id in s.keys || Operate(i, operation) in steps)
      && Settle(s.keys, s.effects, work, operation, s.now).reply == reply
  }

  predicate IsTaken(reply: Attempt<Served>) {
    reply.Value? && reply.value.outcome == Taken
  }

  /** That is so at this moment; and if the scenario ran, this is the moment when its commit landed. */
  ghost predicate ToldAt(steps: seq<Step>, m: nat, i: nat, work: Work, reply: Attempt<Served>) {
    && Prefix(steps, m) && i < |At(steps, m).runs| && At(steps, m).runs[i].work == work
    && Tells(At(steps, m), steps, i, work, reply)
    && (IsTaken(reply) ==> m < |steps| && steps[m] == Land(i))
  }

  ghost predicate AskedTooEarly(steps: seq<Step>, i: nat, work: Work) {
    exists j: nat :: AskedAt(steps, j, i, work.id, None)
  }

  ghost predicate Told(steps: seq<Step>, i: nat, work: Work, reply: Attempt<Served>) {
    (exists m: nat :: ToldAt(steps, m, i, work, reply)) || (reply == Thrown && AskedTooEarly(steps, i, work))
  }

  ghost predicate SeenAt(steps: seq<Step>, m: nat, i: nat, work: Work, row: Row) {
    && Prefix(steps, m) && i < |At(steps, m).runs| && At(steps, m).runs[i].work == work
    && Lookup(At(steps, m).keys, work.id) == Some(row)
  }

  ghost predicate Seen(steps: seq<Step>, i: nat, work: Work, row: Row) {
    exists m: nat :: SeenAt(steps, m, i, work, row)
  }

  ghost predicate Ran(steps: seq<Step>, i: nat, writes: seq<string>, answer: SavedAnswer) {
    Operate(i, Operation(writes, Value(answer.body))) in steps
  }

  ghost predicate Sent(steps: seq<Step>, i: nat, run: Run, served: Served) {
    if served.outcome == Taken then Ran(steps, i, run.writes, served.answer)
        else Told(steps, i, run.work, Value(served))
  }

  /** Where a run stands, and why it will say what it is going to say. */
  ghost predicate Explained(steps: seq<Step>, i: nat, run: Run) {
    match run.phase
    case Asking(snapshot) =>
      if snapshot.Some? then Seen(steps, i, run.work, snapshot.value) else AskedTooEarly(steps, i, run.work)
    case Produced(answer) => Ran(steps, i, run.writes, answer)
    case Closing(served) => Sent(steps, i, run, served)
    case InDoubt(served, _) => Sent(steps, i, run, served)
    case Failing(cause) => Told(steps, i, run.work, cause)
    case Landed(served) => Told(steps, i, run.work, Value(served))
    case Ended(reply) => Told(steps, i, run.work, reply)
    case _ => true
  }

  // ----- an explanation stays one

  lemma SameMoment(steps: seq<Step>, step: Step, m: nat)
    requires m <= |steps|
    ensures (steps + [step])[..m] == steps[..m]
  {
  }

  lemma StillTold(steps: seq<Step>, step: Step, i: nat, work: Work, reply: Attempt<Served>)
    requires Told(steps, i, work, reply)
    ensures Told(steps + [step], i, work, reply)
  {
    var more := steps + [step];
    if m: nat :| ToldAt(steps, m, i, work, reply) {
      SameMoment(steps, step, m);
      var operation :| (work.id in At(steps, m).keys || Operate(i, operation) in steps)
                       && Settle(At(steps, m).keys, At(steps, m).effects, work, operation, At(steps, m).now).reply
                           == reply;
      assert Operate(i, operation) in steps ==> Operate(i, operation) in more;
      assert Tells(At(more, m), more, i, work, reply);
      assert ToldAt(more, m, i, work, reply);
    } else {
      StillAskedTooEarly(steps, step, i, work);
    }
  }

  lemma StillAskedTooEarly(steps: seq<Step>, step: Step, i: nat, work: Work)
    requires AskedTooEarly(steps, i, work)
    ensures AskedTooEarly(steps + [step], i, work)
  {
    var j: nat :| AskedAt(steps, j, i, work.id, None);
    SameMoment(steps, step, j);
    assert AskedAt(steps + [step], j, i, work.id, None);
  }

  lemma StillSeen(steps: seq<Step>, step: Step, i: nat, work: Work, row: Row)
    requires Seen(steps, i, work, row)
    ensures Seen(steps + [step], i, work, row)
  {
    var m: nat :| SeenAt(steps, m, i, work, row);
    SameMoment(steps, step, m);
    assert SeenAt(steps + [step], m, i, work, row);
  }

  lemma StillSent(steps: seq<Step>, step: Step, i: nat, run: Run, served: Served)
    requires Sent(steps, i, run, served)
    ensures Sent(steps + [step], i, run, served)
  {
    if served.outcome != Taken { StillTold(steps, step, i, run.work, Value(served)); }
  }

  lemma StillExplained(steps: seq<Step>, step: Step, i: nat, run: Run)
    requires Explained(steps, i, run)
    ensures Explained(steps + [step], i, run)
  {
    match run.phase
    case Asking(snapshot) =>
      if snapshot.Some? {
        StillSeen(steps, step, i, run.work, snapshot.value);
      } else {
        StillAskedTooEarly(steps, step, i, run.work);
      }
    case Closing(served) => StillSent(steps, step, i, run, served);
    case InDoubt(served, _) => StillSent(steps, step, i, run, served);
    case Failing(cause) => StillTold(steps, step, i, run.work, cause);
    case Landed(served) => StillTold(steps, step, i, run.work, Value(served));
    case Ended(reply) => StillTold(steps, step, i, run.work, reply);
    case _ =>
  }

  // ----- each step explains the run it moves

  /** The moment before the last step. */
  lemma Now(steps: seq<Step>, step: Step)
    requires Possible(INITIAL, steps)
    ensures Prefix(steps + [step], |steps|) && At(steps + [step], |steps|) == After(INITIAL, steps)
  {
    assert (steps + [step])[..|steps|] == steps;
  }

  lemma ToldNow(steps: seq<Step>, step: Step, i: nat, operation: Operation)
    requires Possible(INITIAL, steps) && i < |After(INITIAL, steps).runs|
    requires var s := After(INITIAL, steps);
             && (s.runs[i].work.id in s.keys || Operate(i, operation) in steps + [step])
             && (IsTaken(Settle(s.keys, s.effects, s.runs[i].work, operation, s.now).reply) ==> step == Land(i))
    ensures var s := After(INITIAL, steps);
            Told(steps + [step], i, s.runs[i].work, Settle(s.keys, s.effects, s.runs[i].work, operation, s.now).reply)
  {
    var s := After(INITIAL, steps);
    var work := s.runs[i].work;
    var reply := Settle(s.keys, s.effects, work, operation, s.now).reply;
    Now(steps, step);
    assert Tells(At(steps + [step], |steps|), steps + [step], i, work, reply);
    assert ToldAt(steps + [step], |steps|, i, work, reply);
  }

  /** What a request is told of a row is what it would be told at any moment when the row is there. */
  function OfRow(row: Row, fingerprint: string): Attempt<Served> {
    match Judge(row, fingerprint)
    case Value(claim) => Value(Served(claim.outcome, claim.answer))
    case Refused(error) => Refused(error)
    case Thrown => Thrown
  }

  lemma SeenIsTold(steps: seq<Step>, i: nat, work: Work, row: Row)
    requires Seen(steps, i, work, row)
    ensures Told(steps, i, work, OfRow(row, work.fingerprint))
  {
    var m: nat :| SeenAt(steps, m, i, work, row);
    var s, operation, reply := At(steps, m), Operation([], Thrown), OfRow(row, work.fingerprint);
    assert Settle(s.keys, s.effects, work, operation, s.now).reply == reply;
    assert Tells(s, steps, i, work, reply);
    assert ToldAt(steps, m, i, work, reply);
  }

  lemma AskingIsExplained(steps: seq<Step>, i: nat)
    requires Possible(INITIAL, steps) && Enabled(After(INITIAL, steps), Ask(i))
    ensures Explained(steps + [Ask(i)], i, Moved(After(INITIAL, steps), Ask(i)))
  {
    var s, more := After(INITIAL, steps), steps + [Ask(i)];
    var work := s.runs[i].work;
    Now(steps, Ask(i));
    assert more[..|steps|] == steps;
    if work.id in s.keys {
      assert SeenAt(more, |steps|, i, work, s.keys[work.id]);
    } else {
      assert AskedAt(more, |steps|, i, work.id, None);
    }
  }

  lemma ResolvingIsExplained(steps: seq<Step>, i: nat, current: bool)
    requires Possible(INITIAL, steps) && Enabled(After(INITIAL, steps), Resolve(i, current))
    requires Explained(steps, i, After(INITIAL, steps).runs[i])
    ensures Explained(steps + [Resolve(i, current)], i, Moved(After(INITIAL, steps), Resolve(i, current)))
  {
    var s, step := After(INITIAL, steps), Resolve(i, current);
    var run, more := s.runs[i], steps + [step];
    StillExplained(steps, step, i, run);
    if run.work.id in s.keys {
      Now(steps, step);
      if current {
        assert SeenAt(more, |steps|, i, run.work, s.keys[run.work.id]);
        SeenIsTold(more, i, run.work, s.keys[run.work.id]);
      } else if run.phase.snapshot.Some? {
        SeenIsTold(more, i, run.work, run.phase.snapshot.value);
      }
    }
  }

  lemma OperatingIsExplained(steps: seq<Step>, i: nat, operation: Operation)
    requires Possible(INITIAL, steps) && Enabled(After(INITIAL, steps), Operate(i, operation))
             && Inv(After(INITIAL, steps))
    ensures Explained(steps + [Operate(i, operation)], i, Moved(After(INITIAL, steps), Operate(i, operation)))
  {
    var s, step := After(INITIAL, steps), Operate(i, operation);
    var run := s.runs[i];
    assert RunOk(s, run) && run.work.id !in s.keys;
    assert [] + operation.writes == operation.writes;
    assert step in steps + [step];
    if !operation.result.Value? { ToldNow(steps, step, i, operation); }
  }

  lemma ClosingIsExplained(steps: seq<Step>, i: nat)
    requires Possible(INITIAL, steps) && Enabled(After(INITIAL, steps), Close(i)) && Inv(After(INITIAL, steps))
    requires Explained(steps, i, After(INITIAL, steps).runs[i])
    ensures Explained(steps + [Close(i)], i, Moved(After(INITIAL, steps), Close(i)))
  {
    assert RunOk(After(INITIAL, steps), After(INITIAL, steps).runs[i]);
    StillExplained(steps, Close(i), i, After(INITIAL, steps).runs[i]);
  }

  lemma LandingIsExplained(steps: seq<Step>, i: nat)
    requires Possible(INITIAL, steps) && Enabled(After(INITIAL, steps), Land(i))
    requires Inv(After(INITIAL, steps)) && AllWellAnswered(After(INITIAL, steps))
    requires Explained(steps, i, After(INITIAL, steps).runs[i])
    ensures Explained(steps + [Land(i)], i, Committed(After(INITIAL, steps), i).runs[i])
  {
    var s := After(INITIAL, steps);
    var run := s.runs[i];
    assert RunOk(s, run);
    StillExplained(steps, Land(i), i, run);
    if run.row.Some? {
      LandingIsARequest(s, i);
      ToldNow(steps, Land(i), i, Scenario(run));
    }
  }

  lemma MoveIsExplained(steps: seq<Step>, step: Step)
    requires Possible(INITIAL, steps) && Enabled(After(INITIAL, steps), step) && IsMove(step)
    requires Inv(After(INITIAL, steps)) && Explained(steps, step.i, After(INITIAL, steps).runs[step.i])
    ensures Explained(steps + [step], step.i, Moved(After(INITIAL, steps), step))
  {
    match step
    case Ask(i) => AskingIsExplained(steps, i);
    case Resolve(i, current) => ResolvingIsExplained(steps, i, current);
    case Operate(i, operation) => OperatingIsExplained(steps, i, operation);
    case Close(i) => ClosingIsExplained(steps, i);
    case Return(i) => StillExplained(steps, step, i, After(INITIAL, steps).runs[i]);
    case Rollback(i) => StillExplained(steps, step, i, After(INITIAL, steps).runs[i]);
    case Sever(i, _) => StillExplained(steps, step, i, After(INITIAL, steps).runs[i]);
    case Abandon(i) => StillExplained(steps, step, i, After(INITIAL, steps).runs[i]);
    case _ =>
  }

  lemma {:induction false} AnswersAlways(s: State, steps: seq<Step>)
    requires AllWellAnswered(s) && Possible(s, steps)
    ensures AllWellAnswered(After(s, steps))
    decreases |steps|
  {
    if steps != [] {
      StepKeepsAnswers(s, steps[0]);
      AnswersAlways(Apply(s, steps[0]), steps[1..]);
    }
  }

  lemma StepIsExplained(steps: seq<Step>, step: Step, i: nat)
    requires Possible(INITIAL, steps) && Enabled(After(INITIAL, steps), step)
    requires i < |Apply(After(INITIAL, steps), step).runs|
    requires Inv(After(INITIAL, steps)) && AllWellAnswered(After(INITIAL, steps))
    requires i < |After(INITIAL, steps).runs| ==> Explained(steps, i, After(INITIAL, steps).runs[i])
    ensures Explained(steps + [step], i, Apply(After(INITIAL, steps), step).runs[i])
  {
    if i == |After(INITIAL, steps).runs| {
      assert step.Arrive?;
    } else if IsMove(step) && step.i == i {
      MoveIsExplained(steps, step);
    } else if step == Land(i) {
      LandingIsExplained(steps, i);
    } else {
      StillExplained(steps, step, i, After(INITIAL, steps).runs[i]);
    }
  }

  lemma {:induction false} EveryRunIsExplained(steps: seq<Step>, i: nat)
    requires Possible(INITIAL, steps) && i < |After(INITIAL, steps).runs|
    ensures Explained(steps, i, After(INITIAL, steps).runs[i])
    decreases |steps|
  {
    var earlier, last := steps[..|steps| - 1], steps[|steps| - 1];
    OneStepLess(INITIAL, steps);
    assert earlier + [last] == steps;
    InvAlways(INITIAL, earlier);
    AnswersAlways(INITIAL, earlier);
    if i < |After(INITIAL, earlier).runs| { EveryRunIsExplained(earlier, i); }
    StepIsExplained(earlier, last, i);
  }

  /**
   * In every history, whatever a run was told is what its request would be told by itself at one moment of its life,
   * which for a scenario that ran is the moment its commit landed. The one exception is the claim that waited and came
   * back empty: it is told of an exception because it asked before the key was there.
   */
  lemma EveryReplyHasItsMoment(steps: seq<Step>, i: nat)
    requires Possible(INITIAL, steps) && i < |After(INITIAL, steps).runs| && After(INITIAL, steps).runs[i].phase.Ended?
    ensures var run := After(INITIAL, steps).runs[i];
            (exists m: nat :: ToldAt(steps, m, i, run.work, run.phase.reply))
            || (run.phase.reply == Thrown && AskedTooEarly(steps, i, run.work))
  {
    EveryRunIsExplained(steps, i);
  }
}
