/** Histories of guarded requests: two that surprise, and the one that the handler's own code is. */
module ProtocolHistories {
  import opened Outcomes
  import opened Idempotency
  import opened Protocol
  import opened ProtocolPromises

  // ----- a claim that waited may come back empty, and only such a claim does

  lemma {:induction false} OneMoreStep(s: State, steps: seq<Step>, step: Step)
    requires Possible(s, steps) && Enabled(After(s, steps), step)
    ensures Possible(s, steps + [step]) && After(s, steps + [step]) == Apply(After(s, steps), step)
    decreases |steps|
  {
    if steps == [] {
      assert [] + [step] == [step] && [step][1..] == [];
    } else {
      assert (steps + [step])[1..] == steps[1..] + [step];
      OneMoreStep(Apply(s, steps[0]), steps[1..], step);
    }
  }

  lemma {:induction false} OneStepLess(s: State, steps: seq<Step>)
    requires Possible(s, steps) && steps != []
    ensures var earlier := steps[..|steps| - 1];
            Possible(s, earlier) && Enabled(After(s, earlier), steps[|steps| - 1])
            && After(s, steps) == Apply(After(s, earlier), steps[|steps| - 1])
    decreases |steps|
  {
    if |steps| > 1 {
      assert steps[1..][..|steps| - 2] == steps[..|steps| - 1][1..];
      OneStepLess(Apply(s, steps[0]), steps[1..]);
    }
  }

  /** The `j`-th step of the history is run `i`'s claim taking its snapshot, and this is what it saw. */
  ghost predicate AskedAt(steps: seq<Step>, j: nat, i: nat, id: KeyId, saw: Option<Row>) {
    j < |steps| && steps[j] == Ask(i) && Possible(INITIAL, steps[..j])
        && Lookup(After(INITIAL, steps[..j]).keys, id) == saw
  }

  /** A run that waits after a step took its snapshot in that step, or waited before it. */
  lemma WaitingBefore(s: State, step: Step, i: nat)
    requires Enabled(s, step) && i < |Apply(s, step).runs| && Apply(s, step).runs[i].phase.Asking?
    ensures i < |s.runs| && Apply(s, step).runs[i].work == s.runs[i].work
    ensures if step == Ask(i) then Apply(s, step).runs[i].phase.snapshot == Lookup(s.keys, s.runs[i].work.id)
            else Apply(s, step).runs[i] == s.runs[i]
  {
  }

  lemma {:induction false} WhoAsksHasAsked(steps: seq<Step>, i: nat)
    requires Possible(INITIAL, steps) && i < |After(INITIAL, steps).runs| && After(INITIAL, steps).runs[i].phase.Asking?
    ensures var run := After(INITIAL, steps).runs[i];
            exists j: nat :: AskedAt(steps, j, i, run.work.id, run.phase.snapshot)
    decreases |steps|
  {
    var earlier, last := steps[..|steps| - 1], steps[|steps| - 1];
    OneStepLess(INITIAL, steps);
    WaitingBefore(After(INITIAL, earlier), last, i);
    var run := After(INITIAL, steps).runs[i];
    if last == Ask(i) {
      assert AskedAt(steps, |steps| - 1, i, run.work.id, run.phase.snapshot);
    } else {
      WhoAsksHasAsked(earlier, i);
      var j: nat :| AskedAt(earlier, j, i, run.work.id, run.phase.snapshot);
      assert earlier[..j] == steps[..j];
      assert AskedAt(steps, j, i, run.work.id, run.phase.snapshot);
    }
  }

  /** From its claim on a run is past its opening, and as long as it waits it keeps the snapshot it took. */
  ghost predicate Keeps(s: State, i: nat, id: KeyId, saw: Option<Row>) {
    && i < |s.runs|
    && !s.runs[i].phase.Opened?
    && (s.runs[i].phase.Asking? && s.runs[i].work.id == id ==> s.runs[i].phase.snapshot == saw)
  }

  lemma StepKeepsSnapshot(s: State, step: Step, i: nat, id: KeyId, saw: Option<Row>)
    requires Enabled(s, step) && Keeps(s, i, id, saw)
    ensures Keeps(Apply(s, step), i, id, saw)
  {
  }

  lemma {:induction false} WhoAskedKeepsItsSnapshot(steps: seq<Step>, j: nat, i: nat, id: KeyId, saw: Option<Row>)
    requires Possible(INITIAL, steps) && AskedAt(steps, j, i, id, saw)
    ensures Keeps(After(INITIAL, steps), i, id, saw)
    decreases |steps|
  {
    var earlier, last := steps[..|steps| - 1], steps[|steps| - 1];
    OneStepLess(INITIAL, steps);
    if j < |steps| - 1 {
      assert earlier[..j] == steps[..j];
      WhoAskedKeepsItsSnapshot(earlier, j, i, id, saw);
      StepKeepsSnapshot(After(INITIAL, earlier), last, i, id, saw);
    }
  }

  /** The claim may come back empty: one of the rows it may read is missing, and the handler throws. */
  ghost predicate MayComeBackEmpty(run: Run, keys: map<KeyId, Row>)
    requires run.phase.Asking?
  {
    exists current :: Resolved(run, keys, current).phase == Failing(Thrown)
  }

  lemma EmptyExactlyWithoutSnapshot(run: Run, keys: map<KeyId, Row>)
    requires run.phase.Asking? && run.work.id in keys
    ensures MayComeBackEmpty(run, keys) <==> run.phase.snapshot.None?
  {
    if run.phase.snapshot.None? { assert Resolved(run, keys, false).phase == Failing(Thrown); }
  }

  /** The claim of a key that is committed may come back empty exactly to a run that asked before the key was there. */
  lemma EmptyClaimIff(steps: seq<Step>, i: nat)
    requires Possible(INITIAL, steps) && i < |After(INITIAL, steps).runs| && After(INITIAL, steps).runs[i].phase.Asking?
    requires After(INITIAL, steps).runs[i].work.id in After(INITIAL, steps).keys
    ensures var s := After(INITIAL, steps);
            var run := s.runs[i];
            MayComeBackEmpty(run, s.keys) <==> exists j: nat :: AskedAt(steps, j, i, run.work.id, None)
  {
    var s := After(INITIAL, steps);
    EmptyExactlyWithoutSnapshot(s.runs[i], s.keys);
    WhoAsksHasAsked(steps, i);
    if j: nat :| AskedAt(steps, j, i, s.runs[i].work.id, None) {
      WhoAskedKeepsItsSnapshot(steps, j, i, s.runs[i].work.id, None);
    }
  }

  /** One step further in a history that is being put together. */
  lemma Further(steps: seq<Step>, s: State, step: Step) returns (more: seq<Step>, t: State)
    requires Possible(INITIAL, steps) && After(INITIAL, steps) == s && Enabled(s, step)
    ensures more == steps + [step] && Possible(INITIAL, more) && After(INITIAL, more) == t == Apply(s, step)
  {
    OneMoreStep(INITIAL, steps, step);
    more, t := steps + [step], Apply(s, step);
  }

  /** Two requests under one key take their snapshots before either inserts; the first one claims the key. */
  lemma TwoAskAtOnce(first: Work, second: Work) returns (steps: seq<Step>, s: State)
    requires first.run == 0 && second.run == 1 && first.id == second.id
    ensures Possible(INITIAL, steps) && After(INITIAL, steps) == s
    ensures s == INITIAL.(runs := [Run(first, Holding, Some(InProgress(first.fingerprint, first.expiresAt)), []),
                                   Run(second, Asking(None), None, [])])
  {
    steps, s := Further([], INITIAL, Arrive(first));
    steps, s := Further(steps, s, Arrive(second));
    steps, s := Further(steps, s, Ask(0));
    steps, s := Further(steps, s, Ask(1));
    steps, s := Further(steps, s, Resolve(0, true));
  }

  /** The first of all runs does its work and sends its commit. */
  lemma FirstSendsItsCommit(steps: seq<Step>, s: State, body: string) returns (more: seq<Step>, t: State)
    requires Possible(INITIAL, steps) && After(INITIAL, steps) == s && s.runs != []
    requires s.runs[0] == Run(s.runs[0].work, Holding,
                              Some(InProgress(s.runs[0].work.fingerprint, s.runs[0].work.expiresAt)), [])
    ensures Possible(INITIAL, more) && After(INITIAL, more) == t
    ensures var answer := SavedAnswer(OK, body);
            t == s.(runs := s.runs[0 := Run(s.runs[0].work, Closing(Served(Taken, answer)),
                                            Some(Completed(s.runs[0].work.fingerprint, s.runs[0].work.expiresAt,
                                                           answer)), [])])
  {
    more, t := Further(steps, s, Operate(0, Operation([], Value(body))));
    assert t.runs[0].writes == [];
    more, t := Further(more, t, Close(0));
  }

  /** The first run committed its answer, and the second one's client got an exception. */
  ghost predicate TurnedAway(s: State, first: Work, second: Work, body: string) {
    && |s.runs| == 2 && s.runs[1].work == second && s.runs[1].phase == Ended(Thrown)
    && first.id in s.keys && s.keys[first.id] == Completed(first.fingerprint, first.expiresAt, SavedAnswer(OK, body))
  }

  /**
   * The second request waits for the first, which commits, and reads its own snapshot: its client gets an exception.
   */
  lemma EmptyClaimHappens(first: Work, second: Work, body: string)
    requires first.run == 0 && second.run == 1 && first.id == second.id
    ensures exists steps :: Possible(INITIAL, steps) && TurnedAway(After(INITIAL, steps), first, second, body)
  {
    var steps, s := TwoAskAtOnce(first, second);
    steps, s := FirstSendsItsCommit(steps, s, body);
    steps, s := Further(steps, s, Land(0));
    steps, s := Further(steps, s, Resolve(1, false));
    steps, s := Further(steps, s, Rollback(1));
    assert TurnedAway(After(INITIAL, steps), first, second, body);
  }

  /** The only run was cut off, and left this many effects. */
  ghost predicate OneCutOff(s: State, work: Work, phase: Phase, effects: nat) {
    |s.runs| == 1 && s.runs[0].work == work && s.runs[0].phase == phase && |s.effects| == effects
  }

  /** A single run sends its commit and is cut off. */
  lemma CommitInFlight(work: Work, body: string, threw: bool) returns (steps: seq<Step>, s: State)
    requires work.run == 0
    ensures Possible(INITIAL, steps) && After(INITIAL, steps) == s
    ensures var answer := SavedAnswer(OK, body);
            s == INITIAL.(runs := [Run(work, InDoubt(Served(Taken, answer), threw),
                                       Some(Completed(work.fingerprint, work.expiresAt, answer)), [])])
  {
    steps, s := Further([], INITIAL, Arrive(work));
    steps, s := Further(steps, s, Ask(0));
    steps, s := Further(steps, s, Resolve(0, true));
    steps, s := FirstSendsItsCommit(steps, s, body);
    steps, s := Further(steps, s, Sever(0, threw));
  }

  /**
   * A client that hears nothing, or an exception, cannot tell what happened: its request may have left nothing, or
   * exactly one effect that nobody was told of.
   */
  lemma SilenceTellsNothing(work: Work, body: string, threw: bool)
    requires work.run == 0
    ensures exists steps :: Possible(INITIAL, steps) && OneCutOff(After(INITIAL, steps), work, Gone(threw), 0)
    ensures exists steps ::
              && Possible(INITIAL, steps)
              && OneCutOff(After(INITIAL, steps), work, CutOff(SavedAnswer(OK, body), threw), 1)
  {
    var steps, s := CommitInFlight(work, body, threw);
    var lost, gone := Further(steps, s, Abandon(0));
    assert OneCutOff(After(INITIAL, lost), work, Gone(threw), 0);
    var landed, cut := Further(steps, s, Land(0));
    assert OneCutOff(After(INITIAL, landed), work, CutOff(SavedAnswer(OK, body), threw), 1);
  }

  // ----- the handler's own code is one path through this system

  /** How a run that nobody disturbs goes on once its claim is resolved. */
  function Tail(s: State, work: Work, operation: Operation): seq<Step> {
    var i := |s.runs|;
    if work.id in s.keys then
      if s.keys[work.id].fingerprint == work.fingerprint then [Land(i)] + [Return(i)] else [Rollback(i)]
    else
      [Operate(i, operation)] + if operation.result.Value? then [Close(i)] + ([Land(i)] + [Return(i)])
          else [Rollback(i)]
  }

  function Schedule(s: State, work: Work, operation: Operation): seq<Step> {
    [Arrive(work)] + ([Ask(|s.runs|)] + ([Resolve(|s.runs|, true)] + Tail(s, work, operation)))
  }

  lemma Then(s: State, step: Step, rest: seq<Step>)
    requires Enabled(s, step) && Possible(Apply(s, step), rest)
    ensures Possible(s, [step] + rest) && After(s, [step] + rest) == After(Apply(s, step), rest)
  {
    assert ([step] + rest)[1..] == rest;
  }

  /** The state once a run that nobody disturbs has opened its scope and its claim is resolved. */
  function Claimed(s: State, work: Work): State {
    s.(runs := s.runs + [Resolved(Run(work, Asking(Lookup(s.keys, work.id)), None, []), s.keys, true)])
  }

  lemma ClaimIsThreeSteps(s: State, work: Work, rest: seq<Step>)
    requires work.run == |s.runs| && Unrivalled(s, |s.runs|, work.id) && Possible(Claimed(s, work), rest)
    ensures var steps := [Arrive(work)] + ([Ask(|s.runs|)] + ([Resolve(|s.runs|, true)] + rest));
            Possible(s, steps) && After(s, steps) == After(Claimed(s, work), rest)
  {
    var i := |s.runs|;
    var s1 := Apply(s, Arrive(work));
    var s2 := Apply(s1, Ask(i));
    assert s2 == s.(runs := s.runs + [Run(work, Asking(Lookup(s.keys, work.id)), None, [])]);
    assert Apply(s2, Resolve(i, true)) == Claimed(s, work);
    Then(s2, Resolve(i, true), rest);
    Then(s1, Ask(i), [Resolve(i, true)] + rest);
    Then(s, Arrive(work), [Ask(i)] + ([Resolve(i, true)] + rest));
  }

  lemma ClaimedRunSettles(s: State, work: Work, operation: Operation)
    requires RowsOk(s)
    ensures var t := Claimed(s, work);
            Possible(t, Tail(s, work, operation)) &&
            var u := After(t, Tail(s, work, operation));
            |u.runs| == |s.runs| + 1 && u.runs[|s.runs|].phase.Ended? &&
            Settled(u.keys, u.effects, u.runs[|s.runs|].phase.reply)
                == Settle(s.keys, s.effects, work, operation, s.now)
  {
    if work.id in s.keys {
      assert Backed(s, work.id, s.keys[work.id]);
      TakenKeySettles(Claimed(s, work), s.keys[work.id]);
    } else {
      FreeKeySettles(Claimed(s, work), operation);
    }
  }

  /**
   * From any reachable state in which nobody holds the key, a new request can run to its end, and that leaves exactly
   * what `Guarded` computes: in particular a free key is claimed again, whatever became of earlier attempts.
   */
  lemma UndisturbedRunSettles(s: State, work: Work, operation: Operation)
    requires Inv(s) && work.run == |s.runs| && Unrivalled(s, |s.runs|, work.id)
    ensures Possible(s, Schedule(s, work, operation))
    ensures var t := After(s, Schedule(s, work, operation));
            |t.runs| == |s.runs| + 1 && t.runs[|s.runs|].phase.Ended? &&
            Settled(t.keys, t.effects, t.runs[|s.runs|].phase.reply)
                == Settle(s.keys, s.effects, work, operation, s.now)
  {
    ClaimedRunSettles(s, work, operation);
    ClaimIsThreeSteps(s, work, Tail(s, work, operation));
  }

  /**
   * A key lasts until its deadline and no longer: as soon as that has passed its row can be swept, and then a new
   * request under the key is served as the first one was.
   */
  lemma ExpiredKeyIsServedAnew(s: State, work: Work, operation: Operation) returns (steps: seq<Step>)
    requires Inv(s) && work.run == |s.runs| && Unrivalled(s, |s.runs|, work.id)
    requires work.id in s.keys && s.keys[work.id].expiresAt <= s.now
    ensures Possible(s, steps)
    ensures var t := After(s, steps);
            |t.runs| == |s.runs| + 1 && t.runs[|s.runs|].phase.Ended? &&
            Settled(t.keys, t.effects, t.runs[|s.runs|].phase.reply)
            == Settle(s.keys - {work.id}, s.effects, work, operation, s.now)
  {
    var swept := Apply(s, Sweep(work.id));
    StepKeepsInv(s, Sweep(work.id));
    UndisturbedRunSettles(swept, work, operation);
    Then(s, Sweep(work.id), Schedule(swept, work, operation));
    steps := [Sweep(work.id)] + Schedule(swept, work, operation);
  }

  lemma LandAndReturn(s: State, i: nat)
    requires i < |s.runs| && s.runs[i].phase.Closing?
    ensures var steps := [Land(i)] + [Return(i)];
            Possible(s, steps) && After(s, steps) == Apply(Committed(s, i), Return(i))
  {
    Then(s, Land(i), [Return(i)]);
  }

  lemma TakenKeySettles(s: State, row: Row)
    requires s.runs != [] && row.Completed?
    requires var run := s.runs[|s.runs| - 1];
             run.row.None? && run.phase == if row.fingerprint == run.work.fingerprint
                                           then Closing(Served(Replay, row.answer)) else Failing(Refused(KEY_REUSED))
    ensures var last := |s.runs| - 1;
            var same := row.fingerprint == s.runs[last].work.fingerprint;
            var steps := if same then [Land(last)] + [Return(last)] else [Rollback(last)];
            Possible(s, steps) && After(s, steps).keys == s.keys && After(s, steps).effects == s.effects &&
            |After(s, steps).runs| == |s.runs| &&
            After(s, steps).runs[last].phase == Ended(Due(row, s.runs[last].work.fingerprint))
  {
    var last := |s.runs| - 1;
    if row.fingerprint == s.runs[last].work.fingerprint { LandAndReturn(s, last); }
  }

  lemma FreeKeySettles(s: State, operation: Operation)
    requires s.runs != [] && s.runs[|s.runs| - 1].work.id !in s.keys
    requires var run := s.runs[|s.runs| - 1];
             run == Run(run.work, Holding, Some(InProgress(run.work.fingerprint, run.work.expiresAt)), [])
    ensures var last := |s.runs| - 1;
            var work := s.runs[last].work;
            var steps := [Operate(last, operation)] +
                         if operation.result.Value?
                         then [Close(last)] + ([Land(last)] + [Return(last)])
                         else [Rollback(last)];
            Possible(s, steps) && |After(s, steps).runs| == |s.runs| && After(s, steps).runs[last].phase.Ended? &&
            Settled(After(s, steps).keys, After(s, steps).effects, After(s, steps).runs[last].phase.reply)
            == Settle(s.keys, s.effects, work, operation, s.now)
  {
    var last := |s.runs| - 1;
    var t := Apply(s, Operate(last, operation));
    assert t.runs[last].writes == operation.writes;
    if operation.result.Value? {
      LandAndReturn(Apply(t, Close(last)), last);
      Then(t, Close(last), [Land(last)] + [Return(last)]);
      Then(s, Operate(last, operation), [Close(last)] + ([Land(last)] + [Return(last)]));
    } else {
      Then(s, Operate(last, operation), [Rollback(last)]);
    }
  }
}
