/** What clients and the database can rely on, over every history of guarded requests. */
module ProtocolPromises {
  import opened Outcomes
  import opened Idempotency
  import opened Protocol

  /** `steps` never sweeps this key. */
  ghost predicate Unswept(steps: seq<Step>, id: KeyId) {
    forall k :: 0 <= k < |steps| ==> steps[k] != Sweep(id)
  }

  lemma UnsweptRest(steps: seq<Step>, id: KeyId)
    requires steps != [] && Unswept(steps, id)
    ensures steps[0] != Sweep(id) && Unswept(steps[1..], id)
  {
  }

  lemma {:induction false} SweptOnlyBySweeps(s: State, steps: seq<Step>, id: KeyId)
    requires Possible(s, steps) && Unswept(steps, id)
    ensures Times(After(s, steps).swept, id) == Times(s.swept, id)
    decreases |steps|
  {
    if steps != [] {
      if steps[0].Sweep? { assert Apply(s, steps[0]).swept[..|s.swept|] == s.swept; }
      SweptOnlyBySweeps(Apply(s, steps[0]), steps[1..], id);
    }
  }

  lemma {:induction false} ExecutedTwice(effects: seq<Effect>, e: nat, f: nat)
    requires e < f < |effects| && effects[e].work.id == effects[f].work.id
    ensures Executed(effects, effects[e].work.id) >= 2
  {
    var rest := effects[..|effects| - 1];
    if f < |effects| - 1 {
      ExecutedTwice(rest, e, f);
    } else {
      ExecutedOnce(rest, e);
    }
  }

  lemma {:induction false} ExecutedOnce(effects: seq<Effect>, e: nat)
    requires e < |effects|
    ensures Executed(effects, effects[e].work.id) >= 1
  {
    if e < |effects| - 1 {
      ExecutedOnce(effects[..|effects| - 1], e);
    }
  }

  lemma {:induction false} ExecutedSomewhere(effects: seq<Effect>, id: KeyId)
    requires Executed(effects, id) >= 1
    ensures exists e :: 0 <= e < |effects| && effects[e].work.id == id
  {
    if effects[|effects| - 1].work.id != id {
      ExecutedSomewhere(effects[..|effects| - 1], id);
    }
  }

  /** In every history a key executes at most once before its deadline, sweeps or not. */
  lemma OncePerLifetime(steps: seq<Step>, e: nat, f: nat)
    requires Possible(INITIAL, steps)
    requires e < f < |After(INITIAL, steps).effects|
    requires After(INITIAL, steps).effects[e].work.id == After(INITIAL, steps).effects[f].work.id
    ensures After(INITIAL, steps).effects[e].work.expiresAt <= After(INITIAL, steps).effects[f].at
  {
    InvAlways(INITIAL, steps);
  }

  /** A key that was never swept executed at most once, and it has a row exactly when it executed. */
  lemma RowExactlyWhenExecutedOnce(steps: seq<Step>, id: KeyId)
    requires Possible(INITIAL, steps) && Unswept(steps, id)
    ensures var s := After(INITIAL, steps);
            (forall e, f :: 0 <= e < f < |s.effects| ==> !(s.effects[e].work.id == id && s.effects[f].work.id == id)) &&
            (id in s.keys <==> exists e :: 0 <= e < |s.effects| && s.effects[e].work.id == id)
  {
    var s := After(INITIAL, steps);
    InvAlways(INITIAL, steps);
    SweptOnlyBySweeps(INITIAL, steps, id);
    assert Balanced(s, id);
    forall e, f | 0 <= e < f < |s.effects|
      ensures !(s.effects[e].work.id == id && s.effects[f].work.id == id)
    {
      if s.effects[e].work.id == id == s.effects[f].work.id { ExecutedTwice(s.effects, e, f); }
    }
    if id in s.keys {
      ExecutedSomewhere(s.effects, id);
    }
    forall e | 0 <= e < |s.effects| && s.effects[e].work.id == id
      ensures id in s.keys
    {
      ExecutedOnce(s.effects, e);
    }
  }

  /** A committed row is always completed, and it is the answer of a scenario that was committed with it. */
  lemma NoOpenRowIsEverCommitted(steps: seq<Step>, id: KeyId)
    requires Possible(INITIAL, steps) && id in After(INITIAL, steps).keys
    ensures var s := After(INITIAL, steps);
            s.keys[id].Completed? && exists e :: 0 <= e < |s.effects| && Explains(s.effects[e], id, s.keys[id])
  {
    InvAlways(INITIAL, steps);
    assert Backed(After(INITIAL, steps), id, After(INITIAL, steps).keys[id]);
  }

  /**
   * A run left a committed effect if and only if it was told that its scenario ran, or is about to be told, or was cut
   * off after its commit had landed; it left exactly one, with the answer it was, or would have been, given. A run that
   * was refused, threw on the way, or was cut off earlier left nothing.
   */
  lemma EffectExactlyWhenLanded(steps: seq<Step>, i: nat)
    requires Possible(INITIAL, steps) && i < |After(INITIAL, steps).runs|
    ensures var s := After(INITIAL, steps);
            var phase := s.runs[i].phase;
            (HasEffect(s, i) <==>
              ToldTaken(s.runs[i]) || (phase.Landed? && phase.served.outcome == Taken) || phase.CutOff?) &&
            (forall e :: 0 <= e < |s.effects| && s.effects[e].work.run == i ==> MadeBy(s.effects[e], s.runs[i])) &&
            (forall e, f :: 0 <= e < f < |s.effects| ==> !(s.effects[e].work.run == i && s.effects[f].work.run == i))
  {
    InvAlways(INITIAL, steps);
    var s := After(INITIAL, steps);
    if HasEffect(s, i) {
      var e :| 0 <= e < |s.effects| && s.effects[e].work.run == i;
      assert MadeBy(s.effects[e], s.runs[i]);
    }
  }

  /** Whatever happens next, an answer that is saved under a key stays as it is until the key is swept. */
  lemma {:induction false} SavedAnswerIsNeverRewritten(s: State, steps: seq<Step>, id: KeyId)
    requires Inv(s) && Possible(s, steps) && Unswept(steps, id) && id in s.keys
    ensures id in After(s, steps).keys && After(s, steps).keys[id] == s.keys[id]
    decreases |steps|
  {
    if steps != [] {
      UnsweptRest(steps, id);
      StepKeepsInv(s, steps[0]);
      StepKeepsRow(s, steps[0], id);
      SavedAnswerIsNeverRewritten(Apply(s, steps[0]), steps[1..], id);
    }
  }

  lemma StepKeepsRow(s: State, step: Step, id: KeyId)
    requires Exclusive(s) && Enabled(s, step) && step != Sweep(id) && id in s.keys
    ensures id in Apply(s, step).keys && Apply(s, step).keys[id] == s.keys[id]
  {
    if step.Land? && s.runs[step.i].row.Some? {
      assert s.runs[step.i].work.id !in s.keys;
    }
  }

  /** What a request must hear once the key's answer is saved. */
  function Due(row: Row, fingerprint: string): Attempt<Served>
    requires row.Completed?
  {
    if row.fingerprint == fingerprint then Value(Served(Replay, row.answer)) else Refused(KEY_REUSED)
  }

  /** The run has not asked yet, or is on its way to what it is due. */
  ghost predicate OnItsWay(run: Run, row: Row)
    requires row.Completed?
  {
    var due := Due(row, run.work.fingerprint);
    match run.phase
    case Opened => true
    case Asking(snapshot) => snapshot == Some(row)
    case Closing(served) => Value(served) == due
    case InDoubt(served, _) => Value(served) == due
    case Landed(served) => Value(served) == due
    case Failing(cause) => cause == due
    case Ended(reply) => reply == due
    case Gone(_) => true
    case _ => false
  }

  ghost predicate OnCourse(s: State, i: nat, id: KeyId, row: Row) {
    && id in s.keys && s.keys[id] == row && row.Completed?
    && (i < |s.runs| && s.runs[i].work.id == id ==> OnItsWay(s.runs[i], row))
  }

  lemma MoveStaysOnItsWay(s: State, step: Step, row: Row)
    requires Enabled(s, step) && IsMove(step) && row.Completed? && OnItsWay(s.runs[step.i], row)
    requires s.runs[step.i].work.id in s.keys && s.keys[s.runs[step.i].work.id] == row
    ensures OnItsWay(Moved(s, step), row) && Moved(s, step).work == s.runs[step.i].work
  {
  }

  lemma StepKeepsOnCourse(s: State, step: Step, i: nat, id: KeyId, row: Row)
    requires Exclusive(s) && Enabled(s, step) && step != Sweep(id) && OnCourse(s, i, id, row)
    ensures OnCourse(Apply(s, step), i, id, row)
  {
    StepKeepsRow(s, step, id);
    if IsMove(step) && step.i == i && s.runs[i].work.id == id { MoveStaysOnItsWay(s, step, row); }
  }

  /**
   * Once a key's answer is saved, every run that asks afterwards and is not cut off gets that very answer if it
   * brought the same body, and "reused" if it brought another.
   */
  lemma {:induction false} LaterRunsGetTheirDue(s: State, steps: seq<Step>, i: nat, id: KeyId)
    requires Inv(s) && Possible(s, steps) && Unswept(steps, id) && id in s.keys
    requires i < |s.runs| && s.runs[i].work.id == id ==> s.runs[i].phase.Opened?
    ensures var t := After(s, steps);
            i < |t.runs| && t.runs[i].work.id == id && t.runs[i].phase.Ended? ==>
              s.keys[id].Completed? && t.runs[i].phase.reply == Due(s.keys[id], t.runs[i].work.fingerprint)
  {
    assert Backed(s, id, s.keys[id]);
    StayOnCourse(s, steps, i, id, s.keys[id]);
  }

  /** The row an effect was committed with. */
  function RowOf(effect: Effect): Row {
    Completed(effect.work.fingerprint, effect.work.expiresAt, effect.answer)
  }

  /** Until its deadline an effect is guarded by its own row, whoever heard of it. */
  lemma EffectIsGuarded(s: State, e: nat)
    requires Spaced(s) && e < |s.effects| && s.now < s.effects[e].work.expiresAt
    ensures s.effects[e].work.id in s.keys && s.keys[s.effects[e].work.id] == RowOf(s.effects[e])
  {
    assert s.effects[e].work.id in s.keys;
    assert Explains(s.effects[e], s.effects[e].work.id, s.keys[s.effects[e].work.id]);
  }

  /**
   * What clients see of an effect whose row is there, whether or not its own client heard anything: whoever asks later
   * under the same key with the same body sees its status and body, marked as replayed; whoever brings another body
   * sees "reused".
   */
  lemma LaterClientsSeeTheEffectsAnswer(s: State, steps: seq<Step>, e: nat, i: nat)
    requires Inv(s) && Possible(s, steps) && e < |s.effects| && Unswept(steps, s.effects[e].work.id)
    requires s.effects[e].work.id in s.keys && s.keys[s.effects[e].work.id] == RowOf(s.effects[e])
    requires i < |s.runs| && s.runs[i].work.id == s.effects[e].work.id ==> s.runs[i].phase.Opened?
    ensures var t, effect := After(s, steps), s.effects[e];
            i < |t.runs| && t.runs[i].work.id == effect.work.id && t.runs[i].phase.Ended? ==>
              Answered(t.runs[i].phase.reply)
              == if t.runs[i].work.fingerprint == effect.work.fingerprint
                 then Answer(effect.answer.status, effect.answer.body, true) else Problem(KEY_REUSED.code)
  {
    LaterRunsGetTheirDue(s, steps, i, s.effects[e].work.id);
  }

  lemma CutOffEffect(s: State, cut: nat) returns (e: nat)
    requires Owned(s) && cut < |s.runs| && s.runs[cut].phase.CutOff?
    ensures e < |s.effects| && s.effects[e].work == s.runs[cut].work && s.effects[e].answer == s.runs[cut].phase.answer
  {
    assert HasEffect(s, cut);
    e :| 0 <= e < |s.effects| && s.effects[e].work.run == cut;
    assert MadeBy(s.effects[e], s.runs[cut]);
  }

  /**
   * The lost acknowledgement, which the key is for: a run was cut off after its effect had landed, and its client, who
   * heard nothing or an exception, tries again in time. The retry does not run the scenario; it is answered with what
   * the run that was cut off would have answered.
   */
  lemma RetryOfACutOffRunIsReplayed(s: State, steps: seq<Step>, cut: nat, i: nat)
    requires Inv(s) && Possible(s, steps) && cut < |s.runs| && s.runs[cut].phase.CutOff?
    requires s.now < s.runs[cut].work.expiresAt && Unswept(steps, s.runs[cut].work.id)
    requires i < |s.runs| && s.runs[i].work.id == s.runs[cut].work.id ==> s.runs[i].phase.Opened?
    ensures var t, first := After(s, steps), s.runs[cut];
            i < |t.runs| && t.runs[i].work.id == first.work.id && t.runs[i].phase.Ended? ==>
              Answered(t.runs[i].phase.reply)
              == if t.runs[i].work.fingerprint == first.work.fingerprint
                 then Answer(first.phase.answer.status, first.phase.answer.body, true) else Problem(KEY_REUSED.code)
  {
    var e := CutOffEffect(s, cut);
    EffectIsGuarded(s, e);
    LaterClientsSeeTheEffectsAnswer(s, steps, e, i);
  }

  lemma {:induction false} StayOnCourse(s: State, steps: seq<Step>, i: nat, id: KeyId, row: Row)
    requires Inv(s) && Possible(s, steps) && Unswept(steps, id) && OnCourse(s, i, id, row)
    ensures OnCourse(After(s, steps), i, id, row)
    decreases |steps|
  {
    if steps != [] {
      UnsweptRest(steps, id);
      StepKeepsInv(s, steps[0]);
      StepKeepsOnCourse(s, steps[0], i, id, row);
      StayOnCourse(Apply(s, steps[0]), steps[1..], i, id, row);
    }
  }
}
