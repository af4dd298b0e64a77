/**
 * Inviting as it happens in the database: the look for a live invitation and the insert are two statements of a
 * transaction, and transactions overlap. A row stays with the transaction that wrote it; others see it from the commit
 * on.
 */
module InvitationRuns {
  import opened Outcomes
  import opened Invitations

  datatype Row = Row(token: Token, run: nat)

  datatype Phase = Idle | Looked(invited: string) | Committed | RolledBack

  datatype Run = Run(tenant: nat, phase: Phase)

  datatype State = State(rows: seq<Row>, runs: seq<Run>, now: int)

  datatype Step =
    | Arrive(tenant: nat)
    | Look(i: nat, invited: string)                    // refused, and everything rolled back, if a live one is seen
    | Issue(i: nat, lifetime: int, secret: string)
    | Commit(i: nat)
    | Rollback(i: nat)
    | Tick(ticks: nat)
    | Use(k: nat)                                      // somebody follows a link that still works

  const INITIAL := State([], [], 0)

  /** Every row has its transaction, and holds nothing from the future. */
  ghost predicate Valid(s: State) {
    forall p :: 0 <= p < |s.rows| ==> s.rows[p].run < |s.runs| && Timely(s.rows[p].token, s.now)
  }

  predicate Timely(token: Token, now: int) {
    token.createdAt <= now && (token.usedAt.Some? ==> token.usedAt.value <= now)
  }

  predicate Known(s: State, p: nat) {
    p < |s.rows| && s.rows[p].run < |s.runs|
  }

  predicate Public(s: State, p: nat) {
    Known(s, p) && s.runs[s.rows[p].run].phase.Committed?
  }

  /** Committed, or it still may be. */
  predicate Standing(s: State, p: nat) {
    Known(s, p) && !s.runs[s.rows[p].run].phase.RolledBack?
  }

  predicate LiveFor(s: State, p: nat, tenant: nat, invited: string) {
    p < |s.rows| && Live(s.rows[p].token, tenant, invited, s.now)
  }

  /** What a look of the `i`-th transaction finds: a committed row, or one of its own. */
  predicate SeesLive(s: State, i: nat, invited: string) {
    && i < |s.runs|
    && exists p :: 0 <= p < |s.rows| && (Public(s, p) || s.rows[p].run == i) && LiveFor(s, p, s.runs[i].tenant, invited)
  }

  predicate Enabled(s: State, step: Step) {
    match step
    case Arrive(_) => true
    case Look(i, _) => i < |s.runs| && s.runs[i].phase.Idle?
    case Issue(i, lifetime, _) => i < |s.runs| && s.runs[i].phase.Looked? && lifetime > 0
    case Commit(i) => i < |s.runs| && s.runs[i].phase.Idle?
    case Rollback(i) => i < |s.runs| && (s.runs[i].phase.Idle? || s.runs[i].phase.Looked?)
    case Tick(_) => true
    case Use(k) => Public(s, k) && s.rows[k].token.usedAt.None? && s.now < s.rows[k].token.expiresAt
  }

  function Turned(s: State, i: nat, phase: Phase): State
    requires i < |s.runs|
  {
    s.(runs := s.runs[i := s.runs[i].(phase := phase)])
  }

  function NewRow(s: State, i: nat, lifetime: int, secret: string): Row
    requires i < |s.runs| && s.runs[i].phase.Looked?
  {
    Row(Token(s.runs[i].tenant, secret, Some(s.runs[i].phase.invited), s.now, s.now + lifetime, None), i)
  }

  function Apply(s: State, step: Step): State
    requires Enabled(s, step)
  {
    match step
    case Arrive(tenant) => s.(runs := s.runs + [Run(tenant, Idle)])
    case Look(i, invited) => Turned(s, i, if SeesLive(s, i, invited) then RolledBack else Looked(invited))
    case Issue(i, lifetime, secret) => Turned(s, i, Idle).(rows := s.rows + [NewRow(s, i, lifetime, secret)])
    case Commit(i) => Turned(s, i, Committed)
    case Rollback(i) => Turned(s, i, RolledBack)
    case Tick(ticks) => s.(now := s.now + ticks)
    case Use(k) => s.(rows := s.rows[k := s.rows[k].(token := s.rows[k].token.(usedAt := Some(s.now)))])
  }

  predicate Possible(s: State, steps: seq<Step>)
    decreases |steps|
  {
    steps == [] || (Enabled(s, steps[0]) && Possible(Apply(s, steps[0]), steps[1..]))
  }

  function After(s: State, steps: seq<Step>): State
    requires Possible(s, steps)
    decreases |steps|
  {
    if steps == [] then s else After(Apply(s, steps[0]), steps[1..])
  }

  // ----- two invitations at once

  function Later(one: Token, other: Token): int {
    if one.createdAt < other.createdAt then other.createdAt else one.createdAt
  }

  /** Both are live when the later of the two begins. */
  predicate Together(one: Token, other: Token) {
    SameAddressee(one, other) && LiveAt(one, Later(one, other)) && LiveAt(other, Later(one, other))
  }

  /** That is, both are live at some moment. */
  lemma TogetherIff(one: Token, other: Token)
    requires SameAddressee(one, other)
    ensures Together(one, other) <==> exists moment :: LiveAt(one, moment) && LiveAt(other, moment)
  {
    if moment :| LiveAt(one, moment) && LiveAt(other, moment) {
      assert LiveAt(one, Later(one, other));
    }
  }

  /** The promise: of the committed invitations to one addressee no two are ever live at the same moment. */
  ghost predicate NoTwoLive(s: State) {
    forall p, q :: 0 <= p < q < |s.rows| && Public(s, p) && Public(s, q) ==> !Together(s.rows[p].token, s.rows[q].token)
  }

  // ----- the states from which the promise can no longer be broken without another look

  predicate LooksAt(s: State, i: nat, tenant: nat, invited: string) {
    i < |s.runs| && s.runs[i] == Run(tenant, Looked(invited))
  }

  ghost predicate RowsSafe(s: State) {
    forall p, q :: 0 <= p < q < |s.rows| && Standing(s, p) && Standing(s, q)
        ==> !Together(s.rows[p].token, s.rows[q].token)
  }

  ghost predicate LooksSafe(s: State) {
    forall i: nat, p: nat, tenant: nat, invited: string ::
      LooksAt(s, i, tenant, invited) && Standing(s, p) ==> !LiveFor(s, p, tenant, invited)
  }

  ghost predicate LookersSafe(s: State) {
    forall i: nat, j: nat, tenant: nat, invited: string ::
      LooksAt(s, i, tenant, invited) && LooksAt(s, j, tenant, invited) ==> i == j
  }

  ghost predicate Safe(s: State) {
    RowsSafe(s) && LooksSafe(s) && LookersSafe(s)
  }

  lemma StepKeepsValid(s: State, step: Step)
    requires Valid(s) && Enabled(s, step)
    ensures Valid(Apply(s, step))
  {
  }

  lemma NoNewLookers(s: State, step: Step)
    requires LookersSafe(s) && Enabled(s, step) && !step.Look?
    ensures LookersSafe(Apply(s, step))
  {
    var t := Apply(s, step);
    forall i: nat, j: nat, tenant: nat, invited: string | LooksAt(t, i, tenant, invited)
        && LooksAt(t, j, tenant, invited)
      ensures i == j
    {
      assert LooksAt(s, i, tenant, invited) && LooksAt(s, j, tenant, invited);
    }
  }

  lemma IssuingKeepsSafe(s: State, i: nat, lifetime: int, secret: string)
    requires Valid(s) && Safe(s) && Enabled(s, Issue(i, lifetime, secret))
    ensures Safe(Apply(s, Issue(i, lifetime, secret)))
  {
    var t := Apply(s, Issue(i, lifetime, secret));
    var tenant, invited, n := s.runs[i].tenant, s.runs[i].phase.invited, |s.rows|;
    assert LooksAt(s, i, tenant, invited);
    forall p, q | 0 <= p < q < |t.rows| && Standing(t, p) && Standing(t, q)
      ensures !Together(t.rows[p].token, t.rows[q].token)
    {
      assert Standing(s, p);
      if q < n {
        assert Standing(s, q);
      } else {
        assert !LiveFor(s, p, tenant, invited) && Timely(s.rows[p].token, s.now);
      }
    }
    forall j: nat, p: nat, whose: nat, whom: string | LooksAt(t, j, whose, whom) && Standing(t, p)
      ensures !LiveFor(t, p, whose, whom)
    {
      assert LooksAt(s, j, whose, whom);
      if p < n { assert Standing(s, p) && !LiveFor(s, p, whose, whom); }
    }
    NoNewLookers(s, Issue(i, lifetime, secret));
  }

  lemma OtherStepKeepsSafe(s: State, step: Step)
    requires Valid(s) && Safe(s) && Enabled(s, step) && !step.Look? && !step.Issue?
    ensures Safe(Apply(s, step))
  {
    var t := Apply(s, step);
    forall p, q | 0 <= p < q < |t.rows| && Standing(t, p) && Standing(t, q)
      ensures !Together(t.rows[p].token, t.rows[q].token)
    {
      assert Standing(s, p) && Standing(s, q);
    }
    forall j: nat, p: nat, whose: nat, whom: string | LooksAt(t, j, whose, whom) && Standing(t, p)
      ensures !LiveFor(t, p, whose, whom)
    {
      assert LooksAt(s, j, whose, whom) && Standing(s, p) && !LiveFor(s, p, whose, whom);
    }
    NoNewLookers(s, step);
  }

  predicate LookFree(steps: seq<Step>) {
    forall n :: 0 <= n < |steps| ==> !steps[n].Look?
  }

  lemma {:induction false} SafeStaysSafe(s: State, steps: seq<Step>)
    requires Valid(s) && Safe(s) && Possible(s, steps) && LookFree(steps)
    ensures NoTwoLive(After(s, steps))
    decreases |steps|
  {
    if steps != [] {
      if steps[0].Issue? {
        IssuingKeepsSafe(s, steps[0].i, steps[0].lifetime, steps[0].secret);
      } else {
        OtherStepKeepsSafe(s, steps[0]);
      }
      StepKeepsValid(s, steps[0]);
      SafeStaysSafe(Apply(s, steps[0]), steps[1..]);
    } else {
      forall p, q | 0 <= p < q < |s.rows| && Public(s, p) && Public(s, q)
        ensures !Together(s.rows[p].token, s.rows[q].token)
      {
        assert Standing(s, p) && Standing(s, q);
      }
    }
  }

  // ----- from any other state it can

  /** The transaction issues what it looked for and commits. */
  function Finish(s: State, i: nat): (steps: seq<Step>)
    requires i < |s.runs|
    ensures LookFree(steps)
  {
    if s.runs[i].phase.Looked? then [Issue(i, 1, ""), Commit(i)]
    else if s.runs[i].phase.Idle? then [Commit(i)]
    else []
  }

  lemma {:induction false} Concatenated(s: State, first: seq<Step>, more: seq<Step>)
    requires Possible(s, first) && Possible(After(s, first), more)
    ensures Possible(s, first + more) && After(s, first + more) == After(After(s, first), more)
    decreases |first|
  {
    if first == [] {
      assert first + more == more;
    } else {
      Concatenated(Apply(s, first[0]), first[1..], more);
      assert (first + more)[1..] == first[1..] + more;
    }
  }

  lemma JustOne(s: State, step: Step)
    requires Enabled(s, step)
    ensures Possible(s, [step]) && After(s, [step]) == Apply(s, step)
  {
    assert [step][1..] == [];
  }

  lemma Finishing(s: State, i: nat)
    requires i < |s.runs| && !s.runs[i].phase.RolledBack?
    ensures Possible(s, Finish(s, i))
    ensures var t := After(s, Finish(s, i));
            t == Turned(s, i, Committed).(rows := if s.runs[i].phase.Looked? then s.rows + [NewRow(s, i, 1, "")]
                                          else s.rows)
  {
    var steps := Finish(s, i);
    if s.runs[i].phase.Looked? {
      var t := Apply(s, steps[0]);
      assert steps[1..] == [Commit(i)];
      JustOne(t, Commit(i));
      assert s.runs[i := t.runs[i]][i := s.runs[i].(phase := Committed)] == s.runs[i := s.runs[i].(phase := Committed)];
    } else if s.runs[i].phase.Idle? {
      JustOne(s, Commit(i));
    } else {
      assert s.runs[i := s.runs[i]] == s.runs;
    }
  }

  /** Both transactions finish, one after the other. */
  lemma BothFinish(s: State, i: nat, j: nat) returns (steps: seq<Step>, n: nat, m: nat)
    requires i < |s.runs| && !s.runs[i].phase.RolledBack? && j < |s.runs| && !s.runs[j].phase.RolledBack?
    ensures LookFree(steps) && Possible(s, steps)
    ensures var t := After(s, steps);
            && s.rows <= t.rows && |t.runs| == |s.runs| && t.now == s.now
            && t.runs[i].phase.Committed? && t.runs[j].phase.Committed?
            && (s.runs[i].phase.Looked? ==> n == |s.rows| && n < |t.rows| && t.rows[n] == NewRow(s, i, 1, ""))
            && (s.runs[j].phase.Looked? && i != j ==> n <= m < |t.rows| && t.rows[m] == NewRow(s, j, 1, ""))
            && (s.runs[i].phase.Looked? ==> n < m)
  {
    var first := Finish(s, i);
    Finishing(s, i);
    var half := After(s, first);
    Finishing(half, j);
    Concatenated(s, first, Finish(half, j));
    steps := first + Finish(half, j);
    n, m := |s.rows|, |half.rows|;
  }

  lemma UnsafeCanClash(s: State) returns (steps: seq<Step>)
    requires Valid(s) && !Safe(s)
    ensures LookFree(steps) && Possible(s, steps) && !NoTwoLive(After(s, steps))
  {
    var n, m;
    if !RowsSafe(s) {
      var p, q :| 0 <= p < q < |s.rows| && Standing(s, p) && Standing(s, q)
          && Together(s.rows[p].token, s.rows[q].token);
      steps, n, m := BothFinish(s, s.rows[p].run, s.rows[q].run);
      assert Public(After(s, steps), p) && Public(After(s, steps), q);
    } else if !LooksSafe(s) {
      var i: nat, p: nat, tenant: nat, invited: string :|
        LooksAt(s, i, tenant, invited) && Standing(s, p) && LiveFor(s, p, tenant, invited);
      steps, n, m := BothFinish(s, i, s.rows[p].run);
      assert Public(After(s, steps), p) && Public(After(s, steps), n) && Timely(s.rows[p].token, s.now);
    } else {
      var i: nat, j: nat, tenant: nat, invited: string :|
        LooksAt(s, i, tenant, invited) && LooksAt(s, j, tenant, invited) && i != j;
      steps, n, m := BothFinish(s, i, j);
      assert Public(After(s, steps), n) && Public(After(s, steps), m);
    }
  }

  /**
   * Whatever the transactions at work do without another look, no two invitations are live at once - exactly if the
   * state is safe: no two rows that may count are live at once, no transaction is between its look and its insert while
   * somebody has a live row to that addressee, and no two are there at once.
   */
  lemma SafeIff(s: State)
    requires Valid(s)
    ensures Safe(s) <==> forall steps :: LookFree(steps) && Possible(s, steps) ==> NoTwoLive(After(s, steps))
  {
    if Safe(s) {
      forall steps | LookFree(steps) && Possible(s, steps)
        ensures NoTwoLive(After(s, steps))
      {
        SafeStaysSafe(s, steps);
      }
    } else {
      var steps := UnsafeCanClash(s);
    }
  }

  // ----- which looks keep it so

  /** No other transaction has a live uncommitted row to this addressee, or is between its look and its insert. */
  ghost predicate Alone(s: State, i: nat, invited: string) {
    && i < |s.runs|
    && (forall p: nat :: Standing(s, p) && !Public(s, p) && s.rows[p].run != i ==>
          !LiveFor(s, p, s.runs[i].tenant, invited))
    && (forall j: nat :: LooksAt(s, j, s.runs[i].tenant, invited) ==> j == i)
  }

  /** A look that is not refused keeps the state safe exactly if it happens alone. */
  lemma LookKeepsSafeIff(s: State, i: nat, invited: string)
    requires Valid(s) && Safe(s) && Enabled(s, Look(i, invited)) && !SeesLive(s, i, invited)
    ensures Safe(Apply(s, Look(i, invited))) <==> Alone(s, i, invited)
  {
    var t, tenant := Apply(s, Look(i, invited)), s.runs[i].tenant;
    assert LooksAt(t, i, tenant, invited);
    assert forall p: nat :: Standing(t, p) <==> Standing(s, p);
    assert forall p: nat, whose, whom :: LiveFor(t, p, whose, whom) <==> LiveFor(s, p, whose, whom);
    assert RowsSafe(t);
    if Alone(s, i, invited) {
      forall j: nat, p: nat, whose: nat, whom: string | LooksAt(t, j, whose, whom) && Standing(t, p)
        ensures !LiveFor(t, p, whose, whom)
      {
        if j != i { assert LooksAt(s, j, whose, whom); }
      }
      forall j: nat, k: nat, whose: nat, whom: string | LooksAt(t, j, whose, whom) && LooksAt(t, k, whose, whom)
        ensures j == k
      {
        if j != i { assert LooksAt(s, j, whose, whom); }
        if k != i { assert LooksAt(s, k, whose, whom); }
      }
    } else if p: nat :| Standing(s, p) && !Public(s, p) && s.rows[p].run != i && LiveFor(s, p, tenant, invited) {
      assert Standing(t, p);
    } else {
      var j: nat :| LooksAt(s, j, tenant, invited) && j != i;
      assert LooksAt(t, j, tenant, invited);
    }
  }

  /** Every look of the history that is not refused happens alone. */
  ghost predicate LooksAlone(s: State, steps: seq<Step>)
    decreases |steps|
  {
    steps == [] || (
      && Enabled(s, steps[0])
      && (steps[0].Look? && !SeesLive(s, steps[0].i, steps[0].invited) ==> Alone(s, steps[0].i, steps[0].invited))
      && LooksAlone(Apply(s, steps[0]), steps[1..]))
  }

  ghost predicate SafeThroughout(s: State, steps: seq<Step>)
    decreases |steps|
  {
    Safe(s) && (steps != [] ==> Enabled(s, steps[0]) && SafeThroughout(Apply(s, steps[0]), steps[1..]))
  }

  lemma StepKeepsSafeIff(s: State, step: Step)
    requires Valid(s) && Safe(s) && Enabled(s, step)
    ensures Safe(Apply(s, step)) <==> (step.Look? && !SeesLive(s, step.i, step.invited)
                                       ==> Alone(s, step.i, step.invited))
  {
    match step
    case Issue(i, lifetime, secret) => IssuingKeepsSafe(s, i, lifetime, secret);
    case Look(i, invited) =>
      if SeesLive(s, i, invited) { OtherStepKeepsSafe(s, Rollback(i)); } else { LookKeepsSafeIff(s, i, invited); }
    case _ => OtherStepKeepsSafe(s, step);
  }

  lemma {:induction false} SafeAsLongAsAlone(s: State, steps: seq<Step>)
    requires Valid(s) && Safe(s) && Possible(s, steps)
    ensures SafeThroughout(s, steps) <==> LooksAlone(s, steps)
    ensures LooksAlone(s, steps) ==> NoTwoLive(After(s, steps))
    decreases |steps|
  {
    if steps == [] {
      SafeStaysSafe(s, []);
    } else {
      StepKeepsSafeIff(s, steps[0]);
      StepKeepsValid(s, steps[0]);
      if Safe(Apply(s, steps[0])) { SafeAsLongAsAlone(Apply(s, steps[0]), steps[1..]); }
    }
  }

  /**
   * Over any history: nothing can go wrong without another look, at any time, exactly if every look that was not
   * refused happened alone; and then no moment has two live invitations to one addressee.
   */
  lemma AtMostOneLiveWhenLooksAreAlone(steps: seq<Step>, p: nat, q: nat, moment: int)
    requires Possible(INITIAL, steps)
    ensures SafeThroughout(INITIAL, steps) <==> LooksAlone(INITIAL, steps)
    ensures var t := After(INITIAL, steps);
            LooksAlone(INITIAL, steps) && p < q < |t.rows| && Public(t, p) && Public(t, q)
            && SameAddressee(t.rows[p].token, t.rows[q].token)
            ==> !(LiveAt(t.rows[p].token, moment) && LiveAt(t.rows[q].token, moment))
  {
    SafeAsLongAsAlone(INITIAL, steps);
    var t := After(INITIAL, steps);
    if p < q < |t.rows| && SameAddressee(t.rows[p].token, t.rows[q].token) {
      TogetherIff(t.rows[p].token, t.rows[q].token);
    }
  }

  /** Two requests whose looks come before either insert: the second letter goes out. */
  lemma TwoLettersHappen(tenant: nat, invited: string, one: string, other: string, lifetime: int)
    requires lifetime > 0
    ensures var steps := [Arrive(tenant), Arrive(tenant), Look(0, invited), Look(1, invited)]
                         + [Issue(0, lifetime, one), Issue(1, lifetime, other), Commit(0), Commit(1)];
            && Possible(INITIAL, steps)
            && var t := After(INITIAL, steps);
            LiveInPublic(t, 0, tenant, invited) && LiveInPublic(t, 1, tenant, invited) && !NoTwoLive(t)
  {
    var looks := [Arrive(tenant), Arrive(tenant), Look(0, invited), Look(1, invited)];
    var issues := [Issue(0, lifetime, one), Issue(1, lifetime, other), Commit(0), Commit(1)];
    var looked := State([], [Run(tenant, Looked(invited)), Run(tenant, Looked(invited))], 0);
    TwoLook(tenant, invited, looks, looked);
    TwoIssue(tenant, invited, one, other, lifetime, looked, issues);
    Concatenated(INITIAL, looks, issues);
  }

  predicate LiveInPublic(s: State, p: nat, tenant: nat, invited: string) {
    Public(s, p) && LiveFor(s, p, tenant, invited)
  }

  lemma TwoLook(tenant: nat, invited: string, steps: seq<Step>, looked: State)
    requires steps == [Arrive(tenant), Arrive(tenant), Look(0, invited), Look(1, invited)]
    requires looked == State([], [Run(tenant, Looked(invited)), Run(tenant, Looked(invited))], 0)
    ensures Possible(INITIAL, steps) && After(INITIAL, steps) == looked
  {
    var arrived := Apply(Apply(INITIAL, Arrive(tenant)), Arrive(tenant));
    assert arrived.runs == [Run(tenant, Idle), Run(tenant, Idle)];
    TwoSteps(INITIAL, steps);
    var rest := steps[2..];
    assert rest == [Look(0, invited), Look(1, invited)];
    TwoSteps(arrived, rest);
    assert Apply(Apply(arrived, rest[0]), rest[1]) == looked;
  }

  lemma TwoIssue(tenant: nat, invited: string, one: string, other: string, lifetime: int, looked: State,
                 steps: seq<Step>)
    requires lifetime > 0 && looked == State([], [Run(tenant, Looked(invited)), Run(tenant, Looked(invited))], 0)
    requires steps == [Issue(0, lifetime, one), Issue(1, lifetime, other), Commit(0), Commit(1)]
    ensures Possible(looked, steps)
    ensures var t := After(looked, steps);
            LiveInPublic(t, 0, tenant, invited) && LiveInPublic(t, 1, tenant, invited) && !NoTwoLive(t)
  {
    var token := Token(tenant, one, Some(invited), 0, lifetime, None);
    var second := token.(secret := other);
    var issued := Apply(Apply(looked, steps[0]), steps[1]);
    assert issued.rows == [Row(token, 0), Row(second, 1)] && issued.runs == [Run(tenant, Idle), Run(tenant, Idle)];
    TwoSteps(looked, steps);
    var rest := steps[2..];
    assert rest == [Commit(0), Commit(1)];
    TwoSteps(issued, rest);
    var t := Apply(Apply(issued, rest[0]), rest[1]);
    assert t.rows == issued.rows && t.runs == [Run(tenant, Committed), Run(tenant, Committed)];
    assert Public(t, 0) && Public(t, 1) && Together(token, second);
  }

  lemma TwoSteps(s: State, steps: seq<Step>)
    requires |steps| >= 2 && Enabled(s, steps[0]) && Enabled(Apply(s, steps[0]), steps[1])
    ensures var t := Apply(Apply(s, steps[0]), steps[1]);
            (Possible(s, steps) <==> Possible(t, steps[2..]))
                && (Possible(s, steps) ==> After(s, steps) == After(t, steps[2..]))
  {
    assert steps[1..][1..] == steps[2..];
  }

  // ----- undisturbed, it is what the sequential office does

  /** The committed tokens among the first `n` rows. */
  function Published(s: State, n: nat): seq<Token>
    requires n <= |s.rows|
  {
    if n == 0 then [] else Published(s, n - 1) + if Public(s, n - 1) then [s.rows[n - 1].token] else []
  }

  lemma {:induction false} PublishedLiveIff(s: State, n: nat, tenant: nat, invited: string)
    requires n <= |s.rows|
    ensures AnyLive(Published(s, n), tenant, invited, s.now)
            <==> exists p :: 0 <= p < n && Public(s, p) && LiveFor(s, p, tenant, invited)
  {
    if n > 0 {
      PublishedLiveIff(s, n - 1, tenant, invited);
      var before, tokens := Published(s, n - 1), Published(s, n);
      assert forall k :: 0 <= k < |before| ==> tokens[k] == before[k];
      if Public(s, n - 1) { assert tokens[|before|] == s.rows[n - 1].token; }
    }
  }

  lemma {:induction false} PublishedIsTheSame(s: State, t: State, n: nat)
    requires n <= |s.rows| && n <= |t.rows|
    requires forall p :: 0 <= p < n ==> s.rows[p] == t.rows[p] && (Public(s, p) <==> Public(t, p))
    ensures Published(s, n) == Published(t, n)
  {
    if n > 0 { PublishedIsTheSame(s, t, n - 1); }
  }

  /** The schedule of a transaction whose look, insert and commit follow one another. */
  function Undisturbed(s: State, i: nat, invited: string, lifetime: int, secret: string): seq<Step>
    requires i < |s.runs|
  {
    [Look(i, invited)] + if SeesLive(s, i, invited) then [] else [Issue(i, lifetime, secret), Commit(i)]
  }

  lemma UndisturbedRefusal(s: State, i: nat, invited: string)
    requires Enabled(s, Look(i, invited)) && SeesLive(s, i, invited)
    requires forall p :: 0 <= p < |s.rows| ==> s.rows[p].run != i
    ensures Possible(s, [Look(i, invited)])
    ensures var t := After(s, [Look(i, invited)]);
            && |t.rows| == |s.rows|
            && Published(t, |t.rows|) == Published(s, |s.rows|)
  {
    JustOne(s, Look(i, invited));
    PublishedIsTheSame(s, Apply(s, Look(i, invited)), |s.rows|);
  }

  lemma UndisturbedIssue(s: State, i: nat, invited: string, lifetime: int, secret: string)
    requires Enabled(s, Look(i, invited)) && !SeesLive(s, i, invited) && lifetime > 0
    requires forall p :: 0 <= p < |s.rows| ==> s.rows[p].run != i && s.rows[p].run < |s.runs|
    ensures var steps := [Look(i, invited)] + [Issue(i, lifetime, secret), Commit(i)];
            && Possible(s, steps)
            && var t := After(s, steps);
            && |t.rows| == |s.rows| + 1
            && Published(t, |t.rows|)
               == Published(s, |s.rows|) + [Token(s.runs[i].tenant, secret, Some(invited), s.now, s.now + lifetime,
                                                  None)]
  {
    JustOne(s, Look(i, invited));
    var looked := Apply(s, Look(i, invited));
    var issued := Apply(looked, Issue(i, lifetime, secret));
    var t := Apply(issued, Commit(i));
    var rest := [Issue(i, lifetime, secret), Commit(i)];
    assert rest[2..] == [];
    TwoSteps(looked, rest);
    Concatenated(s, [Look(i, invited)], rest);
    PublishedIsTheSame(s, t, |s.rows|);
    assert Public(t, |s.rows|) && t.rows[|s.rows|] == NewRow(looked, i, lifetime, secret);
  }

  lemma SequentialInvitation(ports: Ports, office: Office, tenant: nat, mail: string, now: int, lifetime: int,
                             secret: string)
    requires lifetime > 0 && ports.lifetime(office.looks) == Value(lifetime)
             && ports.secret(office.looks + 1) == Value(secret)
    requires ports.clock(office.looks) == now && ports.clock(office.looks + 1) == now
    ensures Invited(ports, office, tenant, Some(mail)).0.rows
            == if AnyLive(office.rows, tenant, ports.digest(mail), now) then office.rows
               else office.rows + [Token(tenant, secret, Some(ports.digest(mail)), now, now + lifetime, None)]
  {
  }

  /** Undisturbed, a transaction changes the published tokens as the sequential `Invited` says. */
  lemma UndisturbedInvitation(s: State, i: nat, ports: Ports, looks: nat, mail: string, lifetime: int, secret: string)
    requires i < |s.runs| && s.runs[i].phase.Idle? && Valid(s)
    requires forall p :: 0 <= p < |s.rows| ==> s.rows[p].run != i
    requires lifetime > 0 && ports.lifetime(looks) == Value(lifetime) && ports.secret(looks + 1) == Value(secret)
    requires ports.clock(looks) == s.now && ports.clock(looks + 1) == s.now
    ensures var steps := Undisturbed(s, i, ports.digest(mail), lifetime, secret);
            && Possible(s, steps)
            && var t := After(s, steps);
            Published(t, |t.rows|)
            == Invited(ports, Office(Published(s, |s.rows|), looks), s.runs[i].tenant, Some(mail)).0.rows
  {
    var invited := ports.digest(mail);
    SequentialInvitation(ports, Office(Published(s, |s.rows|), looks), s.runs[i].tenant, mail, s.now, lifetime, secret);
    PublishedLiveIff(s, |s.rows|, s.runs[i].tenant, invited);
    if SeesLive(s, i, invited) {
      assert [Look(i, invited)] + [] == [Look(i, invited)];
      UndisturbedRefusal(s, i, invited);
    } else {
      UndisturbedIssue(s, i, invited, lifetime, secret);
    }
  }
}
