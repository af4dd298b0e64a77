/** The idempotency key of a mutating request: its row, the claim, the answer, and one guarded request. */
module Idempotency {
  import opened Outcomes

  /** The primary key of `http_idempotency_key`: clients invent keys, so the tenant is part of it. */
  datatype KeyId = KeyId(tenant: string, key: string)

  datatype SavedAnswer = SavedAnswer(status: int, body: string)

  /** A row. The table's check constraint is the type: a completed row has an answer, an open one has none. */
  datatype Row =
    | InProgress(fingerprint: string, expiresAt: int)
    | Completed(fingerprint: string, expiresAt: int, answer: SavedAnswer)

  datatype ClaimOutcome = Taken | Replay | InFlight

  datatype Claim = Claim(outcome: ClaimOutcome, answer: SavedAnswer)

  /** What left the tenant scope normally: how the claim ended and what to answer with. */
  datatype Served = Served(outcome: ClaimOutcome, answer: SavedAnswer)

  /** One guarded request: who runs it, which key it brought, the fingerprint of its body, the key's deadline. */
  datatype Work = Work(run: nat, id: KeyId, fingerprint: string, expiresAt: int)

  /** What the scenario behind the handler did: the rows it wrote before it ended, and how it ended. */
  datatype Operation = Operation(writes: seq<string>, result: Attempt<string>)

  /** The committed trace of one scenario: whose it was, what it wrote, what it answered, and when it landed. */
  datatype Effect = Effect(work: Work, writes: seq<string>, answer: SavedAnswer, at: int)

  const OK := 200
  const NO_ANSWER := SavedAnswer(0, "")
  const KEY_REUSED := Error("idempotency_key_reused")

  function Lookup(keys: map<KeyId, Row>, id: KeyId): Option<Row> {
    if id in keys then Some(keys[id]) else None
  }

  /** What a claim answers when the row it read back is somebody else's. */
  function Judge(seen: Row, fingerprint: string): Attempt<Claim> {
    if seen.fingerprint != fingerprint then Refused(KEY_REUSED)
    else match seen
      case InProgress(_, _) => Value(Claim(InFlight, NO_ANSWER))
      case Completed(_, _, answer) => Value(Claim(Replay, answer))
  }

  /** What one guarded request with no rival leaves behind: the key table, the effects, and what it returns. */
  datatype Settled = Settled(keys: map<KeyId, Row>, effects: seq<Effect>, reply: Attempt<Served>)

  function Settle(keys: map<KeyId, Row>, effects: seq<Effect>, work: Work, operation: Operation, now: int): Settled {
    if work.id in keys then
      match Judge(keys[work.id], work.fingerprint)
      case Value(claim) => Settled(keys, effects, Value(Served(claim.outcome, claim.answer)))
      case Refused(error) => Settled(keys, effects, Refused(error))
      case Thrown => Settled(keys, effects, Thrown)
    else
      match operation.result
      case Value(body) =>
        var answer := SavedAnswer(OK, body);
        Settled(keys[work.id := Completed(work.fingerprint, work.expiresAt, answer)],
                effects + [Effect(work, operation.writes, answer, now)],
                Value(Served(Taken, answer)))
      case Refused(error) => Settled(keys, effects, Refused(error))
      case Thrown => Settled(keys, effects, Thrown)
  }

  /** What the client sees: an answer and whether it is marked as replayed, or a problem named by its code. */
  datatype Response =
    | Answer(status: int, body: string, replayed: bool)
    | Problem(code: string)
    | Broken

  function Answered(reply: Attempt<Served>): Response {
    match reply
    case Value(Served(InFlight, _)) => Problem("idempotency_key_in_flight")
    case Value(Served(outcome, answer)) => Answer(answer.status, answer.body, outcome.Replay?)
    case Refused(error) => Problem(error.code)
    case Thrown => Broken
  }

  /** Under a free key the client sees how its own scenario ended, whatever the table holds besides. */
  lemma FirstClientSees(keys: map<KeyId, Row>, effects: seq<Effect>, work: Work, operation: Operation, now: int)
    requires work.id !in keys
    ensures var seen := Answered(Settle(keys, effects, work, operation, now).reply);
            && (forall body :: operation.result == Value(body) ==> seen == Answer(200, body, false))
            && (forall code :: operation.result == Refused(Error(code)) ==> seen == Problem(code))
            && (operation.result == Thrown ==> seen == Broken)
  {
  }

  /** Different endings look different, so a client under a free key can tell what its scenario came to. */
  lemma EndingsAreToldApart(keys: map<KeyId, Row>, effects: seq<Effect>, work: Work, one: Operation, other: Operation,
                            now: int)
    requires work.id !in keys
    ensures Answered(Settle(keys, effects, work, one, now).reply)
            == Answered(Settle(keys, effects, work, other, now).reply)
            <==> one.result == other.result
  {
    FirstClientSees(keys, effects, work, one, now);
    FirstClientSees(keys, effects, work, other, now);
  }

  /** Under a taken key the client sees whose row lies there and how far it is; its own scenario does not matter. */
  lemma LaterClientSees(keys: map<KeyId, Row>, effects: seq<Effect>, work: Work, operation: Operation, now: int)
    requires work.id in keys
    ensures var row := keys[work.id];
            var done := Settle(keys, effects, work, operation, now);
            var seen := Answered(done.reply);
            && done.keys == keys && done.effects == effects
            && (row.fingerprint != work.fingerprint ==> seen == Problem("idempotency_key_reused"))
            && (row == InProgress(work.fingerprint, row.expiresAt) ==> seen == Problem("idempotency_key_in_flight"))
            && forall status, body :: row == Completed(work.fingerprint, row.expiresAt, SavedAnswer(status, body)) ==>
                 seen == Answer(status, body, true)
  {
  }

  /** "Reused" is for a key taken with another body, or for a scenario that says so itself. */
  lemma ReusedIff(keys: map<KeyId, Row>, effects: seq<Effect>, work: Work, operation: Operation, now: int)
    ensures Answered(Settle(keys, effects, work, operation, now).reply) == Problem("idempotency_key_reused")
            <==> if work.id in keys then keys[work.id].fingerprint != work.fingerprint
                 else operation.result == Refused(Error("idempotency_key_reused"))
  {
    if work.id in keys {
      LaterClientSees(keys, effects, work, operation, now);
    } else {
      FirstClientSees(keys, effects, work, operation, now);
    }
  }

  /** Something is stored exactly when the client sees an answer that is not a replay; and then it is that answer. */
  lemma StoredIffAnswered(keys: map<KeyId, Row>, effects: seq<Effect>, work: Work, operation: Operation, now: int)
    ensures var done := Settle(keys, effects, work, operation, now);
            var seen := Answered(done.reply);
            && (done.effects != effects <==> seen.Answer? && !seen.replayed)
            && (done.effects == effects ==> done.keys == keys)
            && (done.effects != effects ==>
                  var answer := SavedAnswer(seen.status, seen.body);
                  && done.keys == keys[work.id := Completed(work.fingerprint, work.expiresAt, answer)]
                  && done.effects == effects + [Effect(work, operation.writes, answer, now)])
  {
    if work.id !in keys && operation.result.Value? {
      assert |Settle(keys, effects, work, operation, now).effects| == |effects| + 1;
    }
  }

  /** The second request under a key: what its client sees, against what the first one's client saw. */
  ghost predicate RepeatSees(first: Response, second: Response, sameBody: bool) {
    first.Answer? && second == if sameBody then Answer(first.status, first.body, true) else Problem(KEY_REUSED.code)
  }

  /**
   * A request repeated under a key that was free. If the first one succeeded, the second changes nothing and hears the
   * same status and body, or "reused" when it brought another body. If the first one failed in any way, it left
   * nothing, and the second is served as if it were the first.
   */
  lemma RepeatIsAnswered(keys: map<KeyId, Row>, effects: seq<Effect>, first: Work, second: Work,
                         operation: Operation, again: Operation, now: int, later: int)
    requires first.id == second.id && first.id !in keys
    ensures var one := Settle(keys, effects, first, operation, now);
            var two := Settle(one.keys, one.effects, second, again, later);
            if operation.result.Value?
            then two.keys == one.keys && two.effects == one.effects
                 && RepeatSees(Answered(one.reply), Answered(two.reply), first.fingerprint == second.fingerprint)
            else one.keys == keys && one.effects == effects && two == Settle(keys, effects, second, again, later)
  {
  }

  /** The committed database: the key table, what the scenarios committed, and the database clock. */
  class Database {
    var keys: map<KeyId, Row>
    var effects: seq<Effect>
    var now: int

    constructor ()
      ensures keys == map[] && effects == []
    {
      keys, effects, now := map[], [], 0;
    }
  }

  /** The transaction of one tenant scope: it sees the committed rows and its own uncommitted writes. */
  class Session {
    const tenant: string
    var keys: map<KeyId, Row>
    var writes: seq<string>

    /** Opening the scope declares the tenant before the first query. */
    constructor (database: Database, tenant: string)
      ensures this.tenant == tenant && keys == database.keys && writes == []
    {
      this.tenant := tenant;
      keys, writes := database.keys, [];
    }

    /** The single claim statement: insert unless the primary key is taken, else read the row that took it. */
    method Take(key: string, fingerprint: string, expiresAt: int) returns (r: Attempt<Claim>)
      modifies this`keys
      ensures var id := KeyId(tenant, key);
              if id in old(keys)
              then keys == old(keys) && r == Judge(old(keys)[id], fingerprint)
              else keys == old(keys)[id := InProgress(fingerprint, expiresAt)] && r == Value(Claim(Taken, NO_ANSWER))
    {
      var id := KeyId(tenant, key);
      if id !in keys {
        keys := keys[id := InProgress(fingerprint, expiresAt)];
        return Value(Claim(Taken, NO_ANSWER));
      }
      var row := keys[id];
      if row.fingerprint != fingerprint {
        return Refused(KEY_REUSED);
      }
      if row.InProgress? {
        return Value(Claim(InFlight, NO_ANSWER));
      }
      return Value(Claim(Replay, row.answer));
    }

    /** Closing the key touches only an open row; anything but exactly one row is a bug and throws. */
    method Complete(key: string, answer: SavedAnswer) returns (r: Attempt<()>)
      modifies this`keys
      ensures var id := KeyId(tenant, key);
              if id in old(keys) && old(keys)[id].InProgress?
              then r == Value(()) &&
                   keys == old(keys)[id := Completed(old(keys)[id].fingerprint, old(keys)[id].expiresAt, answer)]
              else r == Thrown && keys == old(keys)
    {
      var id := KeyId(tenant, key);
      if id !in keys || !keys[id].InProgress? {
        return Thrown;
      }
      keys := keys[id := Completed(keys[id].fingerprint, keys[id].expiresAt, answer)];
      return Value(());
    }

    /** The scenario runs inside the scope; its answer becomes one that can be saved. */
    method Produce(operation: Operation) returns (r: Attempt<SavedAnswer>)
      modifies this`writes
      ensures writes == old(writes) + operation.writes
      ensures r == match operation.result
                   case Value(body) => Value(SavedAnswer(OK, body))
                   case Refused(error) => Refused(error)
                   case Thrown => Thrown
    {
      writes := writes + operation.writes;
      match operation.result
      case Value(body) => return Value(SavedAnswer(OK, body));
      case Refused(error) => return Refused(error);
      case Thrown => return Thrown;
    }
  }

  /**
   * One mutating request. Claim, scenario and saved answer share one scope: every return before a commit drops the
   * session and with it everything it wrote.
   */
  method Guarded(database: Database, work: Work, operation: Operation) returns (reply: Attempt<Served>)
    modifies database`keys, database`effects
    ensures Settled(database.keys, database.effects, reply)
            == Settle(old(database.keys), old(database.effects), work, operation, database.now)
  {
    var session := new Session(database, work.id.tenant);
    var claim := session.Take(work.id.key, work.fingerprint, work.expiresAt);
    assert KeyId(session.tenant, work.id.key) == work.id;
    match claim {
      case Refused(error) => return Refused(error);
      case Thrown => return Thrown;
      case Value(taken) =>
        if taken.outcome != Taken {
          database.keys := session.keys;
          return Value(Served(taken.outcome, taken.answer));
        }
        var answer := session.Produce(operation);
        match answer {
          case Refused(error) => return Refused(error);
          case Thrown => return Thrown;
          case Value(saved) =>
            var closed := session.Complete(work.id.key, saved);
            if !closed.Value? {
              return Thrown;
            }
            assert session.keys
                   == database.keys[work.id := Completed(work.fingerprint, work.expiresAt, saved)];
            database.keys := session.keys;
            assert session.writes == operation.writes;
            database.effects := database.effects + [Effect(work, session.writes, saved, database.now)];
            return Value(Served(Taken, saved));
        }
    }
  }
}
