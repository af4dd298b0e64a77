/** The expiring lock row behind a periodic job: who may hold it when. */
module Lease {
  import opened Outcomes

  datatype Lock = Lock(owner: string, expires: int)

  datatype Event =
    | Acquire(owner: string, at: int, ttl: int)
    | Release(owner: string, at: int)

  /** The single acquiring statement: insert unless a rival's lease runs, and on conflict take an own or expired row. */
  function Acquired(lock: Option<Lock>, owner: string, now: int, ttl: int): (r: (Option<Lock>, bool))
    ensures r.1 <==> lock.None? || lock.value.owner == owner || lock.value.expires <= now
    ensures r.1 ==> r.0 == Some(Lock(owner, now + ttl))
    ensures !r.1 ==> r.0 == lock
  {
    if lock.Some? && lock.value.owner != owner && lock.value.expires > now then (lock, false)
    else if lock.None? then (Some(Lock(owner, now + ttl)), true)
    else if lock.value.owner == owner || lock.value.expires <= now then (Some(Lock(owner, now + ttl)), true)
    else (lock, false)
  }

  function Released(lock: Option<Lock>, owner: string): (r: (Option<Lock>, bool))
    ensures r.1 <==> lock.Some? && lock.value.owner == owner
    ensures r.0 == if r.1 then None else lock
  {
    if lock.Some? && lock.value.owner == owner then (None, true) else (lock, false)
  }

  function Next(lock: Option<Lock>, event: Event): (Option<Lock>, bool) {
    match event
    case Acquire(owner, at, ttl) => Acquired(lock, owner, at, ttl)
    case Release(owner, _) => Released(lock, owner)
  }

  /** The row after a history, and whether the last event of one got what it asked for. */
  function LockAfter(events: seq<Event>): Option<Lock> {
    if events == [] then None else Next(LockAfter(events[..|events| - 1]), events[|events| - 1]).0
  }

  predicate Granted(events: seq<Event>, k: nat) {
    k < |events| && Next(LockAfter(events[..k]), events[k]).1
  }

  /** The database clock does not run backwards. */
  ghost predicate Timed(events: seq<Event>) {
    forall i, j :: 0 <= i < j < |events| ==> events[i].at <= events[j].at
  }

  /** The database row, and a worker acting on it under its own name. */
  class Table {
    var lock: Option<Lock>

    constructor ()
      ensures lock == None
    {
      lock := None;
    }
  }

  class Worker {
    const table: Table
    const owner: string

    constructor (table: Table, owner: string)
      ensures this.table == table && this.owner == owner
    {
      this.table, this.owner := table, owner;
    }

    method TryAcquire(now: int, ttl: int) returns (ok: bool)
      modifies table
      ensures (table.lock, ok) == Acquired(old(table.lock), owner, now, ttl)
    {
      var blocked := table.lock.Some? && table.lock.value.owner != owner && table.lock.value.expires > now;
      if blocked {
        return false;
      }
      table.lock := Some(Lock(owner, now + ttl));
      return true;
    }

    method TryRelease() returns (ok: bool)
      modifies table
      ensures (table.lock, ok) == Released(old(table.lock), owner)
    {
      ok := table.lock.Some? && table.lock.value.owner == owner;
      if ok {
        table.lock := None;
      }
    }
  }

  // ----- what is refused leaves no trace, and what has run out is to be had

  /** The row after some more events, starting from any row. */
  function RowFrom(lock: Option<Lock>, events: seq<Event>): Option<Lock>
    decreases |events|
  {
    if events == [] then lock else RowFrom(Next(lock, events[0]).0, events[1..])
  }

  /** What each of these events is told. */
  function AnswersFrom(lock: Option<Lock>, events: seq<Event>): seq<bool>
    decreases |events|
  {
    if events == [] then [] else [Next(lock, events[0]).1] + AnswersFrom(Next(lock, events[0]).0, events[1..])
  }

  lemma {:induction false} RowFromMore(lock: Option<Lock>, events: seq<Event>, more: seq<Event>)
    ensures RowFrom(lock, events + more) == RowFrom(RowFrom(lock, events), more)
    ensures AnswersFrom(lock, events + more) == AnswersFrom(lock, events) + AnswersFrom(RowFrom(lock, events), more)
    decreases |events|
  {
    if events == [] {
      assert events + more == more;
    } else {
      assert (events + more)[1..] == events[1..] + more;
      RowFromMore(Next(lock, events[0]).0, events[1..], more);
    }
  }

  lemma {:induction false} RowFromNothingIsLockAfter(events: seq<Event>)
    ensures RowFrom(None, events) == LockAfter(events)
  {
    if events != [] {
      var earlier, last := events[..|events| - 1], events[|events| - 1];
      RowFromNothingIsLockAfter(earlier);
      RowFromMore(None, earlier, [last]);
      assert events == earlier + [last] && [last][1..] == [];
    }
  }

  /** Whatever comes after it, a release by anybody but the holder changes neither the row nor any other answer. */
  lemma ForeignReleaseLeavesNoTrace(events: seq<Event>, owner: string, at: int, more: seq<Event>)
    requires LockAfter(events).None? || LockAfter(events).value.owner != owner
    ensures LockAfter(events + ([Release(owner, at)] + more)) == LockAfter(events + more)
    ensures AnswersFrom(None, events + more) == AnswersFrom(None, events) + AnswersFrom(LockAfter(events), more)
    ensures AnswersFrom(None, events + ([Release(owner, at)] + more))
            == AnswersFrom(None, events) + ([false] + AnswersFrom(LockAfter(events), more))
  {
    RowFromNothingIsLockAfter(events);
    RowFromNothingIsLockAfter(events + more);
    RowFromNothingIsLockAfter(events + ([Release(owner, at)] + more));
    RowFromMore(None, events, more);
    RowFromMore(None, events, [Release(owner, at)] + more);
    RowFromMore(LockAfter(events), [Release(owner, at)], more);
  }

  /** The row is always what some granted acquisition wrote. */
  lemma {:induction false} RowComesFromAGrant(events: seq<Event>) returns (k: nat)
    requires LockAfter(events).Some?
    ensures k < |events| && events[k].Acquire? && Granted(events, k)
    ensures LockAfter(events).value == Lock(events[k].owner, events[k].at + events[k].ttl)
  {
    var earlier, last := events[..|events| - 1], events[|events| - 1];
    if Granted(events, |events| - 1) {
      k := |events| - 1;
    } else {
      k := RowComesFromAGrant(earlier);
      assert events[..k] == earlier[..k];
    }
  }

  /**
   * Once every lease that was granted has run out, whoever asks gets the lock: a holder that died without a release
   * keeps nobody out for longer.
   */
  lemma ExpiredLeaseIsObtainable(events: seq<Event>, owner: string, at: int, ttl: int)
    requires forall k :: 0 <= k < |events| && events[k].Acquire? && Granted(events, k) ==>
               events[k].at + events[k].ttl <= at
    ensures var asked := events + [Acquire(owner, at, ttl)];
            Granted(asked, |events|) && LockAfter(asked) == Some(Lock(owner, at + ttl))
  {
    var asked := events + [Acquire(owner, at, ttl)];
    assert asked[..|events|] == events;
    if LockAfter(events).Some? {
      var k := RowComesFromAGrant(events);
    }
  }

  // ----- a granted lease is respected

  /** Between two events, the holder renewed or gave the lock back. */
  ghost predicate TouchedByOwner(events: seq<Event>, owner: string, i: nat, j: nat) {
    exists k :: i < k < j && k < |events| && events[k].owner == owner && Granted(events, k)
  }

  /** Until its holder acts or it runs out, the row is the one that was granted. */
  lemma {:induction false} LeaseStands(events: seq<Event>, i: nat, j: nat)
    requires Timed(events) && i < j <= |events| && events[i].Acquire? && Granted(events, i)
    requires !TouchedByOwner(events, events[i].owner, i, j)
    requires forall k :: i < k < j ==> events[k].at < events[i].at + events[i].ttl
    ensures LockAfter(events[..j]) == Some(Lock(events[i].owner, events[i].at + events[i].ttl))
  {
    assert events[..j][..j - 1] == events[..j - 1];
    if j > i + 1 {
      LeaseStands(events, i, j - 1);
      assert !(events[j - 1].owner == events[i].owner && Granted(events, j - 1));
    }
  }

  /**
   * Whoever got the lock keeps it: if somebody else gets it later, the lease had run out by then, or its holder had
   * renewed it or given it back.
   */
  lemma NobodyElseGetsARunningLease(events: seq<Event>, i: nat, j: nat)
    requires Timed(events) && i < j < |events|
    requires events[i].Acquire? && Granted(events, i)
    requires events[j].Acquire? && Granted(events, j) && events[j].owner != events[i].owner
    ensures events[i].at + events[i].ttl <= events[j].at || TouchedByOwner(events, events[i].owner, i, j)
  {
    if events[j].at < events[i].at + events[i].ttl && !TouchedByOwner(events, events[i].owner, i, j) {
      LeaseStands(events, i, j);
      assert false;
    }
  }

  // ----- the periods of holding never overlap

  datatype Period = Period(owner: string, from: int, until: int)

  /** Renewing or releasing ends the holder's own period early. */
  function Cut(periods: seq<Period>, at: int): seq<Period> {
    if periods == [] then []
    else
      var last := periods[|periods| - 1];
      periods[..|periods| - 1] + [last.(until := if at < last.until then at else last.until)]
  }

  function NextPeriods(periods: seq<Period>, lock: Option<Lock>, event: Event): seq<Period> {
    if !Next(lock, event).1 then periods
    else
      var ended := if lock.Some? && lock.value.owner == event.owner then Cut(periods, event.at) else periods;
      match event
      case Acquire(owner, at, ttl) => ended + [Period(owner, at, at + ttl)]
      case Release(_, _) => ended
  }

  /** The periods of all leases granted so far. */
  function Periods(events: seq<Event>): seq<Period> {
    if events == [] then []
    else
      var earlier := events[..|events| - 1];
      NextPeriods(Periods(earlier), LockAfter(earlier), events[|events| - 1])
  }

  /** Periods in order, one after the other, the last one being the row's own if there is a row. */
  ghost predicate InOrder(periods: seq<Period>, lock: Option<Lock>, now: int) {
    && (forall i, j :: 0 <= i < j < |periods| ==> periods[i].until <= periods[j].from)
    && (forall i :: 0 <= i < |periods| ==> periods[i].from <= now)
    && (lock.Some? ==> periods != [] && periods[|periods| - 1].owner == lock.value.owner
                       && periods[|periods| - 1].until == lock.value.expires)
    && (lock.None? ==> forall i :: 0 <= i < |periods| ==> periods[i].until <= now)
  }

  lemma StepKeepsOrder(periods: seq<Period>, lock: Option<Lock>, now: int, event: Event)
    requires InOrder(periods, lock, now) && now <= event.at
    ensures InOrder(NextPeriods(periods, lock, event), Next(lock, event).0, event.at)
  {
    if Next(lock, event).1 {
      var own := lock.Some? && lock.value.owner == event.owner;
      var ended := if own then Cut(periods, event.at) else periods;
      assert |ended| == |periods| && forall i :: 0 <= i < |periods| - 1 ==> ended[i] == periods[i];
      assert forall i :: 0 <= i < |ended| ==> ended[i].from == periods[i].from && ended[i].until <= periods[i].until;
      assert forall i :: 0 <= i < |ended| ==> ended[i].until <= event.at;
    }
  }

  lemma {:induction false} PeriodsAreInOrder(events: seq<Event>, now: int)
    requires Timed(events) && forall k :: 0 <= k < |events| ==> events[k].at <= now
    ensures InOrder(Periods(events), LockAfter(events), now)
  {
    if events != [] {
      var last := events[|events| - 1];
      PeriodsAreInOrder(events[..|events| - 1], last.at);
      StepKeepsOrder(Periods(events[..|events| - 1]), LockAfter(events[..|events| - 1]), last.at, last);
    }
  }

  /** At no instant do two periods run, whoever they belong to. */
  lemma AtMostOneHolderAtAnyInstant(events: seq<Event>, i: nat, j: nat, t: int)
    requires Timed(events) && i < j < |Periods(events)|
    ensures !(Periods(events)[i].from <= t < Periods(events)[i].until
              && Periods(events)[j].from <= t < Periods(events)[j].until)
  {
    PeriodsAreInOrder(events, if events == [] then 0 else events[|events| - 1].at);
  }
}
