/**
 The durable publication window of one forum user: a pure decision over the
 stored tuple, spent inside the publishing transaction.

 Instants and durations are whole nanoseconds.
 */
module Publication {
  import opened Options
  import opened FixedWindow
  import opened Durations

  const MAX_COUNT: int := 100_000

  datatype Policy = Policy(establishedLimit: int, newAccountLimit: int, window: int, newAccountPeriod: int)

  predicate Valid(p: Policy) {
    && 0 < p.establishedLimit <= MAX_COUNT && 0 < p.newAccountLimit <= p.establishedLimit
    && SECOND <= p.window <= 24 * HOUR && MINUTE <= p.newAccountPeriod <= 30 * DAY
  }

  /** The stored tuple: when the window started, if ever, and what was published in it. */
  datatype Tuple = Tuple(startedAt: Option<int>, count: int)

  datatype Error = InvalidState | BeforeCreation | InvalidTuple | InvalidRegression | InvalidInterval

  /** A replacement tuple, a rejection with the time to wait, or an error. */
  datatype Decision = Replace(startedAt: int, count: int) | Reject(retryAfter: int) | Fail(error: Error)

  function LimitAt(p: Policy, createdAt: int, now: int): int {
    if Sub(now, createdAt) < p.newAccountPeriod then p.newAccountLimit else p.establishedLimit
  }

  function Decide(p: Policy, createdAt: int, now: int, tuple: Tuple): Decision {
    if !Valid(p) then Fail(InvalidState)
    else if now < createdAt || Sub(now, createdAt) < 0 then Fail(BeforeCreation)
    else
      var limit := LimitAt(p, createdAt, now);
      match tuple.startedAt
      case None => if tuple.count != 0 then Fail(InvalidTuple) else Replace(now, 1)
      case Some(startedAt) =>
        if startedAt < createdAt || tuple.count < 1 || tuple.count > MAX_COUNT then Fail(InvalidTuple)
        else if startedAt > now then
          var future := Sub(startedAt, now);
          if future <= 0 || future > p.window then Fail(InvalidRegression)
          else if tuple.count < limit then Replace(startedAt, tuple.count + 1)
          else Reject(p.window)
        else
          var age := Sub(now, startedAt);
          if age < 0 then Fail(InvalidInterval)
          else if age >= p.window then Replace(now, 1)
          else if tuple.count < limit then Replace(startedAt, tuple.count + 1)
          else
            var remaining := p.window - age;
            if remaining <= 0 || remaining > p.window then Fail(InvalidInterval) else Reject(remaining)
  }

  function RetryAfterSeconds(d: Decision): int {
    if d.Reject? && d.retryAfter > 0 then d.retryAfter / SECOND + if d.retryAfter % SECOND != 0 then 1 else 0 else 0
  }

  /** What the table's constraint lets a row hold. */
  predicate ValidTuple(createdAt: int, tuple: Tuple) {
    match tuple.startedAt
    case None => tuple.count == 0
    case Some(startedAt) => startedAt >= createdAt && 1 <= tuple.count <= MAX_COUNT
  }

  datatype Admission = Admitted(at: int) | RateLimited(retryAfterSeconds: int) | Failed

  /** The locked row of the publishing user. */
  class Actor {
    const createdAt: int
    var windowStartedAt: Option<int>
    var publicationCount: int

    function Stored(): Tuple
      reads this
    {
      Tuple(windowStartedAt, publicationCount)
    }

    constructor (createdAt: int)
      ensures this.createdAt == createdAt && Stored() == Tuple(None, 0)
    {
      this.createdAt, windowStartedAt, publicationCount := createdAt, None, 0;
    }

    /** Spends one publication at the database's time, when that is finite. */
    method AdmitPublication(p: Policy, databaseNow: Option<int>) returns (r: Admission)
      modifies this
      ensures databaseNow.None? ==> r.Failed? && Stored() == old(Stored())
      ensures databaseNow.Some? ==>
                var d := Decide(p, createdAt, databaseNow.value, old(Stored()));
                && Stored() == (if d.Replace? then Tuple(Some(d.startedAt), d.count) else old(Stored()))
                && r == (match d
                         case Replace(_, _) => Admitted(databaseNow.value - databaseNow.value % MICROSECOND)
                         case Reject(_) => RateLimited(RetryAfterSeconds(d))
                         case Fail(_) => Failed)
    {
      if databaseNow.None? {
        return Failed;
      }
      var decision := Decide(p, createdAt, databaseNow.value, Tuple(windowStartedAt, publicationCount));
      if decision.Fail? {
        return Failed;
      }
      var retry := RetryAfterSeconds(decision);
      if retry > 0 {
        return RateLimited(retry);
      }
      windowStartedAt, publicationCount := Some(decision.startedAt), decision.count;
      return Admitted(databaseNow.value - databaseNow.value % MICROSECOND);
    }
  }

  /** Exactly when a decision fails, for every input. */
  lemma {:induction false} FailsExactly(p: Policy, createdAt: int, now: int, tuple: Tuple)
    ensures Decide(p, createdAt, now, tuple).Fail?
            <==> !Valid(p) || now < createdAt || !ValidTuple(createdAt, tuple)
                 || (tuple.startedAt.Some? && tuple.startedAt.value - now > p.window)
  {
  }

  // ---- Runs under database time that never steps back ----

  datatype Attempt = Attempt(now: int, policy: Policy)

  function After(createdAt: int, tuple: Tuple, a: Attempt): Tuple {
    var d := Decide(a.policy, createdAt, a.now, tuple);
    if d.Replace? then Tuple(Some(d.startedAt), d.count) else tuple
  }

  function Run(createdAt: int, attempts: seq<Attempt>): Tuple {
    if attempts == [] then Tuple(None, 0)
    else After(createdAt, Run(createdAt, attempts[..|attempts| - 1]), attempts[|attempts| - 1])
  }

  function Answer(createdAt: int, attempts: seq<Attempt>, a: Attempt): Decision {
    Decide(a.policy, createdAt, a.now, Run(createdAt, attempts))
  }

  /** The attempts that published, each with the start of the window it was charged to. */
  function Grants(createdAt: int, attempts: seq<Attempt>): seq<Grant> {
    if attempts == [] then []
    else
      var before, last := attempts[..|attempts| - 1], attempts[|attempts| - 1];
      var d := Answer(createdAt, before, last);
      Grants(createdAt, before) + if d.Replace? then [Grant(last.now, d.startedAt)] else []
  }

  /** Times in order, none before the account, every policy valid. */
  ghost predicate Orderly(createdAt: int, attempts: seq<Attempt>) {
    && (forall i | 0 <= i < |attempts| :: createdAt <= attempts[i].now && Valid(attempts[i].policy))
    && (forall i, j | 0 <= i < j < |attempts| :: attempts[i].now <= attempts[j].now)
  }

  /**
   Whatever the policies were, the stored tuple stays one the constraint admits, with a
   start that is not in the future.
   */
  lemma {:induction false} TupleStaysValid(createdAt: int, attempts: seq<Attempt>, clock: int)
    requires Orderly(createdAt, attempts) && forall i | 0 <= i < |attempts| :: attempts[i].now <= clock
    ensures var t := Run(createdAt, attempts);
            ValidTuple(createdAt, t) && (t.startedAt.Some? ==> t.startedAt.value <= clock)
  {
    if attempts != [] {
      TupleStaysValid(createdAt, attempts[..|attempts| - 1], attempts[|attempts| - 1].now);
    }
  }

  /** So no attempt of such a run ever fails. */
  lemma {:induction false} NeverFails(createdAt: int, attempts: seq<Attempt>, a: Attempt)
    requires Orderly(createdAt, attempts + [a])
    ensures !Answer(createdAt, attempts, a).Fail?
  {
    assert (attempts + [a])[|attempts|] == a;
    forall i | 0 <= i < |attempts|
      ensures createdAt <= attempts[i].now <= a.now && Valid(attempts[i].policy)
    {
      assert (attempts + [a])[i] == attempts[i];
    }
    assert Orderly(createdAt, attempts) by {
      assert forall i | 0 <= i < |attempts| :: (attempts + [a])[i] == attempts[i];
    }
    TupleStaysValid(createdAt, attempts, a.now);
    FailsExactly(a.policy, createdAt, a.now, Run(createdAt, attempts));
  }

  /** Every policy has this window and at most this limit. */
  ghost predicate Under(attempts: seq<Attempt>, window: int, limit: nat) {
    forall i | 0 <= i < |attempts| ::
      attempts[i].policy.window == window && attempts[i].policy.establishedLimit <= limit
  }

  ghost predicate Tracks(t: Tuple, grants: seq<Grant>, window: int, limit: nat, clock: int) {
    && Windowed(grants, window, limit)
    && (grants != [] ==> grants[|grants| - 1].at <= clock)
    && (t.startedAt.None? ==> grants == [])
    && (t.startedAt.Some? ==> 0 < t.count && Ends(grants, window, t.startedAt.value, t.count))
  }

  lemma {:induction false} TracksStep(createdAt: int, t: Tuple, grants: seq<Grant>, limit: nat, clock: int, a: Attempt)
    requires Valid(a.policy) && createdAt <= a.now && clock <= a.now && a.policy.establishedLimit <= limit
    requires ValidTuple(createdAt, t) && (t.startedAt.Some? ==> t.startedAt.value <= a.now)
    requires Tracks(t, grants, a.policy.window, limit, clock)
    ensures var d := Decide(a.policy, createdAt, a.now, t);
            Tracks(After(createdAt, t, a), if d.Replace? then grants + [Grant(a.now, d.startedAt)] else grants,
                   a.policy.window, limit, a.now)
  {
    hide Windowed;
    var d := Decide(a.policy, createdAt, a.now, t);
    if d.Replace? {
      if d.count == 1 {
        Open(grants, a.policy.window, limit, a.now);
      } else {
        Charge(grants, a.policy.window, limit, a.now, t.startedAt.value, t.count);
      }
    }
  }

  lemma {:induction false} TracksLater(t: Tuple, grants: seq<Grant>, window: int, limit: nat, clock: int, later: int)
    requires Tracks(t, grants, window, limit, clock) && clock <= later
    ensures Tracks(t, grants, window, limit, later)
  {
  }

  lemma {:induction false} RunTracks(createdAt: int, attempts: seq<Attempt>, window: int, limit: nat, clock: int)
    requires Orderly(createdAt, attempts) && Under(attempts, window, limit)
    requires forall i | 0 <= i < |attempts| :: attempts[i].now <= clock
    ensures Tracks(Run(createdAt, attempts), Grants(createdAt, attempts), window, limit, clock)
  {
    if attempts != [] {
      var before, last := attempts[..|attempts| - 1], attempts[|attempts| - 1];
      TupleStaysValid(createdAt, before, last.now);
      RunTracks(createdAt, before, window, limit, last.now);
      hide Decide, Tracks, ValidTuple, Valid;
      assert Grants(createdAt, before) + [] == Grants(createdAt, before);
      TracksStep(createdAt, Run(createdAt, before), Grants(createdAt, before), limit, last.now, last);
      TracksLater(Run(createdAt, attempts), Grants(createdAt, attempts), window, limit, last.now, clock);
    }
  }

  /**
   While the window length is unchanged, no interval that long sees more than twice the
   greatest established limit.
   */
  lemma {:induction false} PublishedWithinAnyWindow(createdAt: int, attempts: seq<Attempt>, window: int, limit: nat,
        from: int)
    requires Orderly(createdAt, attempts) && Under(attempts, window, limit)
    ensures Within(Grants(createdAt, attempts), from, from + window) <= 2 * limit
  {
    if attempts != [] {
      var last := attempts[|attempts| - 1];
      assert Valid(last.policy) && last.policy.establishedLimit <= limit;
      RunTracks(createdAt, attempts, window, limit, last.now);
      AtMostTwiceTheLimit(Grants(createdAt, attempts), window, limit, from);
    }
  }

  // ---- Retrying a rejection ----

  /** The advised wait is the least whole number of seconds that covers the interval, and at least one. */
  lemma {:induction false} RetryCovers(d: Decision)
    requires d.Reject? && d.retryAfter > 0
    ensures var r := RetryAfterSeconds(d); r >= 1 && (r - 1) * SECOND < d.retryAfter <= r * SECOND
  {
  }

  /**
   Exactly when a rejected publication is granted after the advised wait, under the
   same policy and tuple: always without clock regression. After a regression
   the advice is the window's length from now, not from the window's start, so it is
   enough only if rounding covers the regression or the account has come of age.
   */
  lemma {:induction false} RetryIsGranted(p: Policy, createdAt: int, now: int, tuple: Tuple)
    requires Decide(p, createdAt, now, tuple).Reject?
    ensures tuple.startedAt.Some?
    ensures var d := Decide(p, createdAt, now, tuple);
            var later, regression := now + RetryAfterSeconds(d) * SECOND, tuple.startedAt.value - now;
            Decide(p, createdAt, later, tuple).Replace?
            <==> regression <= 0 || regression <= (later - now) - p.window || tuple.count < LimitAt(p, createdAt, later)
  {
    RetryCovers(Decide(p, createdAt, now, tuple));
  }

  /** Ten seconds of regression: an established account that waits as advised is rejected again. */
  lemma {:induction false} RegressionOutlastsAdvice()
    ensures var p, tuple := Policy(1, 1, MINUTE, MINUTE), Tuple(Some(DAY + 10 * SECOND), 1);
            var d := Decide(p, 0, DAY, tuple);
            && Valid(p) && ValidTuple(0, tuple)
            && d == Reject(MINUTE) && RetryAfterSeconds(d) == 60
            && Decide(p, 0, DAY + RetryAfterSeconds(d) * SECOND, tuple).Reject?
  {
  }
}
