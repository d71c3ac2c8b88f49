/**
 The idle rule of a session whose last use is written only now and then: how far the
 stored time lags, and that the lag neither ends a session in use nor keeps an
 unused one.

 Instants and durations are whole nanoseconds; the idle timeout and the
 revalidation interval are those of the settings in force, fixed over a run.
 */
module SessionIdle {
  import opened Options
  import opened Durations
  import Groups

  const WRITE_INTERVAL: int := 5 * MINUTE

  datatype Session = Session(issuedAt: int, lastSeenAt: int, validatedAt: int, expiresAt: int, revoked: bool)

  datatype Answer = Anonymous | Broken | Authenticated(requiresRevalidation: bool)

  datatype Policy = Policy(idle: int, revalidation: int)

  predicate Valid(p: Policy) {
    p.idle >= SECOND && p.revalidation >= SECOND
  }

  function TouchInterval(p: Policy): int {
    if p.idle / 2 < WRITE_INTERVAL then p.idle / 2 else WRITE_INTERVAL
  }

  /** The lookup's condition. */
  predicate Found(s: Session, p: Policy, now: int) {
    !s.revoked && s.expiresAt > now && s.lastSeenAt > now - p.idle
  }

  /** What the caller checks of a row it was given. */
  predicate Sound(s: Session, p: Policy, now: int) {
    && s.issuedAt <= now && s.issuedAt <= s.lastSeenAt <= now && s.issuedAt <= s.validatedAt <= now
    && s.expiresAt > now && s.lastSeenAt <= s.expiresAt && s.validatedAt <= s.expiresAt && s.lastSeenAt > now - p.idle
  }

  function Load(s: Session, p: Policy, now: int): Answer {
    if !Found(s, p, now) then Anonymous
    else if !Valid(p) || !Sound(s, p, now) then Broken
    else Authenticated(s.validatedAt <= now - p.revalidation)
  }

  predicate NeedsTouch(s: Session, p: Policy, now: int) {
    s.lastSeenAt <= now - TouchInterval(p)
  }

  /** The guarded write. */
  function Touch(s: Session, p: Policy, now: int): Session {
    if !s.revoked && s.expiresAt > now && s.lastSeenAt <= now - TouchInterval(p) && s.lastSeenAt < now
    then s.(lastSeenAt := now) else s
  }

  /** One whole authentication with nothing in between. */
  function After(s: Session, p: Policy, now: int): Session {
    if Load(s, p, now).Authenticated? && NeedsTouch(s, p, now) then Touch(s, p, now) else s
  }

  /** The stored row. */
  class SessionRow {
    var session: Session

    constructor (session: Session)
      ensures this.session == session
    {
      this.session := session;
    }

    /** Authenticates a found token; a malformed group list is an error before anything is written. */
    method Authenticate(p: Policy, now: int, groupIds: seq<int>) returns (r: Answer)
      modifies this
      ensures r == (if Load(old(session), p, now).Authenticated? && !Groups.Ascending(groupIds) then Broken
                    else Load(old(session), p, now))
      ensures session == if r.Authenticated? then After(old(session), p, now) else old(session)
    {
      if !Found(session, p, now) {
        return Anonymous;
      }
      if p.idle < SECOND || p.revalidation < SECOND || !Sound(session, p, now) {
        return Broken;
      }
      var ascending := Groups.CheckAscending(groupIds);
      if !ascending {
        return Broken;
      }
      if session.lastSeenAt <= now - TouchInterval(p) {
        session := Touch(session, p, now);
      }
      return Authenticated(session.validatedAt <= now - p.revalidation);
    }
  }

  // ---- Requests one after the other ----

  /** The stored session after requests at the given times. */
  function Run(s: Session, p: Policy, times: seq<int>): Session {
    if times == [] then s else After(Run(s, p, times[..|times| - 1]), p, times[|times| - 1])
  }

  ghost predicate Ordered(s: Session, times: seq<int>) {
    && (forall i | 0 <= i < |times| :: s.lastSeenAt <= times[i] && s.validatedAt <= times[i])
    && (forall i, j | 0 <= i < j < |times| :: times[i] <= times[j])
  }

  /** A session as it is created. */
  predicate Fresh(s: Session) {
    !s.revoked && s.issuedAt <= s.lastSeenAt && s.issuedAt <= s.validatedAt
    && s.lastSeenAt <= s.expiresAt && s.validatedAt <= s.expiresAt
  }

  /** After an authentication the stored last use lags by less than the touch interval and is never ahead. */
  lemma {:induction false} LagIsSmall(s: Session, p: Policy, now: int)
    requires Load(s, p, now).Authenticated?
    ensures now - TouchInterval(p) < After(s, p, now).lastSeenAt <= now
    ensures s.lastSeenAt <= After(s, p, now).lastSeenAt
  {
  }

  /** The last use that counts: the latest request, or the session's start. */
  function LastUse(s: Session, times: seq<int>): int {
    if times == [] then s.lastSeenAt else times[|times| - 1]
  }

  /** No gap, the first one from the session's start, exceeds `gap`. */
  ghost predicate Gaps(s: Session, times: seq<int>, gap: int) {
    forall i | 0 <= i < |times| :: times[i] - LastUse(s, times[..i]) <= gap
  }

  /** The stored session is as it was created but for a last use that lags by less than the touch interval. */
  predicate Lags(s: Session, t: Session, p: Policy, last: int) {
    && t == s.(lastSeenAt := t.lastSeenAt)
    && s.lastSeenAt <= t.lastSeenAt && last - TouchInterval(p) < t.lastSeenAt <= last
  }

  lemma {:induction false} UsedAgain(s: Session, t: Session, p: Policy, last: int, now: int)
    requires Fresh(s) && Valid(p) && Lags(s, t, p, last) && s.validatedAt <= now < s.expiresAt
    requires last <= now <= last + (p.idle - TouchInterval(p))
    ensures Load(t, p, now).Authenticated? && Lags(s, After(t, p, now), p, now)
  {
  }

  /**
   A session used at gaps of at most the idle timeout less the touch interval is
   authenticated every time until it expires.
   */
  lemma {:induction false} UsedSessionLives(s: Session, p: Policy, times: seq<int>, i: nat)
    requires Fresh(s) && Valid(p) && Ordered(s, times) && i < |times|
    requires Gaps(s, times, p.idle - TouchInterval(p)) && times[i] < s.expiresAt
    ensures Load(Run(s, p, times[..i]), p, times[i]).Authenticated?
    ensures Lags(s, Run(s, p, times[..i + 1]), p, times[i])
  {
    hide Load, After, Fresh, Lags;
    var before := times[..i];
    assert times[i] - LastUse(s, before) <= p.idle - TouchInterval(p);
    if i == 0 {
      FreshLags(s, p);
    } else {
      assert before == times[..i - 1 + 1];
      UsedSessionLives(s, p, times, i - 1);
    }
    UsedAgain(s, Run(s, p, before), p, LastUse(s, before), times[i]);
    assert times[..i + 1][..i] == before;
  }

  lemma {:induction false} FreshLags(s: Session, p: Policy)
    requires Valid(p)
    ensures Lags(s, s, p, s.lastSeenAt)
  {
  }

  /**
   The threshold is exact on the clock's grid of whole microseconds, on which timeouts of
   whole seconds lie: with a gap one microsecond longer a session in use is turned away.
   */
  lemma {:induction false} LongerGapsCanFail(p: Policy)
    requires Valid(p)
    ensures var s := Session(0, 0, 0, 10 * p.idle, false);
            var times := [TouchInterval(p) - MICROSECOND, p.idle];
            && Fresh(s) && Ordered(s, times) && Gaps(s, times, p.idle - TouchInterval(p) + MICROSECOND)
            && Load(s, p, times[0]).Authenticated? && Load(Run(s, p, times[..1]), p, times[1]).Anonymous?
            && (p.idle % SECOND == 0 ==> times[0] % MICROSECOND == 0 && times[1] % MICROSECOND == 0)
  {
    var s := Session(0, 0, 0, 10 * p.idle, false);
    var times := [TouchInterval(p) - MICROSECOND, p.idle];
    assert times[..1] == [times[0]] && times[..1][..0] == [] && times[..0] == [];
    assert Run(s, p, [times[0]]) == After(s, p, times[0]) by {
      assert [times[0]][..0] == [];
      assert Run(s, p, []) == s;
    }
    if p.idle % SECOND == 0 {
      OnTheGrid(p.idle / SECOND);
    }
  }

  lemma {:induction false} OnTheGrid(seconds: int)
    ensures (seconds * SECOND) % MICROSECOND == 0 && (seconds * SECOND / 2 - MICROSECOND) % MICROSECOND == 0
    ensures (WRITE_INTERVAL - MICROSECOND) % MICROSECOND == 0
  {
    assert seconds * SECOND == seconds * 1_000_000 * MICROSECOND;
    assert seconds * SECOND / 2 == seconds * 500_000 * MICROSECOND;
  }

  /** Stored times are never ahead of real use, and a refused request writes nothing. */
  lemma {:induction false} NeverAhead(s: Session, p: Policy, times: seq<int>)
    requires Ordered(s, times)
    ensures Run(s, p, times).lastSeenAt <= LastUse(s, times)
  {
    if times != [] {
      NeverAhead(s, p, times[..|times| - 1]);
      assert times[..|times| - 1] != [] ==> times[|times| - 2] <= times[|times| - 1];
    }
  }

  /** A session not used for the idle timeout is turned away, whatever its history. */
  lemma {:induction false} UnusedSessionDies(s: Session, p: Policy, times: seq<int>, now: int)
    requires Ordered(s, times) && now >= LastUse(s, times) + p.idle
    ensures Load(Run(s, p, times), p, now).Anonymous?
  {
    NeverAhead(s, p, times);
  }

  // ---- Requests at once ----

  /** A request reads its clock, loads the row, and touches it if that is due. */
  datatype Phase = Waiting | Due(answer: Answer) | Done(answer: Answer)

  datatype Request = Request(now: int, phase: Phase)

  datatype State = State(session: Session, requests: seq<Request>)

  /** One step: a request's load or touch, or, without a request, the session's revocation. */
  function Step(s: State, p: Policy, turn: Option<nat>): State {
    match turn
    case None => s.(session := s.session.(revoked := true))
    case Some(i) =>
      if i >= |s.requests| then s
      else
        var r := s.requests[i];
        match r.phase
        case Waiting =>
          var answer := Load(s.session, p, r.now);
          s.(requests := s.requests[i := r.(phase := if answer.Authenticated? && NeedsTouch(s.session, p, r.now)
                                                     then Due(answer) else Done(answer))])
        case Due(answer) => State(Touch(s.session, p, r.now), s.requests[i := r.(phase := Done(answer))])
        case Done(_) => s
  }

  function Interleave(s: State, p: Policy, turns: seq<Option<nat>>): State {
    if turns == [] then s else Step(Interleave(s, p, turns[..|turns| - 1]), p, turns[|turns| - 1])
  }

  /** The row is as created but for a later last use; a finished request has left its mark. */
  ghost predicate Marked(s: State, p: Policy, start: Session) {
    && s.session == start.(lastSeenAt := s.session.lastSeenAt, revoked := s.session.revoked)
    && start.lastSeenAt <= s.session.lastSeenAt <= start.expiresAt
    && (forall i | 0 <= i < |s.requests| && s.requests[i].phase.Due? ::
          start.expiresAt > s.requests[i].now)
    && (forall i | 0 <= i < |s.requests| && s.requests[i].phase.Done? && s.requests[i].phase.answer.Authenticated? ::
          s.session.revoked || s.session.lastSeenAt > s.requests[i].now - TouchInterval(p))
  }

  lemma {:induction false} InterleavingMarks(start: State, p: Policy, turns: seq<Option<nat>>)
    requires Valid(p) && Fresh(start.session)
             && forall i | 0 <= i < |start.requests| :: start.requests[i].phase.Waiting?
    ensures Marked(Interleave(start, p, turns), p, start.session)
    ensures var s := Interleave(start, p, turns);
            |s.requests| == |start.requests|
              && forall i | 0 <= i < |s.requests| :: s.requests[i].now == start.requests[i].now
  {
    if turns != [] {
      InterleavingMarks(start, p, turns[..|turns| - 1]);
      hide Sound;
    }
  }

  /**
   In any interleaving: once one request has been answered, a request that read its
   clock at most the idle timeout less the touch interval later, and loads the row
   before the session expires or is revoked, is not turned away as idle; it is answered
   unless a request with a later clock reading overtook it, which is an error.
   */
  lemma {:induction false} ConcurrentUse(start: State, p: Policy, turns: seq<Option<nat>>, i: nat, j: nat)
    requires Valid(p) && Fresh(start.session) && i < |start.requests| && j < |start.requests|
    requires forall k | 0 <= k < |start.requests| :: start.requests[k].phase.Waiting?
    requires start.session.validatedAt <= start.requests[j].now < start.session.expiresAt
    requires start.requests[i].now <= start.requests[j].now <= start.requests[i].now + (p.idle - TouchInterval(p))
    requires var s := Interleave(start, p, turns);
             && |s.requests| == |start.requests| && s.requests[i].phase.Done?
             && s.requests[i].phase.answer.Authenticated?
             && !s.session.revoked
    ensures var s := Interleave(start, p, turns); var answer := Load(s.session, p, start.requests[j].now);
            !answer.Anonymous? && (answer.Broken? <==> s.session.lastSeenAt > start.requests[j].now)
  {
    InterleavingMarks(start, p, turns);
  }
}
