/**
 Admissions that overtake each other. An admission reads the clock and then takes the
 limiter's lock, so under a clock that never steps back the readings can still reach the
 limiter out of order. What holds for a client then depends on how long an admission
 stalls between its reading and its turn in the lock.
 */
module Admission {
  import opened Options
  import opened FixedWindow
  import opened RequestLimiter

  // ---- Two steps ----

  datatype Phase = Waiting | Read(now: int) | Done(outcome: Outcome)

  datatype Admission = Admission(client: Client, phase: Phase)

  /** An admission as it went: its reading, and the time of its turn in the lock. */
  datatype Entry = Entry(client: Client, now: int, entered: int)

  /** `history` lists the admissions that had their turn, in its order. */
  datatype Machine = Machine(clock: int, table: Table, admissions: seq<Admission>, history: seq<Entry>)

  /** The clock moves on, or an admission takes its next step. */
  datatype Turn = Tick(to: int) | Go(admission: nat)

  ghost function Step(config: Config, s: Machine, turn: Turn): Machine {
    match turn
    case Tick(to) => if to > s.clock then s.(clock := to) else s
    case Go(i) =>
      if i >= |s.admissions| then s
      else
        var a := s.admissions[i];
        match a.phase
        case Waiting => s.(admissions := s.admissions[i := a.(phase := Read(s.clock))])
        case Read(now) =>
          var (table, outcome) := Next(config, s.table, a.client, now);
          s.(table := table, admissions := s.admissions[i := a.(phase := Done(outcome))],
             history := s.history + [Entry(a.client, now, s.clock)])
        case Done(_) => s
  }

  function Begin(start: int, clients: seq<Client>): Machine {
    Machine(start, Table(map[], None), seq(|clients|, i requires 0 <= i < |clients| => Admission(clients[i], Waiting)),
            [])
  }

  ghost function Play(config: Config, s: Machine, turns: seq<Turn>): Machine {
    if turns == [] then s else Step(config, Play(config, s, turns[..|turns| - 1]), turns[|turns| - 1])
  }

  /** Turns come in the order of the clock, and no reading is later than its turn. */
  ghost predicate Orderly(history: seq<Entry>) {
    && (forall i | 0 <= i < |history| :: history[i].now <= history[i].entered)
    && (forall i, j | 0 <= i < j < |history| :: history[i].entered <= history[j].entered)
  }

  function Requests(history: seq<Entry>): (r: seq<Request>)
    ensures |r| == |history|
  {
    seq(|history|, i requires 0 <= i < |history| => Request(history[i].client, history[i].now))
  }

  lemma {:induction false} RequestsMore(history: seq<Entry>, e: Entry)
    ensures Requests(history + [e]) == Requests(history) + [Request(e.client, e.now)]
  {
  }

  /** What a schedule leaves: an orderly history, and the table its requests make one after the other. */
  ghost predicate Kept(config: Config, s: Machine) {
    && Orderly(s.history) && (forall i | 0 <= i < |s.history| :: s.history[i].entered <= s.clock)
    && s.table == Run(config, Requests(s.history))
    && (forall i | 0 <= i < |s.admissions| && s.admissions[i].phase.Read? :: s.admissions[i].phase.now <= s.clock)
  }

  lemma {:induction false} HistoriesAreOrderly(config: Config, start: int, clients: seq<Client>, turns: seq<Turn>)
    ensures Kept(config, Play(config, Begin(start, clients), turns))
  {
    if turns != [] {
      HistoriesAreOrderly(config, start, clients, turns[..|turns| - 1]);
      StepKeeps(config, Play(config, Begin(start, clients), turns[..|turns| - 1]), turns[|turns| - 1]);
    }
  }

  lemma {:induction false} StepKeeps(config: Config, s: Machine, turn: Turn)
    requires Kept(config, s)
    ensures Kept(config, Step(config, s, turn))
  {
    hide Next;
    if turn.Go? && turn.admission < |s.admissions| && s.admissions[turn.admission].phase.Read? {
      var a := s.admissions[turn.admission];
      var e := Entry(a.client, a.phase.now, s.clock);
      RequestsMore(s.history, e);
      RunNext(config, Requests(s.history), Request(e.client, e.now));
    }
  }

  // ---- Every orderly history is played ----

  function Clients(history: seq<Entry>): seq<Client> {
    seq(|history|, i requires 0 <= i < |history| => history[i].client)
  }

  /** The first `k` admissions had their turns, `done` have read the clock, and nobody else is due to. */
  ghost predicate Playing(config: Config, history: seq<Entry>, s: Machine, k: nat, read: set<nat>) {
    && k <= |history| == |s.admissions| && s.history == history[..k]
    && (forall i: nat | i < k :: i in read)
    && (forall i: nat | i < |history| ::
          && s.admissions[i].client == history[i].client
          && (i < k ==> s.admissions[i].phase.Done?)
          && (i >= k && i in read ==> s.admissions[i].phase == Read(history[i].now))
          && (i !in read ==> s.admissions[i].phase.Waiting? && s.clock <= history[i].now))
  }

  lemma {:induction false} PlayMore(config: Config, s: Machine, turns: seq<Turn>, turn: Turn)
    ensures Play(config, s, turns + [turn]) == Step(config, Play(config, s, turns), turn)
  {
    assert (turns + [turn])[..|turns|] == turns;
  }

  /** The unread admission with the least reading. */
  lemma {:induction false} LeastUnread(history: seq<Entry>, unread: set<nat>) returns (m: nat)
    requires unread != {} && forall i | i in unread :: i < |history|
    ensures m in unread && forall i | i in unread :: history[m].now <= history[i].now
    decreases |unread|
  {
    m :| m in unread;
    if unread != {m} {
      var rest := unread - {m};
      assert rest != {};
      var n := LeastUnread(history, rest);
      if history[n].now < history[m].now {
        m := n;
      }
    }
  }

  /** The clock can be moved to `to`, everyone reading it on the way who has to. */
  lemma {:induction false} PlayTo(config: Config, history: seq<Entry>, start: Machine, turns: seq<Turn>, k: nat,
        read: set<nat>, to: int, unread: set<nat>)
    returns (more: seq<Turn>, done: set<nat>)
    requires Playing(config, history, Play(config, start, turns), k, read) && Play(config, start, turns).clock <= to
    requires unread == set i: nat | i < |history| && i !in read && history[i].now <= to
    ensures Playing(config, history, Play(config, start, more), k, done) && Play(config, start, more).clock == to
    ensures forall i: nat | i < |history| && history[i].now <= to :: i in done
    decreases unread
  {
    hide Next;
    var s := Play(config, start, turns);
    if unread == {} {
      more, done := turns + [Tick(to)], read;
      PlayMore(config, start, turns, Tick(to));
      forall i: nat | i < |history| && history[i].now <= to
        ensures i in done
      {
        assert i !in unread;
      }
    } else {
      var m := LeastUnread(history, unread);
      var one := turns + [Tick(history[m].now)];
      PlayMore(config, start, turns, Tick(history[m].now));
      PlayMore(config, start, one, Go(m));
      hide Playing, Step;
      ReadLeast(config, history, s, k, read, m, to);
      more, done := PlayTo(config, history, start, one + [Go(m)], k, read + {m}, to,
                           set i: nat | i < |history| && i !in read + {m} && history[i].now <= to);
    }
  }

  /** The clock moves to the least reading still to come, and its admission reads it. */
  lemma {:induction false} ReadLeast(config: Config, history: seq<Entry>, s: Machine, k: nat, read: set<nat>, m: nat,
        to: int)
    requires Playing(config, history, s, k, read) && m < |history| && m !in read && history[m].now <= to
    requires forall i: nat | i < |history| && i !in read && history[i].now <= to :: history[m].now <= history[i].now
    ensures var u := Step(config, Step(config, s, Tick(history[m].now)), Go(m));
            Playing(config, history, u, k, read + {m}) && u.clock == history[m].now
  {
    hide Next;
    var u := Step(config, Step(config, s, Tick(history[m].now)), Go(m));
    assert u.clock == history[m].now && u.history == s.history;
    assert u.admissions == s.admissions[m := Admission(history[m].client, Read(u.clock))];
    hide Step;
  }

  lemma {:induction false} PlayFrom(config: Config, history: seq<Entry>, start: Machine, turns: seq<Turn>, k: nat,
        read: set<nat>)
    returns (more: seq<Turn>)
    requires Orderly(history) && Playing(config, history, Play(config, start, turns), k, read)
    requires k < |history| ==> Play(config, start, turns).clock <= history[k].entered
    ensures Play(config, start, more).history == history
    decreases |history| - k
  {
    hide Next;
    if k == |history| {
      return turns;
    }
    var to := history[k].entered;
    var ready, done := PlayTo(config, history, start, turns, k, read, to,
                             set i: nat | i < |history| && i !in read && history[i].now <= to);
    assert k in done;
    PlayMore(config, start, ready, Go(k));
    var u := Play(config, start, ready + [Go(k)]);
    assert u.history == history[..k + 1];
    assert Playing(config, history, u, k + 1, done);
    more := PlayFrom(config, history, start, ready + [Go(k)], k + 1, done);
  }

  /** The machine's histories are the orderly ones: each of them is what some schedule leaves. */
  lemma {:induction false} EveryHistoryIsPlayed(config: Config, start: int, history: seq<Entry>)
    returns (turns: seq<Turn>)
    requires Orderly(history) && forall i | 0 <= i < |history| :: start <= history[i].now
    ensures Play(config, Begin(start, Clients(history)), turns).history == history
  {
    var s := Begin(start, Clients(history));
    assert Play(config, s, []) == s;
    assert Playing(config, history, s, 0, {});
    turns := PlayFrom(config, history, s, [], 0, {});
  }

  // ---- What a client is charged for ----

  /** No admission waits longer than `stall` between its reading and its turn. */
  ghost predicate Stalls(history: seq<Entry>, stall: int) {
    forall i | 0 <= i < |history| :: history[i].entered <= history[i].now + stall
  }

  datatype Charge = Charge(now: int, entered: int, since: int)

  /** All admissions of a window, the one that opened it, or the rest. */
  datatype Part = All | Openings | Rest

  /** How many of the first `n` admissions of a window belong to the part. */
  function Share(part: Part, n: nat): nat {
    match part
    case All => n
    case Openings => if n == 0 then 0 else 1
    case Rest => if n == 0 then 0 else n - 1
  }

  predicate Belongs(part: Part, place: nat) {
    place > 0 && Share(part, place) > Share(part, place - 1)
  }

  /** Those admissions of one client that were allowed, with the start of the window each was charged to. */
  ghost function Charges(config: Config, history: seq<Entry>, c: Client, part: Part): seq<Charge> {
    if history == [] then []
    else
      var before, last := history[..|history| - 1], history[|history| - 1];
      var (t, r) := Next(config, Run(config, Requests(before)), last.client, last.now);
      Charges(config, before, c, part)
      + (if last.client == c && r.decision.Allowed? && Belongs(part, t.entries[c].count)
         then [Charge(last.now, last.entered, t.entries[c].started)] else [])
  }

  /** The charges dated by their readings, or by their turns in the lock. */
  function Dated(charges: seq<Charge>, byTurn: bool): (g: seq<Grant>)
    ensures |g| == |charges|
  {
    seq(|charges|, i requires 0 <= i < |charges| =>
      Grant(if byTurn then charges[i].entered else charges[i].now, charges[i].since))
  }

  lemma {:induction false} AllowedIsPlaced(config: Config, t: Table, c: Client, now: int)
    requires Next(config, t, c, now).1.decision.Allowed?
    ensures Belongs(All, Next(config, t, c, now).0.entries[c].count)
  {
  }

  /** All of a client's charges, dated by their readings, are its grants in the limiter. */
  lemma {:induction false} ReadingsAreGrants(config: Config, history: seq<Entry>, c: Client)
    ensures Dated(Charges(config, history, c, All), false) == Grants(config, Requests(history), c)
  {
    hide Next, Belongs;
    if history != [] {
      var before, last := history[..|history| - 1], history[|history| - 1];
      ReadingsAreGrants(config, before, c);
      assert history == before + [last];
      RequestsMore(before, last);
      assert Requests(history)[..|history| - 1] == Requests(before);
      if Next(config, Run(config, Requests(before)), last.client, last.now).1.decision.Allowed? {
        AllowedIsPlaced(config, Run(config, Requests(before)), last.client, last.now);
      }
    }
  }

  /** How far apart the windows of a client's charges are. */
  ghost predicate Loose(config: Config, part: Part, charges: seq<Charge>, stall: int, step: int) {
    && (forall i | 0 <= i < |charges| ::
          && charges[i].now <= charges[i].entered <= charges[i].now + stall
          && charges[i].now < charges[i].since + config.window
          && (part.Openings? ==> charges[i].now == charges[i].since))
    && (forall i, j | 0 <= i && i + Share(part, config.limit) <= j < |charges| ::
          charges[i].since + step <= charges[j].since && charges[i].since + config.window <= charges[j].entered)
  }

  /** The last charges belong to the window from `since`, `count` of it used; all earlier ones are over at `clock`. */
  ghost predicate Closes(config: Config, part: Part, charges: seq<Charge>, step: int, clock: int, since: int,
        count: nat)
  {
    var n := Share(part, count);
    && 0 < count <= config.limit && n <= |charges|
    && (forall i | |charges| - n <= i < |charges| :: charges[i].since == since)
    && (forall i | 0 <= i < |charges| - n ::
          charges[i].since + step <= since && charges[i].since + config.window <= clock)
  }

  ghost predicate Follows(config: Config, part: Part, t: Table, charges: seq<Charge>, c: Client, stall: int, step: int,
        clock: int) {
    && Loose(config, part, charges, stall, step)
    && (c in t.entries ==> Closes(config, part, charges, step, clock, t.entries[c].started, t.entries[c].count))
    && (c !in t.entries ==> forall i | 0 <= i < |charges| :: charges[i].since + config.window <= clock)
  }

  /** One more charge, to the current window or to a new one. */
  lemma {:induction false} LooseMore(config: Config, part: Part, charges: seq<Charge>, stall: int, step: int, x: Charge,
        count: nat)
    requires Loose(config, part, charges, stall, step) && count < config.limit && Share(part, count) <= |charges|
    requires Belongs(part, count + 1)
    requires x.now <= x.entered <= x.now + stall && x.now < x.since + config.window
    requires part.Openings? ==> x.now == x.since
    requires forall i | 0 <= i < |charges| - Share(part, count) ::
               charges[i].since + step <= x.since && charges[i].since + config.window <= x.entered
    ensures Loose(config, part, charges + [x], stall, step)
  {
    assert Share(part, count) < Share(part, config.limit);
  }

  /** An admission that opens a window. */
  lemma {:induction false} FollowsOpening(config: Config, part: Part, t: Table, u: Table, charges: seq<Charge>,
        stall: int, step: int, clock: int, e: Entry)
    requires ValidConfig(config) && Follows(config, part, t, charges, e.client, stall, step, clock)
             && step <= config.window
    requires e.client in t.entries ==> e.now >= Expiry(config, t.entries[e.client])
    requires charges == [] || e.client in t.entries || step <= config.window - stall
    requires clock <= e.entered && e.now <= e.entered <= e.now + stall
    requires e.client in u.entries && u.entries[e.client] == Window(e.now, 1)
    ensures Follows(config, part, u, if Belongs(part, 1) then charges + [Charge(e.now, e.entered, e.now)] else charges,
                    e.client, stall, step, e.entered)
  {
    hide Loose;
    forall i | 0 <= i < |charges|
      ensures charges[i].since + step <= e.now && charges[i].since + config.window <= e.entered
    {
    }
    if Belongs(part, 1) {
      LooseMore(config, part, charges, stall, step, Charge(e.now, e.entered, e.now), 0);
    }
  }

  /** An admission to a window in progress. */
  lemma {:induction false} FollowsUse(config: Config, part: Part, t: Table, u: Table, charges: seq<Charge>, stall: int,
        step: int, clock: int, e: Entry)
    requires ValidConfig(config) && Follows(config, part, t, charges, e.client, stall, step, clock)
             && step <= config.window
    requires e.client in t.entries && e.now < Expiry(config, t.entries[e.client])
    requires t.entries[e.client].count < config.limit
    requires clock <= e.entered && e.now <= e.entered <= e.now + stall
    requires var w := t.entries[e.client];
             e.client in u.entries && u.entries[e.client] == Window(w.started, w.count + 1)
    ensures var w := t.entries[e.client];
            Follows(config, part, u,
                    if Belongs(part, w.count + 1) then charges + [Charge(e.now, e.entered, w.started)] else charges,
                    e.client, stall, step, e.entered)
  {
    hide Loose;
    var w := t.entries[e.client];
    if Belongs(part, w.count + 1) {
      LooseMore(config, part, charges, stall, step, Charge(e.now, e.entered, w.started), w.count);
    }
  }

  /** The client's charges after an admission of its own. */
  ghost function Charged(config: Config, part: Part, t: Table, charges: seq<Charge>, e: Entry): seq<Charge> {
    var (u, r) := Next(config, t, e.client, e.now);
    charges + (if r.decision.Allowed? && Belongs(part, u.entries[e.client].count)
               then [Charge(e.now, e.entered, u.entries[e.client].started)] else [])
  }

  lemma {:induction false} FollowsOwn(config: Config, part: Part, t: Table, charges: seq<Charge>, stall: int, step: int,
        clock: int, e: Entry)
    requires ValidConfig(config) && Follows(config, part, t, charges, e.client, stall, step, clock)
             && step <= config.window
    requires charges == [] || e.client in t.entries || step <= config.window - stall
    requires clock <= e.entered && e.now <= e.entered <= e.now + stall
    ensures Follows(config, part, Next(config, t, e.client, e.now).0, Charged(config, part, t, charges, e), e.client,
                    stall, step, e.entered)
  {
    hide Follows, Belongs, IsEarliest, Reclaimed;
    var (u, r) := Next(config, t, e.client, e.now);
    assert charges + [] == charges;
    FollowsLater(config, part, t, charges, e.client, stall, step, clock, e.entered);
    if r.decision.Allowed? {
      if e.client in t.entries && e.now < Expiry(config, t.entries[e.client]) {
        FollowsUse(config, part, t, u, charges, stall, step, clock, e);
      } else {
        FollowsOpening(config, part, t, u, charges, stall, step, clock, e);
      }
    } else if e.client !in t.entries {
      FollowsAway(config, part, t, u, charges, e.client, stall, step, e.entered);
    }
  }

  lemma {:induction false} FollowsAway(config: Config, part: Part, t: Table, u: Table, charges: seq<Charge>, c: Client,
        stall: int, step: int, clock: int)
    requires Follows(config, part, t, charges, c, stall, step, clock) && c !in t.entries && c !in u.entries
    ensures Follows(config, part, u, charges, c, stall, step, clock)
  {
    hide Loose;
  }

  lemma {:induction false} FollowsLater(config: Config, part: Part, t: Table, charges: seq<Charge>, c: Client,
        stall: int, step: int, clock: int, later: int)
    requires Follows(config, part, t, charges, c, stall, step, clock) && clock <= later
    ensures Follows(config, part, t, charges, c, stall, step, later)
  {
    hide Loose;
  }

  lemma {:induction false} FollowsOther(config: Config, part: Part, t: Table, charges: seq<Charge>, c: Client,
        stall: int, step: int, clock: int, e: Entry)
    requires Follows(config, part, t, charges, c, stall, step, clock) && e.client != c && step >= 0
    requires clock <= e.entered && e.now <= e.entered
    ensures Follows(config, part, Next(config, t, e.client, e.now).0, charges, c, stall, step, e.entered)
  {
    OthersKeep(config, t, c, Request(e.client, e.now));
    hide Next, Loose;
  }

  ghost function ClientSet(history: seq<Entry>): set<Client> {
    set i | 0 <= i < |history| :: history[i].client
  }

  /** No more clients than the table has room for. */
  ghost predicate Few(config: Config, history: seq<Entry>) {
    |ClientSet(history)| <= config.capacity
  }

  lemma {:induction false} ClientsMore(history: seq<Entry>)
    requires history != []
    ensures var n := |history| - 1; ClientSet(history) == ClientSet(history[..n]) + {history[n].client}
    ensures |ClientSet(history[..|history| - 1])| <= |ClientSet(history)|
  {
    var n := |history| - 1;
    var before := ClientSet(history[..n]);
    forall c | c in ClientSet(history)
      ensures c in before + {history[n].client}
    {
      var i :| 0 <= i < |history| && history[i].client == c;
      assert i < n ==> history[..n][i].client == c;
    }
    forall c | c in before
      ensures c in ClientSet(history)
    {
      var i :| 0 <= i < n && history[..n][i].client == c;
      assert history[i].client == c;
    }
    assert history[n].client in ClientSet(history);
    assert ClientSet(history) == before + {history[n].client};
    SubsetSize(before, ClientSet(history));
  }

  lemma {:induction false} RoomKeepsAll(config: Config, t: Table, c: Client, now: int)
    requires c in t.entries || |t.entries| < config.capacity
    ensures Next(config, t, c, now).0.entries.Keys == t.entries.Keys + {c}
  {
  }

  /** With few clients nobody's entry is ever dropped. */
  lemma {:induction false} FewStay(config: Config, history: seq<Entry>)
    requires ValidConfig(config) && Few(config, history)
    ensures Run(config, Requests(history)).entries.Keys == ClientSet(history)
  {
    hide Next, Requests;
    if history == [] {
      assert Requests(history) == [];
    } else {
      var n := |history| - 1;
      var before, last := history[..n], history[n];
      ClientsMore(history);
      FewStay(config, before);
      assert history == before + [last];
      RequestsMore(before, last);
      RunNext(config, Requests(before), Request(last.client, last.now));
      var t := Run(config, Requests(before));
      hide Run, ClientSet;
      assert |t.entries| == |t.entries.Keys|;
      if last.client !in t.entries {
        assert |ClientSet(before) + {last.client}| == |ClientSet(before)| + 1;
      }
      RoomKeepsAll(config, t, last.client, last.now);
    }
  }

  lemma {:induction false} ChargedIsClient(config: Config, history: seq<Entry>, c: Client, part: Part)
    requires Charges(config, history, c, part) != []
    ensures c in ClientSet(history)
  {
    var n := |history| - 1;
    if history[n].client != c {
      ChargedIsClient(config, history[..n], c, part);
      ClientsMore(history);
    }
  }

  lemma {:induction false} ChargesMore(config: Config, history: seq<Entry>, e: Entry, c: Client, part: Part)
    ensures var t := Run(config, Requests(history));
            && Run(config, Requests(history + [e])) == Next(config, t, e.client, e.now).0
            && Charges(config, history + [e], c, part)
               == if e.client == c then Charged(config, part, t, Charges(config, history, c, part), e)
                  else Charges(config, history, c, part)
  {
    hide Next, Belongs;
    assert (history + [e])[..|history|] == history;
    RequestsMore(history, e);
    RunNext(config, Requests(history), Request(e.client, e.now));
    assert Charges(config, history, c, part) + [] == Charges(config, history, c, part);
  }

  lemma {:induction false} FollowsStep(config: Config, history: seq<Entry>, e: Entry, c: Client, part: Part, stall: int,
        step: int)
    requires ValidConfig(config) && 0 <= step <= config.window
    requires Follows(config, part, Run(config, Requests(history)), Charges(config, history, c, part), c, stall, step,
                     e.entered)
    requires Charges(config, history, c, part) == [] || c in Run(config, Requests(history)).entries
             || step <= config.window - stall
    requires e.now <= e.entered <= e.now + stall
    ensures Follows(config, part, Run(config, Requests(history + [e])), Charges(config, history + [e], c, part), c,
                    stall, step, e.entered)
  {
    hide Next, Follows, Run, Charges, Charged, Requests;
    var t, charges := Run(config, Requests(history)), Charges(config, history, c, part);
    ChargesMore(config, history, e, c, part);
    if e.client == c {
      FollowsOwn(config, part, t, charges, stall, step, e.entered, e);
    } else {
      FollowsOther(config, part, t, charges, c, stall, step, e.entered, e);
    }
  }

  /** With few clients a charged client is in the table. */
  lemma {:induction false} ChargedStay(config: Config, history: seq<Entry>, c: Client, part: Part)
    requires ValidConfig(config) && Few(config, history)
    ensures Charges(config, history, c, part) == [] || c in Run(config, Requests(history)).entries
  {
    hide Next, Run, Charges;
    FewStay(config, history);
    if Charges(config, history, c, part) != [] {
      ChargedIsClient(config, history, c, part);
    }
  }

  lemma {:induction false} NothingFollows(config: Config, c: Client, part: Part, stall: int, step: int, clock: int)
    ensures Follows(config, part, Run(config, Requests([])), Charges(config, [], c, part), c, stall, step, clock)
  {
  }

  lemma {:induction false} HistoryFollows(config: Config, history: seq<Entry>, c: Client, part: Part, stall: int,
        step: int, clock: int)
    requires ValidConfig(config) && Orderly(history) && Stalls(history, stall)
    requires 0 <= step <= config.window && (Few(config, history) || step <= config.window - stall)
    requires forall i | 0 <= i < |history| :: history[i].entered <= clock
    ensures Follows(config, part, Run(config, Requests(history)), Charges(config, history, c, part), c, stall, step,
                    clock)
  {
    hide Follows, Run, Charges, Requests, ClientSet, ValidConfig;
    if history == [] {
      NothingFollows(config, c, part, stall, step, clock);
    } else {
      var n := |history| - 1;
      var before, last := history[..n], history[n];
      ClientsMore(history);
      HistoryFollows(config, before, c, part, stall, step, last.entered);
      if Few(config, before) {
        ChargedStay(config, before, c, part);
      }
      assert history == before + [last];
      FollowsStep(config, before, last, c, part, stall, step);
      FollowsLater(config, part, Run(config, Requests(history)), Charges(config, history, c, part), c, stall, step,
                   last.entered, clock);
    }
  }

  lemma {:induction false} LastEntered(history: seq<Entry>)
    requires Orderly(history)
    ensures forall i | 0 <= i < |history| :: history[i].entered <= history[|history| - 1].entered
  {
  }

  lemma {:induction false} ChargesAreLoose(config: Config, history: seq<Entry>, c: Client, part: Part, stall: int,
        step: int)
    requires ValidConfig(config) && Orderly(history) && Stalls(history, stall)
    requires 0 <= step <= config.window && (Few(config, history) || step <= config.window - stall)
    ensures Loose(config, part, Charges(config, history, c, part), stall, step)
  {
    hide Loose, Charges, Run, Few, Stalls, ValidConfig, Closes;
    LastEntered(history);
    HistoryFollows(config, history, c, part, stall, step, if history == [] then 0 else history[|history| - 1].entered);
  }

  lemma {:induction false} LooseIsSpaced(config: Config, part: Part, charges: seq<Charge>, stall: int, step: int,
        byTurn: bool)
    requires Loose(config, part, charges, stall, step)
    ensures Spaced(Dated(charges, byTurn), Share(part, config.limit), config.window - 1 + (if byTurn then stall else 0),
                   config.window - (if byTurn then 0 else stall), step)
  {
  }

  /** How many charges of the part are dated in an interval one window long. */
  ghost function CountOf(config: Config, history: seq<Entry>, c: Client, part: Part, from: int, byTurn: bool): nat {
    Within(Dated(Charges(config, history, c, part), byTurn), from, from + config.window)
  }

  /** How many of a client's allowed admissions are dated in an interval one window long. */
  ghost function Count(config: Config, history: seq<Entry>, c: Client, from: int, byTurn: bool): nat {
    CountOf(config, history, c, All, from, byTurn)
  }

  lemma {:induction false} CountIsGrants(config: Config, history: seq<Entry>, c: Client, from: int)
    ensures Count(config, history, c, from, false)
            == Within(Grants(config, Requests(history), c), from, from + config.window)
  {
    hide Charges, Grants, Within;
    ReadingsAreGrants(config, history, c);
  }

  lemma {:induction false} Covers(product: int, window: int, stall: int, byTurn: bool)
    requires product + window - stall >= 2 * window - 1
    ensures product + (window - (if byTurn then 0 else stall)) >= window - 1 + (if byTurn then stall else 0) + window
  {
  }

  /** Windows at least `step` apart bound the count. */
  lemma {:induction false} CountBound(config: Config, history: seq<Entry>, c: Client, part: Part, stall: int, step: int,
        m: nat, from: int, byTurn: bool)
    requires ValidConfig(config) && Orderly(history) && Stalls(history, stall) && m > 0
    requires 0 <= step <= config.window && (Few(config, history) || step <= config.window - stall)
    requires (m - 1) * step + config.window - stall >= 2 * config.window - 1
    requires Share(part, config.limit) > 0
    ensures CountOf(config, history, c, part, from, byTurn) <= m * Share(part, config.limit)
  {
    hide Orderly, Stalls, Few, Loose, Charges, ValidConfig, Spaced, Share, Within, Dated;
    var charges, window := Charges(config, history, c, part), config.window;
    ChargesAreLoose(config, history, c, part, stall, step);
    LooseIsSpaced(config, part, charges, stall, step, byTurn);
    Covers((m - 1) * step, window, stall, byTurn);
    AtMostTimesTheLimit(Dated(charges, byTurn), Share(part, config.limit), window - 1 + (if byTurn then stall else 0),
                        window - (if byTurn then 0 else stall), step, m, from, window);
  }

  /**
   In every schedule of admissions, dated by their readings or by their turns in the lock:
   while no admission stalls longer than `stall`, an interval one window long holds at most
   `m` times the limit of one client's allowed admissions, for every `m` of windows
   shortened by the stall that fill two windows; and if the clients are no more than the
   table has room for, whenever `m` less two windows cover the stall. Dated by their
   readings, these admissions are the grants of `RequestLimiter`.
   */
  lemma {:induction false} OvertakingIsBounded(config: Config, start: int, clients: seq<Client>, turns: seq<Turn>,
        c: Client, stall: int, m: nat, from: int, byTurn: bool)
    requires ValidConfig(config) && Stalls(Play(config, Begin(start, clients), turns).history, stall)
    requires var short := config.window - stall;
             || (0 <= short <= config.window && m > 0 && m * short >= 2 * config.window - 1)
             || (Few(config, Play(config, Begin(start, clients), turns).history) && m >= 2
                 && (m - 2) * config.window + 1 >= stall)
    ensures var history := Play(config, Begin(start, clients), turns).history;
            && Count(config, history, c, from, byTurn) <= m * config.limit
            && Count(config, history, c, from, false)
               == Within(Grants(config, Requests(history), c), from, from + config.window)
  {
    HistoriesAreOrderly(config, start, clients, turns);
    var history := Play(config, Begin(start, clients), turns).history;
    assert Orderly(history);
    hide *;
    CountIsGrants(config, history, c, from);
    BoundedCount(config, history, c, stall, m, from, byTurn);
  }

  lemma {:induction false} BoundedCount(config: Config, history: seq<Entry>, c: Client, stall: int, m: nat, from: int,
        byTurn: bool)
    requires ValidConfig(config) && Orderly(history) && Stalls(history, stall)
    requires var short := config.window - stall;
             || (0 <= short <= config.window && m > 0 && m * short >= 2 * config.window - 1)
             || (Few(config, history) && m >= 2 && (m - 2) * config.window + 1 >= stall)
    ensures Count(config, history, c, from, byTurn) <= m * config.limit
  {
    var short := config.window - stall;
    hide Orderly, Few, CountOf, Stalls;
    if 0 <= short <= config.window && m > 0 && m * short >= 2 * config.window - 1 {
      assert (m - 1) * short + short == m * short;
      CountBound(config, history, c, All, stall, short, m, from, byTurn);
    } else {
      assert (m - 1) * config.window == (m - 2) * config.window + config.window;
      CountBound(config, history, c, All, stall, config.window, m, from, byTurn);
    }
  }

  // ---- The greatest count ----

  /** Whoever opened a window is not of the rest, and there is nobody else. */
  lemma {:induction false} OnePart()
    ensures forall n {:trigger Belongs(Openings, n)} :: Belongs(Openings, n) <==> Belongs(All, n) && !Belongs(Rest, n)
    ensures forall n {:trigger Belongs(Rest, n)} :: Belongs(Rest, n) ==> Belongs(All, n)
  {
  }

  lemma {:induction false} PartsAddUp(config: Config, history: seq<Entry>, c: Client, from: int)
    ensures Count(config, history, c, from, false)
            == CountOf(config, history, c, Openings, from, false) + CountOf(config, history, c, Rest, from, false)
  {
    if history == [] {
      NothingCounted(config, c, from);
    } else {
      hide CountOf, Next, Run, Requests, Hits, Belongs;
      var n := |history| - 1;
      PartsAddUp(config, history[..n], c, from);
      OnePart();
      assert history == history[..n] + [history[n]];
      CountMore(config, history[..n], history[n], c, All, from);
      CountMore(config, history[..n], history[n], c, Openings, from);
      CountMore(config, history[..n], history[n], c, Rest, from);
    }
  }

  lemma {:induction false} NothingCounted(config: Config, c: Client, from: int)
    ensures forall part :: CountOf(config, [], c, part, from, false) == 0
  {
  }

  predicate Hits(config: Config, from: int, now: int) {
    from <= now < from + config.window
  }

  lemma {:induction false} CountMore(config: Config, history: seq<Entry>, e: Entry, c: Client, part: Part, from: int)
    ensures var (t, r) := Next(config, Run(config, Requests(history)), e.client, e.now);
            CountOf(config, history + [e], c, part, from, false)
            == CountOf(config, history, c, part, from, false)
               + if e.client == c && r.decision.Allowed? && Belongs(part, t.entries[c].count)
                 && Hits(config, from, e.now)
                 then 1 else 0
  {
    hide Next, Run, Requests, Charges, Belongs;
    ChargesMore(config, history, e, c, part);
    var before, after := Charges(config, history, c, part), Charges(config, history + [e], c, part);
    var more := after[|before|..];
    assert after == before + more;
    DatedMore(config, before, more, from);
  }

  lemma {:induction false} DatedMore(config: Config, before: seq<Charge>, more: seq<Charge>, from: int)
    requires |more| <= 1
    ensures Within(Dated(before + more, false), from, from + config.window)
            == Within(Dated(before, false), from, from + config.window)
               + if more != [] && Hits(config, from, more[0].now) then 1 else 0
  {
    hide Within;
    if more == [] {
      assert before + more == before;
    } else {
      var g := Grant(more[0].now, more[0].since);
      assert Dated(before + more, false) == Dated(before, false) + [g];
      WithinAppend(Dated(before, false), [g], from, from + config.window);
      WithinOne(g, from, from + config.window);
    }
  }

  lemma {:induction false} WithinOne(g: Grant, from: int, to: int)
    ensures Within([g], from, to) == if from <= g.at < to then 1 else 0
  {
    assert [g][..0] == [];
    assert Within([], from, to) == 0;
  }

  /** How many windows that are `step` apart can have readings in an interval one window long. */
  function Touching(window: int, step: int): int
    requires step > 0
  {
    2 * (window - 1) / step + 1
  }

  /** How many such windows can open in it. */
  function Opening(window: int, step: int): int
    requires step > 0
  {
    (window - 1) / step + 1
  }

  /** Every window that touches the interval at most its limit, those that open elsewhere one less. */
  function Peak(limit: nat, window: int, step: int): int
    requires step > 0
  {
    Touching(window, step) * (limit - 1) + Opening(window, step)
  }

  lemma {:induction false} Fills(window: int, step: int)
    requires 0 < step <= window
    ensures Touching(window, step) > 0 && (Touching(window, step) - 1) * step + step >= 2 * window - 1
    ensures Opening(window, step) > 0 && (Opening(window, step) - 1) * step + step >= window
  {
    var p, q := 2 * (window - 1), window - 1;
    assert p / step * step > p - step && q / step * step > q - step;
  }

  lemma {:induction false} OpeningsBound(config: Config, history: seq<Entry>, c: Client, stall: int, from: int)
    requires ValidConfig(config) && Orderly(history) && Stalls(history, stall) && 0 <= stall < config.window
    ensures CountOf(config, history, c, Openings, from, false) <= Opening(config.window, config.window - stall)
  {
    hide Orderly, Stalls, Loose, Charges, Spaced, Opening, Touching, Within, Dated, Few;
    var step, charges := config.window - stall, Charges(config, history, c, Openings);
    ChargesAreLoose(config, history, c, Openings, stall, step);
    OpeningsAreSpaced(config, charges, stall, step);
    Fills(config.window, step);
    AtMostTimesTheLimit(Dated(charges, false), 1, 0, step, step, Opening(config.window, step), from, config.window);
  }

  lemma {:induction false} OpeningsAreSpaced(config: Config, charges: seq<Charge>, stall: int, step: int)
    requires ValidConfig(config) && Loose(config, Openings, charges, stall, step) && step == config.window - stall
    ensures Spaced(Dated(charges, false), 1, 0, step, step)
  {
  }

  lemma {:induction false} RestBound(config: Config, history: seq<Entry>, c: Client, stall: int, from: int)
    requires ValidConfig(config) && Orderly(history) && Stalls(history, stall) && 0 <= stall < config.window
    ensures CountOf(config, history, c, Rest, from, false)
            <= Touching(config.window, config.window - stall) * (config.limit - 1)
  {
    var step := config.window - stall;
    Fills(config.window, step);
    if config.limit > 1 {
      hide Orderly, Stalls, Touching, CountOf;
      CountBound(config, history, c, Rest, stall, step, Touching(config.window, step), from, false);
    } else {
      ChargesAreLoose(config, history, c, Rest, stall, step);
      NoRest(config, Charges(config, history, c, Rest), stall, step);
    }
  }

  lemma {:induction false} NoRest(config: Config, charges: seq<Charge>, stall: int, step: int)
    requires Loose(config, Rest, charges, stall, step) && config.limit == 1 && step > 0
    ensures charges == []
  {
    if charges != [] {
      Apart(config, Rest, charges, stall, step, 0, 0);
      assert false;
    }
  }

  lemma {:induction false} Apart(config: Config, part: Part, charges: seq<Charge>, stall: int, step: int, i: nat,
        j: nat)
    requires Loose(config, part, charges, stall, step) && i + Share(part, config.limit) <= j < |charges|
    ensures charges[i].since + step <= charges[j].since
  {
  }

  /**
   No schedule of admissions that stall less than a window has more readings of one client
   in an interval one window long.
   */
  lemma {:induction false} PeakBounds(config: Config, history: seq<Entry>, c: Client, stall: int, from: int)
    requires ValidConfig(config) && Orderly(history) && Stalls(history, stall) && 0 <= stall < config.window
    ensures Count(config, history, c, from, false) <= Peak(config.limit, config.window, config.window - stall)
  {
    hide Orderly, Stalls, Touching, Opening, CountOf, ValidConfig;
    PartsAddUp(config, history, c, from);
    OpeningsBound(config, history, c, stall, from);
    RestBound(config, history, c, stall, from);
  }
}
