/**
 How much overtaking lets through: schedules that attain the bounds of `Admission`. Other
 clients keep the table full, so that a scan drops a client's entry and an admission that
 read the clock earlier opens its next window early.
 */
module Overtaking {
  import opened Options
  import opened Durations
  import opened RequestLimiter
  import opened Admission

  /**
   Where a history has led: the table, and how many admissions of client 0 read the clock in
   the window from `from`.
   */
  ghost predicate At(config: Config, history: seq<Entry>, stall: int, clock: int, from: int, t: Table, n: int) {
    && Orderly(history) && Stalls(history, stall) && (forall i | 0 <= i < |history| :: history[i].entered <= clock)
    && Run(config, Requests(history)) == t && Count(config, history, 0, from, false) == n
  }

  lemma {:induction false} NothingYet(config: Config, stall: int, clock: int, from: int)
    ensures At(config, [], stall, clock, from, Table(map[], None), 0)
  {
  }

  lemma {:induction false} AtLater(config: Config, h: seq<Entry>, stall: int, clock: int, from: int, t: Table, n: int,
        later: int)
    requires At(config, h, stall, clock, from, t, n) && clock <= later
    ensures At(config, h, stall, later, from, t, n)
  {
  }

  lemma {:induction false} Arrived(config: Config, h: seq<Entry>, stall: int, clock: int, from: int, t: Table, n: int)
    requires At(config, h, stall, clock, from, t, n)
    ensures Orderly(h) && Stalls(h, stall) && Count(config, h, 0, from, false) == n
  {
  }

  lemma {:induction false} OrderlyMore(history: seq<Entry>, stall: int, clock: int, e: Entry)
    requires Orderly(history) && Stalls(history, stall) && forall i | 0 <= i < |history| :: history[i].entered <= clock
    requires clock <= e.entered && e.now <= e.entered <= e.now + stall
    ensures Orderly(history + [e]) && Stalls(history + [e], stall)
    ensures forall i | 0 <= i < |history + [e]| :: (history + [e])[i].entered <= e.entered
  {
  }

  lemma {:induction false} Enters(config: Config, history: seq<Entry>, stall: int, clock: int, from: int, t: Table,
        n: int, e: Entry)
    requires At(config, history, stall, clock, from, t, n)
    requires clock <= e.entered && e.now <= e.entered <= e.now + stall
    ensures var (u, r) := Next(config, t, e.client, e.now);
            At(config, history + [e], stall, e.entered, from, u,
               if e.client == 0 && r.decision.Allowed? && Hits(config, from, e.now) then n + 1 else n)
  {
    hide Next, Run, Charges, Requests, CountOf, Orderly, Stalls, Hits, Belongs;
    OrderlyMore(history, stall, clock, e);
    ChargesMore(config, history, e, 0, All);
    CountMore(config, history, e, 0, All, from);
    if Next(config, t, e.client, e.now).1.decision.Allowed? {
      AllowedIsPlaced(config, t, e.client, e.now);
    }
  }

  function Copies(e: Entry, k: nat): seq<Entry> {
    seq(k, i => e)
  }

  /** The table after client 0 has used `k` more of its window. */
  function Used(t: Table, k: nat): Table
    requires 0 in t.entries
  {
    t.(entries := t.entries[0 := Window(t.entries[0].started, t.entries[0].count + k)])
  }

  lemma {:induction false} UsesOne(config: Config, t: Table, now: int, k: nat)
    requires 0 in t.entries && now < Expiry(config, t.entries[0]) && t.entries[0].count + k < config.limit
    ensures Used(t, 0) == t && Next(config, Used(t, k), 0, now) == (Used(t, k + 1), Outcome(Allowed, 0))
  {
    assert t.entries[0 := Window(t.entries[0].started, t.entries[0].count)] == t.entries;
    assert Used(t, k).entries[0 := Window(t.entries[0].started, t.entries[0].count + k + 1)] == Used(t, k + 1).entries;
  }

  /** Client 0 has room left in its window and uses `k` of it. */
  lemma {:induction false} EntersOften(config: Config, history: seq<Entry>, stall: int, clock: int, from: int,
        t: Table, n: int,
        e: Entry, k: nat)
    returns (later: int)
    requires At(config, history, stall, clock, from, t, n)
    requires clock <= e.entered && e.now <= e.entered <= e.now + stall
    requires e.client == 0 && 0 in t.entries && e.now < Expiry(config, t.entries[0])
             && t.entries[0].count + k <= config.limit
    ensures later <= e.entered
    ensures At(config, history + Copies(e, k), stall, later, from, Used(t, k),
               if Hits(config, from, e.now) then n + k else n)
  {
    hide At, Hits, Next, Used;
    if k == 0 {
      assert history + Copies(e, 0) == history;
      UsedNothing(t);
      return clock;
    }
    later := EntersOften(config, history, stall, clock, from, t, n, e, k - 1);
    var m := if Hits(config, from, e.now) then n + (k - 1) else n;
    UsesOne(config, t, e.now, k - 1);
    Enters(config, history + Copies(e, k - 1), stall, later, from, Used(t, k - 1), m, e);
    assert history + Copies(e, k - 1) + [e] == history + Copies(e, k);
    later := e.entered;
  }

  lemma {:induction false} UsedNothing(t: Table)
    requires 0 in t.entries
    ensures Used(t, 0) == t
  {
    assert t.entries[0 := Window(t.entries[0].started, t.entries[0].count)] == t.entries;
  }

  // ---- Sweeps ----

  lemma {:induction false} Inserts(config: Config, t: Table, c: Client, now: int)
    requires c !in t.entries && |t.entries| < config.capacity
    ensures Next(config, t, c, now) == (Inserted(config, t, c, now), Outcome(Allowed, 0))
    ensures |Inserted(config, t, c, now).entries| == |t.entries| + 1
  {
    assert Inserted(config, t, c, now).entries.Keys == t.entries.Keys + {c};
  }

  /** The clients whose windows started later. */
  function LateKeys(t: Table, early: int): set<Client> {
    set c | c in t.entries && t.entries[c].started > early
  }

  /** Client 0's window started at `early`, at most `late` windows later, and whoever is from `unused` on has none. */
  ghost predicate Mixed(config: Config, t: Table, early: int, late: nat, unused: nat) {
    && (forall c | c in t.entries :: c < unused)
    && |LateKeys(t, early)| <= late && t.earliest.Some? && t.earliest.value <= early + config.window
    && 0 in t.entries && t.entries[0].started == early
  }

  /** Client 0 has no window, nor has anybody from `unused` on. */
  ghost predicate Swept(t: Table, size: nat, unused: nat) {
    |t.entries| <= size && 0 !in t.entries && forall c | c in t.entries :: c < unused
  }

  /** An unused client finds the table full and takes the place of client 0 and of all that have expired with it. */
  lemma {:induction false} Sweeps(config: Config, t: Table, early: int, late: nat, unused: nat)
    requires Mixed(config, t, early, late, unused) && |t.entries| == config.capacity && late < config.capacity
    requires config.window > 0
    ensures Swept(Next(config, t, unused, config.window + early).0, late + 1, unused + 1)
  {
    var now := config.window + early;
    var live := Reclaimed(config, t.entries, now);
    LateStay(config, t, early, now);
    hide Reclaimed, IsEarliest, Live, Next;
    ScansAndInserts(config, t, unused, now);
    SweptInserted(config, t, live, early, late, unused, now);
  }

  lemma {:induction false} ScansAndInserts(config: Config, t: Table, c: Client, now: int)
    requires c !in t.entries && |t.entries| >= config.capacity && t.earliest.Some? && now >= t.earliest.value
    requires |Reclaimed(config, t.entries, now).entries| < config.capacity
    ensures Next(config, t, c, now).0 == Inserted(config, Reclaimed(config, t.entries, now), c, now)
  {
    hide Reclaimed, IsEarliest, Live;
  }

  lemma {:induction false} SweptInserted(config: Config, t: Table, live: Table, early: int, late: nat, unused: nat,
        now: int)
    requires Mixed(config, t, early, late, unused) && live.entries.Keys == LateKeys(t, early)
    requires |live.entries| == |LateKeys(t, early)|
    ensures Swept(Inserted(config, live, unused, now), late + 1, unused + 1)
  {
    var u := Inserted(config, live, unused, now);
    assert u.entries.Keys == live.entries.Keys + {unused};
    assert |u.entries| == |u.entries.Keys| && |live.entries| == |live.entries.Keys|;
  }

  lemma {:induction false} LateStay(config: Config, t: Table, early: int, now: int)
    requires now == config.window + early
    ensures var live := Reclaimed(config, t.entries, now);
            live.entries.Keys == LateKeys(t, early) && |live.entries| == |LateKeys(t, early)|
  {
    var live := Reclaimed(config, t.entries, now);
    assert live.entries.Keys == LateKeys(t, early);
    assert |live.entries| == |live.entries.Keys|;
  }

  /** Client 0 comes back. */
  lemma {:induction false} Returns(config: Config, t: Table, early: int, late: nat, unused: nat)
    requires Swept(t, late, unused) && late < config.capacity && unused > 0
    ensures var (u, r) := Next(config, t, 0, early);
            && r.decision.Allowed? && Mixed(config, u, early, late, unused) && |u.entries| <= late + 1
            && 0 in u.entries && u.entries[0] == Window(early, 1)
  {
    Inserts(config, t, 0, early);
    var u := Inserted(config, t, 0, early);
    assert LateKeys(u, early) <= t.entries.Keys;
    SubsetSize(LateKeys(u, early), t.entries.Keys);
  }

  lemma {:induction false} MixedMore(config: Config, t: Table, early: int, late: nat, unused: nat)
    requires Mixed(config, t, early, late, unused) && |t.entries| < config.capacity
    ensures var (u, r) := Next(config, t, unused, early);
            && Mixed(config, u, early, late, unused + 1) && |u.entries| == |t.entries| + 1
            && u.entries[0] == t.entries[0]
  {
    Inserts(config, t, unused, early);
    var u := Inserted(config, t, unused, early);
    assert LateKeys(u, early) == LateKeys(t, early);
  }

  lemma {:induction false} MixedUsed(config: Config, t: Table, early: int, late: nat, unused: nat, k: nat)
    requires Mixed(config, t, early, late, unused)
    ensures Mixed(config, Used(t, k), early, late, unused) && |Used(t, k).entries| == |t.entries|
  {
    var u := Used(t, k);
    assert LateKeys(u, early) == LateKeys(t, early);
    assert u.entries.Keys == t.entries.Keys;
    assert |u.entries| == |u.entries.Keys| && |t.entries| == |t.entries.Keys|;
  }

  /** Unused clients with the same reading fill the table. */
  lemma {:induction false} FillUp(config: Config, h: seq<Entry>, stall: int, clock: int, from: int, t: Table, n: int,
        early: int, late: nat, unused: nat)
    returns (more: seq<Entry>, u: Table, next: nat)
    requires At(config, h, stall, clock, from, t, n) && Mixed(config, t, early, late, unused)
    requires |t.entries| <= config.capacity && early <= clock <= early + stall
    ensures At(config, more, stall, clock, from, u, n) && Mixed(config, u, early, late, next)
    ensures |u.entries| == config.capacity && 0 in t.entries && 0 in u.entries && u.entries[0] == t.entries[0]
    decreases config.capacity - |t.entries|
  {
    assert 0 in t.entries && unused > 0;
    hide At, Mixed, Next;
    if |t.entries| == config.capacity {
      return h, t, unused;
    }
    var e := Entry(unused, early, clock);
    MixedMore(config, t, early, late, unused);
    Enters(config, h, stall, clock, from, t, n, e);
    more, u, next := FillUp(config, h + [e], stall, clock, from, Next(config, t, unused, early).0, n, early, late,
                            unused + 1);
  }

  lemma {:induction false} ExpiryOf(config: Config, w: Window)
    ensures Expiry(config, w) == w.started + config.window
  {
  }

  /** Client 0's window is open: others fill the table, and client 0 uses its window up inside the interval. */
  lemma {:induction false} UseUp(config: Config, h: seq<Entry>, stall: int, clock: int, from: int, t: Table, n: int,
        early: int, late: nat, unused: nat, e: Entry)
    returns (more: seq<Entry>, u: Table, next: nat)
    requires At(config, h, stall, clock, from, t, n) && Mixed(config, t, early, late, unused)
    requires |t.entries| <= config.capacity && early <= clock <= early + stall
    requires 0 in t.entries && t.entries[0] == Window(early, 1) && config.limit > 0
    requires e.client == 0 && e.now < early + config.window && Hits(config, from, e.now)
    requires clock <= e.entered && e.now <= e.entered <= e.now + stall
    ensures At(config, more, stall, e.entered, from, u, n + config.limit - 1) && Mixed(config, u, early, late, next)
    ensures |u.entries| == config.capacity
  {
    hide *;
    var filled, full, last := FillUp(config, h, stall, clock, from, t, n, early, late, unused);
    ExpiryOf(config, full.entries[0]);
    var later := EntersOften(config, filled, stall, clock, from, full, n, e, config.limit - 1);
    more, u, next := filled + Copies(e, config.limit - 1), Used(full, config.limit - 1), last;
    MixedUsed(config, full, early, late, last, config.limit - 1);
    AtLater(config, more, stall, later, from, u, n + (config.limit - 1), e.entered);
  }

  /** How many of the windows that start at 0, `step`, ... and at `k * step` open at `from` or later. */
  function Opened(step: int, from: int, k: nat): nat {
    (if k * step >= from then 1 else 0) + (if k == 0 then 0 else Opened(step, from, k - 1))
  }

  /** The turn of the last admission to window `k`. */
  function ClockAt(config: Config, step: int, from: int, k: nat): int {
    if k == 0 then from else config.window + (k - 1) * step
  }

  /**
   Windows of client 0 that start `step` apart, each used up, every admission but the one
   that opens the window with its reading in the interval.
   */
  lemma {:induction false} SweepOften(config: Config, step: int, from: int, k: nat)
    returns (h: seq<Entry>, t: Table, unused: nat)
    requires ValidConfig(config) && 0 < step <= config.window && 0 <= from < config.window
    requires k * step < from + config.window && k < config.capacity
    ensures At(config, h, config.window - step, ClockAt(config, step, from, k), from, t,
               (k + 1) * (config.limit - 1) + Opened(step, from, k))
    ensures Mixed(config, t, k * step, k, unused) && |t.entries| == config.capacity
  {
    hide At, Mixed, Next;
    if k == 0 {
      h, t, unused := FirstWindow(config, step, from);
    } else {
      var prior, clock := (k - 1) * step, ClockAt(config, step, from, k - 1);
      var n := k * (config.limit - 1) + Opened(step, from, k - 1);
      Steps(config, step, from, k);
      var before, b, f := SweepOften(config, step, from, k - 1);
      h, t, unused := NextWindow(config, step, from, prior, k, clock, before, b, f, n);
      OneMore(config, step, from, k, n);
    }
  }

  lemma {:induction false} Steps(config: Config, step: int, from: int, k: nat)
    requires k > 0 && 0 < step <= config.window && 0 <= from < config.window
    ensures k * step == (k - 1) * step + step && (k - 1) * step >= 0
    ensures ClockAt(config, step, from, k) == config.window + (k - 1) * step >= ClockAt(config, step, from, k - 1)
  {
    if k > 1 {
      assert (k - 1) * step == (k - 2) * step + step;
    }
  }

  lemma {:induction false} OneMore(config: Config, step: int, from: int, k: nat, n: int)
    requires k > 0 && n == k * (config.limit - 1) + Opened(step, from, k - 1)
    ensures n + (config.limit - 1) + (if k * step >= from then 1 else 0)
            == (k + 1) * (config.limit - 1) + Opened(step, from, k)
  {
    assert (k + 1) * (config.limit - 1) == k * (config.limit - 1) + (config.limit - 1);
  }

  lemma {:induction false} MixedUnused(config: Config, t: Table, early: int, late: nat, unused: nat)
    requires Mixed(config, t, early, late, unused)
    ensures unused > 0
  {
  }

  lemma {:induction false} SweepEnters(config: Config, h: seq<Entry>, stall: int, clock: int, from: int, t: Table,
        n: int, early: int, late: nat, unused: nat)
    returns (more: seq<Entry>, u: Table)
    requires At(config, h, stall, clock, from, t, n) && clock <= config.window + early && stall >= 0
    requires Mixed(config, t, early, late, unused) && |t.entries| == config.capacity && late < config.capacity
    requires config.window > 0
    ensures At(config, more, stall, config.window + early, from, u, n) && Swept(u, late + 1, unused + 1)
  {
    hide *;
    MixedUnused(config, t, early, late, unused);
    var now := config.window + early;
    Sweeps(config, t, early, late, unused);
    Enters(config, h, stall, clock, from, t, n, Entry(unused, now, now));
    more, u := h + [Entry(unused, now, now)], Next(config, t, unused, now).0;
  }

  lemma {:induction false} ReturnEnters(config: Config, h: seq<Entry>, stall: int, clock: int, from: int, t: Table,
        n: int, early: int, late: nat, unused: nat)
    returns (more: seq<Entry>, u: Table)
    requires At(config, h, stall, clock, from, t, n) && early <= clock <= early + stall
    requires Swept(t, late, unused) && late < config.capacity && unused > 0
    ensures At(config, more, stall, clock, from, u, if Hits(config, from, early) then n + 1 else n)
    ensures Mixed(config, u, early, late, unused) && |u.entries| <= config.capacity
    ensures 0 in u.entries && u.entries[0] == Window(early, 1)
  {
    hide *;
    Returns(config, t, early, late, unused);
    Enters(config, h, stall, clock, from, t, n, Entry(0, early, clock));
    more, u := h + [Entry(0, early, clock)], Next(config, t, 0, early).0;
  }

  lemma {:induction false} HitsFrom(config: Config, from: int, now: int)
    requires now < from + config.window
    ensures Hits(config, from, now) <==> now >= from
  {
  }

  lemma {:induction false} SweptNone()
    ensures Swept(Table(map[], None), 0, 1)
  {
  }

  lemma {:induction false} FirstWindow(config: Config, step: int, from: int)
    returns (h: seq<Entry>, t: Table, unused: nat)
    requires config.limit > 0 && config.capacity > 0 && 0 < step <= config.window && 0 <= from < config.window
    ensures At(config, h, config.window - step, from, from, t, config.limit - 1 + if 0 >= from then 1 else 0)
    ensures Mixed(config, t, 0, 0, unused) && |t.entries| == config.capacity
  {
    hide *;
    var none, stall := Table(map[], None), config.window - step;
    HitsFrom(config, from, 0);
    HitsFrom(config, from, from);
    SweptNone();
    NothingYet(config, stall, 0, from);
    var open, back := ReturnEnters(config, [], stall, 0, from, none, 0, 0, 0, 1);
    var m := if 0 >= from then 1 else 0;
    h, t, unused := UseUp(config, open, stall, 0, from, back, m, 0, 0, 1, Entry(0, from, from));
  }

  /**
   When the window at `prior` ends another client clears the table; client 0, overtaken,
   opens one that starts only a step later.
   */
  lemma {:induction false} NextWindow(config: Config, step: int, from: int, prior: int, k: nat, clock: int,
        h: seq<Entry>, t: Table, unused: nat, n: int)
    returns (more: seq<Entry>, u: Table, next: nat)
    requires config.limit > 0 && 0 < step <= config.window && 0 <= from < config.window
    requires 0 < k < config.capacity && 0 <= prior && prior + step < from + config.window
    requires At(config, h, config.window - step, clock, from, t, n) && clock <= config.window + prior
    requires Mixed(config, t, prior, k - 1, unused) && |t.entries| == config.capacity
    ensures At(config, more, config.window - step, config.window + prior, from, u,
               n + (config.limit - 1) + if prior + step >= from then 1 else 0)
    ensures Mixed(config, u, prior + step, k, next) && |u.entries| == config.capacity
  {
    hide *;
    var stall, early, now := config.window - step, prior + step, config.window + prior;
    var date := if early < from then from else early;
    HitsFrom(config, from, early);
    HitsFrom(config, from, date);
    var one, swept := SweepEnters(config, h, stall, clock, from, t, n, prior, k - 1, unused);
    var two, back := ReturnEnters(config, one, stall, now, from, swept, n, early, k, unused + 1);
    var m := if early >= from then n + 1 else n;
    more, u, next := UseUp(config, two, stall, now, from, back, m, early, k, unused + 1, Entry(0, date, now));
  }

  // ---- The greatest count is attained ----

  lemma {:induction false} NoneOpened(step: int, from: int, k: nat)
    requires step > 0 && k * step < from
    ensures Opened(step, from, k) == 0
  {
    if k > 0 {
      assert k * step == (k - 1) * step + step;
      NoneOpened(step, from, k - 1);
    }
  }

  lemma {:induction false} Multiple(i: int, j: int, step: int)
    requires step > 0
    ensures (i + 1) * step == i * step + step
    ensures i <= j ==> i * step <= j * step
  {
    assert j * step - i * step == (j - i) * step;
    if i <= j {
      assert (j - i) * step >= 0;
    }
  }

  /** Window `j` is the first that opens at `from` or later. */
  lemma {:induction false} OpenedFrom(step: int, from: int, k: nat, j: nat)
    requires step > 0 && j * step >= from && (j > 0 ==> (j - 1) * step < from) && j <= k
    ensures Opened(step, from, k) == k + 1 - j
    decreases k
  {
    Multiple(j, k, step);
    if j < k {
      OpenedFrom(step, from, k - 1, j);
    } else if k > 0 {
      NoneOpened(step, from, k - 1);
    }
  }

  /** Where the interval starts so that as many windows touch it as can, and as many open in it as can. */
  function Start(window: int, step: int): int
    requires step > 0
  {
    var q, r := (window - 1) / step, (window - 1) % step;
    if 2 * r >= step then window - 1 else q * step
  }

  lemma {:induction false} Best(window: int, step: int)
    requires 0 < step <= window
    ensures 0 <= Start(window, step) < window
    ensures Touching(window, step) > 0 && (Touching(window, step) - 1) * step < Start(window, step) + window
    ensures Opened(step, Start(window, step), Touching(window, step) - 1) == Opening(window, step)
  {
    var q, r := (window - 1) / step, (window - 1) % step;
    Divided(window - 1, step, q, r);
    hide Opened;
    if 2 * r >= step {
      BestOdd(window, step, q, r);
    } else {
      BestEven(window, step, q, r);
    }
  }

  lemma {:induction false} Divided(n: int, step: int, q: int, r: int)
    requires 0 < step && n >= 0 && q == n / step && r == n % step
    ensures n == q * step + r && 0 <= r < step && q >= 0 && q * step <= n
  {
  }

  lemma {:induction false} Doubled(q: int, step: int)
    ensures (2 * q) * step == 2 * (q * step) && (2 * q + 1) * step == 2 * (q * step) + step
  {
  }

  lemma {:induction false} BestOdd(window: int, step: int, q: nat, r: int)
    requires 0 < step && 0 <= r < step <= 2 * r && window - 1 == q * step + r
    ensures 2 * (window - 1) / step == 2 * q + 1 && (2 * q + 1) * step <= 2 * (window - 1)
    ensures Opened(step, window - 1, 2 * q + 1) == q + 1
  {
    hide Opened;
    Doubled(q, step);
    Quotient(2 * (window - 1), step, 2 * q + 1, 2 * r - step);
    Multiple(q, q, step);
    OpenedFrom(step, window - 1, 2 * q + 1, q + 1);
  }

  lemma {:induction false} BestEven(window: int, step: int, q: nat, r: int)
    requires 0 < step && 0 <= 2 * r < step && window - 1 == q * step + r
    ensures 2 * (window - 1) / step == 2 * q && (2 * q) * step <= q * step + window - 1
    ensures Opened(step, q * step, 2 * q) == q + 1
  {
    hide Opened;
    Doubled(q, step);
    Quotient(2 * (window - 1), step, 2 * q, 2 * r);
    Multiple(q - 1, q, step);
    OpenedFrom(step, q * step, 2 * q, q);
  }

  lemma {:induction false} Quotient(n: int, step: int, q: int, r: int)
    requires 0 <= r < step && n == q * step + r
    ensures n / step == q
  {
    var p := n / step;
    assert n == p * step + n % step;
    Multiple(q + 1, p, step);
    Multiple(p + 1, q, step);
    Multiple(q, p, step);
    Multiple(p, q, step);
  }

  /** Windows one step apart attain the greatest count. */
  lemma {:induction false} PeakHistory(config: Config, stall: int) returns (history: seq<Entry>, from: int)
    requires ValidConfig(config) && 0 <= stall < config.window
    requires config.capacity == Touching(config.window, config.window - stall)
    ensures Orderly(history) && Stalls(history, stall)
    ensures Count(config, history, 0, from, false) == Peak(config.limit, config.window, config.window - stall)
  {
    var step := config.window - stall;
    var k := Touching(config.window, step) - 1;
    from := Start(config.window, step);
    Best(config.window, step);
    hide At, Mixed, Touching, Opening, Start, Opened, CountOf;
    var h, t, unused := SweepOften(config, step, from, k);
    history := h;
    Arrived(config, history, stall, ClockAt(config, step, from, k), from, t,
            (k + 1) * (config.limit - 1) + Opened(step, from, k));
  }

  /** While the table can hold a client for each of the windows, some schedule attains the greatest count. */
  lemma {:induction false} PeakIsReached(limit: nat, window: int, stall: int)
    returns (config: Config, start: int, clients: seq<Client>, turns: seq<Turn>, from: int)
    requires ValidConfig(Config(1, limit, window)) && 0 <= stall < window && Touching(window, window - stall) <= 65_536
    ensures config == Config(Touching(window, window - stall), limit, window) && ValidConfig(config)
    ensures var history := Play(config, Begin(start, clients), turns).history;
            Stalls(history, stall) && Count(config, history, 0, from, false) == Peak(limit, window, window - stall)
  {
    hide Touching, Peak, CountOf, Play, Stalls;
    Fills(window, window - stall);
    config := Config(Touching(window, window - stall), limit, window);
    var history, first := PeakHistory(config, stall);
    from := first;
    start := Earliest(history);
    clients := Clients(history);
    turns := EveryHistoryIsPlayed(config, start, history);
  }

  lemma {:induction false} Earliest(history: seq<Entry>) returns (start: int)
    ensures forall i | 0 <= i < |history| :: start <= history[i].now
  {
    if history == [] {
      return 0;
    }
    var n := |history| - 1;
    start := Earliest(history[..n]);
    assert forall i | 0 <= i < n :: history[..n][i] == history[i];
    if history[n].now < start {
      start := history[n].now;
    }
  }

  /**
   Over every capacity and schedule: no interval one window long holds more than `m` times
   the limit of a client's readings.
   */
  ghost predicate MultipleHolds(limit: nat, window: int, stall: int, m: nat) {
    forall capacity: nat, start: int, clients: seq<Client>, turns: seq<Turn>, c: Client, from: int ::
      var config := Config(capacity, limit, window);
      var history := Play(config, Begin(start, clients), turns).history;
      ValidConfig(config) && Stalls(history, stall) ==> Count(config, history, c, from, false) <= m * limit
  }

  /** Exactly which multiples of the limit bound the count, for a given stall. */
  lemma {:induction false} MultipleExactly(limit: nat, window: int, stall: int, m: nat)
    requires ValidConfig(Config(1, limit, window)) && 0 <= stall < window && Touching(window, window - stall) <= 65_536
    ensures MultipleHolds(limit, window, stall, m) <==> Peak(limit, window, window - stall) <= m * limit
  {
    if Peak(limit, window, window - stall) <= m * limit {
      PeakSuffices(limit, window, stall, m);
    } else {
      PeakRefutes(limit, window, stall, stall, m);
    }
  }

  lemma {:induction false} PeakSuffices(limit: nat, window: int, stall: int, m: nat)
    requires 0 <= stall < window && Peak(limit, window, window - stall) <= m * limit
    ensures MultipleHolds(limit, window, stall, m)
  {
    hide Peak, CountOf, Stalls, Play, ValidConfig, Orderly;
    forall capacity: nat, start: int, clients: seq<Client>, turns: seq<Turn>, c: Client, from: int
      | var config := Config(capacity, limit, window);
        ValidConfig(config) && Stalls(Play(config, Begin(start, clients), turns).history, stall)
      ensures var config := Config(capacity, limit, window);
              Count(config, Play(config, Begin(start, clients), turns).history, c, from, false) <= m * limit
    {
      var config := Config(capacity, limit, window);
      HistoriesAreOrderly(config, start, clients, turns);
      PeakBounds(config, Play(config, Begin(start, clients), turns).history, c, stall, from);
    }
  }

  /** A shorter stall that refutes the multiple does so for longer ones too. */
  lemma {:induction false} PeakRefutes(limit: nat, window: int, short: int, stall: int, m: nat)
    requires ValidConfig(Config(1, limit, window)) && 0 <= short < window && Touching(window, window - short) <= 65_536
    requires short <= stall && Peak(limit, window, window - short) > m * limit
    ensures !MultipleHolds(limit, window, stall, m)
  {
    hide Peak, Touching, CountOf, Play, ValidConfig;
    var config, start, clients, turns, from := PeakIsReached(limit, window, short);
    var history := Play(config, Begin(start, clients), turns).history;
    assert Stalls(history, stall);
    assert config == Config(config.capacity, limit, window);
    assert Count(config, history, 0, from, false) > m * limit;
  }

  /**
   Exactly how long an admission may stall for the bound of twice the limit to survive:
   not at all, or, where a window admits one, half a window.
   */
  lemma {:induction false} TwiceTheLimitExactly(limit: nat, window: int, stall: int)
    requires ValidConfig(Config(1, limit, window)) && stall >= 0
    ensures MultipleHolds(limit, window, stall, 2) <==> stall == 0 || (limit == 1 && 2 * stall <= window)
  {
    hide MultipleHolds, Peak, Touching;
    if stall == 0 || (limit == 1 && 2 * stall <= window) {
      TwiceIsEnough(limit, window, stall);
      PeakSuffices(limit, window, stall, 2);
    } else {
      var short := if limit == 1 then window / 2 + 1 else 1;
      TwiceIsTooLittle(limit, window, short);
      PeakRefutes(limit, window, short, stall, 2);
    }
  }

  lemma {:induction false} TwiceIsEnough(limit: nat, window: int, stall: int)
    requires limit > 0 && window > 1 && stall >= 0 && (stall == 0 || (limit == 1 && 2 * stall <= window))
    ensures Peak(limit, window, window - stall) <= 2 * limit
  {
    var step := window - stall;
    if stall == 0 {
      Quotient(2 * (window - 1), step, 1, window - 2);
      Quotient(window - 1, step, 0, window - 1);
    } else if window - 1 < step {
      Quotient(window - 1, step, 0, window - 1);
    } else {
      Quotient(window - 1, step, 1, window - 1 - step);
    }
  }

  lemma {:induction false} TwiceIsTooLittle(limit: nat, window: int, short: int)
    requires limit > 0 && window > 1000 && short == if limit == 1 then window / 2 + 1 else 1
    ensures 0 < short < window && Touching(window, window - short) <= 65_536
    ensures Peak(limit, window, window - short) > 2 * limit
  {
    var step := window - short;
    if limit > 1 {
      Quotient(2 * (window - 1), step, 2, 0);
      Quotient(window - 1, step, 1, 0);
    } else {
      Quotient(2 * (window - 1), step, 4, 2 * (window - 1) - 4 * step);
      Quotient(window - 1, step, 2, window - 1 - 2 * step);
    }
  }

  /**
   Stalls shorter than a window are no help in general: for every multiple there is a
   schedule that exceeds it, in a table kept full by others.
   */
  lemma {:induction false} NoMultipleHolds(window: int, m: nat)
    returns (start: int, clients: seq<Client>, turns: seq<Turn>, stall: int)
    requires SECOND <= window <= 24 * HOUR && m <= 65_534
    ensures var config := Config(m + 2, 1, window); var history := Play(config, Begin(start, clients), turns).history;
            && ValidConfig(config) && stall < window && Stalls(history, stall)
            && Count(config, history, 0, 0, false) > m * config.limit
  {
    var config, step := Config(m + 2, 1, window), window / (m + 1);
    Divides(window, m);
    var history, t, unused := SweepOften(config, step, 0, m);
    stall := window - step;
    OpenedFrom(step, 0, m, 0);
    Arrived(config, history, stall, ClockAt(config, step, 0, m), 0, t, m + 1);
    hide At, CountOf, Play, Mixed;
    start := Earliest(history);
    clients := Clients(history);
    turns := EveryHistoryIsPlayed(config, start, history);
  }

  lemma {:induction false} Divides(window: int, m: nat)
    requires SECOND <= window && m <= 65_534
    ensures 0 < window / (m + 1) <= window && m * (window / (m + 1)) < window
  {
    var q := window / (m + 1);
    assert q * (m + 1) <= window && q > 0;
    assert q * (m + 1) == m * q + q;
  }

  // ---- One client ----

  /**
   One client overtaking itself: nine admissions allowed in the order of their turns, none
   stalled longer than 20 ms, seven of them with readings in one interval of a second, for
   a limit of three.
   */
  lemma {:induction false} OvertakingOneself() returns (h: seq<Entry>)
    ensures var config := Config(1, 3, SECOND);
            && ValidConfig(config) && Orderly(h) && Stalls(h, 20 * MILLISECOND) && |h| == 9
            && Count(config, h, 0, 990 * MILLISECOND, false) == 7
  {
    var config, from, stall := Config(1, 3, SECOND), 990 * MILLISECOND, 20 * MILLISECOND;
    var a, b, c := OneEntry(0, 1, Some(SECOND)), OneEntry(SECOND, 1, None), OneEntry(2 * SECOND, 1, None);
    hide *;
    OneClient(config);
    OneClientHits(config);
    NothingYet(config, stall, 0, from);
    var later := 0;
    h, later := OneWindow(config, [], stall, 0, from, Table(map[], None), 0, 0, 990 * MILLISECOND, 990 * MILLISECOND,
                          a);
    h, later := OneWindow(config, h, stall, later, from, Used(a, 2), 2, SECOND, SECOND, SECOND, b);
    h, later := OneWindow(config, h, stall, later, from, Used(b, 2), 5, 2 * SECOND, 1980 * MILLISECOND, 2 * SECOND, c);
    Arrived(config, h, stall, later, from, Used(c, 2), 7);
  }

  /** Client 0 opens a window at `open` and uses it up with two more readings, of `now`. */
  lemma {:induction false} OneWindow(config: Config, h: seq<Entry>, stall: int, clock: int, from: int, t: Table, n: int,
        open: int, now: int, entered: int, u: Table)
    returns (more: seq<Entry>, later: int)
    requires At(config, h, stall, clock, from, t, n) && config.limit == 3 && stall >= 0
    requires clock <= open <= entered && now <= entered <= now + stall && now < open + config.window
    requires Next(config, t, 0, open) == (u, Outcome(Allowed, 0)) && 0 in u.entries && u.entries[0] == Window(open, 1)
    ensures |more| == |h| + 3 && later <= entered
    ensures At(config, more, stall, later, from, Used(u, 2),
               n + (if Hits(config, from, open) then 1 else 0) + (if Hits(config, from, now) then 2 else 0))
  {
    hide At, Next, Used, Hits;
    var first, rest := Entry(0, open, open), Entry(0, now, entered);
    Enters(config, h, stall, clock, from, t, n, first);
    later := EntersOften(config, h + [first], stall, open, from, u, n + (if Hits(config, from, open) then 1 else 0),
                         rest, 2);
    more := h + [first] + Copies(rest, 2);
  }

  function OneEntry(started: int, count: nat, earliest: Option<int>): (t: Table)
    ensures 0 in t.entries && t.entries[0] == Window(started, count) && t.entries.Keys == {0} && t.earliest == earliest
  {
    Table(map[0 := Window(started, count)], earliest)
  }

  lemma {:induction false} OneClient(config: Config)
    requires config == Config(1, 3, SECOND)
    ensures Next(config, Table(map[], None), 0, 0) == (OneEntry(0, 1, Some(SECOND)), Outcome(Allowed, 0))
    ensures Next(config, Used(OneEntry(0, 1, Some(SECOND)), 2), 0, SECOND)
            == (OneEntry(SECOND, 1, None), Outcome(Allowed, 0))
    ensures Next(config, Used(OneEntry(SECOND, 1, None), 2), 0, 2 * SECOND)
            == (OneEntry(2 * SECOND, 1, None), Outcome(Allowed, 0))
  {
    var a, b := Used(OneEntry(0, 1, Some(SECOND)), 2).entries, Used(OneEntry(SECOND, 1, None), 2).entries;
    assert a == map[0 := Window(0, 3)] && b == map[0 := Window(SECOND, 3)];
    assert a[0 := Window(SECOND, 1)] == OneEntry(SECOND, 1, None).entries;
    assert b[0 := Window(2 * SECOND, 1)] == OneEntry(2 * SECOND, 1, None).entries;
  }

  lemma {:induction false} OneClientHits(config: Config)
    requires config == Config(1, 3, SECOND)
    ensures ValidConfig(config) && forall w: Window :: Expiry(config, w) == w.started + SECOND
    ensures !Hits(config, 990 * MILLISECOND, 0) && Hits(config, 990 * MILLISECOND, 990 * MILLISECOND)
            && Hits(config, 990 * MILLISECOND, SECOND)
    ensures !Hits(config, 990 * MILLISECOND, 2 * SECOND) && Hits(config, 990 * MILLISECOND, 1980 * MILLISECOND)
  {
  }

}
