/**
 The bounded table of fixed request windows kept for client addresses, with the
 cached earliest expiry that lets a full table refuse a new client without a scan.

 Instants and durations are whole nanoseconds. A client is the keyed digest of
 an address; the digest is a parameter. A run is the sequence of admissions in the order
 in which they hold the lock, each with the clock reading it took before it asked for
 the lock: `Admission` says which runs there are when admissions overtake each other.
 */
module RequestLimiter {
  import opened Options
  import opened FixedWindow
  import opened Durations

  /** IPv6 addresses whose upper 96 bits are ::ffff:0:0 carry an IPv4 address. */
  const MAPPED: nat := 0xFFFF
  const BITS_32: nat := 0x1_0000_0000

  datatype Address = Invalid | V4(bits: nat) | V6(bits: nat, zone: string)

  function Unmap(address: Address): Address {
    if address.V6? && address.bits / BITS_32 == MAPPED then V4(address.bits % BITS_32) else address
  }

  type Client = nat

  datatype Window = Window(started: int, count: nat)

  datatype Decision = Allowed | RateLimited | CapacityLimited

  datatype Outcome = Outcome(decision: Decision, retry: int)

  datatype Config = Config(capacity: nat, limit: nat, window: int)

  predicate ValidConfig(config: Config) {
    && 1 <= config.capacity <= 65_536 && 1 <= config.limit <= 100_000
    && SECOND <= config.window <= 24 * HOUR
  }

  /** The limiter's contents; the cached earliest expiry is absent while invalid. */
  datatype Table = Table(entries: map<Client, Window>, earliest: Option<int>)

  function Expiry(config: Config, entry: Window): int {
    entry.started + config.window
  }

  /** The whole seconds, at least one, that cover what is left of a window. */
  function Retry(started: int, now: int, window: int): int {
    var elapsed := now - started;
    if elapsed >= window then SECOND
    else
      var remaining := if elapsed > 0 then window - elapsed else window;
      var seconds := remaining / SECOND + if remaining % SECOND != 0 then 1 else 0;
      (if seconds < 1 then 1 else seconds) * SECOND
  }

  /** `e` is the least expiry in the table; there is none exactly when it is empty. */
  ghost predicate IsEarliest(config: Config, entries: map<Client, Window>, e: Option<int>) {
    match e
    case None => entries == map[]
    case Some(x) =>
      && (exists c :: c in entries && Expiry(config, entries[c]) == x)
      && (forall c | c in entries :: x <= Expiry(config, entries[c]))
  }

  function Live(config: Config, entries: map<Client, Window>, now: int): map<Client, Window> {
    map c | c in entries && now < Expiry(config, entries[c]) :: entries[c]
  }

  function Earlier(e: Option<int>, expires: int): Option<int> {
    if e.None? || expires < e.value then Some(expires) else e
  }

  /** Dropping the expired entries: what is left, with its least expiry. */
  ghost function Reclaimed(config: Config, entries: map<Client, Window>, now: int): (t: Table)
    ensures t.entries == Live(config, entries, now) && IsEarliest(config, t.entries, t.earliest)
  {
    var live := Live(config, entries, now);
    Table(live, Least(config, live))
  }

  ghost function Least(config: Config, entries: map<Client, Window>): (e: Option<int>)
    ensures IsEarliest(config, entries, e)
  {
    if entries == map[] then None
    else
      var c :| c in entries;
      var rest := entries - {c};
      assert entries == rest[c := entries[c]];
      EarlierIsEarliest(config, rest, Least(config, rest), c, entries[c]);
      Earlier(Least(config, rest), Expiry(config, entries[c]))
  }

  lemma {:induction false} LeastIsUnique(config: Config, entries: map<Client, Window>, d: Option<int>, e: Option<int>)
    requires IsEarliest(config, entries, d) && IsEarliest(config, entries, e)
    ensures d == e
  {
    if d.Some? && e.Some? {
      assert d.value <= e.value && e.value <= d.value;
    }
  }

  function Inserted(config: Config, t: Table, c: Client, now: int): Table {
    Table(t.entries[c := Window(now, 1)], Earlier(t.earliest, now + config.window))
  }

  /** One admission. */
  ghost function Next(config: Config, t: Table, c: Client, now: int): (r: (Table, Outcome))
    ensures r.1.decision.Allowed? ==> c in r.0.entries
  {
    if c in t.entries then
      var entry := t.entries[c];
      if now >= Expiry(config, entry) then (Table(t.entries[c := Window(now, 1)], None), Outcome(Allowed, 0))
      else if entry.count >= config.limit then (t, Outcome(RateLimited, Retry(entry.started, now, config.window)))
      else (t.(entries := t.entries[c := Window(entry.started, entry.count + 1)]), Outcome(Allowed, 0))
    else if |t.entries| < config.capacity then (Inserted(config, t, c, now), Outcome(Allowed, 0))
    else if t.earliest.Some? && now < t.earliest.value then (t, Outcome(CapacityLimited, SECOND))
    else
      var r := Reclaimed(config, t.entries, now);
      if |r.entries| >= config.capacity then (r, Outcome(CapacityLimited, SECOND))
      else (Inserted(config, r, c, now), Outcome(Allowed, 0))
  }

  /** Where the process key is read from. */
  datatype Entropy = Missing | Failing | Key(key: nat)

  class RequestLimiter {
    var entries: map<Client, Window>
    var earliest: int
    var earliestValid: bool
    const config: Config
    const key: nat
    const digest: (nat, Address) -> Client

    function Contents(): Table
      reads this
    {
      Table(entries, if earliestValid then Some(earliest) else None)
    }

    constructor (config: Config, key: nat, digest: (nat, Address) -> Client)
      requires ValidConfig(config)
      ensures Contents() == Table(map[], None) && this.config == config && this.key == key && this.digest == digest
    {
      this.config, this.key, this.digest := config, key, digest;
      entries, earliest, earliestValid := map[], 0, false;
    }

    /** Construction with the checks the source makes first. */
    static method NewRequestLimiter(entropy: Entropy, config: Config, hasClock: bool, digest: (nat, Address) -> Client)
      returns (r: Option<RequestLimiter>)
      ensures r.Some? <==> ValidConfig(config) && hasClock && entropy.Key?
      ensures r.Some? ==> fresh(r.value) && r.value.Contents() == Table(map[], None) && r.value.config == config
                          && r.value.key == entropy.key && r.value.digest == digest
    {
      if entropy.Missing? || !hasClock || config.capacity == 0 || config.capacity > 65_536 || config.limit == 0
         || config.limit > 100_000 || config.window < SECOND || config.window > 24 * HOUR {
        return None;
      }
      if entropy.Failing? {
        return None;
      }
      var limiter := new RequestLimiter(config, entropy.key, digest);
      return Some(limiter);
    }

    /** An address without a zone is charged to its client; any other one is refused. */
    method Admit(address: Address, now: int) returns (r: Outcome)
      modifies this
      ensures address.Invalid? || (address.V6? && address.zone != "")
              ==> r == Outcome(CapacityLimited, SECOND) && Contents() == old(Contents())
      ensures address.V4? || (address.V6? && address.zone == "")
              ==> (Contents(), r) == Next(config, old(Contents()), digest(key, Unmap(address)), now)
    {
      if address.Invalid? || (address.V6? && address.zone != "") {
        return Outcome(CapacityLimited, SECOND);
      }
      var client := digest(key, Unmap(address));
      if client in entries {
        var entry := entries[client];
        if now >= Expiry(config, entry) {
          entries := entries[client := Window(now, 1)];
          earliestValid := false;
          return Outcome(Allowed, 0);
        }
        if entry.count >= config.limit {
          return Outcome(RateLimited, Retry(entry.started, now, config.window));
        }
        entries := entries[client := Window(entry.started, entry.count + 1)];
        return Outcome(Allowed, 0);
      }
      if |entries| >= config.capacity {
        if earliestValid && now < earliest {
          return Outcome(CapacityLimited, SECOND);
        }
        Reclaim(now);
        if |entries| >= config.capacity {
          return Outcome(CapacityLimited, SECOND);
        }
      }
      entries := entries[client := Window(now, 1)];
      var expires := now + config.window;
      if !earliestValid || expires < earliest {
        earliest, earliestValid := expires, true;
      }
      return Outcome(Allowed, 0);
    }

    /** The scan, in whatever order the map yields its keys. */
    method Reclaim(now: int)
      modifies this
      ensures Contents() == Reclaimed(config, old(entries), now)
    {
      earliest, earliestValid := 0, false;
      var todo := entries.Keys;
      ghost var all := entries;
      ScanStarts(config, all, now);
      hide IsEarliest, Live, Reclaimed;
      while todo != {}
        invariant todo <= all.Keys
        invariant Agrees(config, all, todo, entries, now)
        invariant IsEarliest(config, Live(config, all - todo, now), Contents().earliest)
        decreases |todo|
      {
        var c :| c in todo;
        LiveGrows(config, all, todo, c, now);
        var expires := Expiry(config, entries[c]);
        EarlierIsEarliest(config, Live(config, all - todo, now), Contents().earliest, c, entries[c]);
        todo := todo - {c};
        if now >= expires {
          entries := entries - {c};
        } else if !earliestValid || expires < earliest {
          earliest, earliestValid := expires, true;
        }
      }
      ScanEnds(config, all, entries, now, Contents().earliest);
    }
  }

  /** What a scan leaves while the keys `todo` are still to be looked at. */
  ghost predicate Agrees(config: Config, all: map<Client, Window>, todo: set<Client>, entries: map<Client, Window>,
        now: int) {
    && (forall c | c in entries :: c in all && entries[c] == all[c] && (c in todo || now < Expiry(config, all[c])))
    && (forall c | c in all && (c in todo || now < Expiry(config, all[c])) :: c in entries)
  }

  lemma {:induction false} ScanStarts(config: Config, all: map<Client, Window>, now: int)
    ensures IsEarliest(config, Live(config, all - all.Keys, now), None) && Agrees(config, all, all.Keys, all, now)
  {
  }

  lemma {:induction false} ScanEnds(config: Config, all: map<Client, Window>, entries: map<Client, Window>, now: int,
        e: Option<int>)
    requires Agrees(config, all, {}, entries, now) && IsEarliest(config, Live(config, all - {}, now), e)
    ensures Table(entries, e) == Reclaimed(config, all, now)
  {
    assert all - {} == all;
    assert entries == Live(config, all, now);
    LeastIsUnique(config, entries, e, Reclaimed(config, all, now).earliest);
  }

  lemma {:induction false} LiveGrows(config: Config, all: map<Client, Window>, todo: set<Client>, c: Client, now: int)
    requires c in todo && todo <= all.Keys
    ensures c !in Live(config, all - todo, now)
    ensures Live(config, all - (todo - {c}), now)
            == if now < Expiry(config, all[c]) then Live(config, all - todo, now)[c := all[c]]
               else Live(config, all - todo, now)
  {
  }

  lemma {:induction false} EarlierIsEarliest(config: Config, entries: map<Client, Window>, e: Option<int>, c: Client,
        entry: Window)
    requires IsEarliest(config, entries, e) && c !in entries
    ensures IsEarliest(config, entries[c := entry], Earlier(e, Expiry(config, entry)))
  {
    var more := entries[c := entry];
    assert c in more && Expiry(config, more[c]) == Expiry(config, entry);
    if e.Some? {
      var d :| d in entries && Expiry(config, entries[d]) == e.value;
      assert d in more && Expiry(config, more[d]) == e.value;
    }
  }

  // ---- Runs ----

  datatype Request = Request(client: Client, now: int)

  ghost function Run(config: Config, requests: seq<Request>): Table {
    if requests == [] then Table(map[], None)
    else
      var last := requests[|requests| - 1];
      Next(config, Run(config, requests[..|requests| - 1]), last.client, last.now).0
  }

  /** What a request would get after `requests`. */
  ghost function Answer(config: Config, requests: seq<Request>, request: Request): Outcome {
    Next(config, Run(config, requests), request.client, request.now).1
  }

  /** The requests of one client that a run allowed, each with the start of the window it was charged to. */
  ghost function Grants(config: Config, requests: seq<Request>, c: Client): seq<Grant> {
    if requests == [] then []
    else
      var before, last := requests[..|requests| - 1], requests[|requests| - 1];
      Grants(config, before, c)
      + (if last.client == c && Answer(config, before, last).decision.Allowed?
         then [Grant(last.now, Next(config, Run(config, before), c, last.now).0.entries[c].started)] else [])
  }

  ghost predicate Monotone(requests: seq<Request>) {
    forall i, j | 0 <= i < j < |requests| :: requests[i].now <= requests[j].now
  }

  /** What the table remembers of one client's grants. */
  ghost predicate Tracks(config: Config, t: Table, grants: seq<Grant>, c: Client, clock: int) {
    && Windowed(grants, config.window, config.limit)
    && (grants != [] ==> grants[|grants| - 1].at <= clock)
    && (c in t.entries ==> Ends(grants, config.window, t.entries[c].started, t.entries[c].count))
    && (c !in t.entries && grants != [] ==> grants[|grants| - 1].since + config.window <= clock)
  }

  /** Another client's request leaves a client's entry alone or drops it expired. */
  lemma {:induction false} OthersKeep(config: Config, t: Table, c: Client, request: Request)
    requires request.client != c
    ensures var u := Next(config, t, request.client, request.now).0;
            if c in u.entries then c in t.entries && u.entries[c] == t.entries[c]
            else c in t.entries ==> request.now >= Expiry(config, t.entries[c])
  {
  }

  lemma {:induction false} TracksOther(config: Config, t: Table, grants: seq<Grant>, c: Client, request: Request)
    requires Tracks(config, t, grants, c, request.now) && request.client != c
    ensures Tracks(config, Next(config, t, request.client, request.now).0, grants, c, request.now)
  {
    OthersKeep(config, t, c, request);
    hide Next, Windowed;
    if c in t.entries {
      LastStarted(grants, config.window, t.entries[c].started, t.entries[c].count);
    }
  }

  lemma {:induction false} TracksLater(config: Config, t: Table, grants: seq<Grant>, c: Client, clock: int, later: int)
    requires Tracks(config, t, grants, c, clock) && clock <= later
    ensures Tracks(config, t, grants, c, later)
  {
  }

  lemma {:induction false} TracksStep(config: Config, t: Table, grants: seq<Grant>, c: Client, clock: int, now: int)
    requires ValidConfig(config) && Tracks(config, t, grants, c, clock) && clock <= now
    ensures var (u, r) := Next(config, t, c, now);
            Tracks(config, u, if r.decision.Allowed? then grants + [Grant(now, u.entries[c].started)] else grants, c,
                   now)
  {
    hide Windowed, IsEarliest, Reclaimed;
    if c in t.entries {
      var entry := t.entries[c];
      LastStarted(grants, config.window, entry.started, entry.count);
      if now >= Expiry(config, entry) {
        Open(grants, config.window, config.limit, now);
      } else if entry.count < config.limit {
        StartedBefore(grants, config.window, config.limit);
        Charge(grants, config.window, config.limit, now, entry.started, entry.count);
      }
    } else {
      Open(grants, config.window, config.limit, now);
    }
  }

  lemma {:induction false} LastStarted(grants: seq<Grant>, window: int, since: int, count: nat)
    requires Ends(grants, window, since, count)
    ensures grants != [] && grants[|grants| - 1].since == since
  {
  }

  lemma {:induction false} StartedBefore(grants: seq<Grant>, window: int, limit: nat)
    requires Windowed(grants, window, limit) && grants != []
    ensures grants[|grants| - 1].since <= grants[|grants| - 1].at
  {
  }

  lemma {:induction false} RunTracks(config: Config, requests: seq<Request>, c: Client, clock: int)
    requires ValidConfig(config) && Monotone(requests)
    requires forall i | 0 <= i < |requests| :: requests[i].now <= clock
    ensures Tracks(config, Run(config, requests), Grants(config, requests, c), c, clock)
  {
    hide Next, IsEarliest, Reclaimed;
    if requests != [] {
      hide Windowed;
      var before, last := requests[..|requests| - 1], requests[|requests| - 1];
      RunTracks(config, before, c, last.now);
      hide Tracks;
      if last.client == c {
        TracksStep(config, Run(config, before), Grants(config, before, c), c, last.now, last.now);
        assert Grants(config, before, c) + [] == Grants(config, before, c);
      } else {
        TracksOther(config, Run(config, before), Grants(config, before, c), c, last);
        assert Grants(config, before, c) + [] == Grants(config, before, c);
      }
      TracksLater(config, Run(config, requests), Grants(config, requests, c), c, last.now, clock);
    }
  }

  /**
   While the readings are in the order in which the lock is taken, however long anyone
   waits for it, no interval as long as the window holds more than twice the limit of
   one client's allowed requests, whatever entries were dropped and made again.
   */
  lemma {:induction false} AllowedWithinAnyWindow(config: Config, requests: seq<Request>, c: Client, from: int)
    requires ValidConfig(config) && Monotone(requests)
    ensures Within(Grants(config, requests, c), from, from + config.window) <= 2 * config.limit
  {
    RunTracks(config, requests, c, if requests == [] then 0 else requests[|requests| - 1].now);
    AtMostTwiceTheLimit(Grants(config, requests, c), config.window, config.limit, from);
  }

  // ---- The table and its index ----

  ghost predicate Bounded(config: Config, t: Table) {
    && |t.entries| <= config.capacity
    && (forall c | c in t.entries :: 1 <= t.entries[c].count <= config.limit)
    && (t.earliest.Some? ==> exists c :: c in t.entries && Expiry(config, t.entries[c]) == t.earliest.value)
  }

  lemma {:induction false} LiveIsSmaller(config: Config, entries: map<Client, Window>, now: int)
    ensures |Live(config, entries, now)| <= |entries|
    ensures |Live(config, entries, now)| < |entries| <==> exists c :: c in entries && Expiry(config, entries[c]) <= now
  {
    var live := Live(config, entries, now);
    assert live.Keys <= entries.Keys;
    SubsetSize(live.Keys, entries.Keys);
    if c :| c in entries && Expiry(config, entries[c]) <= now {
      assert c !in live;
    } else {
      assert live == entries;
    }
  }

  lemma {:induction false} SubsetSize(a: set<Client>, b: set<Client>)
    requires a <= b
    ensures |a| <= |b| && (a != b ==> |a| < |b|)
  {
    assert b == a + (b - a);
  }

  lemma {:induction false} BoundedStep(config: Config, t: Table, c: Client, now: int)
    requires ValidConfig(config) && Bounded(config, t)
    ensures Bounded(config, Next(config, t, c, now).0)
  {
    LiveIsSmaller(config, t.entries, now);
    if c in t.entries {
      SameKeys(config, t, c, now);
    } else {
      var u := Next(config, t, c, now).0;
      if c in u.entries {
        var from := if |t.entries| < config.capacity then t else Reclaimed(config, t.entries, now);
        InsertedIsBounded(config, from, c, now);
      }
    }
  }

  lemma {:induction false} SameKeys(config: Config, t: Table, c: Client, now: int)
    requires ValidConfig(config) && Bounded(config, t) && c in t.entries
    ensures Bounded(config, Next(config, t, c, now).0)
  {
    var u := Next(config, t, c, now).0;
    assert u.entries.Keys == t.entries.Keys;
    if u.earliest.Some? {
      var d :| d in t.entries && Expiry(config, t.entries[d]) == t.earliest.value;
      assert d in u.entries && Expiry(config, u.entries[d]) == u.earliest.value;
    }
  }

  lemma {:induction false} InsertedIsBounded(config: Config, t: Table, c: Client, now: int)
    requires ValidConfig(config) && Bounded(config, t) && |t.entries| < config.capacity && c !in t.entries
    ensures Bounded(config, Inserted(config, t, c, now))
  {
    var u := Inserted(config, t, c, now);
    assert u.entries.Keys == t.entries.Keys + {c};
    assert c in u.entries && Expiry(config, u.entries[c]) == now + config.window;
    if t.earliest.Some? {
      var d :| d in t.entries && Expiry(config, t.entries[d]) == t.earliest.value;
      assert d in u.entries && Expiry(config, u.entries[d]) == t.earliest.value;
    }
  }

  /**
   On every run, however the clock moves: the table never outgrows its capacity, no count
   its limit, and the index is some entry's expiry.
   */
  lemma {:induction false} RunIsBounded(config: Config, requests: seq<Request>)
    requires ValidConfig(config)
    ensures Bounded(config, Run(config, requests))
  {
    if requests != [] {
      RunIsBounded(config, requests[..|requests| - 1]);
      var last := requests[|requests| - 1];
      BoundedStep(config, Run(config, requests[..|requests| - 1]), last.client, last.now);
    }
  }

  /** When a full table admits a client it does not hold, decided by the index while there is one. */
  lemma {:induction false} FullTableDecision(config: Config, requests: seq<Request>, c: Client, now: int)
    requires ValidConfig(config)
    requires var t := Run(config, requests); |t.entries| == config.capacity && c !in t.entries
    ensures var t := Run(config, requests);
            Answer(config, requests, Request(c, now)).decision.Allowed?
            <==> if t.earliest.Some? then now >= t.earliest.value
                 else exists d :: d in t.entries && Expiry(config, t.entries[d]) <= now
  {
    var t := Run(config, requests);
    RunIsBounded(config, requests);
    LiveIsSmaller(config, t.entries, now);
  }

  /** No in-place window reset since construction or the last scan. */
  ghost predicate Quiet(config: Config, requests: seq<Request>) {
    requests == []
    || (var before, last := requests[..|requests| - 1], requests[|requests| - 1];
        var t := Run(config, before);
        if last.client in t.entries then Quiet(config, before) && last.now < Expiry(config, t.entries[last.client])
        else Quiet(config, before)
             || (|t.entries| >= config.capacity && (t.earliest.None? || last.now >= t.earliest.value)))
  }

  lemma {:induction false} ExactStep(config: Config, t: Table, c: Client, now: int)
    requires ValidConfig(config) && Bounded(config, t)
    requires IsEarliest(config, t.entries, t.earliest)
             || (c !in t.entries && |t.entries| >= config.capacity && (t.earliest.None? || now >= t.earliest.value))
    requires c in t.entries ==> now < Expiry(config, t.entries[c])
    ensures var u := Next(config, t, c, now).0; IsEarliest(config, u.entries, u.earliest)
  {
    var u := Next(config, t, c, now).0;
    if c in t.entries {
      SameExpiries(config, t.entries, u.entries, t.earliest);
    } else if c in u.entries {
      var from := if |t.entries| < config.capacity then t else Reclaimed(config, t.entries, now);
      EarlierIsEarliest(config, from.entries, from.earliest, c, Window(now, 1));
    }
  }

  lemma {:induction false} SameExpiries(config: Config, a: map<Client, Window>, b: map<Client, Window>, e: Option<int>)
    requires IsEarliest(config, a, e) && a.Keys == b.Keys && forall c | c in a :: a[c].started == b[c].started
    ensures IsEarliest(config, b, e)
  {
    if e.Some? {
      var c :| c in a && Expiry(config, a[c]) == e.value;
      assert c in b && Expiry(config, b[c]) == e.value;
    } else {
      assert b.Keys == {};
    }
  }

  /** While quiet, the index is the least expiry of the table. */
  lemma {:induction false} QuietIsExact(config: Config, requests: seq<Request>)
    requires ValidConfig(config) && Quiet(config, requests)
    ensures IsEarliest(config, Run(config, requests).entries, Run(config, requests).earliest)
  {
    if requests != [] {
      var before, last := requests[..|requests| - 1], requests[|requests| - 1];
      RunIsBounded(config, before);
      if Quiet(config, before) {
        QuietIsExact(config, before);
      }
      hide IsEarliest, Next;
      ExactStep(config, Run(config, before), last.client, last.now);
    }
  }

  /** So a quiet full table answers a new client as a full scan would: admitted exactly when some entry has expired. */
  lemma {:induction false} QuietFastPathIsScan(config: Config, requests: seq<Request>, c: Client, now: int)
    requires ValidConfig(config) && Quiet(config, requests)
    requires var t := Run(config, requests); |t.entries| == config.capacity && c !in t.entries
    ensures var t := Run(config, requests);
            Answer(config, requests, Request(c, now)).decision.Allowed?
            <==> exists d :: d in t.entries && Expiry(config, t.entries[d]) <= now
  {
    QuietIsExact(config, requests);
    FullTableDecision(config, requests, c, now);
    var t := Run(config, requests);
    if t.earliest.Some? {
      var d :| d in t.entries && Expiry(config, t.entries[d]) == t.earliest.value;
    }
  }

  /**
   For any run: a full table answers a new client otherwise than a full scan would exactly
   when the index is later than the reading while some entry has expired.
   */
  lemma {:induction false} FastPathDiffersExactly(config: Config, requests: seq<Request>, c: Client, now: int)
    requires ValidConfig(config)
    requires var t := Run(config, requests); |t.entries| == config.capacity && c !in t.entries
    ensures var t := Run(config, requests);
            var expired := exists d :: d in t.entries && Expiry(config, t.entries[d]) <= now;
            (Answer(config, requests, Request(c, now)).decision.Allowed? <==> expired)
            <==> !(t.earliest.Some? && now < t.earliest.value && expired)
  {
    FullTableDecision(config, requests, c, now);
    RunIsBounded(config, requests);
    var t := Run(config, requests);
    if t.earliest.Some? {
      var d :| d in t.entries && Expiry(config, t.entries[d]) == t.earliest.value;
    }
  }

  // ---- How long a refusal can last ----

  function Later(e: Option<int>, t: int): Option<int> {
    if e.None? || t > e.value then Some(t) else e
  }

  /** The greatest reading at which an entry was inserted or reset. */
  ghost function LatestStart(config: Config, requests: seq<Request>): Option<int> {
    if requests == [] then None
    else
      var before, last := requests[..|requests| - 1], requests[|requests| - 1];
      var (t, r) := Next(config, Run(config, before), last.client, last.now);
      if r.decision.Allowed?
        && t.entries[last.client] == Window(last.now, 1) then Later(LatestStart(config, before), last.now)
      else LatestStart(config, before)
  }

  ghost predicate StartedBy(t: Table, latest: Option<int>) {
    forall c | c in t.entries :: latest.Some? && t.entries[c].started <= latest.value
  }

  lemma {:induction false} EntriesStartByLatest(config: Config, requests: seq<Request>)
    ensures StartedBy(Run(config, requests), LatestStart(config, requests))
  {
    if requests != [] {
      var before, last := requests[..|requests| - 1], requests[|requests| - 1];
      EntriesStartByLatest(config, before);
      StartedByStep(config, Run(config, before), LatestStart(config, before), last);
    }
  }

  lemma {:induction false} StartedByStep(config: Config, t: Table, latest: Option<int>, request: Request)
    requires StartedBy(t, latest)
    ensures var (u, r) := Next(config, t, request.client, request.now);
            StartedBy(u, if r.decision.Allowed? && u.entries[request.client] == Window(request.now, 1)
                         then Later(latest, request.now) else latest)
  {
  }

  /**
   Whatever the order of readings: everyone is admitted again one window after the latest
   start, full table or not.
   */
  lemma {:induction false} AdmittedOneWindowLater(config: Config, requests: seq<Request>, c: Client, now: int)
    requires ValidConfig(config)
    requires LatestStart(config, requests).Some? ==> now >= LatestStart(config, requests).value + config.window
    ensures Answer(config, requests, Request(c, now)).decision.Allowed?
  {
    EntriesStartByLatest(config, requests);
    RunIsBounded(config, requests);
    var t := Run(config, requests);
    if c !in t.entries && |t.entries| >= config.capacity {
      assert |t.entries.Keys| > 0;
      var d :| d in t.entries.Keys;
      FullTableDecision(config, requests, c, now);
    }
  }

  /** The advised delay is the least whole number of seconds, at least one, that outlasts the window. */
  lemma {:induction false} RetryCovers(started: int, now: int, window: int)
    requires started <= now < started + window
    ensures var r := Retry(started, now, window);
            && r % SECOND == 0 && r >= SECOND && now + r >= started + window && now + r - SECOND < started + window
  {
  }

  lemma {:induction false} NoGrantKeeps(config: Config, t: Table, c: Client, request: Request)
    requires request.client == c ==> !Next(config, t, c, request.now).1.decision.Allowed?
    ensures var u := Next(config, t, request.client, request.now).0;
            c in u.entries ==> c in t.entries && u.entries[c] == t.entries[c]
  {
  }

  lemma {:induction false} NoGrantsKeep(config: Config, requests: seq<Request>, more: seq<Request>, c: Client)
    requires |Grants(config, requests + more, c)| <= |Grants(config, requests, c)|
    ensures var t, u := Run(config, requests), Run(config, requests + more);
            c in u.entries ==> c in t.entries && u.entries[c] == t.entries[c]
    ensures |Grants(config, requests + more, c)| == |Grants(config, requests, c)|
    decreases |more|
  {
    if more == [] {
      assert requests + more == requests;
    } else {
      var n := |more| - 1;
      assert (requests + more)[..|requests| + n] == requests + more[..n];
      NoGrantsKeep(config, requests, more[..n], c);
      NoGrantKeeps(config, Run(config, requests + more[..n]), c, more[n]);
    }
  }

  /**
   Whatever the order of readings: a rate-limited client that is granted nothing in between
   is rate-limited again after the advised delay exactly while its entry is kept and its
   window lasts, which is possible only if the window started after its first reading.
   */
  lemma {:induction false} RetryIsEnough(config: Config, requests: seq<Request>, more: seq<Request>, c: Client,
        now: int, later: int)
    requires ValidConfig(config)
    requires var r := Answer(config, requests, Request(c, now)); r.decision.RateLimited? && later >= now + r.retry
    requires |Grants(config, requests + more, c)| <= |Grants(config, requests, c)|
    ensures c in Run(config, requests).entries
    ensures var started := Run(config, requests).entries[c].started;
            && (Answer(config, requests + more, Request(c, later)).decision.RateLimited?
                <==> c in Run(config, requests + more).entries && later < started + config.window)
            && (started <= now ==> later >= started + config.window)
  {
    NoGrantsKeep(config, requests, more, c);
    var t := Run(config, requests);
    if t.entries[c].started <= now {
      RetryCovers(t.entries[c].started, now, config.window);
    }
  }

  /**
   Not quiet: a reset dropped the index and the next insertion took its own expiry
   for it, so at 1.6 s the full table refuses client 3 although client 1's window
   ended at 1.5 s.
   */
  lemma {:induction false} StaleIndexRefuses()
    ensures var config, ms := Config(3, 1, SECOND), SECOND / 1000;
            var requests := [Request(0, 0), Request(1, 500 * ms), Request(0, 1000 * ms), Request(2, 1200 * ms)];
            var t := Run(config, requests);
            && ValidConfig(config) && Monotone(requests) && |t.entries| == config.capacity
            && 1 in t.entries && Expiry(config, t.entries[1]) <= 1600 * ms
            && Answer(config, requests, Request(3, 1600 * ms)).decision.CapacityLimited?
  {
    var config, ms := Config(3, 1, SECOND), SECOND / 1000;
    var a, b, c, d := Request(0, 0), Request(1, 500 * ms), Request(0, 1000 * ms), Request(2, 1200 * ms);
    assert [] + [a] == [a] && [a] + [b] == [a, b] && [a, b] + [c] == [a, b, c] && [a, b, c] + [d] == [a, b, c, d];
    RunNext(config, [], a);
    assert Run(config, [a]) == Table(map[0 := Window(0, 1)], Some(1000 * ms));
    RunNext(config, [a], b);
    assert Run(config, [a, b]) == Table(map[0 := Window(0, 1), 1 := Window(500 * ms, 1)], Some(1000 * ms));
    RunNext(config, [a, b], c);
    assert Run(config, [a, b, c]) == Table(map[0 := Window(1000 * ms, 1), 1 := Window(500 * ms, 1)], None);
    RunNext(config, [a, b, c], d);
    assert Run(config, [a, b, c, d])
        == Table(map[0 := Window(1000 * ms, 1), 1 := Window(500 * ms, 1), 2 := Window(1200 * ms, 1)], Some(2200 * ms));
  }

  lemma {:induction false} RunNext(config: Config, requests: seq<Request>, r: Request)
    ensures Run(config, requests + [r]) == Next(config, Run(config, requests), r.client, r.now).0
  {
    assert (requests + [r])[..|requests|] == requests;
  }
}
