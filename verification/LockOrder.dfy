/**
 The row locks of the administrative transactions, and the one order they are
 requested in.
 */
module LockOrder {
  import opened Options
  import opened Locks

  /** The session rows of a user count as one lock; who locks several of them holds the user row. */
  datatype Lock =
    | Governance | User(id: nat) | Identity(user: nat) | Session(user: nat) | Control
    | EmailState(administrator: nat) | Smtp | Area(area: nat) | Group(group: nat)

  /**
   What the order of a state depends on: the administrators whose tests complete, the users
   whose rows are locked after the SMTP row, the user whose claim holds session rows, and
   whether anybody locks the SMTP row after the control row.
   */
  datatype Places = Places(completing: set<nat>, late: iset<nat>, claiming: Option<nat>, contended: bool)

  function Usual(claiming: Option<nat>): Places {
    Places({}, iset{}, claiming, true)
  }

  /** The place of a lock: by class, then by identifier. */
  function Rank(lock: Lock, places: Places): (nat, nat) {
    match lock
    case Governance => (1, 0)
    case User(id) => (if id in places.late then 6 else 3, id)
    case Identity(user) => (8, user)
    case Session(user) => (if places.claiming == Some(user) then 2 else 9, user)
    case Control => (if places.contended then 4 else 7, 0)
    case EmailState(administrator) => (if administrator in places.completing then 0 else 10, administrator)
    case Smtp => (5, 0)
    case Area(area) => (11, area)
    case Group(group) => (12, group)
  }

  function Order(places: Places): (Lock, Lock) -> bool {
    (a: Lock, b: Lock) =>
      var (k, m), (l, n) := Rank(a, places), Rank(b, places);
      k < l || (k == l && m < n)
  }

  /** The global order: by class, then by ascending identifier. */
  predicate Before(a: Lock, b: Lock) {
    Order(Usual(None))(a, b)
  }

  // ---- The operations ----

  datatype Operation =
    | ChangeAccountRole(actor: nat, target: nat)
    | ChangeGroupMembership(actor: nat, target: nat, group: nat)
    | RevokeSessions(actor: nat, target: nat)
    | CreateGroup(actor: nat)
    | RenameGroup(actor: nat, group: nat)
    | CreateArea(actor: nat, initialGroup: nat)
    | UpdateArea(actor: nat, area: nat, becomesRestricted: bool, initialGroup: nat)
    | ChangeAreaGroup(actor: nat, area: nat, group: nat)
    | UpdateControl(actor: nat, opensRegistration: bool)
    | UpdateSite(actor: nat)
    | UpdateSmtp(actor: nat)
    | ReserveEmailTest(actor: nat)
    | CompleteEmailTest(actor: nat, accepted: bool)
    | BootstrapAdministrator(user: nat)
    | ClaimInitialAdministrator(user: nat)

  /** Both users in ascending order, one lock when they are the same. */
  function UserLocks(actor: nat, target: nat): seq<Lock> {
    if actor == target then [User(actor)]
    else if actor < target then [User(actor), User(target)]
    else [User(target), User(actor)]
  }

  /**
   The locks an operation requests, in order, when nothing makes it stop early.
   Completing an email test locks no user first: its audit row's reference to the
   administrator locks that row last. A claim locks its session before its user.
   */
  function Program(op: Operation): seq<Lock> {
    match op
    case ChangeAccountRole(actor, target) =>
      if actor == target then [] else [Governance] + UserLocks(actor, target) + [Session(target)]
    case ChangeGroupMembership(actor, target, group) => UserLocks(actor, target) + [Group(group)]
    case RevokeSessions(actor, target) => UserLocks(actor, target) + [Session(target)]
    case CreateGroup(actor) => [User(actor)]
    case RenameGroup(actor, group) => [User(actor), Group(group)]
    case CreateArea(actor, initialGroup) =>
      if initialGroup > 0 then [User(actor), Group(initialGroup)] else [User(actor)]
    case UpdateArea(actor, area, becomesRestricted, initialGroup) =>
      if becomesRestricted then [User(actor), Area(area), Group(initialGroup)] else [User(actor), Area(area)]
    case ChangeAreaGroup(actor, area, group) => [User(actor), Area(area), Group(group)]
    case UpdateControl(actor, opensRegistration) =>
      if opensRegistration then [User(actor), Control, Smtp] else [User(actor), Control]
    case UpdateSite(actor) => [User(actor), Control]
    case UpdateSmtp(actor) => [User(actor), Control, Smtp]
    case ReserveEmailTest(actor) => [User(actor), EmailState(actor)]
    case CompleteEmailTest(actor, accepted) =>
      if accepted then [EmailState(actor), Smtp, User(actor)] else [EmailState(actor), User(actor)]
    case BootstrapAdministrator(user) => [Governance, User(user)]
    case ClaimInitialAdministrator(user) => [Governance, Session(user), User(user), Identity(user)]
  }

  lemma {:induction false} OrderIsStrict(places: Places)
    ensures Strict(Order(places))
  {
  }

  /** Every operation but the completion of an email test and the claim keeps the global order. */
  lemma {:induction false} ProgramsAscend(op: Operation)
    ensures Ascending(Program(op), Before) <==> !op.CompleteEmailTest? && !op.ClaimInitialAdministrator?
  {
    var p := Program(op);
    if op.CompleteEmailTest? {
      assert !Before(p[0], p[|p| - 1]);
    } else if op.ClaimInitialAdministrator? {
      assert !Before(p[1], p[2]);
    }
  }

  // ---- Locking two users ----

  datatype Error = Denied | NotFound

  datatype Locked<T> = Locked(actor: T, target: T) | Refused(error: Error)

  /**
   Locks the two rows in ascending order and returns them as actor and target. The
   trace is every request made: the second row is not requested when the first is
   missing.
   */
  method LockAdministrationUsers<T>(rows: map<nat, T>, actor: nat, target: nat) returns (r: Locked<T>, trace: seq<Lock>)
    ensures trace <= UserLocks(actor, target) && (r.Locked? ==> trace == UserLocks(actor, target))
    ensures r.Locked? <==> actor in rows && target in rows
    ensures r.Locked? ==> r.actor == rows[actor] && r.target == rows[target]
    ensures r.Refused? ==> trace != [] && trace[|trace| - 1].User?
                           && (r.error == Denied <==> trace[|trace| - 1].id == actor)
                           && trace[|trace| - 1].id !in rows
  {
    var first, second := actor, target;
    if second < first {
      first, second := second, first;
    }
    trace := [User(first)];
    if first !in rows {
      return Refused(if first == actor then Denied else NotFound), trace;
    }
    if second == first {
      return Locked(rows[first], rows[first]), trace;
    }
    trace := trace + [User(second)];
    if second !in rows {
      return Refused(if second == actor then Denied else NotFound), trace;
    }
    if first == actor {
      return Locked(rows[first], rows[second]), trace;
    }
    return Locked(rows[second], rows[first]), trace;
  }

  function Programs(ops: seq<Operation>): (r: seq<seq<Lock>>)
    ensures |r| == |ops| && forall i | 0 <= i < |ops| :: r[i] == Program(ops[i])
  {
    seq(|ops|, i requires 0 <= i < |ops| => Program(ops[i]))
  }

  // ---- Which operations can wait in a circle ----

  /** One completes an email test, the other reserves the same administrator's next. */
  predicate Retests(a: Operation, b: Operation) {
    a.CompleteEmailTest? && b.ReserveEmailTest? && a.actor == b.actor
  }

  /** One claims for a user whose sessions the other revokes. */
  predicate Disputes(a: Operation, b: Operation) {
    a.ClaimInitialAdministrator? && b.RevokeSessions? && a.user == b.target
  }

  predicate WantsControl(op: Operation) {
    op.UpdateControl? || op.UpdateSite? || op.UpdateSmtp?
  }

  /** Holding the control row. */
  predicate WantsSmtp(op: Operation) {
    op.UpdateSmtp? || (op.UpdateControl? && op.opensRegistration)
  }

  /** Locks two users' rows, the lower before the higher. */
  predicate TwoUsers(op: Operation) {
    (op.ChangeAccountRole? || op.ChangeGroupMembership? || op.RevokeSessions?) && op.actor != op.target
  }

  function LowUser(op: Operation): nat
    requires TwoUsers(op)
  {
    if op.actor < op.target then op.actor else op.target
  }

  function HighUser(op: Operation): nat
    requires TwoUsers(op)
  {
    if op.actor < op.target then op.target else op.actor
  }

  /** The locks held when the lower user's row is the last of them. */
  function LowHeight(op: Operation): nat {
    if op.ChangeAccountRole? then 2 else 1
  }

  /** The operations on the chain lock the users one after the other, each a user and the next one. */
  predicate Chained(ops: seq<Operation>, chain: seq<nat>, users: seq<nat>) {
    && |users| == |chain| + 1
    && forall m | 0 <= m < |chain| ::
         chain[m] < |ops| && TwoUsers(ops[chain[m]])
         && LowUser(ops[chain[m]]) == users[m] && HighUser(ops[chain[m]]) == users[m + 1]
  }

  /** They can all hold their lower users' rows: at most one of them governs. */
  predicate Relay(ops: seq<Operation>, chain: seq<nat>, users: seq<nat>) {
    && Chained(ops, chain, users)
    && forall m, n | 0 <= m < n < |chain| :: !(ops[chain[m]].ChangeAccountRole? && ops[chain[n]].ChangeAccountRole?)
  }

  /**
   An accepted completion, a chain of users that begins with its administrator, an update of
   the control row by the last of them, and an update that locks the SMTP row after that row.
   */
  datatype Ring = Ring(completion: nat, chain: seq<nat>, users: seq<nat>, control: nat, smtp: nat)

  predicate Closes(ops: seq<Operation>, ring: Ring) {
    && Relay(ops, ring.chain, ring.users)
    && ring.completion < |ops| && ops[ring.completion].CompleteEmailTest? && ops[ring.completion].accepted
    && ops[ring.completion].actor == ring.users[0]
    && ring.control < |ops| && WantsControl(ops[ring.control])
    && ops[ring.control].actor == ring.users[|ring.chain|]
    && ring.smtp < |ops| && WantsSmtp(ops[ring.smtp])
  }

  /** The mixes that can come to a circle of waits; the guards of claims and revocations keep those apart. */
  ghost predicate Tangled(ops: seq<Operation>, guarded: bool) {
    || (exists i, k :: 0 <= i < |ops| && 0 <= k < |ops| && Retests(ops[i], ops[k]))
    || (!guarded && exists i, k :: 0 <= i < |ops| && 0 <= k < |ops| && Disputes(ops[i], ops[k]))
    || (exists ring :: Closes(ops, ring))
  }

  /**
   The guards: while a claim holds session rows, no revocation of them gets past its check
   (`Governance.GuardsExclude`).
   */
  predicate KeepsApart(ops: seq<Operation>, heights: seq<nat>) {
    |heights| == |ops| ==>
      forall i, k | 0 <= i < |ops| && 0 <= k < |ops| && Disputes(ops[i], ops[k]) ::
        heights[i] < 2 || heights[k] < |Program(ops[k])| - 1
  }

  function Allowed(ops: seq<Operation>, guarded: bool): seq<nat> -> bool {
    if guarded then h => KeepsApart(ops, h) else Always()
  }

  lemma {:induction false} AllowedLowers(ops: seq<Operation>, guarded: bool)
    ensures Lowers(Allowed(ops, guarded))
  {
    if guarded {
      forall g, h: seq<nat> | |g| == |h| && (forall i | 0 <= i < |g| :: g[i] <= h[i]) && KeepsApart(ops, h)
        ensures KeepsApart(ops, g)
      {
        if |g| == |ops| {
          forall i, k | 0 <= i < |ops| && 0 <= k < |ops| && Disputes(ops[i], ops[k])
            ensures g[i] < 2 || g[k] < |Program(ops[k])| - 1
          {
            assert h[i] < 2 || h[k] < |Program(ops[k])| - 1;
          }
        }
      }
    }
  }

  // ---- Untangled operations keep an order in every state ----

  /** The operations on the chain hold their lower users' rows. */
  ghost predicate ChainHolds(ops: seq<Operation>, heights: seq<nat>, chain: seq<nat>, users: seq<nat>) {
    && |heights| == |ops| && Chained(ops, chain, users)
    && forall m | 0 <= m < |chain| :: heights[chain[m]] == LowHeight(ops[chain[m]])
  }

  ghost predicate LeadsTo(ops: seq<Operation>, heights: seq<nat>, chain: seq<nat>, users: seq<nat>, a: nat, u: nat) {
    ChainHolds(ops, heights, chain, users) && users[0] == a && users[|chain|] == u
  }

  ghost predicate Leads(ops: seq<Operation>, heights: seq<nat>, a: nat, u: nat) {
    exists chain, users :: LeadsTo(ops, heights, chain, users, a, u)
  }

  /** The users that such chains lead to from one. */
  ghost function Reached(ops: seq<Operation>, heights: seq<nat>, a: nat): iset<nat> {
    iset u | Leads(ops, heights, a, u)
  }

  predicate HoldsSmtp(ops: seq<Operation>, heights: seq<nat>, k: nat) {
    k < |ops| && k < |heights| && ops[k].CompleteEmailTest? && ops[k].accepted && heights[k] >= 2
  }

  predicate HoldsSessions(ops: seq<Operation>, heights: seq<nat>, k: nat) {
    k < |ops| && k < |heights| && ops[k].ClaimInitialAdministrator? && heights[k] >= 2
  }

  function Completing(ops: seq<Operation>): set<nat> {
    set k | 0 <= k < |ops| && ops[k].CompleteEmailTest? :: ops[k].actor
  }

  /** The order of a state: the users reached from the completion that holds the SMTP row come after that row. */
  ghost function PlacesAt(ops: seq<Operation>, heights: seq<nat>): Places {
    Places(Completing(ops),
           if k: nat :| HoldsSmtp(ops, heights, k) then Reached(ops, heights, ops[k].actor) else iset{},
           if k: nat :| HoldsSessions(ops, heights, k) then Some(ops[k].user) else None,
           exists w :: 0 <= w < |ops| && WantsSmtp(ops[w]))
  }

  /** What an operation that holds `h` locks needs of an order to climb in it. */
  predicate Fitting(op: Operation, h: nat, places: Places) {
    && (op.ReserveEmailTest? ==> op.actor !in places.completing)
    && (op.CompleteEmailTest? ==> op.actor in places.completing && (op.accepted && h == 2 ==> op.actor in places.late))
    && (TwoUsers(op) && h == LowHeight(op) && LowUser(op) in places.late ==> HighUser(op) in places.late)
    && (WantsControl(op) && h > 0 && op.actor in places.late ==> !places.contended)
    && (WantsSmtp(op) ==> places.contended)
    && (op.ClaimInitialAdministrator? && h > 0 ==> (h >= 2 <==> places.claiming == Some(op.user)))
    && ((op.ChangeAccountRole? && h > 0) || (op.RevokeSessions? && h == |Program(op)| - 1) ==>
          places.claiming != Some(op.target))
  }

  lemma {:induction false} FittingClimbs(op: Operation, h: nat, places: Places, x: nat)
    requires x < h < |Program(op)| && Fitting(op, h, places)
    ensures Order(places)(Program(op)[x], Program(op)[h])
  {
  }

  /** One holder a lock. */
  lemma {:induction false} OneHolder(ops: seq<Operation>, heights: seq<nat>, i: nat, j: nat, x: nat, y: nat)
    requires Fits(Programs(ops), heights) && i < |ops| && j < |ops| && i != j
    requires x < heights[i] && y < heights[j]
    ensures Program(ops[i])[x] != Program(ops[j])[y]
  {
    assert Program(ops[i])[x] in Programs(ops)[i][..heights[i]];
    assert Program(ops[j])[y] in Programs(ops)[j][..heights[j]];
  }

  lemma {:induction false} OneSmtp(ops: seq<Operation>, heights: seq<nat>, i: nat)
    requires Fits(Programs(ops), heights) && HoldsSmtp(ops, heights, i)
    ensures PlacesAt(ops, heights).late == Reached(ops, heights, ops[i].actor)
  {
    forall k: nat | HoldsSmtp(ops, heights, k) && k != i
      ensures false
    {
      OneHolder(ops, heights, i, k, 1, 1);
    }
  }

  lemma {:induction false} ReachedItself(ops: seq<Operation>, heights: seq<nat>, a: nat)
    requires |heights| == |ops|
    ensures a in Reached(ops, heights, a)
  {
    assert LeadsTo(ops, heights, [], [a], a, a);
  }

  lemma {:induction false} ReachesOn(ops: seq<Operation>, heights: seq<nat>, a: nat, i: nat)
    requires |heights| == |ops| && i < |ops| && TwoUsers(ops[i]) && heights[i] == LowHeight(ops[i])
    requires LowUser(ops[i]) in Reached(ops, heights, a)
    ensures HighUser(ops[i]) in Reached(ops, heights, a)
  {
    var chain, users :| LeadsTo(ops, heights, chain, users, a, LowUser(ops[i]));
    assert LeadsTo(ops, heights, chain + [i], users + [HighUser(ops[i])], a, HighUser(ops[i]));
  }

  lemma {:induction false} UsersAscend(ops: seq<Operation>, chain: seq<nat>, users: seq<nat>, m: nat, n: nat)
    requires Chained(ops, chain, users) && m < n < |users|
    ensures users[m] < users[n]
  {
    assert users[n - 1] < users[n];
    if m < n - 1 {
      UsersAscend(ops, chain, users, m, n - 1);
    }
  }

  lemma {:induction false} HeldChainRelays(ops: seq<Operation>, heights: seq<nat>, chain: seq<nat>, users: seq<nat>)
    requires Fits(Programs(ops), heights) && ChainHolds(ops, heights, chain, users)
    ensures Relay(ops, chain, users)
  {
    forall m, n | 0 <= m < n < |chain|
      ensures !(ops[chain[m]].ChangeAccountRole? && ops[chain[n]].ChangeAccountRole?)
    {
      UsersAscend(ops, chain, users, m, n);
      if ops[chain[m]].ChangeAccountRole? && ops[chain[n]].ChangeAccountRole? {
        OneHolder(ops, heights, chain[m], chain[n], 0, 0);
      }
    }
  }

  lemma {:induction false} LateControl(ops: seq<Operation>, heights: seq<nat>, i: nat)
    requires Fits(Programs(ops), heights) && i < |ops| && WantsControl(ops[i])
    requires ops[i].actor in PlacesAt(ops, heights).late && PlacesAt(ops, heights).contended
    ensures exists ring :: Closes(ops, ring)
  {
    var k: nat :| HoldsSmtp(ops, heights, k);
    OneSmtp(ops, heights, k);
    var chain, users :| LeadsTo(ops, heights, chain, users, ops[k].actor, ops[i].actor);
    HeldChainRelays(ops, heights, chain, users);
    var w :| 0 <= w < |ops| && WantsSmtp(ops[w]);
    assert Closes(ops, Ring(k, chain, users, i, w));
  }

  lemma {:induction false} OneClaim(ops: seq<Operation>, heights: seq<nat>, i: nat)
    requires Fits(Programs(ops), heights) && i < |ops| && heights[i] > 0 && Program(ops[i])[0] == Governance
    ensures ops[i].ClaimInitialAdministrator? && heights[i] >= 2
            ==> PlacesAt(ops, heights).claiming == Some(ops[i].user)
    ensures !ops[i].ClaimInitialAdministrator? || heights[i] < 2 ==> PlacesAt(ops, heights).claiming == None
  {
    forall k: nat | HoldsSessions(ops, heights, k)
      ensures k == i
    {
      if k != i {
        OneHolder(ops, heights, i, k, 0, 0);
      }
    }
    assert ops[i].ClaimInitialAdministrator? && heights[i] >= 2 ==> HoldsSessions(ops, heights, i);
  }

  lemma {:induction false} UndisputedRevocation(ops: seq<Operation>, guarded: bool, heights: seq<nat>, i: nat)
    requires |heights| == |ops| && !Tangled(ops, guarded) && Allowed(ops, guarded)(heights)
    requires i < |ops| && ops[i].RevokeSessions? && heights[i] == |Program(ops[i])| - 1
    ensures PlacesAt(ops, heights).claiming != Some(ops[i].target)
  {
    forall k: nat | HoldsSessions(ops, heights, k)
      ensures !Disputes(ops[k], ops[i])
    {
    }
  }

  lemma {:induction false} UntangledFits(ops: seq<Operation>, guarded: bool, heights: seq<nat>, i: nat)
    requires Fits(Programs(ops), heights) && !Tangled(ops, guarded) && Allowed(ops, guarded)(heights) && i < |ops|
    ensures Fitting(ops[i], heights[i], PlacesAt(ops, heights))
  {
    var op, places := ops[i], PlacesAt(ops, heights);
    if HoldsSmtp(ops, heights, i) {
      OneSmtp(ops, heights, i);
      ReachedItself(ops, heights, op.actor);
    }
    if TwoUsers(op) && heights[i] == LowHeight(op) && LowUser(op) in places.late {
      var k: nat :| HoldsSmtp(ops, heights, k) && places.late == Reached(ops, heights, ops[k].actor);
      ReachesOn(ops, heights, ops[k].actor, i);
    }
    if WantsControl(op) && op.actor in places.late && places.contended {
      LateControl(ops, heights, i);
    }
    if heights[i] > 0 && Program(op)[0] == Governance {
      OneClaim(ops, heights, i);
    }
    if op.RevokeSessions? && heights[i] == |Program(op)| - 1 {
      UndisputedRevocation(ops, guarded, heights, i);
    }
  }

  /** Whatever prefixes untangled operations hold, they climb in one order, so no waits form a circle. */
  lemma {:induction false} UntangledNeverCircles(ops: seq<Operation>, guarded: bool, heights: seq<nat>, path: seq<nat>)
    requires !Tangled(ops, guarded)
    ensures !WaitsRound(Programs(ops), heights, Allowed(ops, guarded), path)
  {
    if Waits(Programs(ops), heights, Allowed(ops, guarded), path) {
      var s, places := At(Programs(ops), heights), PlacesAt(ops, heights);
      hide Tangled, PlacesAt, Fitting, Order, Program;
      forall i, lock | 0 <= i < |s| && Wants(s[i]) && lock in StandingOf(s[i]).held
        ensures Order(places)(lock, Wanted(s[i]))
      {
        UntangledFits(ops, guarded, heights, i);
        var x :| 0 <= x < heights[i] && Program(ops[i])[x] == lock;
        FittingClimbs(ops[i], heights[i], places, x);
      }
      OrderIsStrict(places);
      NoDeadlock(Standings(s), path, Order(places));
    }
  }

  // ---- Tangled operations can wait in a circle ----

  lemma {:induction false} RetestsCircle(ops: seq<Operation>, guarded: bool, i: nat, k: nat)
    requires i < |ops| && k < |ops| && Retests(ops[i], ops[k])
    ensures CanCircle(Programs(ops), Allowed(ops, guarded))
  {
    var p, q, x := Program(ops[i]), Program(ops[k]), |Program(ops[i])| - 1;
    assert p[0] in p[..x] && q[..1] == [q[0]];
    assert Crossed(p, q, x, 1);
    CrossingCircles(Programs(ops), Allowed(ops, guarded), i, k, x, 1);
  }

  lemma {:induction false} DisputesCircle(ops: seq<Operation>, i: nat, k: nat)
    requires i < |ops| && k < |ops| && Disputes(ops[i], ops[k])
    ensures CanCircle(Programs(ops), Allowed(ops, false))
  {
    var p, q, y := Program(ops[i]), Program(ops[k]), |Program(ops[k])| - 1;
    assert p[..2] == [Governance, Session(ops[i].user)];
    assert q[..y] == UserLocks(ops[k].actor, ops[k].target) && User(ops[k].target) in q[..y];
    assert Crossed(p, q, 2, y);
    CrossingCircles(Programs(ops), Allowed(ops, false), i, k, 2, y);
  }

  /** Either one update locks both rows, or the second is by an administrator off the chain. */
  predicate Simple(ops: seq<Operation>, ring: Ring) {
    Closes(ops, ring) && (ring.control == ring.smtp || ops[ring.smtp].actor !in ring.users)
  }

  /** A ring whose SMTP update is by somebody on the chain is shortened to that user. */
  lemma {:induction false} Shorten(ops: seq<Operation>, ring: Ring) returns (r: Ring)
    requires Closes(ops, ring)
    ensures Simple(ops, r)
  {
    if m :| 0 <= m < |ring.users| && ring.users[m] == ops[ring.smtp].actor {
      r := Ring(ring.completion, ring.chain[..m], ring.users[..m + 1], ring.smtp, ring.smtp);
    } else {
      r := ring;
    }
  }

  /** The completion holds its email state and the SMTP row, everyone else on the ring what it holds while it waits. */
  function RingHeights(ops: seq<Operation>, ring: Ring): (h: seq<nat>)
    ensures |h| == |ops|
  {
    seq(|ops|, i requires 0 <= i < |ops| =>
      if i == ring.completion || i == ring.smtp then 2
      else if i == ring.control then 1
      else if i in ring.chain then LowHeight(ops[i])
      else 0)
  }

  /** Who holds the row of the chain's user `m`. */
  function Seat(ring: Ring, m: nat): nat {
    if m < |ring.chain| then ring.chain[m] else ring.control
  }

  function Row(op: Operation): nat
    requires TwoUsers(op) || WantsControl(op)
  {
    if TwoUsers(op) then LowUser(op) else op.actor
  }

  lemma {:induction false} SeatHolds(ops: seq<Operation>, ring: Ring, m: nat)
    requires Simple(ops, ring) && m <= |ring.chain|
    ensures var i := Seat(ring, m);
            && i < |ops| && i != ring.completion && (TwoUsers(ops[i]) || WantsControl(ops[i]))
            && Row(ops[i]) == ring.users[m] && User(ring.users[m]) in Program(ops[i])[..RingHeights(ops, ring)[i]]
            && (m < |ring.chain| ==> RingHeights(ops, ring)[i] == LowHeight(ops[i]) < |Program(ops[i])|
                                     && Program(ops[i])[LowHeight(ops[i])] == User(ring.users[m + 1]))
  {
    var i := Seat(ring, m);
    var p := Program(ops[i]);
    if m < |ring.chain| {
      assert p[LowHeight(ops[i]) - 1] == User(ring.users[m]);
      assert i in ring.chain && RingHeights(ops, ring)[i] == LowHeight(ops[i]);
    } else {
      assert p[0] == User(ring.users[m]);
    }
  }

  /** Whoever holds anything is the completion, has a seat, or is the second update. */
  lemma {:induction false} SeatOf(ops: seq<Operation>, ring: Ring, i: nat) returns (m: nat)
    requires Simple(ops, ring) && i < |ops| && RingHeights(ops, ring)[i] > 0 && i != ring.completion
    ensures (m <= |ring.chain| && i == Seat(ring, m)) || (i == ring.smtp && i != ring.control)
  {
    m := |ring.chain|;
    if i != ring.control && i != ring.smtp {
      m :| m < |ring.chain| && ring.chain[m] == i;
    }
  }

  lemma {:induction false} RowsDiffer(ops: seq<Operation>, ring: Ring, i: nat, j: nat)
    requires Simple(ops, ring) && i < |ops| && j < |ops| && i != j && i != ring.completion && j != ring.completion
    requires RingHeights(ops, ring)[i] > 0 && RingHeights(ops, ring)[j] > 0
    requires (TwoUsers(ops[i]) || WantsControl(ops[i])) && (TwoUsers(ops[j]) || WantsControl(ops[j]))
    ensures Row(ops[i]) != Row(ops[j])
  {
    hide RingHeights, Program;
    var m := SeatOf(ops, ring, i);
    var n := SeatOf(ops, ring, j);
    if i == Seat(ring, m) && m <= |ring.chain| {
      SeatHolds(ops, ring, m);
    }
    if j == Seat(ring, n) && n <= |ring.chain| {
      SeatHolds(ops, ring, n);
    }
    if m < n <= |ring.chain| {
      UsersAscend(ops, ring.chain, ring.users, m, n);
    } else if n < m <= |ring.chain| {
      UsersAscend(ops, ring.chain, ring.users, n, m);
    }
  }

  /** What each on the ring holds. */
  lemma {:induction false} RingLocks(ops: seq<Operation>, ring: Ring, i: nat, lock: Lock)
    requires Simple(ops, ring) && i < |ops| && RingHeights(ops, ring)[i] <= |Program(ops[i])|
    requires lock in Program(ops[i])[..RingHeights(ops, ring)[i]]
    ensures i == ring.completion ==> lock.EmailState? || lock == Smtp
    ensures i != ring.completion ==>
              && (TwoUsers(ops[i]) || WantsControl(ops[i]))
              && (|| lock == User(Row(ops[i])) || (lock == Control && i == ring.smtp)
                  || (lock == Governance && i in ring.chain && ops[i].ChangeAccountRole?))
  {
    var x :| 0 <= x < RingHeights(ops, ring)[i] && Program(ops[i])[x] == lock;
  }

  lemma {:induction false} OneGoverns(ops: seq<Operation>, ring: Ring, i: nat, j: nat)
    requires Simple(ops, ring) && i in ring.chain && j in ring.chain && i < |ops| && j < |ops|
    requires ops[i].ChangeAccountRole? && ops[j].ChangeAccountRole?
    ensures i == j
  {
    var m :| 0 <= m < |ring.chain| && ring.chain[m] == i;
    var n :| 0 <= n < |ring.chain| && ring.chain[n] == j;
  }

  lemma {:induction false} RingFits(ops: seq<Operation>, ring: Ring)
    requires Simple(ops, ring)
    ensures Fits(Programs(ops), RingHeights(ops, ring))
  {
    var heights := RingHeights(ops, ring);
    RingHeightsFit(ops, ring);
    hide RingHeights, Program, Simple;
    forall i, j, lock | 0 <= i < j < |ops| && lock in Program(ops[i])[..heights[i]]
      && lock in Program(ops[j])[..heights[j]]
      ensures false
    {
      RingLocks(ops, ring, i, lock);
      RingLocks(ops, ring, j, lock);
      if i != ring.completion && j != ring.completion {
        RowsDiffer(ops, ring, i, j);
        if lock == Governance {
          OneGoverns(ops, ring, i, j);
        }
      }
    }
  }

  lemma {:induction false} RingHeightsFit(ops: seq<Operation>, ring: Ring)
    requires Simple(ops, ring)
    ensures forall i | 0 <= i < |ops| :: RingHeights(ops, ring)[i] <= |Program(ops[i])|
  {
  }

  /** Round the ring: the completion, the seats in order, the second update if there is one, the completion. */
  function RingPath(ring: Ring): seq<nat> {
    [ring.completion] + ring.chain + [ring.control]
    + (if ring.control == ring.smtp then [] else [ring.smtp]) + [ring.completion]
  }

  predicate Awaits(ops: seq<Operation>, heights: seq<nat>, i: nat, j: nat) {
    && |heights| == |ops| && i < |ops| && j < |ops| && i != j
    && heights[i] < |Program(ops[i])| && heights[j] <= |Program(ops[j])|
    && Program(ops[i])[heights[i]] in Program(ops[j])[..heights[j]]
  }

  lemma {:induction false} AwaitsWaits(ops: seq<Operation>, heights: seq<nat>, i: nat, j: nat)
    requires Awaits(ops, heights, i, j)
    ensures WaitsFor(Standings(At(Programs(ops), heights)), i, j)
  {
  }

  lemma {:induction false} SeatsDiffer(ops: seq<Operation>, ring: Ring, m: nat, n: nat)
    requires Simple(ops, ring) && m < n <= |ring.chain|
    ensures Seat(ring, m) != Seat(ring, n)
  {
    SeatHolds(ops, ring, m);
    SeatHolds(ops, ring, n);
    UsersAscend(ops, ring.chain, ring.users, m, n);
  }

  /** The completion waits for the first seat, each seat for the next. */
  lemma {:induction false} SeatWaits(ops: seq<Operation>, ring: Ring, m: nat)
    requires Simple(ops, ring) && m <= |ring.chain|
    ensures m == 0 ==> Awaits(ops, RingHeights(ops, ring), ring.completion, Seat(ring, 0))
    ensures m > 0 ==> Awaits(ops, RingHeights(ops, ring), Seat(ring, m - 1), Seat(ring, m))
  {
    hide RingHeights, Seat, Simple, Program;
    RingHeightsFit(ops, ring);
    SeatHolds(ops, ring, m);
    if m > 0 {
      SeatHolds(ops, ring, m - 1);
      SeatsDiffer(ops, ring, m - 1, m);
    } else {
      CompletionAwaits(ops, ring);
    }
  }

  lemma {:induction false} CompletionAwaits(ops: seq<Operation>, ring: Ring)
    requires Simple(ops, ring)
    ensures ring.completion < |ops| && RingHeights(ops, ring)[ring.completion] == 2
    ensures |Program(ops[ring.completion])| == 3 && Program(ops[ring.completion])[2] == User(ring.users[0])
  {
  }

  /** The updates wait for the control row and for the SMTP row. */
  lemma {:induction false} UpdatesWait(ops: seq<Operation>, ring: Ring)
    requires Simple(ops, ring)
    ensures ring.control != ring.smtp ==> Awaits(ops, RingHeights(ops, ring), ring.control, ring.smtp)
    ensures Awaits(ops, RingHeights(ops, ring), ring.smtp, ring.completion)
  {
    var p, q := Program(ops[ring.completion]), Program(ops[ring.smtp]);
    assert p[1] == Smtp && p[1] in p[..2] && q[1] == Control && q[1] in q[..2];
  }

  lemma {:induction false} RingWaits(ops: seq<Operation>, ring: Ring, k: nat)
    requires Simple(ops, ring) && 0 < k < |RingPath(ring)|
    ensures Awaits(ops, RingHeights(ops, ring), RingPath(ring)[k - 1], RingPath(ring)[k])
  {
    hide Simple, RingHeights, Awaits;
    UpdatesWait(ops, ring);
    if k <= |ring.chain| + 1 {
      SeatWaits(ops, ring, k - 1);
    }
  }

  /** Claims have not begun. */
  lemma {:induction false} RingIsAllowed(ops: seq<Operation>, guarded: bool, ring: Ring)
    requires Simple(ops, ring)
    ensures Allowed(ops, guarded)(RingHeights(ops, ring))
  {
    forall i | 0 <= i < |ops| && ops[i].ClaimInitialAdministrator?
      ensures RingHeights(ops, ring)[i] < 2
    {
    }
    hide RingHeights, Program, Simple;
  }

  lemma {:induction false} RingCircles(ops: seq<Operation>, guarded: bool, ring: Ring)
    requires Closes(ops, ring)
    ensures CanCircle(Programs(ops), Allowed(ops, guarded))
  {
    hide Closes, Simple, RingHeights, Fits, Standings, WaitsFor, Awaits, KeepsApart;
    var r := Shorten(ops, ring);
    var heights, path := RingHeights(ops, r), RingPath(r);
    RingFits(ops, r);
    RingIsAllowed(ops, guarded, r);
    forall k | 0 < k < |path|
      ensures WaitsFor(Standings(At(Programs(ops), heights)), path[k - 1], path[k])
    {
      RingWaits(ops, r, k);
      AwaitsWaits(ops, heights, path[k - 1], path[k]);
    }
    assert WaitsRound(Programs(ops), heights, Allowed(ops, guarded), path);
  }

  /**
   Any mix of any number of the operations, with or without the guards. In every state of
   every run no lock has two holders, no transactions wait for each other in a circle, and
   while one is open some open one can go on: if and only if the mix is not tangled.
   */
  lemma {:induction false} AdministrationIsDeadlockFree(ops: seq<Operation>, guarded: bool)
    ensures AlwaysSafe(Programs(ops), Allowed(ops, guarded)) <==> !Tangled(ops, guarded)
  {
    AllowedLowers(ops, guarded);
    SafeExactly(Programs(ops), Allowed(ops, guarded));
    CirclesExactly(ops, guarded);
  }

  lemma {:induction false} CirclesExactly(ops: seq<Operation>, guarded: bool)
    ensures CanCircle(Programs(ops), Allowed(ops, guarded)) <==> Tangled(ops, guarded)
  {
    hide WaitsRound, Closes, Retests, Disputes, Programs, Allowed;
    var programs, allowed := Programs(ops), Allowed(ops, guarded);
    if !Tangled(ops, guarded) {
      forall heights, path
        ensures !WaitsRound(programs, heights, allowed, path)
      {
        UntangledNeverCircles(ops, guarded, heights, path);
      }
    } else if i, k :| 0 <= i < |ops| && 0 <= k < |ops| && Retests(ops[i], ops[k]) {
      RetestsCircle(ops, guarded, i, k);
    } else if i, k :| !guarded && 0 <= i < |ops| && 0 <= k < |ops| && Disputes(ops[i], ops[k]) {
      DisputesCircle(ops, i, k);
    } else {
      var ring :| Closes(ops, ring);
      RingCircles(ops, guarded, ring);
    }
  }

  /**
   No two of these three can deadlock, yet together they can: the completion, holding the
   SMTP row, waits for its administrator's row; the site update, holding that, for the
   control row; another administrator's SMTP update, holding that, for the SMTP row.
   */
  lemma {:induction false} ThreeCanDeadlock(a: nat, b: nat) returns (states: seq<System<Lock>>)
    requires a != b
    ensures var ops := [CompleteEmailTest(a, true), UpdateSite(a), UpdateSmtp(b)];
            && Reaches(states, Programs(ops), Always(), [0, 1, 2, 0])
            && forall i, k | 0 <= i < k < 3 :: !Clash(ops[i], ops[k]) && !Clash(ops[k], ops[i])
  {
    var ops := [CompleteEmailTest(a, true), UpdateSite(a), UpdateSmtp(b)];
    var heights: seq<nat>, path: seq<nat> := [2, 1, 2], [0, 1, 2, 0];
    ThreeWait(a, b, ops, heights, path);
    ReachesExactly(Programs(ops), Always(), path);
    states :| Reaches(states, Programs(ops), Always(), path);
  }

  lemma {:induction false} ThreeWait(a: nat, b: nat, ops: seq<Operation>, heights: seq<nat>, path: seq<nat>)
    requires a != b && ops == [CompleteEmailTest(a, true), UpdateSite(a), UpdateSmtp(b)]
    requires heights == [2, 1, 2] && path == [0, 1, 2, 0]
    ensures Waits(Programs(ops), heights, Always(), path)
  {
    var r := Standings(At(Programs(ops), heights));
    assert Program(ops[0])[..2] == [EmailState(a), Smtp];
    assert Program(ops[1])[..1] == [User(a)];
    assert Program(ops[2])[..2] == [User(b), Control];
    assert WaitsFor(r, 0, 1) && WaitsFor(r, 1, 2) && WaitsFor(r, 2, 0);
  }

  // ---- Two transactions ----

  /** The pairs that wait for each other on the same administrator's or the same user's rows. */
  predicate Clash(a: Operation, b: Operation) {
    || Retests(a, b) || Disputes(a, b)
    || (a.CompleteEmailTest? && a.accepted && WantsSmtp(b) && a.actor == b.actor)
  }

  /**
   Two operations can come to wait for each other exactly when one completes a test
   and the other reserves one for the same administrator, or, the test being accepted,
   updates the SMTP settings or opens registration as that administrator; or when one
   claims for a user whose sessions the other revokes, which `Governance` rules out.
   */
  lemma {:induction false} TwoDeadlockExactly(a: Operation, b: Operation)
    ensures (exists states :: DeadlockRun(states, Program(a), Program(b))) <==> Clash(a, b) || Clash(b, a)
  {
    hide DeadlockRun, CanCross, CanCircle, Tangled, Program, Clash;
    var ops := [a, b];
    assert Programs(ops) == [Program(a), Program(b)] && Allowed(ops, false) == Always();
    Locks.TwoDeadlockExactly(Program(a), Program(b));
    TwoCircleExactly(Program(a), Program(b));
    CirclesExactly(ops, false);
    TwoTangle(a, b);
  }

  lemma {:induction false} TwoTangle(a: Operation, b: Operation)
    ensures Tangled([a, b], false) <==> Clash(a, b) || Clash(b, a)
  {
    hide Tangled, Clash;
    if Tangled([a, b], false) {
      TangleClashes([a, b]);
    }
    if Clash(a, b) {
      ClashTangles([a, b], 0, 1);
    }
    if Clash(b, a) {
      ClashTangles([a, b], 1, 0);
    }
  }

  lemma {:induction false} ClashTangles(ops: seq<Operation>, i: nat, k: nat)
    requires i < |ops| && k < |ops| && Clash(ops[i], ops[k])
    ensures Tangled(ops, false)
  {
    if !Retests(ops[i], ops[k]) && !Disputes(ops[i], ops[k]) {
      assert Closes(ops, Ring(i, [], [ops[i].actor], k, k));
    }
  }

  lemma {:induction false} TangleClashes(ops: seq<Operation>)
    requires |ops| == 2 && Tangled(ops, false)
    ensures Clash(ops[0], ops[1]) || Clash(ops[1], ops[0])
  {
    hide Closes, WantsSmtp;
    if ring :| Closes(ops, ring) {
      TwoClose(ops, ring);
    }
  }

  lemma {:induction false} TwoClose(ops: seq<Operation>, ring: Ring)
    requires |ops| == 2 && Closes(ops, ring)
    ensures ring.completion < 2 && ring.smtp == 1 - ring.completion
    ensures Clash(ops[ring.completion], ops[ring.smtp])
  {
    if ring.chain != [] {
      OffTheChain(ops, ring, 0);
      assert false;
    }
  }

  lemma {:induction false} OffTheChain(ops: seq<Operation>, ring: Ring, m: nat)
    requires Closes(ops, ring) && m < |ring.chain|
    ensures ring.chain[m] < |ops|
    ensures ring.chain[m] != ring.completion && ring.chain[m] != ring.control && ring.chain[m] != ring.smtp
  {
    assert TwoUsers(ops[ring.chain[m]]);
  }

  /**
   One administrator's completion of an accepted test, holding the SMTP row for its
   verified revision, and the same administrator's SMTP update, holding the user row,
   wait for each other.
   */
  lemma {:induction false} CompletionCanDeadlock(a: nat) returns (states: seq<System<Lock>>)
    ensures DeadlockRun(states, Program(CompleteEmailTest(a, true)), Program(UpdateSmtp(a)))
  {
    TwoDeadlockExactly(CompleteEmailTest(a, true), UpdateSmtp(a));
    states :| DeadlockRun(states, Program(CompleteEmailTest(a, true)), Program(UpdateSmtp(a)));
  }
}
