/**
 Transactions that request locks one after the other, keep each until they commit or
 abort, and wait while another transaction holds the one they want: any number
 of them, over any kind of lock.
 */
module Locks {
  import opened Options

  /** `held` locks of the program are held; a closed transaction holds none. */
  datatype Transaction<L> = Transaction(program: seq<L>, held: nat, closed: bool)

  type System<L> = seq<Transaction<L>>

  predicate WellFormed<L(==,!new)>(s: System<L>) {
    forall i | 0 <= i < |s| :: s[i].held <= |s[i].program|
  }

  predicate Holds<L(==,!new)>(t: Transaction<L>, lock: L) {
    !t.closed && t.held <= |t.program| && lock in t.program[..t.held]
  }

  predicate Wants<L(==,!new)>(t: Transaction<L>) {
    !t.closed && t.held < |t.program|
  }

  function Wanted<L(==,!new)>(t: Transaction<L>): L
    requires Wants(t)
  {
    t.program[t.held]
  }

  predicate Free<L(==,!new)>(s: System<L>, lock: L, i: nat) {
    forall j | 0 <= j < |s| && j != i :: !Holds(s[j], lock)
  }

  predicate Acquires<L(==,!new)>(s: System<L>, u: System<L>, i: nat) {
    i < |s| && Wants(s[i]) && Free(s, Wanted(s[i]), i) && u == s[i := s[i].(held := s[i].held + 1)]
  }

  /** A commit needs the whole program. */
  predicate Commits<L(==,!new)>(s: System<L>, u: System<L>, i: nat) {
    i < |s| && !s[i].closed && s[i].held == |s[i].program| && u == s[i := s[i].(closed := true)]
  }

  /** An error, a denial or a timeout closes a transaction anywhere. */
  predicate Aborts<L(==,!new)>(s: System<L>, u: System<L>, i: nat) {
    i < |s| && !s[i].closed && u == s[i := s[i].(closed := true)]
  }

  predicate Steps<L(==,!new)>(s: System<L>, u: System<L>, i: nat) {
    Acquires(s, u, i) || Commits(s, u, i) || Aborts(s, u, i)
  }

  ghost predicate Moves<L(!new)>(s: System<L>, u: System<L>) {
    exists i: nat :: Steps(s, u, i)
  }

  /** A step that is no abort. */
  predicate Advances<L(==,!new)>(s: System<L>, u: System<L>, i: nat) {
    Acquires(s, u, i) || Commits(s, u, i)
  }

  predicate Initial<L(==,!new)>(s: System<L>) {
    forall i | 0 <= i < |s| :: s[i].held == 0 && !s[i].closed
  }

  /** A run: consecutive states one step apart. */
  ghost predicate Run<L(!new)>(states: seq<System<L>>) {
    && states != [] && Initial(states[0])
    && forall k | 0 < k < |states| :: Moves(states[k - 1], states[k])
  }

  lemma {:induction false} RunPrefix<L(!new)>(states: seq<System<L>>)
    requires Run(states) && |states| > 1
    ensures Run(states[..|states| - 1]) && Moves(states[|states| - 2], states[|states| - 1])
  {
    var before := states[..|states| - 1];
    forall k | 0 < k < |before|
      ensures Moves(before[k - 1], before[k])
    {
      assert Moves(states[k - 1], states[k]);
    }
    assert Moves(states[|states| - 1 - 1], states[|states| - 1]);
  }

  ghost predicate Exclusive<L(!new)>(s: System<L>) {
    && WellFormed(s)
    && forall i, j, lock | 0 <= i < j < |s| :: !(Holds(s[i], lock) && Holds(s[j], lock))
  }

  lemma {:induction false} AcquiresExclusive<L(!new)>(s: System<L>, u: System<L>, i: nat)
    requires Exclusive(s) && Acquires(s, u, i)
    ensures Exclusive(u)
  {
    var lock := Wanted(s[i]);
    assert u[i].program[..u[i].held] == s[i].program[..s[i].held] + [lock];
    forall j, k, l | 0 <= j < k < |u|
      ensures !(Holds(u[j], l) && Holds(u[k], l))
    {
      assert j != i ==> u[j] == s[j];
      assert k != i ==> u[k] == s[k];
    }
  }

  lemma {:induction false} ClosesExclusive<L(!new)>(s: System<L>, u: System<L>, i: nat)
    requires Exclusive(s) && Aborts(s, u, i)
    ensures Exclusive(u)
  {
  }

  /** No lock ever has two holders. */
  lemma {:induction false} LocksAreExclusive<L(!new)>(states: seq<System<L>>)
    requires Run(states)
    ensures Exclusive(states[|states| - 1])
  {
    if |states| > 1 {
      var n := |states| - 2;
      RunPrefix(states);
      LocksAreExclusive(states[..n + 1]);
      var i: nat :| Steps(states[n], states[n + 1], i);
      if Acquires(states[n], states[n + 1], i) {
        AcquiresExclusive(states[n], states[n + 1], i);
      } else {
        ClosesExclusive(states[n], states[n + 1], i);
      }
    }
  }

  // ---- Waiting ----

  /** What a transaction holds and what it waits for or is about to take. */
  datatype Standing<L> = Standing(held: set<L>, wanted: Option<L>)

  function StandingOf<L(==,!new)>(t: Transaction<L>): Standing<L> {
    Standing(set lock | lock in t.program && Holds(t, lock), if Wants(t) then Some(Wanted(t)) else None)
  }

  function Standings<L(==,!new)>(s: System<L>): (r: seq<Standing<L>>)
    ensures |r| == |s| && forall i | 0 <= i < |s| :: r[i] == StandingOf(s[i])
  {
    seq(|s|, i requires 0 <= i < |s| => StandingOf(s[i]))
  }

  predicate WaitsFor<L(==,!new)>(s: seq<Standing<L>>, i: nat, j: nat) {
    i < |s| && j < |s| && i != j && s[i].wanted.Some? && s[i].wanted.value in s[j].held
  }

  predicate Blocked<L(==,!new)>(s: seq<Standing<L>>, i: nat) {
    exists j: nat :: j < |s| && WaitsFor(s, i, j)
  }

  /** A strict order of locks. */
  ghost predicate Strict<L(!new)>(before: (L, L) -> bool) {
    && (forall a :: !before(a, a))
    && (forall a, b, c | before(a, b) && before(b, c) :: before(a, c))
  }

  /** Whoever wants a lock holds only earlier ones. */
  ghost predicate Climbs<L(!new)>(s: seq<Standing<L>>, before: (L, L) -> bool) {
    forall i, lock | 0 <= i < |s| && s[i].wanted.Some? && lock in s[i].held :: before(lock, s[i].wanted.value)
  }

  /** Each waits for the next. */
  ghost predicate Path<L(!new)>(s: seq<Standing<L>>, path: seq<nat>) {
    |path| >= 2 && forall k | 0 < k < |path| :: WaitsFor(s, path[k - 1], path[k])
  }

  lemma {:induction false} PathAscends<L(!new)>(s: seq<Standing<L>>, path: seq<nat>, before: (L, L) -> bool)
    requires Strict(before) && Climbs(s, before) && Path(s, path)
    requires path[|path| - 1] < |s| && s[path[|path| - 1]].wanted.Some?
    ensures path[0] < |s| && s[path[0]].wanted.Some?
    ensures before(s[path[0]].wanted.value, s[path[|path| - 1]].wanted.value)
  {
    assert WaitsFor(s, path[1 - 1], path[1]);
    if |path| > 2 {
      assert WaitsFor(s, path[2 - 1], path[2]);
      var rest := path[1..];
      forall k | 0 < k < |rest|
        ensures WaitsFor(s, rest[k - 1], rest[k])
      {
        assert WaitsFor(s, path[k + 1 - 1], path[k + 1]);
      }
      PathAscends(s, rest, before);
    }
  }

  /** Where everyone climbs no wait-for cycle exists. */
  lemma {:induction false} NoDeadlock<L(!new)>(s: seq<Standing<L>>, path: seq<nat>, before: (L, L) -> bool)
    requires Strict(before) && Climbs(s, before) && Path(s, path)
    ensures path[0] != path[|path| - 1]
  {
    if path[0] == path[|path| - 1] {
      assert WaitsFor(s, path[1 - 1], path[1]);
      PathAscends(s, path, before);
    }
  }

  /** From any transaction, the waits lead to one that is not blocked. */
  lemma {:induction false} SomeoneGoesOn<L(!new)>(s: seq<Standing<L>>, i: nat, later: set<nat>, before: (L, L) -> bool)
    returns (j: nat)
    requires Strict(before) && Climbs(s, before) && i < |s|
    requires forall k: nat | k < |s| && s[k].wanted.Some?
                             && (s[i].wanted.Some? ==> before(s[i].wanted.value, s[k].wanted.value)) :: k in later
    ensures j < |s| && !Blocked(s, j) && (j == i || s[j].held != {})
    decreases if s[i].wanted.Some? then 1 else 0, |later|
  {
    if !Blocked(s, i) {
      return i;
    }
    var k: nat :| k < |s| && WaitsFor(s, i, k);
    if s[k].wanted.None? {
      return k;
    }
    assert before(s[i].wanted.value, s[k].wanted.value) && k in later;
    j := SomeoneGoesOn(s, k, later - {k}, before);
  }

  function UpTo(n: nat): (s: set<nat>)
    ensures forall k: nat :: k < n ==> k in s
  {
    if n == 0 then {} else UpTo(n - 1) + {n - 1}
  }

  // ---- Programs that keep an order ----

  predicate Ascending<L(!new)>(program: seq<L>, before: (L, L) -> bool) {
    forall i, j | 0 <= i < j < |program| :: before(program[i], program[j])
  }

  /** Every transaction requests its locks in that order. */
  predicate Ordered<L(!new)>(s: System<L>, before: (L, L) -> bool) {
    forall i | 0 <= i < |s| :: Ascending(s[i].program, before)
  }

  lemma {:induction false} AscendingClimbs<L(!new)>(t: Transaction<L>, before: (L, L) -> bool)
    requires Ascending(t.program, before) && Wants(t)
    ensures forall lock | lock in StandingOf(t).held :: before(lock, Wanted(t))
  {
  }

  lemma {:induction false} OrderedClimbs<L(!new)>(s: System<L>, before: (L, L) -> bool)
    requires Ordered(s, before)
    ensures Climbs(Standings(s), before)
  {
    forall i, lock | 0 <= i < |s| && Wants(s[i]) && lock in StandingOf(s[i]).held
      ensures before(lock, Wanted(s[i]))
    {
      AscendingClimbs(s[i], before);
    }
  }

  /** Nobody keeps the transaction waiting: it takes its next lock or commits. */
  lemma {:induction false} UnblockedAdvances<L(!new)>(s: System<L>, j: nat) returns (u: System<L>)
    requires WellFormed(s) && j < |s| && !s[j].closed && !Blocked(Standings(s), j)
    ensures Advances(s, u, j)
  {
    if Wants(s[j]) {
      u := s[j := s[j].(held := s[j].held + 1)];
      forall k | 0 <= k < |s| && k != j
        ensures !Holds(s[k], Wanted(s[j]))
      {
        assert !WaitsFor(Standings(s), j, k);
      }
    } else {
      u := s[j := s[j].(closed := true)];
    }
  }

  lemma {:induction false} HoldersAreOpen<L(!new)>(s: System<L>, j: nat)
    requires j < |s| && Standings(s)[j].held != {}
    ensures !s[j].closed
  {
    var lock :| lock in Standings(s)[j].held;
  }

  /** While any transaction is open, some open one can take its next lock or commit. */
  lemma {:induction false} Progress<L(!new)>(s: System<L>, before: (L, L) -> bool) returns (j: nat, u: System<L>)
    requires Strict(before) && Climbs(Standings(s), before) && WellFormed(s) && exists i :: 0 <= i < |s| && !s[i].closed
    ensures Advances(s, u, j)
  {
    var i :| 0 <= i < |s| && !s[i].closed;
    j := SomeoneGoesOn(Standings(s), i, UpTo(|s|), before);
    if j != i {
      HoldersAreOpen(s, j);
    }
    u := UnblockedAdvances(s, j);
  }

  predicate AllClosed<L(==,!new)>(s: System<L>) {
    forall i | 0 <= i < |s| :: s[i].closed
  }

  ghost predicate AdvancesSomehow<L(!new)>(s: System<L>, u: System<L>) {
    exists i: nat :: Advances(s, u, i)
  }

  /** The requests and commits still to come. */
  function Remaining<L(==,!new)>(s: System<L>): nat
    requires WellFormed(s)
  {
    if s == [] then 0
    else Remaining(s[..|s| - 1])
         + (var t := s[|s| - 1]; if t.closed then 0 else 1 + |t.program| - t.held)
  }

  lemma {:induction false} RemainingDrops<L(!new)>(s: System<L>, u: System<L>, i: nat)
    requires WellFormed(s) && Advances(s, u, i)
    ensures WellFormed(u) && Remaining(u) == Remaining(s) - 1
    decreases |s|
  {
    var n := |s| - 1;
    assert WellFormed(u);
    if i == n {
      assert u[..n] == s[..n];
    } else {
      assert u[..n] == s[..n][i := u[i]] && u[n] == s[n];
      Narrow(s, u, i);
      RemainingDrops(s[..n], u[..n], i);
    }
  }

  lemma {:induction false} Narrow<L(!new)>(s: System<L>, u: System<L>, i: nat)
    requires i + 1 < |s| && Advances(s, u, i)
    ensures Advances(s[..|s| - 1], u[..|s| - 1], i)
  {
    assert u[..|s| - 1] == s[..|s| - 1][i := u[i]];
  }

  /**
   From every state of ordered programs, exactly as many steps as there are
   requests and commits left close every transaction, none by aborting; and
   by `RemainingDrops` no schedule without aborts is longer.
   */
  lemma {:induction false} EveryoneCanCommit<L(!new)>(s: System<L>, before: (L, L) -> bool)
    returns (states: seq<System<L>>)
    requires Strict(before) && Ordered(s, before) && WellFormed(s)
    ensures |states| == Remaining(s) + 1 && states[0] == s
    ensures AllClosed(states[|states| - 1])
    ensures forall k | 0 < k < |states| :: AdvancesSomehow(states[k - 1], states[k])
    decreases Remaining(s)
  {
    if i :| 0 <= i < |s| && !s[i].closed {
      OrderedClimbs(s, before);
      var j, u := Progress(s, before);
      RemainingDrops(s, u, j);
      var rest := EveryoneCanCommit(u, before);
      states := [s] + rest;
      forall k | 0 < k < |states|
        ensures AdvancesSomehow(states[k - 1], states[k])
      {
        assert k > 1 ==> AdvancesSomehow(rest[k - 1 - 1], rest[k - 1]);
      }
    } else {
      NothingRemains(s);
      states := [s];
    }
  }

  lemma {:induction false} NothingRemains<L(!new)>(s: System<L>)
    requires WellFormed(s) && AllClosed(s)
    ensures Remaining(s) == 0
  {
    if s != [] {
      NothingRemains(s[..|s| - 1]);
    }
  }

  lemma {:induction false} ProgramsStay<L(!new)>(states: seq<System<L>>)
    requires Run(states)
    ensures |states[|states| - 1]| == |states[0]|
    ensures forall i | 0 <= i < |states[0]| :: states[|states| - 1][i].program == states[0][i].program
  {
    if |states| > 1 {
      var n := |states| - 2;
      RunPrefix(states);
      ProgramsStay(states[..n + 1]);
      var i: nat :| Steps(states[n], states[n + 1], i);
    }
  }

  /**
   A run that ends where everyone climbs: no lock has two holders, no waits form a circle,
   and while a transaction is open some open one can take its next lock or commit.
   */
  lemma {:induction false} ClimbingRunGoesOn<L(!new)>(states: seq<System<L>>, path: seq<nat>, before: (L, L) -> bool)
    requires Run(states) && Strict(before) && Climbs(Standings(states[|states| - 1]), before)
    ensures Safe(states[|states| - 1], path)
  {
    var s := states[|states| - 1];
    LocksAreExclusive(states);
    if Path(Standings(s), path) {
      NoDeadlock(Standings(s), path, before);
    }
    if exists i :: 0 <= i < |s| && !s[i].closed {
      var j, u := Progress(s, before);
      assert AdvancesSomehow(s, u);
    }
  }

  ghost predicate Safe<L(!new)>(s: System<L>, path: seq<nat>) {
    && Exclusive(s)
    && (Path(Standings(s), path) ==> path[0] != path[|path| - 1])
    && ((exists i :: 0 <= i < |s| && !s[i].closed) ==> exists u :: AdvancesSomehow(s, u))
  }

  lemma {:induction false} OrderedRunGoesOn<L(!new)>(states: seq<System<L>>, path: seq<nat>, before: (L, L) -> bool)
    requires Run(states) && Strict(before) && Ordered(states[0], before)
    ensures Safe(states[|states| - 1], path)
  {
    var s := states[|states| - 1];
    ProgramsStay(states);
    forall i | 0 <= i < |s|
      ensures Ascending(s[i].program, before)
    {
      assert Ascending(states[0][i].program, before);
    }
    OrderedClimbs(s, before);
    ClimbingRunGoesOn(states, path, before);
  }

  // ---- Exactly which programs deadlock ----

  /** All transactions open, each with its first locks. */
  function At<L>(programs: seq<seq<L>>, heights: seq<nat>): (s: System<L>)
    requires |programs| == |heights|
    ensures |s| == |programs|
    ensures forall i | 0 <= i < |s| :: s[i] == Transaction(programs[i], heights[i], false)
  {
    seq(|programs|, i requires 0 <= i < |programs| => Transaction(programs[i], heights[i], false))
  }

  function Zeros(n: nat): (h: seq<nat>)
    ensures |h| == n && forall i | 0 <= i < n :: h[i] == 0
  {
    seq(n, i => 0)
  }

  /** Prefixes of the programs, pairwise without a common lock. */
  ghost predicate Fits<L(!new)>(programs: seq<seq<L>>, heights: seq<nat>) {
    && |programs| == |heights|
    && (forall i | 0 <= i < |programs| :: heights[i] <= |programs[i]|)
    && (forall i, j, lock | 0 <= i < j < |programs| ::
          !(lock in programs[i][..heights[i]] && lock in programs[j][..heights[j]]))
  }

  /** How many locks each transaction holds. */
  function Heights<L(!new)>(s: System<L>): (h: seq<nat>)
    ensures |h| == |s| && forall i | 0 <= i < |h| :: h[i] == if s[i].closed then 0 else s[i].held
  {
    seq(|s|, i requires 0 <= i < |s| => if s[i].closed then 0 else s[i].held)
  }

  /** A guard on states by the locks held, which fewer locks never violate. */
  ghost predicate Lowers(allowed: seq<nat> -> bool) {
    forall g, h | |g| == |h| && (forall i | 0 <= i < |g| :: g[i] <= h[i]) && allowed(h) :: allowed(g)
  }

  function Always(): seq<nat> -> bool {
    h => true
  }

  /** A run of these programs that keeps the guard. */
  ghost predicate RunWithin<L(!new)>(states: seq<System<L>>, programs: seq<seq<L>>, allowed: seq<nat> -> bool) {
    && Run(states) && states[0] == At(programs, Zeros(|programs|))
    && forall k | 0 <= k < |states| :: allowed(Heights(states[k]))
  }

  ghost predicate Reaches<L(!new)>(states: seq<System<L>>, programs: seq<seq<L>>, allowed: seq<nat> -> bool,
        path: seq<nat>) {
    RunWithin(states, programs, allowed) && Path(Standings(states[|states| - 1]), path)
  }

  /** Such prefixes, within the guard, after which each on the path wants a lock the next one holds. */
  ghost predicate Waits<L(!new)>(programs: seq<seq<L>>, heights: seq<nat>, allowed: seq<nat> -> bool, path: seq<nat>) {
    Fits(programs, heights) && allowed(heights) && Path(Standings(At(programs, heights)), path)
  }

  /** Any number of programs, any path: some run reaches these waits exactly when some prefixes make them. */
  lemma {:induction false} ReachesExactly<L(!new)>(programs: seq<seq<L>>, allowed: seq<nat> -> bool, path: seq<nat>)
    requires Lowers(allowed)
    ensures (exists states :: Reaches(states, programs, allowed, path))
            <==> (exists heights :: Waits(programs, heights, allowed, path))
  {
    forall states | Reaches(states, programs, allowed, path)
      ensures exists heights :: Waits(programs, heights, allowed, path)
    {
      RunFits(states, programs, allowed, path);
      assert Waits(programs, Heights(states[|states| - 1]), allowed, path);
    }
    forall heights | Waits(programs, heights, allowed, path)
      ensures exists states :: Reaches(states, programs, allowed, path)
    {
      var states := RunUp(programs, heights, allowed, |heights|);
      assert Reaches(states, programs, allowed, path);
    }
  }

  lemma {:induction false} RunFits<L(!new)>(states: seq<System<L>>, programs: seq<seq<L>>, allowed: seq<nat> -> bool,
        path: seq<nat>)
    requires RunWithin(states, programs, allowed)
    ensures var s := states[|states| - 1];
            Fits(programs, Heights(s)) && allowed(Heights(s))
            && (Path(Standings(s), path) ==> Path(Standings(At(programs, Heights(s))), path))
  {
    var s := states[|states| - 1];
    ProgramsStay(states);
    LocksAreExclusive(states);
    var heights := Heights(s);
    assert forall i | 0 <= i < |s| :: s[i].program == programs[i];
    forall i, j, lock | 0 <= i < j < |programs|
      ensures !(lock in programs[i][..heights[i]] && lock in programs[j][..heights[j]])
    {
      assert !(Holds(s[i], lock) && Holds(s[j], lock));
    }
    if Path(Standings(s), path) {
      forall k | 0 < k < |path|
        ensures WaitsFor(Standings(At(programs, heights)), path[k - 1], path[k])
      {
        assert WaitsFor(Standings(s), path[k - 1], path[k]);
        SameStanding(s, programs, path[k - 1]);
        SameStanding(s, programs, path[k]);
      }
    }
  }

  lemma {:induction false} SameStanding<L(!new)>(s: System<L>, programs: seq<seq<L>>, i: nat)
    requires |programs| == |s| && i < |s| && s[i].program == programs[i]
    ensures StandingOf(s[i]).wanted.Some? || StandingOf(s[i]).held != {}
            ==> StandingOf(At(programs, Heights(s))[i]) == StandingOf(s[i])
  {
  }

  /** Fitting prefixes can be taken, one transaction after the other. */
  lemma {:induction false} RunUp<L(!new)>(programs: seq<seq<L>>, heights: seq<nat>, allowed: seq<nat> -> bool, k: nat)
    returns (states: seq<System<L>>)
    requires Fits(programs, heights) && Lowers(allowed) && allowed(heights)
    requires k <= |heights| && forall i | k <= i < |heights| :: heights[i] == 0
    ensures RunWithin(states, programs, allowed) && states[|states| - 1] == At(programs, heights)
    decreases k, if k > 0 then heights[k - 1] else 0
  {
    hide Standings, Path, Moves, Heights;
    if k == 0 {
      assert heights == Zeros(|programs|);
      states := [At(programs, heights)];
      HeightsAt(programs, heights);
    } else if heights[k - 1] == 0 {
      states := RunUp(programs, heights, allowed, k - 1);
    } else {
      var lower := heights[k - 1 := heights[k - 1] - 1];
      LowerFits(programs, heights, lower);
      assert allowed(lower);
      var before := RunUp(programs, lower, allowed, k);
      OneUp(programs, heights, lower, k - 1);
      HeightsAt(programs, heights);
      states := before + [At(programs, heights)];
      RunMore(before, programs, allowed, At(programs, heights));
    }
  }

  lemma {:induction false} HeightsAt<L(!new)>(programs: seq<seq<L>>, heights: seq<nat>)
    requires |programs| == |heights|
    ensures Heights(At(programs, heights)) == heights
  {
  }

  lemma {:induction false} RunMore<L(!new)>(states: seq<System<L>>, programs: seq<seq<L>>, allowed: seq<nat> -> bool,
        u: System<L>)
    requires RunWithin(states, programs, allowed) && Moves(states[|states| - 1], u) && allowed(Heights(u))
    ensures RunWithin(states + [u], programs, allowed)
  {
    hide Moves, Heights, Initial;
    var more := states + [u];
    forall m | 0 < m < |more|
      ensures Moves(more[m - 1], more[m])
    {
      assert m < |states| ==> Moves(states[m - 1], states[m]);
    }
  }

  lemma {:induction false} LowerFits<L(!new)>(programs: seq<seq<L>>, heights: seq<nat>, lower: seq<nat>)
    requires Fits(programs, heights) && |lower| == |heights| && forall i | 0 <= i < |heights| :: lower[i] <= heights[i]
    ensures Fits(programs, lower)
  {
    forall i, lock | 0 <= i < |programs| && lock in programs[i][..lower[i]]
      ensures lock in programs[i][..heights[i]]
    {
    }
  }

  lemma {:induction false} OneUp<L(!new)>(programs: seq<seq<L>>, heights: seq<nat>, lower: seq<nat>, i: nat)
    requires Fits(programs, heights) && i < |heights| && heights[i] > 0 && lower == heights[i := heights[i] - 1]
    ensures Moves(At(programs, lower), At(programs, heights))
  {
    var s, u := At(programs, lower), At(programs, heights);
    assert Wanted(s[i]) in programs[i][..heights[i]];
    assert u == s[i := s[i].(held := s[i].held + 1)];
    forall j | 0 <= j < |s| && j != i
      ensures !Holds(s[j], Wanted(s[i]))
    {
      assert lower[j] == heights[j];
    }
    assert Acquires(s, u, i) && Steps(s, u, i);
  }

  /** The programs can come to a circle of waits. */
  ghost predicate CanCircle<L(!new)>(programs: seq<seq<L>>, allowed: seq<nat> -> bool) {
    exists heights, path :: WaitsRound(programs, heights, allowed, path)
  }

  ghost predicate WaitsRound<L(!new)>(programs: seq<seq<L>>, heights: seq<nat>, allowed: seq<nat> -> bool,
        path: seq<nat>) {
    Waits(programs, heights, allowed, path) && path[0] == path[|path| - 1]
  }

  ghost predicate EndsSafely<L(!new)>(states: seq<System<L>>, path: seq<nat>) {
    states != [] && Safe(states[|states| - 1], path)
  }

  ghost predicate AlwaysSafe<L(!new)>(programs: seq<seq<L>>, allowed: seq<nat> -> bool) {
    forall states, path | RunWithin(states, programs, allowed) :: EndsSafely(states, path)
  }

  /**
   Deadlock freedom of any programs, exactly: in every state of every run locks are
   exclusive, no waits form a circle, and while a transaction is open some open one can go
   on, if and only if no prefixes without a common lock make a circle of waits.
   */
  lemma {:induction false} SafeExactly<L(!new)>(programs: seq<seq<L>>, allowed: seq<nat> -> bool)
    requires Lowers(allowed)
    ensures AlwaysSafe(programs, allowed) <==> !CanCircle(programs, allowed)
  {
    hide RunWithin, Waits, Exclusive;
    if heights, path :| WaitsRound(programs, heights, allowed, path) {
      CircleIsUnsafe(programs, heights, allowed, path);
    } else {
      forall states, path | RunWithin(states, programs, allowed)
        ensures EndsSafely(states, path)
      {
        UncircledIsSafe(states, programs, allowed, path);
      }
    }
  }

  lemma {:induction false} CircleIsUnsafe<L(!new)>(programs: seq<seq<L>>, heights: seq<nat>, allowed: seq<nat> -> bool,
        path: seq<nat>)
    requires Lowers(allowed) && WaitsRound(programs, heights, allowed, path)
    ensures !AlwaysSafe(programs, allowed)
  {
    var states := RunUp(programs, heights, allowed, |heights|);
    assert !EndsSafely(states, path);
  }

  lemma {:induction false} UncircledIsSafe<L(!new)>(states: seq<System<L>>, programs: seq<seq<L>>,
        allowed: seq<nat> -> bool, path: seq<nat>)
    requires RunWithin(states, programs, allowed) && !CanCircle(programs, allowed)
    ensures EndsSafely(states, path)
  {
    var s := states[|states| - 1];
    hide Run, Standings, Heights, Fits;
    LocksAreExclusive(states);
    NoCircle(states, programs, allowed, path);
    if i: nat :| i < |s| && !s[i].closed {
      SizeOfStandings(s);
      var j, circle := WalkOn(Standings(s), [i], UpTo(|s|));
      NoCircle(states, programs, allowed, circle);
      if j != i {
        HoldersAreOpen(s, j);
      }
      var u := UnblockedAdvances(s, j);
      assert AdvancesSomehow(s, u);
    }
  }

  lemma {:induction false} NoCircle<L(!new)>(states: seq<System<L>>, programs: seq<seq<L>>, allowed: seq<nat> -> bool,
        path: seq<nat>)
    requires RunWithin(states, programs, allowed) && !CanCircle(programs, allowed)
    ensures Path(Standings(states[|states| - 1]), path) ==> path[0] != path[|path| - 1]
  {
    hide Standings, Heights, Fits;
    RunFits(states, programs, allowed, path);
    assert !WaitsRound(programs, Heights(states[|states| - 1]), allowed, path);
  }

  lemma {:induction false} SizeOfStandings<L(!new)>(s: System<L>)
    ensures |Standings(s)| == |s|
  {
  }

  /** Following the waits from a transaction leads to one that nobody keeps waiting, or round in a circle. */
  lemma {:induction false} WalkOn<L(!new)>(s: seq<Standing<L>>, walked: seq<nat>, rest: set<nat>)
    returns (j: nat, circle: seq<nat>)
    requires walked != [] && walked[|walked| - 1] < |s| && (|walked| > 1 ==> Path(s, walked))
    requires forall k: nat | k < |s| :: k in walked || k in rest
    ensures (Path(s, circle) && circle[0] == circle[|circle| - 1])
            || (j < |s| && !Blocked(s, j) && (j == walked[0] || s[j].held != {}))
    decreases |rest|
  {
    var last := walked[|walked| - 1];
    if !Blocked(s, last) {
      assert |walked| > 1 ==> WaitsFor(s, walked[|walked| - 1 - 1], walked[|walked| - 1]);
      return last, [];
    }
    var k: nat :| k < |s| && WaitsFor(s, last, k);
    var longer := walked + [k];
    forall m | 0 < m < |longer|
      ensures WaitsFor(s, longer[m - 1], longer[m])
    {
      assert m < |walked| ==> WaitsFor(s, walked[m - 1], walked[m]);
    }
    if m :| 0 <= m < |walked| && walked[m] == k {
      circle, j := longer[m..], 0;
      forall n | 0 < n < |circle|
        ensures WaitsFor(s, circle[n - 1], circle[n])
      {
        assert WaitsFor(s, longer[m + n - 1], longer[m + n]);
      }
    } else {
      j, circle := WalkOn(s, longer, rest - {k});
    }
  }

  // ---- Two transactions ----

  /** After `i` and `j` locks, none in common, each wants one the other holds. */
  predicate Crossed<L(==,!new)>(p: seq<L>, q: seq<L>, i: nat, j: nat) {
    && i < |p| && j < |q| && p[i] in q[..j] && q[j] in p[..i]
    && forall lock | lock in p[..i] :: lock !in q[..j]
  }

  ghost predicate CanCross<L(!new)>(p: seq<L>, q: seq<L>) {
    exists i: nat, j: nat :: Crossed(p, q, i, j)
  }

  ghost predicate DeadlockRun<L(!new)>(states: seq<System<L>>, p: seq<L>, q: seq<L>) {
    Reaches(states, [p, q], Always(), [0, 1, 0])
  }

  /** Two transactions can come to wait for each other exactly when their programs cross. */
  lemma {:induction false} TwoDeadlockExactly<L(!new)>(p: seq<L>, q: seq<L>)
    ensures CanCross(p, q) <==> exists states :: DeadlockRun(states, p, q)
  {
    hide Crossed, Waits, Reaches;
    var programs: seq<seq<L>>, path: seq<nat> := [p, q], [0, 1, 0];
    ReachesExactly(programs, Always(), path);
    assert forall states :: DeadlockRun(states, p, q) <==> Reaches(states, programs, Always(), path);
    if i: nat, j: nat :| Crossed(p, q, i, j) {
      CrossedWaits(p, q, i, j);
    }
    if heights :| Waits(programs, heights, Always(), path) {
      WaitsCross(p, q, heights, path);
    }
  }

  lemma {:induction false} CrossedWaits<L(!new)>(p: seq<L>, q: seq<L>, i: nat, j: nat)
    requires Crossed(p, q, i, j)
    ensures Waits([p, q], [i, j], Always(), [0, 1, 0])
  {
    var r := Standings(At([p, q], [i, j]));
    assert WaitsFor(r, 0, 1) && WaitsFor(r, 1, 0);
  }

  /** Any circle of two transactions is one where each waits for the other. */
  lemma {:induction false} WaitsCross<L(!new)>(p: seq<L>, q: seq<L>, heights: seq<nat>, path: seq<nat>)
    requires Waits([p, q], heights, Always(), path) && path[0] == path[|path| - 1]
    ensures CanCross(p, q)
  {
    var s := At([p, q], heights);
    var r := Standings(s);
    assert WaitsFor(r, path[1 - 1], path[1]);
    assert |path| > 2 && WaitsFor(r, path[2 - 1], path[2]);
    assert WaitsFor(r, 0, 1) && WaitsFor(r, 1, 0);
    assert Crossed(p, q, heights[0], heights[1]);
  }

  /** Two programs that cross can do so among any others, which have not begun. */
  lemma {:induction false} CrossingCircles<L(!new)>(programs: seq<seq<L>>, allowed: seq<nat> -> bool,
        i: nat, k: nat, x: nat, y: nat)
    requires i < |programs| && k < |programs| && i != k && Crossed(programs[i], programs[k], x, y)
    requires allowed(Zeros(|programs|)[i := x][k := y])
    ensures CanCircle(programs, allowed)
  {
    var heights, path: seq<nat> := Zeros(|programs|)[i := x][k := y], [i, k, i];
    var r := Standings(At(programs, heights));
    assert WaitsFor(r, i, k) && WaitsFor(r, k, i);
    assert WaitsRound(programs, heights, allowed, path);
  }

  /** So two transactions are free of deadlock exactly when their programs do not cross. */
  lemma {:induction false} TwoCircleExactly<L(!new)>(p: seq<L>, q: seq<L>)
    ensures CanCircle([p, q], Always()) <==> CanCross(p, q)
  {
    hide Crossed, Waits;
    if i: nat, j: nat :| Crossed(p, q, i, j) {
      CrossedWaits(p, q, i, j);
      var path: seq<nat> := [0, 1, 0];
      assert WaitsRound([p, q], [i, j], Always(), path);
    }
    if heights, path :| WaitsRound([p, q], heights, Always(), path) {
      WaitsCross(p, q, heights, path);
    }
  }
}
