/**
 Who may administer: role changes, group membership changes, session revocations, the
 operator's bootstrap and the browser's claim, interleaved over user rows, their
 session rows and the governance row. Suspension, muting and acceptance of an account
 are held fixed.
 */
module Governance {
  import opened Options
  import Locks
  import LockOrder

  datatype Role = Member | Moderator | Administrator

  const MAX_REVISION: int := 0x7FFF_FFFF_FFFF_FFFF

  datatype User = User(role: Role, revision: int, accepted: bool, suspended: bool, muted: bool)

  /** The user rows and how many bootstraps the audit trail holds. */
  datatype Store = Store(users: map<nat, User>, bootstraps: nat)

  datatype Op =
    | ChangeRole(actor: nat, target: nat, role: Role, expectedRole: Role, revision: int)
    | ChangeMembership(actor: nat, target: nat, revision: int)
    | RevokeSessions(actor: nat, target: nat, expected: Option<int>)
    | Bootstrap(user: nat)
    | Claim(user: nat)

  datatype Phase =
    | Begun | Governs | HoldsFirst | HoldsBoth | Counted | Revoking
    | Wrote(target: nat, user: User) | Committed | Aborted

  /** `sessions` are the users whose session rows are locked. */
  datatype Tx = Tx(op: Op, phase: Phase, governs: bool, users: set<nat>, sessions: set<nat>)

  datatype State = State(store: Store, txs: seq<Tx>)

  predicate IsActive(user: User) {
    user.role == Administrator && user.accepted && !user.suspended
  }

  function Active(users: map<nat, User>): set<nat> {
    set u | u in users && IsActive(users[u])
  }

  predicate GovernanceFree(s: State) {
    forall j | 0 <= j < |s.txs| :: !s.txs[j].governs
  }

  predicate UserFree(s: State, u: nat, i: nat) {
    forall j | 0 <= j < |s.txs| && j != i :: u !in s.txs[j].users
  }

  predicate SessionsFree(s: State, u: nat, i: nat) {
    forall j | 0 <= j < |s.txs| && j != i :: u !in s.txs[j].sessions
  }

  function Closing(tx: Tx, phase: Phase): Tx {
    Tx(tx.op, phase, false, {}, {})
  }

  function With(s: State, i: nat, tx: Tx): State
    requires i < |s.txs|
  {
    s.(txs := s.txs[i := tx])
  }

  function Abort(s: State, i: nat): State
    requires i < |s.txs|
  {
    With(s, i, Closing(s.txs[i], Aborted))
  }

  function Commit(s: State, i: nat, store: Store): State
    requires i < |s.txs|
  {
    State(store, s.txs[i := Closing(s.txs[i], Committed)])
  }

  function LockUser(s: State, i: nat, u: nat, next: Phase): State
    requires i < |s.txs|
  {
    if !UserFree(s, u, i) then s
    else if u !in s.store.users then Abort(s, i)
    else With(s, i, s.txs[i].(phase := next, users := s.txs[i].users + {u}))
  }

  function LockSessions(s: State, i: nat, u: nat): State
    requires i < |s.txs|
  {
    if !SessionsFree(s, u, i) then s else With(s, i, s.txs[i].(sessions := s.txs[i].sessions + {u}))
  }

  function Lower(a: nat, b: nat): nat {
    if b < a then b else a
  }

  function Upper(a: nat, b: nat): nat {
    if b < a then a else b
  }

  predicate ValidActor(user: User) {
    user.role == Administrator && user.accepted && !user.suspended && !user.muted
  }

  function StepChangeRole(s: State, i: nat): State
    requires i < |s.txs| && s.txs[i].op.ChangeRole?
  {
    var tx, op, users := s.txs[i], s.txs[i].op, s.store.users;
    match tx.phase
    case Begun =>
      if op.actor == op.target || op.role == op.expectedRole then Abort(s, i)
      else if !GovernanceFree(s) then s
      else With(s, i, tx.(phase := Governs, governs := true))
    case Governs => LockUser(s, i, Lower(op.actor, op.target), HoldsFirst)
    case HoldsFirst => LockUser(s, i, Upper(op.actor, op.target), HoldsBoth)
    case HoldsBoth =>
      if op.actor !in users || op.target !in users || !ValidActor(users[op.actor]) then Abort(s, i)
      else
        var target := users[op.target];
        if target.suspended || target.role != op.expectedRole || target.revision != op.revision
           || op.revision == MAX_REVISION || target.role == op.role then Abort(s, i)
        else if target.role == Administrator && op.role != Administrator && |Active(users)| <= 1 then Abort(s, i)
        else With(s, i, tx.(phase := Wrote(op.target, target.(role := op.role, revision := target.revision + 1))))
    case Wrote(target, user) =>
      if tx.sessions == {} then LockSessions(s, i, target)
      else Commit(s, i, s.store.(users := users[target := user]))
    case _ => s
  }

  function StepChangeMembership(s: State, i: nat): State
    requires i < |s.txs| && s.txs[i].op.ChangeMembership?
  {
    var tx, op, users := s.txs[i], s.txs[i].op, s.store.users;
    match tx.phase
    case Begun => LockUser(s, i, Lower(op.actor, op.target), if op.actor == op.target then HoldsBoth else HoldsFirst)
    case HoldsFirst => LockUser(s, i, Upper(op.actor, op.target), HoldsBoth)
    case HoldsBoth =>
      if op.actor !in users || op.target !in users || !ValidActor(users[op.actor]) then Abort(s, i)
      else
        var target := users[op.target];
        if target.suspended || target.revision != op.revision || op.revision == MAX_REVISION then Abort(s, i)
        else With(s, i, tx.(phase := Wrote(op.target, target.(revision := target.revision + 1))))
    case Wrote(target, user) => Commit(s, i, s.store.(users := users[target := user]))
    case _ => s
  }

  /** One session, or all of them at an expected revision; the rows written are the target's session rows. */
  function StepRevoke(s: State, i: nat): State
    requires i < |s.txs| && s.txs[i].op.RevokeSessions?
  {
    var tx, op, users := s.txs[i], s.txs[i].op, s.store.users;
    match tx.phase
    case Begun => LockUser(s, i, Lower(op.actor, op.target), if op.actor == op.target then HoldsBoth else HoldsFirst)
    case HoldsFirst => LockUser(s, i, Upper(op.actor, op.target), HoldsBoth)
    case HoldsBoth =>
      if op.actor !in users || op.target !in users || !ValidActor(users[op.actor]) then Abort(s, i)
      else if op.expected.Some? && users[op.target].revision != op.expected.value then Abort(s, i)
      else With(s, i, tx.(phase := Revoking))
    case Revoking => if tx.sessions == {} then LockSessions(s, i, op.target) else Commit(s, i, s.store)
    case _ => s
  }

  /**
   Bootstrap and claim count under the governance lock and then raise one user in a
   single guarded statement, which leaves the revision alone. A claim raises members
   only and locks its session before the user; neither asks whether the account is
   accepted.
   */
  function StepRaise(s: State, i: nat, user: nat): State
    requires i < |s.txs|
  {
    var tx, users := s.txs[i], s.store.users;
    match tx.phase
    case Begun => if !GovernanceFree(s) then s else With(s, i, tx.(phase := Governs, governs := true))
    case Governs =>
      if s.store.bootstraps != 0 || |Active(users)| != 0 then Abort(s, i)
      else With(s, i, tx.(phase := Counted))
    case Counted =>
      if tx.op.Claim? && tx.sessions == {} then LockSessions(s, i, user)
      else if !UserFree(s, user, i) then s
      else if user !in users || users[user].suspended || (tx.op.Claim? && users[user].role != Member) then Abort(s, i)
      else With(s, i, tx.(phase := Wrote(user, users[user].(role := Administrator)), users := tx.users + {user}))
    case Wrote(target, row) => Commit(s, i, Store(users[target := row], s.store.bootstraps + 1))
    case _ => s
  }

  predicate Over(tx: Tx) {
    tx.phase.Committed? || tx.phase.Aborted?
  }

  /** One step of a transaction, or its failure for a reason outside this model. */
  function Step(s: State, i: nat, fails: bool): (u: State)
    requires i < |s.txs|
    ensures |u.txs| == |s.txs|
  {
    if Over(s.txs[i]) then s
    else if fails then Abort(s, i)
    else match s.txs[i].op
      case ChangeRole(_, _, _, _, _) => StepChangeRole(s, i)
      case ChangeMembership(_, _, _) => StepChangeMembership(s, i)
      case RevokeSessions(_, _, _) => StepRevoke(s, i)
      case Bootstrap(user) => StepRaise(s, i, user)
      case Claim(user) => StepRaise(s, i, user)
  }

  function Begin(store: Store, ops: seq<Op>): State {
    State(store, seq(|ops|, i requires 0 <= i < |ops| => Tx(ops[i], Begun, false, {}, {})))
  }

  datatype Turn = Turn(tx: nat, fails: bool)

  function Run(store: Store, ops: seq<Op>, schedule: seq<Turn>): State {
    if schedule == [] then Begin(store, ops)
    else
      var s, turn := Run(store, ops, schedule[..|schedule| - 1]), schedule[|schedule| - 1];
      if turn.tx < |s.txs| then Step(s, turn.tx, turn.fails) else s
  }

  // ---- The invariant ----

  predicate Raises(op: Op) {
    op.Bootstrap? || op.Claim?
  }

  predicate Changes(op: Op) {
    op.ChangeRole? || op.ChangeMembership?
  }

  predicate ClaimsSessions(tx: Tx) {
    tx.op.Claim? && (tx.phase.Counted? || tx.phase.Wrote?) && tx.sessions == {tx.op.user}
  }

  /** What a transaction knows of the rows it has locked. */
  ghost predicate Fits(tx: Tx, store: Store) {
    && (tx.governs <==> (tx.op.ChangeRole? || Raises(tx.op)) && !tx.phase.Begun? && !Over(tx))
    && (forall u | u in tx.users :: u in store.users)
    && (tx.phase.Begun? || tx.phase.Governs? || tx.phase.Counted? || Over(tx) ==> tx.users == {})
    && (tx.phase.Revoking? ==> tx.op.RevokeSessions?)
    && (match tx.op
        case ChangeRole(actor, target, role, _, revision) =>
          && !tx.phase.Counted?
          && (tx.governs ==> actor != target)
          && (tx.sessions == {} || (tx.phase.Wrote? && tx.sessions == {target}))
          && (tx.phase.HoldsFirst? ==> tx.users == {Lower(actor, target)})
          && (tx.phase.HoldsBoth? || tx.phase.Wrote? ==> actor in tx.users && target in tx.users)
          && (tx.phase.Wrote? ==>
                && ValidActor(store.users[actor]) && tx.phase.target == target
                && store.users[target].revision == revision
                && tx.phase.user == store.users[target].(role := role, revision := revision + 1))
        case ChangeMembership(actor, target, revision) =>
          && !tx.phase.Counted? && !tx.phase.Governs? && tx.sessions == {}
          && (tx.phase.HoldsFirst? ==> actor != target && tx.users == {Lower(actor, target)})
          && (tx.phase.HoldsBoth? || tx.phase.Wrote? ==> actor in tx.users && target in tx.users)
          && (tx.phase.Wrote? ==>
                && tx.phase.target == target && store.users[target].revision == revision
                && tx.phase.user == store.users[target].(revision := revision + 1))
        case RevokeSessions(actor, target, _) =>
          && !tx.phase.Counted? && !tx.phase.Governs? && !tx.phase.Wrote?
          && (tx.sessions == {} || (tx.phase.Revoking? && tx.sessions == {target}))
          && (tx.phase.HoldsFirst? ==> actor != target && tx.users == {Lower(actor, target)})
          && (tx.phase.HoldsBoth? || tx.phase.Revoking? ==> actor in tx.users && target in tx.users)
          && (tx.phase.Revoking? ==> ValidActor(store.users[actor]))
        case _ =>
          && !tx.phase.HoldsFirst? && !tx.phase.HoldsBoth?
          && (tx.sessions == {} || ClaimsSessions(tx))
          && (tx.phase.Counted? || tx.phase.Wrote? ==> store.bootstraps == 0 && Active(store.users) == {})
          && (tx.phase.Wrote? ==>
                && tx.phase.target == tx.op.user && tx.op.user in tx.users
                && !store.users[tx.op.user].suspended
                && tx.phase.user == store.users[tx.op.user].(role := Administrator)))
  }

  ghost predicate Exclusive(s: State) {
    forall i, j | 0 <= i < j < |s.txs| ::
      && !(s.txs[i].governs && s.txs[j].governs)
      && s.txs[i].users !! s.txs[j].users && s.txs[i].sessions !! s.txs[j].sessions
  }

  /** Two changes of one account that start from the same revision of it. */
  predicate SameBase(a: Op, b: Op) {
    Changes(a) && Changes(b) && a.target == b.target && a.revision == b.revision
  }

  ghost predicate Consumed(op: Op, store: Store) {
    && (Raises(op) ==> store.bootstraps > 0)
    && (Changes(op) ==> op.target in store.users && op.revision < store.users[op.target].revision)
  }

  ghost predicate Based(s: State) {
    && (forall i | 0 <= i < |s.txs| && s.txs[i].phase.Committed? :: Consumed(s.txs[i].op, s.store))
    && (forall i, j | 0 <= i < j < |s.txs| && s.txs[i].phase.Committed? && s.txs[j].phase.Committed? ::
          !SameBase(s.txs[i].op, s.txs[j].op) && !(Raises(s.txs[i].op) && Raises(s.txs[j].op)))
  }

  ghost predicate Invariant(s: State) {
    && Exclusive(s) && Based(s)
    && (forall i | 0 <= i < |s.txs| :: Fits(s.txs[i], s.store))
  }

  lemma {:induction false} OwnStepKeeps(s: State, i: nat, tx: Tx)
    requires Invariant(s) && i < |s.txs| && !Over(s.txs[i]) && tx.op == s.txs[i].op && !tx.phase.Committed?
    requires Fits(tx, s.store)
    requires tx.governs ==> s.txs[i].governs || GovernanceFree(s)
    requires forall u | u in tx.users :: u in s.txs[i].users || UserFree(s, u, i)
    requires forall u | u in tx.sessions :: u in s.txs[i].sessions || SessionsFree(s, u, i)
    ensures Invariant(With(s, i, tx))
  {
    hide Fits, Consumed;
  }

  /** What a commit may do to the rows: one locked user's role and revision, revisions only upwards. */
  ghost predicate Succeeds(store: Store, next: Store, u: nat) {
    && u in store.users && next.users.Keys == store.users.Keys && store.bootstraps <= next.bootstraps
    && (forall v | v in store.users && v != u :: next.users[v] == store.users[v])
    && store.users[u].revision <= next.users[u].revision
    && next.users[u] == store.users[u].(role := next.users[u].role, revision := next.users[u].revision)
  }

  /** Only a transaction that governs may change roles or the count of bootstraps. */
  ghost predicate Entitled(tx: Tx, store: Store, next: Store, u: nat)
    requires Succeeds(store, next, u)
  {
    tx.governs || (next.bootstraps == store.bootstraps && next.users[u].role == store.users[u].role)
  }

  lemma {:induction false} SameActive(store: Store, next: Store, u: nat)
    requires Succeeds(store, next, u) && next.users[u].role == store.users[u].role
    ensures Active(next.users) == Active(store.users)
  {
  }

  lemma {:induction false} OthersFit(s: State, i: nat, u: nat, next: Store)
    requires Invariant(s) && i < |s.txs| && u in s.txs[i].users && Succeeds(s.store, next, u)
    requires Entitled(s.txs[i], s.store, next, u)
    ensures forall j | 0 <= j < |s.txs| && j != i :: Fits(s.txs[j], next)
  {
    forall j | 0 <= j < |s.txs| && j != i
      ensures Fits(s.txs[j], next)
    {
      assert Fits(s.txs[j], s.store) && u !in s.txs[j].users && !(s.txs[i].governs && s.txs[j].governs);
      if !s.txs[i].governs {
        SameActive(s.store, next, u);
      }
      hide Active;
    }
  }

  lemma {:induction false} CommitKeeps(s: State, i: nat, u: nat, next: Store)
    requires Invariant(s) && i < |s.txs| && !Over(s.txs[i]) && u in s.txs[i].users && Succeeds(s.store, next, u)
    requires Entitled(s.txs[i], s.store, next, u)
    requires Consumed(s.txs[i].op, next)
    requires Raises(s.txs[i].op) ==> s.store.bootstraps == 0
    requires Changes(s.txs[i].op) ==>
               s.txs[i].op.target in s.store.users && s.txs[i].op.revision >= s.store.users[s.txs[i].op.target].revision
    ensures Invariant(Commit(s, i, next))
  {
    var t := Commit(s, i, next);
    OthersFit(s, i, u, next);
    assert Fits(t.txs[i], next);
    hide Fits;
    assert forall j | 0 <= j < |s.txs| && j != i :: t.txs[j] == s.txs[j];
    forall j | 0 <= j < |s.txs| && j != i && s.txs[j].phase.Committed?
      ensures Consumed(s.txs[j].op, next) && !SameBase(s.txs[i].op, s.txs[j].op) && !SameBase(s.txs[j].op, s.txs[i].op)
      ensures !(Raises(s.txs[i].op) && Raises(s.txs[j].op))
    {
      assert Consumed(s.txs[j].op, s.store);
    }
  }

  lemma {:induction false} StepKeeps(s: State, i: nat, fails: bool)
    requires Invariant(s) && i < |s.txs|
    ensures Invariant(Step(s, i, fails)) && Step(s, i, fails).txs[i].op == s.txs[i].op
  {
    var tx := s.txs[i];
    assert Fits(tx, s.store);
    if !Over(tx) {
      if fails {
        OwnStepKeeps(s, i, Closing(tx, Aborted));
      } else if Commits(tx) {
        CommitsKeeps(s, i);
      } else {
        var u := Step(s, i, false);
        OwnFits(s, i);
        if u != s {
          hide Invariant;
          OwnStepKeeps(s, i, u.txs[i]);
        }
      }
    }
  }

  /** The next step commits. */
  predicate Commits(tx: Tx) {
    || (tx.phase.Wrote? && (tx.op.ChangeRole? ==> tx.sessions != {}))
    || (tx.phase.Revoking? && tx.sessions != {})
  }

  lemma {:induction false} CommitsKeeps(s: State, i: nat)
    requires Invariant(s) && i < |s.txs| && Commits(s.txs[i])
    ensures Invariant(Step(s, i, false))
  {
    var tx := s.txs[i];
    assert Fits(tx, s.store);
    if tx.phase.Revoking? {
      CommitKeeps(s, i, tx.op.target, s.store);
    } else {
      var users := s.store.users[tx.phase.target := tx.phase.user];
      assert users.Keys == s.store.users.Keys;
      CommitKeeps(s, i, tx.phase.target, Store(users, s.store.bootstraps + if Raises(tx.op) then 1 else 0));
    }
  }

  /** The rows stay as they are and the transaction fits them; new locks were free. */
  ghost predicate Moves(s: State, i: nat, u: State)
    requires i < |s.txs| == |u.txs|
  {
    var tx := u.txs[i];
    u == s || (u == With(s, i, tx) && Fits(tx, s.store) && tx.op == s.txs[i].op && !tx.phase.Committed?
               && (tx.governs ==> s.txs[i].governs || GovernanceFree(s))
               && (forall v | v in tx.users :: v in s.txs[i].users || UserFree(s, v, i))
               && (forall v | v in tx.sessions :: v in s.txs[i].sessions || SessionsFree(s, v, i)))
  }

  lemma {:induction false} ChangeRoleMoves(s: State, i: nat)
    requires i < |s.txs| && Fits(s.txs[i], s.store) && !Over(s.txs[i]) && !Commits(s.txs[i])
    requires s.txs[i].op.ChangeRole?
    ensures Moves(s, i, Step(s, i, false))
  {
    hide Active;
  }

  lemma {:induction false} ChangeMembershipMoves(s: State, i: nat)
    requires i < |s.txs| && Fits(s.txs[i], s.store) && !Over(s.txs[i]) && !Commits(s.txs[i])
    requires s.txs[i].op.ChangeMembership?
    ensures Moves(s, i, Step(s, i, false))
  {
    hide Active;
  }

  lemma {:induction false} RevocationMoves(s: State, i: nat)
    requires i < |s.txs| && Fits(s.txs[i], s.store) && !Over(s.txs[i]) && !Commits(s.txs[i])
    requires s.txs[i].op.RevokeSessions?
    ensures Moves(s, i, Step(s, i, false))
  {
    hide Active;
  }

  lemma {:induction false} RaiseMoves(s: State, i: nat)
    requires i < |s.txs| && Fits(s.txs[i], s.store) && !Over(s.txs[i]) && !Commits(s.txs[i])
    requires Raises(s.txs[i].op)
    ensures Moves(s, i, Step(s, i, false))
  {
    hide Active;
  }

  /** A step short of the commit leaves the rows alone and its transaction fitting them. */
  lemma {:induction false} OwnFits(s: State, i: nat)
    requires i < |s.txs| && Fits(s.txs[i], s.store) && !Over(s.txs[i]) && !Commits(s.txs[i])
    ensures Moves(s, i, Step(s, i, false))
  {
    hide Moves, Fits, Step;
    match s.txs[i].op
    case ChangeRole(_, _, _, _, _) => ChangeRoleMoves(s, i);
    case ChangeMembership(_, _, _) => ChangeMembershipMoves(s, i);
    case RevokeSessions(_, _, _) => RevocationMoves(s, i);
    case Bootstrap(_) => RaiseMoves(s, i);
    case Claim(_) => RaiseMoves(s, i);
  }

  lemma {:induction false} RunKeeps(store: Store, ops: seq<Op>, schedule: seq<Turn>)
    ensures Invariant(Run(store, ops, schedule))
    ensures |Run(store, ops, schedule).txs| == |ops|
    ensures forall i | 0 <= i < |ops| :: Run(store, ops, schedule).txs[i].op == ops[i]
  {
    if schedule != [] {
      RunKeeps(store, ops, schedule[..|schedule| - 1]);
      var s, turn := Run(store, ops, schedule[..|schedule| - 1]), schedule[|schedule| - 1];
      if turn.tx < |s.txs| {
        StepTouchesOnlyItself(s, turn.tx, turn.fails);
        hide Invariant, Step;
        StepKeeps(s, turn.tx, turn.fails);
      }
    }
  }

  lemma {:induction false} StepTouchesOnlyItself(s: State, i: nat, fails: bool)
    requires i < |s.txs|
    ensures forall j | 0 <= j < |s.txs| && j != i :: Step(s, i, fails).txs[j] == s.txs[j]
  {
  }

  // ---- Waiting ----

  /** The lock the next step asks for. */
  function Wanted(tx: Tx): Option<LockOrder.Lock> {
    match tx.op
    case ChangeRole(actor, target, role, expectedRole, _) =>
      (match tx.phase
       case Begun => if actor == target || role == expectedRole then None else Some(LockOrder.Governance)
       case Governs => Some(LockOrder.User(Lower(actor, target)))
       case HoldsFirst => Some(LockOrder.User(Upper(actor, target)))
       case Wrote(_, _) => if tx.sessions == {} then Some(LockOrder.Session(target)) else None
       case _ => None)
    case ChangeMembership(actor, target, _) => WantedUser(tx, actor, target)
    case RevokeSessions(actor, target, _) =>
      if tx.phase.Revoking? && tx.sessions == {} then Some(LockOrder.Session(target)) else WantedUser(tx, actor, target)
    case Bootstrap(user) => WantedToRaise(tx, user)
    case Claim(user) => WantedToRaise(tx, user)
  }

  function WantedUser(tx: Tx, actor: nat, target: nat): Option<LockOrder.Lock> {
    match tx.phase
    case Begun => Some(LockOrder.User(Lower(actor, target)))
    case HoldsFirst => Some(LockOrder.User(Upper(actor, target)))
    case _ => None
  }

  function WantedToRaise(tx: Tx, user: nat): Option<LockOrder.Lock> {
    match tx.phase
    case Begun => Some(LockOrder.Governance)
    case Counted =>
      if tx.op.Claim? && tx.sessions == {} then Some(LockOrder.Session(user)) else Some(LockOrder.User(user))
    case _ => None
  }

  function Held(tx: Tx): set<LockOrder.Lock> {
    (if tx.governs then {LockOrder.Governance} else {})
    + (set u | u in tx.users :: LockOrder.User(u)) + (set u | u in tx.sessions :: LockOrder.Session(u))
  }

  function Standings(s: State): (r: seq<Locks.Standing<LockOrder.Lock>>)
    ensures |r| == |s.txs| && forall i | 0 <= i < |r| :: r[i] == Locks.Standing(Held(s.txs[i]), Wanted(s.txs[i]))
  {
    seq(|s.txs|, i requires 0 <= i < |s.txs| => Locks.Standing(Held(s.txs[i]), Wanted(s.txs[i])))
  }

  /** Whose claim holds session rows. */
  ghost function Claiming(s: State): Option<nat> {
    if k :| 0 <= k < |s.txs| && s.txs[k].op.Claim? && s.txs[k].sessions != {} then Some(s.txs[k].op.user) else None
  }

  lemma {:induction false} UngovernedChange(tx: Tx, store: Store)
    requires Fits(tx, store) && tx.op.ChangeRole? && !tx.governs
    ensures Held(tx) == {}
  {
  }

  /** Whoever passed the check of a revocation is active. */
  lemma {:induction false} RevokingIsActive(tx: Tx, store: Store)
    requires Fits(tx, store) && tx.phase.Revoking?
    ensures tx.op.RevokeSessions? && tx.op.actor in Active(store.users)
  {
  }

  /**
   A claim that has passed its count sees no active administrator, and a revocation or a
   role change that has passed its check is an active administrator's: never both.
   */
  lemma {:induction false} GuardsExclude(s: State, i: nat)
    requires Invariant(s) && i < |s.txs| && Claiming(s).Some?
    ensures !s.txs[i].phase.Revoking? && (s.txs[i].op.ChangeRole? ==> Held(s.txs[i]) == {})
    ensures Raises(s.txs[i].op) && s.txs[i].governs ==> s.txs[i].op.Claim? && Claiming(s) == Some(s.txs[i].op.user)
  {
    var k :| 0 <= k < |s.txs| && s.txs[k].op.Claim? && s.txs[k].sessions != {} && Claiming(s) == Some(s.txs[k].op.user);
    assert Fits(s.txs[k], s.store) && Fits(s.txs[i], s.store);
    assert s.txs[k].governs && Active(s.store.users) == {};
    assert i != k ==> !s.txs[i].governs;
    hide Active, Held, Invariant;
    if s.txs[i].phase.Revoking? {
      RevokingIsActive(s.txs[i], s.store);
    } else if s.txs[i].op.ChangeRole? {
      UngovernedChange(s.txs[i], s.store);
    }
  }

  lemma {:induction false} TxClimbs(s: State, i: nat, lock: LockOrder.Lock)
    requires Invariant(s) && i < |s.txs| && Wanted(s.txs[i]).Some? && lock in Held(s.txs[i])
    ensures LockOrder.Order(LockOrder.Usual(Claiming(s)))(lock, Wanted(s.txs[i]).value)
  {
    var tx := s.txs[i];
    assert Fits(tx, s.store);
    if Claiming(s).Some? {
      GuardsExclude(s, i);
    } else if tx.op.Claim? {
      assert tx.sessions == {};
    }
  }

  /** A transaction that nobody keeps waiting moves on. */
  lemma {:induction false} UnblockedMoves(s: State, j: nat)
    requires Invariant(s) && j < |s.txs| && !Over(s.txs[j]) && !Locks.Blocked(Standings(s), j)
    ensures Step(s, j, false) != s
  {
    var r := Standings(s);
    assert Fits(s.txs[j], s.store);
    forall k: nat | k < |s.txs| && k != j
      ensures Wanted(s.txs[j]).Some? ==> Wanted(s.txs[j]).value !in Held(s.txs[k])
    {
      assert !Locks.WaitsFor(r, j, k);
    }
  }

  /**
   In every state of every run of role and membership changes, revocations, bootstraps
   and claims, whoever is revoked: no transactions wait for each other in a circle, and
   while one is open the next step of some open one changes the state.
   */
  lemma {:induction false} GuardsPreventDeadlock(store: Store, ops: seq<Op>, schedule: seq<Turn>, path: seq<nat>)
    ensures var s := Run(store, ops, schedule);
            && (Locks.Path(Standings(s), path) ==> path[0] != path[|path| - 1])
            && ((exists i :: 0 <= i < |s.txs| && !Over(s.txs[i]))
                ==> exists j :: 0 <= j < |s.txs| && !Over(s.txs[j]) && Step(s, j, false) != s)
  {
    var s := Run(store, ops, schedule);
    RunKeeps(store, ops, schedule);
    hide Invariant, Step, Held, Wanted, LockOrder.Order, Claiming, Run, Locks.Path, Locks.Strict;
    var r, before := Standings(s), LockOrder.Order(LockOrder.Usual(Claiming(s)));
    forall i, lock | 0 <= i < |r| && r[i].wanted.Some? && lock in r[i].held
      ensures before(lock, r[i].wanted.value)
    {
      TxClimbs(s, i, lock);
    }
    LockOrder.OrderIsStrict(LockOrder.Usual(Claiming(s)));
    if Locks.Path(r, path) {
      Locks.NoDeadlock(r, path, before);
    }
    if i: nat :| i < |s.txs| && !Over(s.txs[i]) {
      var j := Locks.SomeoneGoesOn(r, i, Locks.UpTo(|r|), before);
      if j != i {
        HoldersAreOpen(s, j);
      }
      UnblockedMoves(s, j);
    }
  }

  lemma {:induction false} HoldersAreOpen(s: State, j: nat)
    requires Invariant(s) && j < |s.txs| && Held(s.txs[j]) != {}
    ensures !Over(s.txs[j])
  {
    assert Fits(s.txs[j], s.store);
  }

  // ---- Results ----

  /** In every interleaving at most one bootstrap or claim commits. */
  lemma {:induction false} OneRaise(store: Store, ops: seq<Op>, schedule: seq<Turn>, i: nat, j: nat)
    requires i < j < |ops| && Raises(ops[i]) && Raises(ops[j])
    ensures var txs := Run(store, ops, schedule).txs;
            |txs| == |ops| && !(txs[i].phase.Committed? && txs[j].phase.Committed?)
  {
    RunKeeps(store, ops, schedule);
  }

  /** Of role and membership changes of one account based on the same revision, at most one commits. */
  lemma {:induction false} OneCommitPerRevision(store: Store, ops: seq<Op>, schedule: seq<Turn>, i: nat, j: nat)
    requires i < j < |ops| && SameBase(ops[i], ops[j])
    ensures var txs := Run(store, ops, schedule).txs;
            |txs| == |ops| && !(txs[i].phase.Committed? && txs[j].phase.Committed?)
  {
    RunKeeps(store, ops, schedule);
  }

  lemma {:induction false} StepKeepsSomeone(s: State, i: nat, fails: bool)
    requires Invariant(s) && i < |s.txs| && Active(s.store.users) != {}
    ensures Active(Step(s, i, fails).store.users) != {}
  {
    var tx, u := s.txs[i], Step(s, i, fails);
    assert Fits(tx, s.store);
    if u.store != s.store {
      if tx.op.ChangeRole? {
        assert tx.op.actor in Active(u.store.users);
      } else {
        var a :| a in Active(s.store.users);
        assert a in Active(u.store.users);
      }
    }
  }

  /** Once an active administrator exists, one exists after every continuation. */
  lemma {:induction false} AdministrationContinues(store: Store, ops: seq<Op>, schedule: seq<Turn>, more: seq<Turn>)
    requires Active(Run(store, ops, schedule).store.users) != {}
    ensures Active(Run(store, ops, schedule + more).store.users) != {}
    decreases |more|
  {
    hide Active, Run;
    if more == [] {
      assert schedule + more == schedule;
    } else {
      var n := |more| - 1;
      AdministrationContinues(store, ops, schedule, more[..n]);
      assert schedule + more == (schedule + more[..n]) + [more[n]];
      TurnKeepsSomeone(store, ops, schedule + more[..n], more[n]);
    }
  }

  lemma {:induction false} TurnKeepsSomeone(store: Store, ops: seq<Op>, schedule: seq<Turn>, turn: Turn)
    requires Active(Run(store, ops, schedule).store.users) != {}
    ensures Active(Run(store, ops, schedule + [turn]).store.users) != {}
  {
    hide Invariant, Active, Step;
    RunKeeps(store, ops, schedule);
    assert (schedule + [turn])[..|schedule|] == schedule;
    if turn.tx < |ops| {
      StepKeepsSomeone(Run(store, ops, schedule), turn.tx, turn.fails);
    }
  }

  lemma {:induction false} Singleton<T>(s: set<T>, x: T)
    requires x in s && |s| <= 1
    ensures s == {x}
  {
    assert |s - {x}| == 0;
  }

  /**
   The count that guards a demotion never protects the last active administrator,
   who is the acting one. It refuses exactly when the target, not being
   accepted, was never counted and the acting administrator is the only one.
   */
  lemma {:induction false} ContinuityGuard(users: map<nat, User>, actor: nat, target: nat)
    requires actor != target && actor in users && target in users && ValidActor(users[actor])
    requires users[target].role == Administrator && !users[target].suspended
    ensures |Active(users)| <= 1 <==> Active(users) == {actor} && !users[target].accepted
    ensures forall row: User | row.role != Administrator :: actor in Active(users[target := row])
  {
    assert actor in Active(users);
    if |Active(users)| <= 1 {
      Singleton(Active(users), actor);
      assert target !in Active(users);
    }
  }

  /** When a bootstrap or claim commits, the active administrators are exactly the raised account, if it is accepted. */
  lemma {:induction false} RaisedIsActive(store: Store, ops: seq<Op>, schedule: seq<Turn>, i: nat)
    requires i < |ops| && Raises(ops[i])
    requires |Run(store, ops, schedule).txs| == |ops| && Run(store, ops, schedule).txs[i].phase.Wrote?
    ensures var u := Step(Run(store, ops, schedule), i, false);
            && u.txs[i].phase.Committed? && ops[i].user in u.store.users && u.store.bootstraps == 1
            && Active(u.store.users) == if u.store.users[ops[i].user].accepted then {ops[i].user} else {}
  {
    RunKeeps(store, ops, schedule);
    var s := Run(store, ops, schedule);
    assert Fits(s.txs[i], s.store);
    var u := Step(s, i, false);
    forall v | v in Active(u.store.users)
      ensures v == ops[i].user
    {
      assert v != ops[i].user ==> v in Active(s.store.users);
    }
  }

  /** Steps 0 to 3 of a bootstrap that finds an unused trail, no active administrator and its user. */
  lemma {:induction false} BootstrapRuns(s: State, i: nat)
    requires i < |s.txs| && s.txs[i] == Tx(s.txs[i].op, Begun, false, {}, {}) && s.txs[i].op.Bootstrap?
    requires forall j | 0 <= j < |s.txs| :: !s.txs[j].governs && s.txs[j].users == {}
    requires s.store.bootstraps == 0 && Active(s.store.users) == {}
    requires var u := s.txs[i].op.user; u in s.store.users && !s.store.users[u].suspended
    ensures var u, t := s.txs[i].op.user, Step(Step(Step(Step(s, i, false), i, false), i, false), i, false);
            t == Commit(s, i, Store(s.store.users[u := s.store.users[u].(role := Administrator)], 1))
  {
  }

  /** Once a bootstrap is on the trail, every later one stops after taking the lock. */
  lemma {:induction false} LateRaiseAborts(s: State, i: nat)
    requires i < |s.txs| && s.txs[i].phase.Begun? && Raises(s.txs[i].op) && s.store.bootstraps != 0 && GovernanceFree(s)
    ensures Step(Step(s, i, false), i, false) == Abort(s, i)
  {
  }

  /**
   Neither bootstrap nor claim asks for acceptance: raising an account that is not
   accepted spends the one bootstrap and leaves nobody who can administer.
   */
  lemma {:induction false} RaiseCanLockOut(u: nat) returns (schedule: seq<Turn>)
    ensures var store := Store(map[u := User(Member, 1, false, false, false)], 0);
            var s := Run(store, [Bootstrap(u), Claim(u)], schedule);
            |s.txs| == 2 && s.txs[0].phase.Committed? && s.txs[1].phase.Aborted? && Active(s.store.users) == {}
  {
    var store := Store(map[u := User(Member, 1, false, false, false)], 0);
    var ops, go, late := [Bootstrap(u), Claim(u)], Turn(0, false), Turn(1, false);
    hide Step;
    BootstrapRuns(Run(store, ops, []), 0);
    RunNext(store, ops, [], go);
    RunNext(store, ops, [] + [go], go);
    RunNext(store, ops, [] + [go] + [go], go);
    RunNext(store, ops, [] + [go] + [go] + [go], go);
    schedule := [] + [go] + [go] + [go] + [go];
    LateRaiseAborts(Run(store, ops, schedule), 1);
    RunNext(store, ops, schedule, late);
    RunNext(store, ops, schedule + [late], late);
    schedule := schedule + [late] + [late];
  }

  lemma {:induction false} RunNext(store: Store, ops: seq<Op>, schedule: seq<Turn>, turn: Turn)
    requires turn.tx < |ops|
    ensures |Run(store, ops, schedule).txs| == |ops|
    ensures Run(store, ops, schedule + [turn]) == Step(Run(store, ops, schedule), turn.tx, turn.fails)
  {
    assert (schedule + [turn])[..|schedule|] == schedule;
    RunKeeps(store, ops, schedule);
  }
}
