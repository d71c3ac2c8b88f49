/**
 The rule that registration is open only while delivery is verified, kept by four
 kinds of transaction over two settings rows and by an email test whose message is
 sent between two transactions.

 A row lock is taken by a step, lasts until commit or abort, and a write becomes
 visible at commit. A step that finds its row locked changes nothing.
 */
module RegistrationGate {
  import opened Options

  datatype Mode = Closed | VerifiedEmailOpen | AdministratorApproval | InvitationOnly

  /** Revisions are 64-bit; the last one admits no further update. */
  const MAX_REVISION: int := 0x7FFF_FFFF_FFFF_FFFF

  /** The settings row. `other` stands for the settings an update may change besides the mode. */
  datatype ControlRow = ControlRow(mode: Mode, other: nat, revision: int)

  /** How messages are delivered; `rest` stands for port, credentials, sender, TLS mode and timeout. */
  datatype Delivery = Delivery(host: string, rest: nat)

  datatype SmtpRow = SmtpRow(delivery: Delivery, revision: int, verified: Option<int>)

  datatype TestRow = TestRow(key: nat, requested: bool, revision: int)

  /** `delivered` records which revision a test message was accepted for, and how it was delivered. */
  datatype Store = Store(control: ControlRow, smtp: SmtpRow, tests: map<nat, TestRow>, delivered: set<(int, Delivery)>)

  datatype Op =
    | UpdateControl(mode: Mode, other: nat, expected: int)
    | UpdateSite(expected: int)
    | UpdateSmtp(delivery: Delivery, expected: int)
    | TestEmail(administrator: nat, key: nat)

  datatype Phase =
    | Begun | HoldsControl | HoldsSmtp | WroteControl(newControl: ControlRow) | WroteSmtp(newSmtp: SmtpRow)
    | Pinned(revision: int) | Reserved(revision: int) | Sent(revision: int, accepted: bool, through: Delivery)
    | Committed | Aborted

  datatype Tx = Tx(op: Op, phase: Phase, control: bool, smtp: bool)

  datatype State = State(store: Store, txs: seq<Tx>)

  /** What the surroundings decide: to go on, to fail, or what became of a message. */
  datatype Choice = Go | Fail | Accept

  predicate Verified(smtp: SmtpRow) {
    smtp.delivery.host != "" && smtp.verified == Some(smtp.revision)
  }

  predicate ControlFree(s: State) {
    forall j | 0 <= j < |s.txs| :: !s.txs[j].control
  }

  predicate SmtpFree(s: State) {
    forall j | 0 <= j < |s.txs| :: !s.txs[j].smtp
  }

  function Closing(tx: Tx, phase: Phase): Tx {
    Tx(tx.op, phase, false, false)
  }

  function With(s: State, i: nat, tx: Tx): State
    requires i < |s.txs|
  {
    s.(txs := s.txs[i := tx])
  }

  function Abort(s: State, i: nat): State
    requires i < |s.txs|
  {
    With(s, i, Closing(s.txs[i], Aborted))
  }

  function Commit(s: State, i: nat, store: Store): State
    requires i < |s.txs|
  {
    State(store, s.txs[i := Closing(s.txs[i], Committed)])
  }

  /** Control update: lock and check the settings row, for an open mode lock and check the SMTP row, write, commit. */
  function StepUpdateControl(s: State, i: nat): State
    requires i < |s.txs| && s.txs[i].op.UpdateControl?
  {
    var tx, op, row, smtp := s.txs[i], s.txs[i].op, s.store.control, s.store.smtp;
    match tx.phase
    case Begun =>
      if !ControlFree(s) then s
      else if row.revision != op.expected || row.revision == MAX_REVISION then Abort(s, i)
      else if row.mode == op.mode && row.other == op.other then Abort(s, i)
      else With(s, i, tx.(phase := HoldsControl, control := true))
    case HoldsControl =>
      if op.mode != Closed then
        if !SmtpFree(s) then s
        else if smtp.delivery.host == "" || smtp.verified != Some(smtp.revision) then Abort(s, i)
        else With(s, i, tx.(phase := HoldsSmtp, smtp := true))
      else WriteControl(s, i, op.mode, op.other, op.expected)
    case HoldsSmtp => WriteControl(s, i, op.mode, op.other, op.expected)
    case WroteControl(row) => Commit(s, i, s.store.(control := row))
    case _ => s
  }

  /** The guarded update statement. */
  function WriteControl(s: State, i: nat, mode: Mode, other: nat, expected: int): State
    requires i < |s.txs|
  {
    var row := s.store.control;
    if row.revision != expected || row.revision >= MAX_REVISION then Abort(s, i)
    else With(s, i, s.txs[i].(phase := WroteControl(ControlRow(mode, other, row.revision + 1))))
  }

  /** The site's texts live in the same row and share its revision. */
  function StepUpdateSite(s: State, i: nat): State
    requires i < |s.txs| && s.txs[i].op.UpdateSite?
  {
    var tx, op, row := s.txs[i], s.txs[i].op, s.store.control;
    match tx.phase
    case Begun =>
      if !ControlFree(s) then s
      else if row.revision != op.expected then Abort(s, i)
      else With(s, i, tx.(phase := HoldsControl, control := true))
    case HoldsControl => WriteControl(s, i, row.mode, row.other, op.expected)
    case WroteControl(row) => Commit(s, i, s.store.(control := row))
    case _ => s
  }

  function StepUpdateSmtp(s: State, i: nat): State
    requires i < |s.txs| && s.txs[i].op.UpdateSmtp?
  {
    var tx, op, row := s.txs[i], s.txs[i].op, s.store.smtp;
    match tx.phase
    case Begun =>
      if op.delivery.host == "" then Abort(s, i)
      else if !ControlFree(s) then s
      else if s.store.control.mode != Closed then Abort(s, i)
      else With(s, i, tx.(phase := HoldsControl, control := true))
    case HoldsControl =>
      if !SmtpFree(s) then s
      else if row.revision != op.expected || row.delivery == op.delivery then Abort(s, i)
      else With(s, i, tx.(phase := HoldsSmtp, smtp := true))
    case HoldsSmtp =>
      if s.store.control.mode != Closed || row.revision != op.expected || row.revision >= MAX_REVISION then Abort(s, i)
      else With(s, i, tx.(phase := WroteSmtp(SmtpRow(op.delivery, row.revision + 1, None))))
    case WroteSmtp(row) => Commit(s, i, s.store.(smtp := row))
    case _ => s
  }

  /**
   Email test: read the revision without a lock; reserve; send through the settings
   of the moment, unless they have moved on; complete in one statement, which
   verifies the revision only if the message was accepted and the revision is still
   the pinned one.
   */
  function StepTestEmail(s: State, i: nat, choice: Choice): State
    requires i < |s.txs| && s.txs[i].op.TestEmail?
  {
    var tx, op, smtp := s.txs[i], s.txs[i].op, s.store.smtp;
    match tx.phase
    case Begun => if smtp.revision < 1 then Abort(s, i) else With(s, i, tx.(phase := Pinned(smtp.revision)))
    case Pinned(revision) =>
      State(s.store.(tests := s.store.tests[op.administrator := TestRow(op.key, true, revision)]),
            s.txs[i := tx.(phase := Reserved(revision))])
    case Reserved(revision) =>
      if smtp.revision == revision && choice == Accept then
        State(s.store.(delivered := s.store.delivered + {(revision, smtp.delivery)}),
              s.txs[i := tx.(phase := Sent(revision, true, smtp.delivery))])
      else With(s, i, tx.(phase := Sent(revision, false, smtp.delivery)))
    case Sent(revision, accepted, _) =>
      if accepted && !SmtpFree(s) then s
      else if op.administrator !in s.store.tests then Abort(s, i)
      else
        var row := s.store.tests[op.administrator];
        if row.key != op.key || !row.requested || row.revision != revision then Abort(s, i)
        else
          var tests := s.store.tests[op.administrator := row.(requested := false)];
          if accepted && row.revision == smtp.revision && smtp.delivery.host != "" then
            Commit(s, i, s.store.(tests := tests, smtp := smtp.(verified := Some(smtp.revision))))
          else Commit(s, i, s.store.(tests := tests))
    case _ => s
  }

  predicate Over(tx: Tx) {
    tx.phase.Committed? || tx.phase.Aborted?
  }

  function Step(s: State, i: nat, choice: Choice): (u: State)
    requires i < |s.txs|
    ensures |u.txs| == |s.txs| && forall j | 0 <= j < |s.txs| && j != i :: u.txs[j] == s.txs[j]
  {
    if Over(s.txs[i]) then s
    else if choice == Fail then Abort(s, i)
    else match s.txs[i].op
      case UpdateControl(_, _, _) => StepUpdateControl(s, i)
      case UpdateSite(_) => StepUpdateSite(s, i)
      case UpdateSmtp(_, _) => StepUpdateSmtp(s, i)
      case TestEmail(_, _) => StepTestEmail(s, i, choice)
  }

  /** The rows the migrations seed: closed, unconfigured, unverified. */
  const SEED := Store(ControlRow(Closed, 0, 1), SmtpRow(Delivery("", 0), 1, None), map[], {})

  function Begin(ops: seq<Op>): State {
    State(SEED, seq(|ops|, i requires 0 <= i < |ops| => Tx(ops[i], Begun, false, false)))
  }

  datatype Turn = Turn(tx: nat, choice: Choice)

  /** The state after the turns of a schedule; a turn of no transaction does nothing. */
  function Run(ops: seq<Op>, schedule: seq<Turn>): State {
    if schedule == [] then Begin(ops)
    else
      var s, turn := Run(ops, schedule[..|schedule| - 1]), schedule[|schedule| - 1];
      if turn.tx < |s.txs| then Step(s, turn.tx, turn.choice) else s
  }

  // ---- The invariant ----

  ghost predicate Gate(store: Store) {
    && (store.control.mode != Closed ==> Verified(store.smtp))
    && (store.smtp.verified.Some?
        ==> Verified(store.smtp) && (store.smtp.revision, store.smtp.delivery) in store.delivered)
  }

  /** What a transaction's phase says about the rows it has locked or the revision it has pinned. */
  ghost predicate Fits(tx: Tx, store: Store) {
    && (tx.control <==> !tx.op.TestEmail? && !tx.phase.Begun? && !Over(tx))
    && (tx.smtp ==> tx.control)
    && (match tx.op
        case UpdateControl(mode, other, expected) =>
          && !tx.phase.WroteSmtp?
          && (tx.smtp <==> mode != Closed && (tx.phase.HoldsSmtp? || tx.phase.WroteControl?))
          && (tx.control ==> store.control.revision == expected)
          && (tx.smtp ==> Verified(store.smtp))
          && (tx.phase.HoldsSmtp? ==> tx.smtp)
          && (tx.phase.WroteControl? ==> tx.phase.newControl == ControlRow(mode, other, expected + 1))
        case UpdateSite(expected) =>
          && !tx.smtp && !tx.phase.WroteSmtp? && !tx.phase.HoldsSmtp?
          && (tx.control ==> store.control.revision == expected)
          && (tx.phase.WroteControl? ==> tx.phase.newControl == store.control.(revision := expected + 1))
        case UpdateSmtp(delivery, expected) =>
          && !tx.phase.WroteControl?
          && (tx.control ==> store.control.mode == Closed && delivery.host != "")
          && (tx.smtp <==> tx.phase.HoldsSmtp? || tx.phase.WroteSmtp?)
          && (tx.smtp ==> store.smtp.revision == expected)
          && (tx.phase.WroteSmtp? ==> tx.phase.newSmtp == SmtpRow(delivery, expected + 1, None))
        case TestEmail(_, _) =>
          && (tx.phase.Pinned? || tx.phase.Reserved? || tx.phase.Sent? ==> tx.phase.revision <= store.smtp.revision)
          && (tx.phase.Sent? && tx.phase.accepted ==>
                && (tx.phase.revision, tx.phase.through) in store.delivered
                && (store.smtp.revision == tx.phase.revision ==> store.smtp.delivery == tx.phase.through)))
  }

  ghost predicate Exclusive(s: State) {
    forall i, j | 0 <= i < j < |s.txs| :: !(s.txs[i].control && s.txs[j].control) && !(s.txs[i].smtp && s.txs[j].smtp)
  }

  /** Which revision of the settings row or of the SMTP row a committed update was based on. */
  ghost predicate Based(s: State) {
    && (forall i | 0 <= i < |s.txs| && s.txs[i].phase.Committed? :: Consumed(s.txs[i].op, s.store))
    && (forall i, j | 0 <= i < j < |s.txs| && s.txs[i].phase.Committed? && s.txs[j].phase.Committed? ::
          !SameBase(s.txs[i].op, s.txs[j].op))
  }

  predicate WritesControl(op: Op) {
    op.UpdateControl? || op.UpdateSite?
  }

  ghost predicate Consumed(op: Op, store: Store) {
    && (WritesControl(op) ==> op.expected < store.control.revision)
    && (op.UpdateSmtp? ==> op.expected < store.smtp.revision)
  }

  /** Two updates of one row that start from the same revision of it. */
  predicate SameBase(a: Op, b: Op) {
    ((WritesControl(a) && WritesControl(b)) || (a.UpdateSmtp? && b.UpdateSmtp?)) && a.expected == b.expected
  }

  ghost predicate Invariant(s: State) {
    && Gate(s.store) && Exclusive(s) && Based(s)
    && (forall i | 0 <= i < |s.txs| :: Fits(s.txs[i], s.store))
  }

  /** A step that changes nothing but its own transaction. */
  lemma {:induction false} OwnStepKeeps(s: State, i: nat, tx: Tx)
    requires Invariant(s) && i < |s.txs| && !Over(s.txs[i]) && tx.op == s.txs[i].op && !tx.phase.Committed?
    requires Fits(tx, s.store)
    requires tx.control ==> s.txs[i].control || ControlFree(s)
    requires tx.smtp ==> s.txs[i].smtp || SmtpFree(s)
    ensures Invariant(With(s, i, tx))
  {
    hide Fits, Gate;
  }

  /** A commit whose new store still fits every other transaction. */
  lemma {:induction false} CommitKeeps(s: State, i: nat, store: Store)
    requires Invariant(s) && i < |s.txs| && !Over(s.txs[i]) && Gate(store)
    requires forall j | 0 <= j < |s.txs| && j != i :: Fits(s.txs[j], store)
    requires s.store.control.revision <= store.control.revision && s.store.smtp.revision <= store.smtp.revision
    requires Consumed(s.txs[i].op, store)
    requires WritesControl(s.txs[i].op) ==> s.txs[i].op.expected >= s.store.control.revision
    requires s.txs[i].op.UpdateSmtp? ==> s.txs[i].op.expected >= s.store.smtp.revision
    ensures Invariant(Commit(s, i, store))
  {
    var u := Commit(s, i, store);
    assert Fits(u.txs[i], store);
    hide Fits, Gate;
    assert forall j | 0 <= j < |s.txs| && j != i :: u.txs[j] == s.txs[j];
    forall j | 0 <= j < |s.txs| && j != i && s.txs[j].phase.Committed?
      ensures Consumed(s.txs[j].op, store) && !SameBase(s.txs[i].op, s.txs[j].op) && !SameBase(s.txs[j].op, s.txs[i].op)
    {
      assert Consumed(s.txs[j].op, s.store);
    }
  }

  lemma {:induction false} ControlCommitFits(s: State, i: nat, row: ControlRow)
    requires Invariant(s) && i < |s.txs| && s.txs[i].control && row.revision == s.store.control.revision + 1
    ensures forall j | 0 <= j < |s.txs| && j != i :: Fits(s.txs[j], s.store.(control := row))
  {
    forall j | 0 <= j < |s.txs| && j != i
      ensures Fits(s.txs[j], s.store.(control := row))
    {
      assert Fits(s.txs[j], s.store) && !s.txs[j].control;
    }
  }

  lemma {:induction false} StepUpdateControlKeeps(s: State, i: nat)
    requires Invariant(s) && i < |s.txs| && s.txs[i].op.UpdateControl? && !Over(s.txs[i])
    ensures Invariant(StepUpdateControl(s, i))
  {
    var tx := s.txs[i];
    assert Fits(tx, s.store);
    var u := StepUpdateControl(s, i);
    if tx.phase.WroteControl? {
      ControlCommitFits(s, i, tx.phase.newControl);
      CommitKeeps(s, i, s.store.(control := tx.phase.newControl));
    } else if u != s {
      hide Invariant;
      OwnStepKeeps(s, i, u.txs[i]);
    }
  }

  lemma {:induction false} StepUpdateSiteKeeps(s: State, i: nat)
    requires Invariant(s) && i < |s.txs| && s.txs[i].op.UpdateSite? && !Over(s.txs[i])
    ensures Invariant(StepUpdateSite(s, i))
  {
    var tx := s.txs[i];
    assert Fits(tx, s.store);
    var u := StepUpdateSite(s, i);
    if tx.phase.WroteControl? {
      ControlCommitFits(s, i, tx.phase.newControl);
      CommitKeeps(s, i, s.store.(control := tx.phase.newControl));
    } else if u != s {
      hide Invariant;
      OwnStepKeeps(s, i, u.txs[i]);
    }
  }

  lemma {:induction false} SmtpCommitFits(s: State, i: nat, row: SmtpRow)
    requires Invariant(s) && i < |s.txs| && s.txs[i].smtp && row.revision == s.store.smtp.revision + 1
    ensures forall j | 0 <= j < |s.txs| && j != i :: Fits(s.txs[j], s.store.(smtp := row))
  {
    forall j | 0 <= j < |s.txs| && j != i
      ensures Fits(s.txs[j], s.store.(smtp := row))
    {
      assert Fits(s.txs[j], s.store) && !s.txs[j].smtp;
    }
  }

  lemma {:induction false} StepUpdateSmtpKeeps(s: State, i: nat)
    requires Invariant(s) && i < |s.txs| && s.txs[i].op.UpdateSmtp? && !Over(s.txs[i])
    ensures Invariant(StepUpdateSmtp(s, i))
  {
    var tx := s.txs[i];
    assert Fits(tx, s.store);
    var u := StepUpdateSmtp(s, i);
    if tx.phase.WroteSmtp? {
      SmtpCommitFits(s, i, tx.phase.newSmtp);
      CommitKeeps(s, i, s.store.(smtp := tx.phase.newSmtp));
    } else if u != s {
      hide Invariant;
      OwnStepKeeps(s, i, u.txs[i]);
    }
  }

  /** Growing the tests or the record of deliveries disturbs no one. */
  lemma {:induction false} RecordingFits(s: State, tests: map<nat, TestRow>, delivered: set<(int, Delivery)>)
    requires Invariant(s) && s.store.delivered <= delivered
    ensures Invariant(s.(store := s.store.(tests := tests, delivered := delivered)))
  {
    var store := s.store.(tests := tests, delivered := delivered);
    forall j | 0 <= j < |s.txs|
      ensures Fits(s.txs[j], store)
    {
      assert Fits(s.txs[j], s.store);
    }
  }

  lemma {:induction false} VerifyingFits(s: State, i: nat)
    requires Invariant(s) && i < |s.txs| && SmtpFree(s)
    ensures forall j | 0 <= j < |s.txs| && j != i ::
              Fits(s.txs[j], s.store.(smtp := s.store.smtp.(verified := Some(s.store.smtp.revision))))
  {
    forall j | 0 <= j < |s.txs| && j != i
      ensures Fits(s.txs[j], s.store.(smtp := s.store.smtp.(verified := Some(s.store.smtp.revision))))
    {
      assert Fits(s.txs[j], s.store);
    }
  }

  lemma {:induction false} StepTestEmailKeeps(s: State, i: nat, choice: Choice)
    requires Invariant(s) && i < |s.txs| && s.txs[i].op.TestEmail? && !Over(s.txs[i])
    ensures Invariant(StepTestEmail(s, i, choice))
  {
    var tx, store := s.txs[i], s.store;
    assert Fits(tx, store);
    var u := StepTestEmail(s, i, choice);
    var t := s.(store := store.(tests := u.store.tests, delivered := u.store.delivered));
    RecordingFits(s, u.store.tests, u.store.delivered);
    if u.txs[i].phase.Committed? {
      if u.store.smtp != store.smtp {
        VerifyingFits(t, i);
      }
      CommitKeeps(t, i, u.store);
    } else if u != s {
      assert Fits(u.txs[i], t.store);
      hide Invariant;
      OwnStepKeeps(t, i, u.txs[i]);
    }
  }

  lemma {:induction false} AbortKeeps(s: State, i: nat)
    requires Invariant(s) && i < |s.txs| && !Over(s.txs[i])
    ensures Invariant(Abort(s, i))
  {
    assert Fits(s.txs[i], s.store);
    OwnStepKeeps(s, i, Closing(s.txs[i], Aborted));
  }

  lemma {:induction false} StepKeeps(s: State, i: nat, choice: Choice)
    requires Invariant(s) && i < |s.txs|
    ensures Invariant(Step(s, i, choice)) && Step(s, i, choice).txs[i].op == s.txs[i].op
  {
    if !Over(s.txs[i]) {
      hide Invariant;
      if choice == Fail {
        AbortKeeps(s, i);
      } else {
        match s.txs[i].op
        case UpdateControl(_, _, _) => StepUpdateControlKeeps(s, i);
        case UpdateSite(_) => StepUpdateSiteKeeps(s, i);
        case UpdateSmtp(_, _) => StepUpdateSmtpKeeps(s, i);
        case TestEmail(_, _) => StepTestEmailKeeps(s, i, choice);
      }
    }
  }

  lemma {:induction false} RunKeeps(ops: seq<Op>, schedule: seq<Turn>)
    ensures Invariant(Run(ops, schedule))
    ensures |Run(ops, schedule).txs| == |ops|
    ensures forall i | 0 <= i < |ops| :: Run(ops, schedule).txs[i].op == ops[i]
  {
    if schedule != [] {
      RunKeeps(ops, schedule[..|schedule| - 1]);
      var s, turn := Run(ops, schedule[..|schedule| - 1]), schedule[|schedule| - 1];
      if turn.tx < |s.txs| {
        hide Invariant, Step;
        StepKeeps(s, turn.tx, turn.choice);
      }
    }
  }

  /** In every interleaving, open registration means a configured host whose current revision is verified. */
  lemma {:induction false} OpenMeansVerified(ops: seq<Op>, schedule: seq<Turn>)
    ensures var store := Run(ops, schedule).store;
            store.control.mode != Closed ==>
              store.smtp.delivery.host != "" && store.smtp.verified == Some(store.smtp.revision)
  {
    RunKeeps(ops, schedule);
  }

  /** And a verified revision means a test message went out through exactly the settings now stored and was accepted. */
  lemma {:induction false} VerifiedMeansDelivered(ops: seq<Op>, schedule: seq<Turn>)
    ensures var smtp, delivered := Run(ops, schedule).store.smtp, Run(ops, schedule).store.delivered;
            smtp.verified.Some? ==> smtp.verified.value == smtp.revision && (smtp.revision, smtp.delivery) in delivered
  {
    RunKeeps(ops, schedule);
  }

  /** Of updates of one row based on the same revision, at most one commits. */
  lemma {:induction false} OneCommitPerRevision(ops: seq<Op>, schedule: seq<Turn>, i: nat, j: nat)
    requires i < j < |ops| && SameBase(ops[i], ops[j])
    ensures var txs := Run(ops, schedule).txs; |txs| == |ops| && !(txs[i].phase.Committed? && txs[j].phase.Committed?)
  {
    RunKeeps(ops, schedule);
  }

  lemma {:induction false} RunNext(ops: seq<Op>, schedule: seq<Turn>, turn: Turn)
    requires turn.tx < |ops|
    ensures |Run(ops, schedule).txs| == |ops|
    ensures Run(ops, schedule + [turn]) == Step(Run(ops, schedule), turn.tx, turn.choice)
  {
    assert (schedule + [turn])[..|schedule|] == schedule;
    RunKeeps(ops, schedule);
  }

  function FourSteps(s: State, i: nat, choice: Choice): (u: State)
    requires i < |s.txs|
    ensures |u.txs| == |s.txs|
  {
    Step(Step(Step(Step(s, i, choice), i, choice), i, choice), i, choice)
  }

  ghost predicate Idle(s: State) {
    forall j | 0 <= j < |s.txs| :: !s.txs[j].control && !s.txs[j].smtp
  }

  lemma {:induction false} SmtpRuns(s: State, i: nat)
    requires Idle(s) && i < |s.txs| && s.txs[i].phase.Begun? && s.store.control.mode == Closed
    requires s.txs[i].op.UpdateSmtp? && s.txs[i].op.delivery.host != "" && s.txs[i].op.delivery != s.store.smtp.delivery
    requires s.txs[i].op.expected == s.store.smtp.revision < MAX_REVISION
    ensures FourSteps(s, i, Go)
            == Commit(s, i, s.store.(smtp := SmtpRow(s.txs[i].op.delivery, s.store.smtp.revision + 1, None)))
  {
  }

  lemma {:induction false} TestRuns(s: State, i: nat)
    requires Idle(s) && i < |s.txs| && s.txs[i].phase.Begun? && s.txs[i].op.TestEmail?
    requires s.store.smtp.revision >= 1 && s.store.smtp.delivery.host != ""
    ensures var u := FourSteps(s, i, Accept);
            && u.store.smtp == s.store.smtp.(verified := Some(s.store.smtp.revision))
            && u.store.control == s.store.control
            && u.txs == s.txs[i := Closing(s.txs[i], Committed)]
  {
  }

  lemma {:induction false} ControlRuns(s: State, i: nat)
    requires Idle(s) && i < |s.txs| && s.txs[i].phase.Begun? && s.txs[i].op.UpdateControl?
    requires s.txs[i].op.mode != Closed && s.store.control.mode == Closed && Verified(s.store.smtp)
    requires s.txs[i].op.expected == s.store.control.revision < MAX_REVISION
    ensures FourSteps(s, i, Go).store.control.mode == s.txs[i].op.mode
  {
  }

  lemma {:induction false} RunFour(ops: seq<Op>, schedule: seq<Turn>, turn: Turn) returns (longer: seq<Turn>)
    requires turn.tx < |ops|
    ensures |Run(ops, schedule).txs| == |ops| && Run(ops, longer) == FourSteps(Run(ops, schedule), turn.tx, turn.choice)
  {
    hide Step;
    longer := schedule + [turn] + [turn] + [turn] + [turn];
    RunNext(ops, schedule, turn);
    RunNext(ops, schedule + [turn], turn);
    RunNext(ops, schedule + [turn] + [turn], turn);
    RunNext(ops, schedule + [turn] + [turn] + [turn], turn);
  }

  /** The gate does open: configured, tested and updated in that order. */
  lemma {:induction false} RegistrationCanOpen(delivery: Delivery, administrator: nat, key: nat)
    returns (schedule: seq<Turn>)
    requires delivery.host != ""
    ensures Run([UpdateSmtp(delivery, 1), TestEmail(administrator, key), UpdateControl(VerifiedEmailOpen, 0, 1)],
                schedule)
            .store.control.mode == VerifiedEmailOpen
  {
    hide FourSteps;
    var ops := [UpdateSmtp(delivery, 1), TestEmail(administrator, key), UpdateControl(VerifiedEmailOpen, 0, 1)];
    SmtpRuns(Run(ops, []), 0);
    schedule := RunFour(ops, [], Turn(0, Go));
    TestRuns(Run(ops, schedule), 1);
    schedule := RunFour(ops, schedule, Turn(1, Accept));
    ControlRuns(Run(ops, schedule), 2);
    schedule := RunFour(ops, schedule, Turn(2, Go));
  }
}
