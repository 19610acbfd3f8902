/**
 * The race between pipeline deliveries and the deletion of their source, as
 * interleaved steps over the locks the two transactions take.
 *
 * One source is fixed; any number of pipeline deliveries, deletions of the source
 * and content edits of its memories run concurrently. Each transaction sits in a
 * `Phase`; a step whose lock is taken is not enabled, which is what waiting means.
 * Any transaction may abort at any time: a crash, a failed model call, a deadlock
 * victim, a retry that never comes.
 */
module IngestionRace {
  import opened Common

  type Tx = nat
  type MemId = nat

  /** How the source was captured. A discard-mode file never has a source row. */
  datatype Source = Source(isFile: bool, discard: bool) {
    predicate Valid() { discard ==> isFile }
  }

  /** `Primary` locks the source row first; `Attachment` enumerates memories first. */
  datatype Leg = Primary | Attachment

  datatype Cancellation = Cancelled | AlreadyRan | RunInFlight

  datatype Phase =
    // a pipeline delivery
    | RunLockWait
    | Claim
    | Load
    | Modelling(staged: bool)
    | Checkpoint(facts: set<MemId>)
    | Finishing(facts: set<MemId>, share: bool)
    // a deletion
    | RowWait
    | Cancel(leg: Leg, hasRow: bool)
    | Snapshot(leg: Leg, hasRow: bool, cancel: Cancellation)
    | Locking(leg: Leg, hasRow: bool, cancel: Cancellation, doomed: set<MemId>)
    | AttachmentRow(cancel: Cancellation, doomed: set<MemId>)
    | Ready(hasRow: bool, cancel: Cancellation, doomed: set<MemId>)
    // an edit, or both edits of a correction: successors inherit the provenance of the rows they supersede
    | Editing(edited: set<MemId>, heirs: set<MemId>)
  {
    predicate HoldsRunLock() {
      match this
      case Claim | Load | Modelling(_) | Checkpoint(_) | Finishing(_, _) => true
      case Snapshot(_, _, c) => c != RunInFlight
      case Locking(_, _, c, _) => c != RunInFlight
      case AttachmentRow(c, _) => c != RunInFlight
      case Ready(_, c, _) => c != RunInFlight
      case _ => false
    }

    predicate HoldsRow() {
      match this
      case Cancel(_, h) => h
      case Snapshot(_, h, _) => h
      case Locking(_, h, _, _) => h
      case Ready(h, _, _) => h
      case _ => false
    }

    predicate HoldsShare() { Finishing? && share }

    function LockedMemories(): set<MemId> {
      match this
      case Editing(ms, _) => ms
      case AttachmentRow(_, d) => d
      case Ready(_, _, d) => d
      case _ => {}
    }

    /** A deletion that still lists on the attachment leg. */
    predicate OnAttachmentLeg() {
      match this
      case Cancel(l, _) => l == Attachment
      case Snapshot(l, _, _) => l == Attachment
      case Locking(l, _, _, _) => l == Attachment
      case AttachmentRow(_, _) => true
      case _ => false
    }
  }

  datatype State = State(
    txs: map<Tx, Phase>,
    runLock: Option<Tx>,
    rowLock: Option<Tx>,
    rowExists: bool,
    keyConsumed: bool,
    memories: set<MemId>,  // committed rows that carry the source's provenance
    minted: set<MemId>,
    deleted: bool)         // some deletion of the source has committed

  datatype Step =
    | StartRun(t: Tx)
    | TakeRunLock(t: Tx)
    | InsertClaim(t: Tx)
    | LoadSource(t: Tx, staging: bool)
    | Verify(t: Tx, facts: set<MemId>)
    | Admit(t: Tx)
    | StartDeletion(t: Tx, leg: Leg)
    | LockRow(t: Tx)
    | CancelPending(t: Tx)
    | ReadMemories(t: Tx)
    | LockMemories(t: Tx)
    | StartEdit(t: Tx, edited: set<MemId>, heirs: set<MemId>)
    | Commit(t: Tx)
    | Abort(t: Tx)

  predicate Init(c: Source, s: State) {
    && c.Valid()
    && s == State(map[], None, None, !c.discard, false, {}, {}, false)
  }

  /** Discard-mode files have no row to serialise on, so their deletion waits the run out. */
  predicate WaitsForRun(c: Source, ph: Phase)
    requires ph.Cancel?
  {
    ph.leg == Primary && c.isFile && !ph.hasRow
  }

  predicate Enabled(c: Source, s: State, st: Step) {
    match st
    case StartRun(t) => t !in s.txs
    case TakeRunLock(t) => t in s.txs && s.txs[t].RunLockWait? && s.runLock == None
    case InsertClaim(t) => t in s.txs && s.txs[t].Claim?
    case LoadSource(t, staging) => t in s.txs && s.txs[t].Load? && (staging ==> c.discard)
    case Verify(t, facts) => t in s.txs && s.txs[t].Modelling? && facts !! s.minted
    case Admit(t) => t in s.txs && s.txs[t].Checkpoint? && s.rowLock == None
    case StartDeletion(t, leg) => t !in s.txs && (leg == Attachment ==> c.isFile && !c.discard)
    case LockRow(t) =>
      && t in s.txs && (s.txs[t].RowWait? || s.txs[t].AttachmentRow?)
      && s.rowLock == None && (forall u | u in s.txs :: !s.txs[u].HoldsShare())
    case CancelPending(t) =>
      t in s.txs && s.txs[t].Cancel? && (WaitsForRun(c, s.txs[t]) ==> s.runLock == None)
    case ReadMemories(t) => t in s.txs && s.txs[t].Snapshot?
    case LockMemories(t) =>
      && t in s.txs && s.txs[t].Locking?
      && forall u | u in s.txs && u != t :: s.txs[u].LockedMemories() !! s.txs[t].doomed
    case StartEdit(t, ms, heirs) =>
      && t !in s.txs && ms <= s.memories && ms != {} && heirs !! s.minted && |heirs| == |ms|
      && forall u | u in s.txs :: ms !! s.txs[u].LockedMemories()
    case Commit(t) => t in s.txs && (s.txs[t].Finishing? || s.txs[t].Ready? || s.txs[t].Editing?)
    case Abort(t) => t in s.txs
  }

  /** What follows once `rows` are locked; None is NotFound, which rolls the transaction back. */
  function Enumerated(ph: Phase, rows: set<MemId>): Option<Phase>
    requires ph.Locking?
  {
    if ph.leg == Attachment then Some(AttachmentRow(ph.cancel, rows))
    else if !ph.hasRow && rows == {} then None
    else Some(Ready(ph.hasRow, ph.cancel, rows))
  }

  function Goto(s: State, t: Tx, ph: Phase): State { s.(txs := s.txs[t := ph]) }

  /** Transaction end: the advisory lock and the row lock go with it. */
  function End(s: State, t: Tx): State {
    s.(txs := s.txs - {t},
       runLock := if s.runLock == Some(t) then None else s.runLock,
       rowLock := if s.rowLock == Some(t) then None else s.rowLock)
  }

  function Apply(c: Source, s: State, st: Step): State
    requires Enabled(c, s, st)
  {
    match st
    case StartRun(t) => Goto(s, t, RunLockWait)
    case TakeRunLock(t) => Goto(s, t, Claim).(runLock := Some(t))
    case InsertClaim(t) => Goto(s, t, if s.keyConsumed then Finishing({}, false) else Load)
    case LoadSource(t, staging) =>
      Goto(s, t, if s.rowExists then Modelling(false)
                 else if staging then Modelling(true) else Finishing({}, false))
    case Verify(t, facts) =>
      var ph := if facts == {} || s.txs[t].staged then Finishing(facts, false) else Checkpoint(facts);
      Goto(s, t, ph).(minted := s.minted + facts)
    case Admit(t) =>
      Goto(s, t, if s.rowExists then Finishing(s.txs[t].facts, true) else Finishing({}, false))
    case StartDeletion(t, leg) => Goto(s, t, if leg == Primary then RowWait else Cancel(Attachment, false))
    case LockRow(t) =>
      var next := if s.txs[t].RowWait? then Cancel(Primary, s.rowExists)
                  else Ready(s.rowExists, s.txs[t].cancel, s.txs[t].doomed);
      Goto(s, t, next).(rowLock := if s.rowExists then Some(t) else None)
    case CancelPending(t) =>
      var ph := s.txs[t];
      if s.runLock != None then Goto(s, t, Snapshot(ph.leg, ph.hasRow, RunInFlight))
      else
        Goto(s, t, Snapshot(ph.leg, ph.hasRow, if s.keyConsumed then AlreadyRan else Cancelled))
        .(runLock := Some(t))
    case ReadMemories(t) =>
      var ph := s.txs[t];
      Goto(s, t, Locking(ph.leg, ph.hasRow, ph.cancel, s.memories))
    case LockMemories(t) =>
      (match Enumerated(s.txs[t], s.txs[t].doomed * s.memories)
       case Some(ph) => Goto(s, t, ph)
       case None => End(s, t))
    case StartEdit(t, ms, heirs) => Goto(s, t, Editing(ms, heirs)).(minted := s.minted + heirs)
    case Commit(t) =>
      (match s.txs[t]
       case Finishing(facts, _) =>
         End(s, t).(memories := s.memories + facts, keyConsumed := true)
       case Ready(hasRow, cancel, doomed) =>
         End(s, t).(memories := s.memories - doomed,
                    rowExists := s.rowExists && !hasRow,
                    keyConsumed := s.keyConsumed || cancel == Cancelled,
                    deleted := true)
       case Editing(_, heirs) => End(s, t).(memories := s.memories + heirs)
       case _ => s)
    case Abort(t) => End(s, t)
  }

  /** What an attachment leg's probe must find: no run, or one that can admit nothing any more. */
  predicate ProbeIsSafe(s: State) { s.runLock == None || s.keyConsumed || !s.rowExists }

  /**
   * The steps the safety theorem admits. Two windows are excluded: an edit that
   * commits between the statement snapshot and the row locks of an enumeration,
   * and an attachment leg that goes on although its probe met a run that may still admit.
   */
  predicate Calm(s: State, st: Step) {
    match st
    case Commit(t) => t in s.txs && s.txs[t].Editing? ==> forall u | u in s.txs :: !s.txs[u].Locking?
    case CancelPending(t) => t in s.txs && s.txs[t].Cancel? && s.txs[t].leg == Attachment ==> ProbeIsSafe(s)
    case _ => true
  }

  predicate Legal(c: Source, s: State, steps: seq<Step>, calm: bool)
    decreases |steps|
  {
    steps == [] ||
    (&& Enabled(c, s, steps[0])
     && (calm ==> Calm(s, steps[0]))
     && Legal(c, Apply(c, s, steps[0]), steps[1..], calm))
  }

  function After(c: Source, s: State, steps: seq<Step>, calm: bool): State
    requires Legal(c, s, steps, calm)
    decreases |steps|
  {
    if steps == [] then s else After(c, Apply(c, s, steps[0]), steps[1..], calm)
  }

  // ---------------------------------------------------------------- invariants

  /** What one transaction may rely on, given the committed rows and the key. */
  predicate TxInv(c: Source, rowExists: bool, keyConsumed: bool, memories: set<MemId>, ph: Phase) {
    match ph
    // a run that loaded its source owns an unconsumed key
    case Load => !keyConsumed
    case Modelling(staged) => !keyConsumed && (staged ==> c.discard)
    case Checkpoint(_) => !keyConsumed
    case Finishing(facts, share) => facts != {} ==> !keyConsumed && (share || c.discard)
    // a deletion past its cancellation has shut admission or found nothing to admit
    case Cancel(leg, hasRow) => Admissible(c, rowExists, leg, hasRow)
    case Snapshot(leg, hasRow, cancel) => Shut(c, rowExists, keyConsumed, leg, hasRow, cancel)
    case Locking(leg, hasRow, cancel, doomed) =>
      Shut(c, rowExists, keyConsumed, leg, hasRow, cancel) && memories <= doomed
    case AttachmentRow(cancel, doomed) =>
      Shut(c, rowExists, keyConsumed, Attachment, false, cancel) && memories == doomed
    case Ready(hasRow, cancel, doomed) =>
      && (!hasRow ==> !rowExists && (c.discard ==> cancel != RunInFlight))
      && (cancel == AlreadyRan ==> keyConsumed)
      && memories == doomed
    case Editing(ms, heirs) => ms <= memories && ms != {} && heirs != {}
    case _ => true
  }

  predicate Admissible(c: Source, rowExists: bool, leg: Leg, hasRow: bool) {
    if leg == Attachment then !hasRow && c.isFile && !c.discard else !hasRow ==> !rowExists
  }

  predicate Shut(c: Source, rowExists: bool, keyConsumed: bool, leg: Leg, hasRow: bool, cancel: Cancellation) {
    && Admissible(c, rowExists, leg, hasRow)
    && (leg == Attachment ==> cancel != RunInFlight || keyConsumed || !rowExists)
    && (!hasRow && c.discard ==> cancel != RunInFlight)
    && (cancel == AlreadyRan ==> keyConsumed)
  }

  predicate TxsInv(c: Source, s: State) {
    forall t | t in s.txs :: TxInv(c, s.rowExists, s.keyConsumed, s.memories, s.txs[t])
  }

  /** Locks and phases agree; a row lock and a share lock never coexist. */
  predicate LockInv(s: State) {
    && (s.runLock.Some? ==> s.runLock.value in s.txs)
    && (s.rowLock.Some? ==> s.rowLock.value in s.txs && s.rowExists)
    && (forall t | t in s.txs ::
      && (s.txs[t].HoldsRunLock() <==> s.runLock == Some(t))
      && (s.txs[t].HoldsRow() <==> s.rowLock == Some(t))
      && (s.txs[t].HoldsShare() ==> s.rowLock == None && s.rowExists)
      && (s.txs[t].OnAttachmentLeg() ==> !s.txs[t].HoldsRow()))
  }

  /** No memory row is locked twice. */
  predicate MemoryLocks(s: State) {
    forall t, u | t in s.txs && u in s.txs && t != u :: s.txs[t].LockedMemories() !! s.txs[u].LockedMemories()
  }

  predicate Inv(c: Source, s: State) {
    && c.Valid()
    && LockInv(s)
    && MemoryLocks(s)
    && TxsInv(c, s)
    && (c.discard ==> !s.rowExists)
    && (!c.discard && !s.deleted ==> s.rowExists)
    && (s.deleted ==> s.memories == {} && !s.rowExists && (c.discard ==> s.keyConsumed))
  }

  lemma InitInv(c: Source, s: State)
    requires Init(c, s)
    ensures Inv(c, s)
  {
  }

  /** `s'` differs from `s` in what transaction `t` does and holds, and in nothing committed. */
  predicate Moves(s: State, s': State, t: Tx) {
    && t in s'.txs && s'.txs == s.txs[t := s'.txs[t]]
    && s'.rowExists == s.rowExists && s'.keyConsumed == s.keyConsumed
    && s'.memories == s.memories && s'.deleted == s.deleted
    && (s'.runLock == s.runLock || (s.runLock == None && s'.runLock == Some(t)))
    && (s'.rowLock == s.rowLock || (s.rowLock == None && s'.rowLock == Some(t)))
  }

  predicate LocksFit(s: State, s': State, t: Tx)
    requires t in s'.txs
  {
    && (s'.txs[t].HoldsRunLock() <==> s'.runLock == Some(t))
    && (s'.txs[t].HoldsRow() <==> s'.rowLock == Some(t))
    && (s'.txs[t].HoldsShare() ==> s'.rowLock == None && s.rowExists)
    && (s'.txs[t].OnAttachmentLeg() ==> !s'.txs[t].HoldsRow())
    && (s'.rowLock == Some(t) ==> s.rowExists && forall u | u in s.txs && u != t :: !s.txs[u].HoldsShare())
  }

  lemma MoveKeepsLockInv(s: State, s': State, t: Tx)
    requires LockInv(s) && Moves(s, s', t) && LocksFit(s, s', t)
    ensures LockInv(s')
  {
  }

  lemma MoveKeepsInv(c: Source, s: State, s': State, t: Tx)
    requires Inv(c, s) && Moves(s, s', t) && LockInv(s')
    requires TxInv(c, s.rowExists, s.keyConsumed, s.memories, s'.txs[t])
    requires forall u | u in s.txs && u != t :: s'.txs[t].LockedMemories() !! s.txs[u].LockedMemories()
    ensures Inv(c, s')
  {
  }

  lemma EndKeepsLockInv(s: State, t: Tx)
    requires LockInv(s) && t in s.txs
    ensures LockInv(End(s, t))
  {
  }

  lemma RunStepKeepsLockInv(c: Source, s: State, st: Step)
    requires LockInv(s) && Enabled(c, s, st)
    requires st.StartRun? || st.TakeRunLock? || st.InsertClaim? || st.LoadSource? || st.Verify? || st.Admit?
    ensures LockInv(Apply(c, s, st))
  {
    MoveKeepsLockInv(s, Apply(c, s, st), st.t);
  }

  lemma LockRowKeepsLockInv(c: Source, s: State, t: Tx)
    requires LockInv(s) && Enabled(c, s, LockRow(t))
    ensures LockInv(Apply(c, s, LockRow(t)))
  {
    MoveKeepsLockInv(s, Apply(c, s, LockRow(t)), t);
  }

  lemma CancelPendingKeepsLockInv(c: Source, s: State, t: Tx)
    requires LockInv(s) && Enabled(c, s, CancelPending(t))
    ensures LockInv(Apply(c, s, CancelPending(t)))
  {
    MoveKeepsLockInv(s, Apply(c, s, CancelPending(t)), t);
  }

  lemma DeletionStepKeepsLockInv(c: Source, s: State, st: Step)
    requires LockInv(s) && Enabled(c, s, st)
    requires st.StartDeletion? || st.LockRow? || st.CancelPending? || st.ReadMemories? || st.StartEdit?
    ensures LockInv(Apply(c, s, st))
  {
    if st.LockRow? {
      LockRowKeepsLockInv(c, s, st.t);
    } else if st.CancelPending? {
      CancelPendingKeepsLockInv(c, s, st.t);
    } else {
      MoveKeepsLockInv(s, Apply(c, s, st), st.t);
    }
  }

  lemma LockMemoriesKeepsLockInv(c: Source, s: State, t: Tx)
    requires LockInv(s) && Enabled(c, s, LockMemories(t))
    ensures LockInv(Apply(c, s, LockMemories(t)))
  {
    match Enumerated(s.txs[t], s.txs[t].doomed * s.memories)
    case Some(ph) => MoveKeepsLockInv(s, Goto(s, t, ph), t);
    case None => EndKeepsLockInv(s, t);
  }

  lemma CommitKeepsLockInv(c: Source, s: State, t: Tx)
    requires LockInv(s) && Enabled(c, s, Commit(t))
    ensures LockInv(Apply(c, s, Commit(t)))
  {
    EndKeepsLockInv(s, t);
  }

  /** Locking is sound on every step, calm or not, on both legs. */
  lemma StepKeepsLockInv(c: Source, s: State, st: Step)
    requires LockInv(s) && Enabled(c, s, st)
    ensures LockInv(Apply(c, s, st))
  {
    match st
    case LockMemories(t) => LockMemoriesKeepsLockInv(c, s, t);
    case Commit(t) => CommitKeepsLockInv(c, s, t);
    case Abort(t) => EndKeepsLockInv(s, t);
    case StartDeletion(_, _) => DeletionStepKeepsLockInv(c, s, st);
    case LockRow(_) => DeletionStepKeepsLockInv(c, s, st);
    case CancelPending(_) => DeletionStepKeepsLockInv(c, s, st);
    case ReadMemories(_) => DeletionStepKeepsLockInv(c, s, st);
    case StartEdit(_, _, _) => DeletionStepKeepsLockInv(c, s, st);
    case _ => RunStepKeepsLockInv(c, s, st);
  }

  lemma LockMemoriesKeepsInv(c: Source, s: State, t: Tx)
    requires Inv(c, s) && Enabled(c, s, LockMemories(t))
    ensures Inv(c, Apply(c, s, LockMemories(t)))
  {
    var s' := Apply(c, s, LockMemories(t));
    LockMemoriesKeepsLockInv(c, s, t);
    if t in s'.txs {
      assert TxInv(c, s.rowExists, s.keyConsumed, s.memories, s.txs[t]);
      assert s.txs[t].doomed * s.memories == s.memories;
      MoveKeepsInv(c, s, s', t);
    }
  }

  /** Everything a commit must re-establish beyond its locks, one transaction kind at a time. */
  lemma CommitRunKeepsInv(c: Source, s: State, t: Tx)
    requires Inv(c, s) && t in s.txs && s.txs[t].Finishing?
    ensures var s' := Apply(c, s, Commit(t)); TxsInv(c, s') && (s'.deleted ==> s'.memories == {})
  {
    var s' := Apply(c, s, Commit(t));
    var facts := s.txs[t].facts;
    assert TxInv(c, s.rowExists, s.keyConsumed, s.memories, s.txs[t]);
    forall u | u in s'.txs
      ensures TxInv(c, s'.rowExists, s'.keyConsumed, s'.memories, s'.txs[u])
    {
      assert !s.txs[u].HoldsRunLock();
      assert TxInv(c, s.rowExists, s.keyConsumed, s.memories, s.txs[u]);
    }
  }

  lemma CommitDeletionKeepsInv(c: Source, s: State, t: Tx)
    requires Inv(c, s) && t in s.txs && s.txs[t].Ready?
    ensures
      var s' := Apply(c, s, Commit(t));
      TxsInv(c, s') && s'.memories == {} && !s'.rowExists && (c.discard ==> s'.keyConsumed)
  {
    var s' := Apply(c, s, Commit(t));
    assert TxInv(c, s.rowExists, s.keyConsumed, s.memories, s.txs[t]);
    forall u | u in s'.txs
      ensures TxInv(c, s'.rowExists, s'.keyConsumed, s'.memories, s'.txs[u])
    {
      assert s.txs[u].LockedMemories() !! s.txs[t].LockedMemories();
      assert TxInv(c, s.rowExists, s.keyConsumed, s.memories, s.txs[u]);
    }
  }

  lemma CommitEditKeepsInv(c: Source, s: State, t: Tx)
    requires Inv(c, s) && t in s.txs && s.txs[t].Editing? && Calm(s, Commit(t))
    ensures TxsInv(c, Apply(c, s, Commit(t))) && !s.deleted
  {
    var s' := Apply(c, s, Commit(t));
    assert TxInv(c, s.rowExists, s.keyConsumed, s.memories, s.txs[t]);
    forall u | u in s'.txs
      ensures TxInv(c, s'.rowExists, s'.keyConsumed, s'.memories, s'.txs[u])
    {
      assert s.txs[u].LockedMemories() !! s.txs[t].LockedMemories();
      assert TxInv(c, s.rowExists, s.keyConsumed, s.memories, s.txs[u]);
    }
  }

  lemma CommitKeepsInv(c: Source, s: State, t: Tx)
    requires Inv(c, s) && Enabled(c, s, Commit(t)) && Calm(s, Commit(t))
    ensures Inv(c, Apply(c, s, Commit(t)))
  {
    CommitKeepsLockInv(c, s, t);
    match s.txs[t]
    case Finishing(_, _) => CommitRunKeepsInv(c, s, t);
    case Ready(_, _, _) => CommitDeletionKeepsInv(c, s, t);
    case Editing(_, _) => CommitEditKeepsInv(c, s, t);
  }

  lemma RunStepKeepsInv(c: Source, s: State, st: Step)
    requires Inv(c, s) && Enabled(c, s, st)
    requires st.StartRun? || st.TakeRunLock? || st.InsertClaim? || st.LoadSource? || st.Verify? || st.Admit?
    ensures Inv(c, Apply(c, s, st))
  {
    RunStepKeepsLockInv(c, s, st);
    MoveKeepsInv(c, s, Apply(c, s, st), st.t);
  }

  lemma DeletionStepKeepsTxInv(c: Source, s: State, st: Step)
    requires Inv(c, s) && Enabled(c, s, st) && Calm(s, st)
    requires st.StartDeletion? || st.LockRow? || st.CancelPending? || st.ReadMemories? || st.StartEdit?
    ensures
      var s' := Apply(c, s, st);
      Moves(s, s', st.t) && TxInv(c, s.rowExists, s.keyConsumed, s.memories, s'.txs[st.t])
  {
    if st.t in s.txs { assert TxInv(c, s.rowExists, s.keyConsumed, s.memories, s.txs[st.t]); }
  }

  lemma DeletionStepKeepsInv(c: Source, s: State, st: Step)
    requires Inv(c, s) && Enabled(c, s, st) && Calm(s, st)
    requires st.StartDeletion? || st.LockRow? || st.CancelPending? || st.ReadMemories? || st.StartEdit?
    ensures Inv(c, Apply(c, s, st))
  {
    DeletionStepKeepsLockInv(c, s, st);
    DeletionStepKeepsTxInv(c, s, st);
    MoveKeepsInv(c, s, Apply(c, s, st), st.t);
  }

  lemma StepKeepsInv(c: Source, s: State, st: Step)
    requires Inv(c, s) && Enabled(c, s, st) && Calm(s, st)
    ensures Inv(c, Apply(c, s, st))
  {
    match st
    case LockMemories(t) => LockMemoriesKeepsInv(c, s, t);
    case Commit(t) => CommitKeepsInv(c, s, t);
    case Abort(t) => EndKeepsLockInv(s, t);
    case StartDeletion(_, _) => DeletionStepKeepsInv(c, s, st);
    case LockRow(_) => DeletionStepKeepsInv(c, s, st);
    case CancelPending(_) => DeletionStepKeepsInv(c, s, st);
    case ReadMemories(_) => DeletionStepKeepsInv(c, s, st);
    case StartEdit(_, _, _) => DeletionStepKeepsInv(c, s, st);
    case _ => RunStepKeepsInv(c, s, st);
  }

  lemma {:induction false} LegalKeepsInv(c: Source, s: State, steps: seq<Step>)
    requires Inv(c, s) && Legal(c, s, steps, true)
    ensures Inv(c, After(c, s, steps, true))
    decreases |steps|
  {
    if steps != [] {
      StepKeepsInv(c, s, steps[0]);
      LegalKeepsInv(c, Apply(c, s, steps[0]), steps[1..]);
    }
  }

  /**
   * No resurrection: over every calm run, from the moment a deletion of the source
   * commits no memory carries its provenance, whatever runs were in flight, fail,
   * are retried or start later. Discard-mode sources keep a consumed key as well.
   */
  lemma NoResurrection(c: Source, s0: State, steps: seq<Step>)
    requires Init(c, s0) && Legal(c, s0, steps, true)
    ensures
      var s := After(c, s0, steps, true);
      s.deleted ==> s.memories == {} && (c.discard ==> s.keyConsumed)
  {
    InitInv(c, s0);
    LegalKeepsInv(c, s0, steps);
  }

  /** A receipt is exact: what a deletion lists when it commits is all there is to delete. */
  lemma ReceiptIsComplete(c: Source, s0: State, steps: seq<Step>, t: Tx)
    requires Init(c, s0) && Legal(c, s0, steps, true)
    requires var s := After(c, s0, steps, true); t in s.txs && s.txs[t].Ready?
    ensures var s := After(c, s0, steps, true); s.txs[t].doomed == s.memories
  {
    InitInv(c, s0);
    LegalKeepsInv(c, s0, steps);
    var s := After(c, s0, steps, true);
    assert TxInv(c, s.rowExists, s.keyConsumed, s.memories, s.txs[t]);
  }

  // --------------------------------------------------------------- reachability

  lemma {:induction false} LegalSnoc(c: Source, s: State, steps: seq<Step>, st: Step, calm: bool)
    requires Legal(c, s, steps, calm)
    requires var s1 := After(c, s, steps, calm); Enabled(c, s1, st) && (calm ==> Calm(s1, st))
    ensures Legal(c, s, steps + [st], calm)
    ensures After(c, s, steps + [st], calm) == Apply(c, After(c, s, steps, calm), st)
    decreases |steps|
  {
    var all := steps + [st];
    if steps == [] {
      assert all[1..] == [];
    } else {
      assert all[0] == steps[0] && all[1..] == steps[1..] + [st];
      LegalSnoc(c, Apply(c, s, steps[0]), steps[1..], st, calm);
    }
  }

  /** Some calm run leads from `s` to `s'`. */
  ghost predicate Reaches(c: Source, s: State, s': State) {
    exists steps :: Legal(c, s, steps, true) && After(c, s, steps, true) == s'
  }

  lemma ReachesSelf(c: Source, s: State)
    ensures Reaches(c, s, s)
  {
    assert Legal(c, s, [], true) && After(c, s, [], true) == s;
  }

  lemma ReachesStep(c: Source, s: State, s': State, st: Step)
    requires Reaches(c, s, s') && Enabled(c, s', st) && Calm(s', st)
    ensures Reaches(c, s, Apply(c, s', st))
  {
    var steps :| Legal(c, s, steps, true) && After(c, s, steps, true) == s';
    LegalSnoc(c, s, steps, st, true);
  }

  /** From a run that holds the run lock and has not verified its facts yet to its checkpoint. */
  lemma RunReachesCheckpoint(c: Source, s0: State, s: State, r: Tx, x: MemId) returns (s': State)
    requires Reaches(c, s0, s) && !s.keyConsumed && s.rowExists && x !in s.minted
    requires r in s.txs && (s.txs[r].Claim? || s.txs[r].Load? || s.txs[r] == Modelling(false))
    ensures Reaches(c, s0, s')
    ensures s' == Goto(s, r, Checkpoint({x})).(minted := s.minted + {x})
  {
    s' := s;
    if s'.txs[r].Claim? {
      ReachesStep(c, s0, s', InsertClaim(r));
      s' := Apply(c, s', InsertClaim(r));
    }
    if s'.txs[r].Load? {
      ReachesStep(c, s0, s', LoadSource(r, false));
      s' := Apply(c, s', LoadSource(r, false));
    }
    ReachesStep(c, s0, s', Verify(r, {x}));
    s' := Apply(c, s', Verify(r, {x}));
    assert s'.txs == s.txs[r := Checkpoint({x})];
  }

  lemma CheckpointCommits(c: Source, s0: State, s: State, r: Tx) returns (s': State)
    requires Reaches(c, s0, s) && s.rowLock == None && s.rowExists
    requires r in s.txs && s.txs[r].Checkpoint? && s.runLock == Some(r)
    ensures Reaches(c, s0, s')
    ensures s' == s.(txs := s.txs - {r}, runLock := None, memories := s.memories + s.txs[r].facts, keyConsumed := true)
  {
    ReachesStep(c, s0, s, Admit(r));
    var s1 := Goto(s, r, Finishing(s.txs[r].facts, true));
    ReachesStep(c, s0, s1, Commit(r));
    s' := Apply(c, s1, Commit(r));
    assert s1.txs - {r} == s.txs - {r};
  }

  /** A delivery that starts now, beside a deletion that holds no lock it needs, can add `x`. */
  lemma FreshRunAdds(c: Source, s0: State, s: State, r: Tx, x: MemId) returns (s': State)
    requires Reaches(c, s0, s) && s.runLock == None && s.rowLock == None && s.rowExists && !s.keyConsumed
    requires r !in s.txs && x !in s.minted
    ensures Reaches(c, s0, s')
    ensures s' == s.(memories := s.memories + {x}, minted := s.minted + {x}, keyConsumed := true)
  {
    ReachesStep(c, s0, s, StartRun(r));
    var s1 := Goto(s, r, RunLockWait);
    ReachesStep(c, s0, s1, TakeRunLock(r));
    var s2 := RunReachesCheckpoint(c, s0, Goto(s1, r, Claim).(runLock := Some(r)), r, x);
    s' := CheckpointCommits(c, s0, s2, r);
    assert s'.txs == s.txs;
  }

  lemma PrimaryStarts(c: Source, s0: State, s: State, p: Tx) returns (s': State)
    requires Reaches(c, s0, s) && p !in s.txs
    ensures Reaches(c, s0, s') && s' == Goto(s, p, RowWait)
  {
    ReachesStep(c, s0, s, StartDeletion(p, Primary));
    s' := Goto(s, p, RowWait);
  }

  lemma PrimaryLocksRow(c: Source, s0: State, s: State, p: Tx) returns (s': State)
    requires Reaches(c, s0, s) && p in s.txs && s.txs[p] == RowWait && s.rowExists && s.rowLock == None
    requires forall u | u in s.txs :: !s.txs[u].HoldsShare()
    ensures Reaches(c, s0, s') && s' == Goto(s, p, Cancel(Primary, true)).(rowLock := Some(p))
  {
    ReachesStep(c, s0, s, LockRow(p));
    s' := Apply(c, s, LockRow(p));
  }
}
