/**
 * The two windows that IngestionRace excludes are exactly the unsafe ones: in every
 * state the invariants allow, a step is safe for everything that may follow if and
 * only if it is calm.
 */
module IngestionExactness {
  import opened Common
  import opened IngestionRace

  // ------------------------------------------------------------ uncommitted rows

  /** Rows that a transaction has written and not committed. */
  function Drafts(ph: Phase): set<MemId> {
    match ph
    case Checkpoint(facts) => facts
    case Finishing(facts, _) => facts
    case Editing(_, heirs) => heirs
    case _ => {}
  }

  /** Rows that a deletion has listed. */
  function Doomed(ph: Phase): set<MemId> {
    match ph
    case Locking(_, _, _, doomed) => doomed
    case AttachmentRow(_, doomed) => doomed
    case Ready(_, _, doomed) => doomed
    case _ => {}
  }

  /** Uncommitted rows are fresh: nobody else writes them, nothing committed or listed holds them. */
  predicate DraftsInv(s: State) {
    && s.memories <= s.minted
    && (forall t | t in s.txs ::
         Drafts(s.txs[t]) <= s.minted && Drafts(s.txs[t]) !! s.memories && Doomed(s.txs[t]) <= s.minted)
    && (forall t, u | t in s.txs && u in s.txs :: Drafts(s.txs[t]) !! Doomed(s.txs[u]))
    && (forall t, u | t in s.txs && u in s.txs && t != u :: Drafts(s.txs[t]) !! Drafts(s.txs[u]))
  }

  /** Only transaction `t` moved: its new drafts are newly minted, what it newly lists is committed. */
  predicate DraftsFit(s: State, s': State, t: Tx) {
    && s'.memories <= s.memories && s.minted <= s'.minted
    && t in s'.txs && s'.txs == s.txs[t := s'.txs[t]]
    && Drafts(s'.txs[t]) <= s'.minted
    && Drafts(s'.txs[t]) - (if t in s.txs then Drafts(s.txs[t]) else {}) !! s.minted
    && Doomed(s'.txs[t]) <= s.memories + if t in s.txs then Doomed(s.txs[t]) else {}
  }

  lemma MoveKeepsDrafts(s: State, s': State, t: Tx)
    requires DraftsInv(s) && DraftsFit(s, s', t)
    ensures DraftsInv(s')
  {
    var mine := if t in s.txs then Drafts(s.txs[t]) else {};
    forall u | u in s'.txs
      ensures u != t ==> Drafts(s'.txs[t]) !! Drafts(s'.txs[u]) && Drafts(s'.txs[u]) !! Doomed(s'.txs[t])
      ensures Drafts(s'.txs[t]) !! Doomed(s'.txs[u])
    {
      if u != t { assert s'.txs[u] == s.txs[u] && Doomed(s.txs[u]) <= s.minted && Drafts(s.txs[u]) <= s.minted; }
      assert Drafts(s'.txs[t]) <= mine + (Drafts(s'.txs[t]) - mine);
    }
  }

  lemma EndKeepsDrafts(s: State, s': State, t: Tx)
    requires DraftsInv(s) && t in s.txs && s'.txs == s.txs - {t} && s'.minted == s.minted
    requires s'.memories <= s.memories + Drafts(s.txs[t])
    ensures DraftsInv(s')
  {
  }

  lemma RunStepFitsDrafts(c: Source, s: State, st: Step)
    requires DraftsInv(s) && Enabled(c, s, st)
    requires st.StartRun? || st.TakeRunLock? || st.InsertClaim? || st.LoadSource? || st.Verify? || st.Admit?
    ensures DraftsFit(s, Apply(c, s, st), st.t)
  {
  }

  lemma DeletionStepFitsDrafts(c: Source, s: State, st: Step)
    requires DraftsInv(s) && Enabled(c, s, st)
    requires st.StartDeletion? || st.LockRow? || st.CancelPending? || st.ReadMemories?
    ensures DraftsFit(s, Apply(c, s, st), st.t)
  {
  }

  lemma StartEditFitsDrafts(c: Source, s: State, t: Tx, edited: set<MemId>, heirs: set<MemId>)
    requires DraftsInv(s) && Enabled(c, s, StartEdit(t, edited, heirs))
    ensures DraftsFit(s, Apply(c, s, StartEdit(t, edited, heirs)), t)
  {
  }

  lemma LockMemoriesKeepsDrafts(c: Source, s: State, t: Tx)
    requires DraftsInv(s) && Enabled(c, s, LockMemories(t))
    ensures DraftsInv(Apply(c, s, LockMemories(t)))
  {
    match Enumerated(s.txs[t], s.txs[t].doomed * s.memories)
    case Some(ph) => MoveKeepsDrafts(s, Goto(s, t, ph), t);
    case None => EndKeepsDrafts(s, End(s, t), t);
  }

  lemma StepKeepsDrafts(c: Source, s: State, st: Step)
    requires DraftsInv(s) && Enabled(c, s, st)
    ensures DraftsInv(Apply(c, s, st))
  {
    if st.LockMemories? {
      LockMemoriesKeepsDrafts(c, s, st.t);
    } else if st.Commit? || st.Abort? {
      EndKeepsDrafts(s, Apply(c, s, st), st.t);
    } else {
      if st.StartEdit? {
        StartEditFitsDrafts(c, s, st.t, st.edited, st.heirs);
      } else if st.StartDeletion? || st.LockRow? || st.CancelPending? || st.ReadMemories? {
        DeletionStepFitsDrafts(c, s, st);
      } else {
        RunStepFitsDrafts(c, s, st);
      }
      MoveKeepsDrafts(s, Apply(c, s, st), st.t);
    }
  }

  /** Every run keeps uncommitted rows fresh, calm or not. */
  lemma {:induction false} RunsKeepDrafts(c: Source, s: State, steps: seq<Step>, calm: bool)
    requires DraftsInv(s) && Legal(c, s, steps, calm)
    ensures DraftsInv(After(c, s, steps, calm))
    decreases |steps|
  {
    if steps != [] {
      StepKeepsDrafts(c, s, steps[0]);
      RunsKeepDrafts(c, Apply(c, s, steps[0]), steps[1..], calm);
    }
  }

  // ------------------------------------------------------------------ everyone else aborts

  lemma {:induction false} AbortOthers(c: Source, s0: State, s: State, keep: Tx) returns (s': State)
    requires Reaches(c, s0, s) && LockInv(s) && keep in s.txs
    ensures Reaches(c, s0, s') && LockInv(s') && s'.txs == map[keep := s.txs[keep]]
    ensures s' == s.(txs := s'.txs, runLock := s'.runLock, rowLock := s'.rowLock)
    decreases s.txs.Keys
  {
    if t :| t in s.txs && t != keep {
      ReachesStep(c, s0, s, Abort(t));
      EndKeepsLockInv(s, t);
      s' := AbortOthers(c, s0, End(s, t), keep);
    } else {
      s' := s;
    }
  }

  // ---------------------------------------------------------- the attachment leg

  /** An attachment leg that is alone lists the memories and locks them. */
  lemma AttachmentLists(c: Source, s0: State, s: State, t: Tx)
    requires Reaches(c, s0, s) && s.txs.Keys == {t} && s.txs[t].Snapshot? && s.txs[t].leg == Attachment
    ensures Reaches(c, s0, Goto(s, t, AttachmentRow(s.txs[t].cancel, s.memories)))
  {
    var ph := s.txs[t];
    ReachesStep(c, s0, s, ReadMemories(t));
    var s1 := Goto(s, t, Locking(Attachment, ph.hasRow, ph.cancel, s.memories));
    ReachesStep(c, s0, s1, LockMemories(t));
    assert s.memories * s.memories == s.memories;
    assert Goto(s1, t, AttachmentRow(ph.cancel, s.memories)) == Goto(s, t, AttachmentRow(ph.cancel, s.memories));
  }

  /** Deletion `t`, having listed `doomed`, commits at the end of a calm run that leaves `survivors`. */
  ghost predicate CommitsLeaving(c: Source, s: State, t: Tx, survivors: set<MemId>) {
    exists steps ::
      && Legal(c, s, steps, true) && t in After(c, s, steps, true).txs && After(c, s, steps, true).txs[t].Ready?
      && Apply(c, After(c, s, steps, true), Commit(t)).memories == survivors
  }

  lemma ReadyCommits(c: Source, s0: State, s: State, t: Tx)
    requires Reaches(c, s0, s) && t in s.txs && s.txs[t].Ready?
    ensures CommitsLeaving(c, s0, t, s.memories - s.txs[t].doomed)
  {
    var steps :| Legal(c, s0, steps, true) && After(c, s0, steps, true) == s;
  }

  /**
   * A probe that meets a run which may still admit is unsafe, whatever else is going
   * on: everyone but the deletion aborts, it lists the memories, a fresh delivery adds
   * one, and the deletion commits without it.
   */
  lemma AttachmentLegLeaks(c: Source, s: State, t: Tx)
    requires Inv(c, s) && DraftsInv(s) && Enabled(c, s, CancelPending(t)) && s.txs[t].leg == Attachment
      && !ProbeIsSafe(s)
    ensures exists x :: CommitsLeaving(c, Apply(c, s, CancelPending(t)), t, {x})
  {
    var s0 := Apply(c, s, CancelPending(t));
    assert TxInv(c, s.rowExists, s.keyConsumed, s.memories, s.txs[t]);
    CancelPendingKeepsLockInv(c, s, t);
    ReachesSelf(c, s0);
    var s1 := AbortOthers(c, s0, s0, t);
    AttachmentLists(c, s0, s1, t);
    var s2 := Goto(s1, t, AttachmentRow(RunInFlight, s1.memories));
    assert s2.runLock == None && s2.rowLock == None;
    var x := FreshId(s2.minted);
    var r := FreshId(s2.txs.Keys);
    var s3 := FreshRunAdds(c, s0, s2, r, x);
    ReachesStep(c, s0, s3, LockRow(t));
    var s4 := Apply(c, s3, LockRow(t));
    ReadyCommits(c, s0, s4, t);
    assert s4.memories - s4.txs[t].doomed == {x};
  }

  // --------------------------------------------------------------------- edits

  /** A deletion that is alone goes on from its snapshot to its commit. */
  lemma LockingReachesReady(c: Source, s0: State, s: State, t: Tx) returns (s': State)
    requires Reaches(c, s0, s) && LockInv(s) && s.txs.Keys == {t} && s.txs[t].Locking?
    requires s.txs[t].doomed * s.memories != {}
    ensures Reaches(c, s0, s') && t in s'.txs && s'.txs[t].Ready?
    ensures s'.memories == s.memories && s'.txs[t].doomed == s.txs[t].doomed * s.memories
  {
    ReachesStep(c, s0, s, LockMemories(t));
    s' := Apply(c, s, LockMemories(t));
    if s.txs[t].leg == Attachment {
      var s1 := s';
      assert s1.rowLock == None;
      ReachesStep(c, s0, s1, LockRow(t));
      s' := Apply(c, s1, LockRow(t));
    }
  }

  /**
   * An enumeration reads one snapshot and then waits for row locks. An edit that
   * commits meanwhile adds successors with the same provenance, which no snapshot
   * taken before can hold: any deletion still waiting may commit without them.
   */
  lemma EditDuringEnumerationLeaks(c: Source, s: State, e: Tx, t: Tx)
    requires Inv(c, s) && DraftsInv(s) && e in s.txs && s.txs[e].Editing? && t in s.txs && s.txs[t].Locking?
    ensures exists survivors :: s.txs[e].heirs <= survivors && CommitsLeaving(c, Apply(c, s, Commit(e)), t, survivors)
  {
    var s0 := Apply(c, s, Commit(e));
    var edited, heirs := s.txs[e].edited, s.txs[e].heirs;
    assert TxInv(c, s.rowExists, s.keyConsumed, s.memories, s.txs[e]);
    assert TxInv(c, s.rowExists, s.keyConsumed, s.memories, s.txs[t]);
    assert Drafts(s.txs[e]) == heirs && heirs !! Doomed(s.txs[t]);
    CommitKeepsLockInv(c, s, e);
    ReachesSelf(c, s0);
    var s1 := AbortOthers(c, s0, s0, t);
    assert edited <= s1.txs[t].doomed * s1.memories;
    var s2 := LockingReachesReady(c, s0, s1, t);
    ReadyCommits(c, s0, s2, t);
    assert heirs <= s2.memories - s2.txs[t].doomed;
  }

  // ------------------------------------------------------------------ exactness

  /** Whatever calm steps follow, a deleted source has no memory. */
  ghost predicate SafeFrom(c: Source, s: State) {
    forall steps | Legal(c, s, steps, true) ::
      After(c, s, steps, true).deleted ==> After(c, s, steps, true).memories == {}
  }

  lemma InvIsSafe(c: Source, s: State)
    requires Inv(c, s)
    ensures SafeFrom(c, s)
  {
    forall steps | Legal(c, s, steps, true)
      ensures After(c, s, steps, true).deleted ==> After(c, s, steps, true).memories == {}
    {
      LegalKeepsInv(c, s, steps);
    }
  }

  lemma LeakIsUnsafe(c: Source, s: State, t: Tx, survivors: set<MemId>)
    requires CommitsLeaving(c, s, t, survivors) && survivors != {}
    ensures !SafeFrom(c, s)
  {
    var steps :|
      && Legal(c, s, steps, true) && t in After(c, s, steps, true).txs && After(c, s, steps, true).txs[t].Ready?
      && Apply(c, After(c, s, steps, true), Commit(t)).memories == survivors;
    LegalSnoc(c, s, steps, Commit(t), true);
    assert After(c, s, steps + [Commit(t)], true).deleted;
  }

  /**
   * A step is safe for every calm continuation if and only if it is calm: for the
   * attachment leg's probe, that the run lock is free, or the key consumed, or the row
   * gone; for an edit's commit, that no enumeration is waiting for its row locks; and
   * nothing for any other step.
   */
  lemma CalmIsExact(c: Source, s: State, st: Step)
    requires Inv(c, s) && DraftsInv(s) && Enabled(c, s, st)
    ensures Calm(s, st) <==> SafeFrom(c, Apply(c, s, st))
  {
    if Calm(s, st) {
      StepKeepsInv(c, s, st);
      InvIsSafe(c, Apply(c, s, st));
    } else if st.CancelPending? {
      AttachmentLegLeaks(c, s, st.t);
      var x :| CommitsLeaving(c, Apply(c, s, st), st.t, {x});
      LeakIsUnsafe(c, Apply(c, s, st), st.t, {x});
    } else {
      var u :| u in s.txs && s.txs[u].Locking?;
      EditDuringEnumerationLeaks(c, s, st.t, u);
      var survivors :| s.txs[st.t].heirs <= survivors && CommitsLeaving(c, Apply(c, s, st), u, survivors);
      assert TxInv(c, s.rowExists, s.keyConsumed, s.memories, s.txs[st.t]);
      LeakIsUnsafe(c, Apply(c, s, st), u, survivors);
    }
  }

  /** The states CalmIsExact speaks of include every one that a calm run reaches. */
  lemma CalmRunsAreExact(c: Source, s0: State, steps: seq<Step>, st: Step)
    requires Init(c, s0) && Legal(c, s0, steps, true) && Enabled(c, After(c, s0, steps, true), st)
    ensures Calm(After(c, s0, steps, true), st) <==> SafeFrom(c, Apply(c, After(c, s0, steps, true), st))
  {
    InitInv(c, s0);
    LegalKeepsInv(c, s0, steps);
    RunsKeepDrafts(c, s0, steps, true);
    CalmIsExact(c, After(c, s0, steps, true), st);
  }

  // ------------------------------------------------- both windows from the very start

  /** What a calm run from the start reaches is exact, for its last step as well. */
  lemma ReachedIsExact(c: Source, s0: State, s: State, st: Step)
    requires Init(c, s0) && Reaches(c, s0, s) && Enabled(c, s, st)
    ensures Calm(s, st) <==> SafeFrom(c, Apply(c, s, st))
  {
    var steps :| Legal(c, s0, steps, true) && After(c, s0, steps, true) == s;
    CalmRunsAreExact(c, s0, steps, st);
  }

  /** From the start of any stored file a calm run reaches a probe of the attachment leg that is unsafe. */
  lemma ProbeIsReachedUnsafe(c: Source, s0: State) returns (s: State)
    requires Init(c, s0) && c.isFile && !c.discard
    ensures Reaches(c, s0, s) && Enabled(c, s, CancelPending(1)) && s.txs[1] == Cancel(Attachment, false)
    ensures !SafeFrom(c, Apply(c, s, CancelPending(1)))
  {
    ReachesSelf(c, s0);
    ReachesStep(c, s0, s0, StartRun(0));
    var s1 := Goto(s0, 0, RunLockWait);
    ReachesStep(c, s0, s1, TakeRunLock(0));
    var s2 := Goto(s1, 0, Claim).(runLock := Some(0));
    ReachesStep(c, s0, s2, StartDeletion(1, Attachment));
    s := Goto(s2, 1, Cancel(Attachment, false));
    ReachedIsExact(c, s0, s, CancelPending(1));
  }

  /** A deletion that starts with the run lock free comes to wait for the memory locks. */
  lemma DeletionReachesLocking(c: Source, s0: State, s: State, t: Tx) returns (s': State)
    requires Reaches(c, s0, s) && t !in s.txs && s.rowExists && s.rowLock == s.runLock == None && s.keyConsumed
    requires forall u | u in s.txs :: !s.txs[u].HoldsShare()
    ensures Reaches(c, s0, s')
    ensures s' == Goto(s, t, Locking(Primary, true, AlreadyRan, s.memories)).(rowLock := Some(t), runLock := Some(t))
  {
    var s1 := PrimaryStarts(c, s0, s, t);
    var s2 := PrimaryLocksRow(c, s0, s1, t);
    s' := ProbeAndRead(c, s0, s2, t);
  }

  lemma ProbeAndRead(c: Source, s0: State, s: State, t: Tx) returns (s': State)
    requires Reaches(c, s0, s) && t in s.txs && s.txs[t] == Cancel(Primary, true)
    requires s.runLock == None && s.keyConsumed
    ensures Reaches(c, s0, s')
    ensures s' == Goto(s, t, Locking(Primary, true, AlreadyRan, s.memories)).(runLock := Some(t))
  {
    ReachesStep(c, s0, s, CancelPending(t));
    var s1 := Goto(s, t, Snapshot(Primary, true, AlreadyRan)).(runLock := Some(t));
    ReachesStep(c, s0, s1, ReadMemories(t));
    s' := Apply(c, s1, ReadMemories(t));
    assert s'.txs == s.txs[t := s'.txs[t]];
  }

  /** From the start of any source with a row a calm run reaches an edit whose commit is unsafe. */
  lemma EditIsReachedUnsafe(c: Source, s0: State) returns (s: State)
    requires Init(c, s0) && !c.discard
    ensures Reaches(c, s0, s) && Enabled(c, s, Commit(1)) && s.txs[1] == Editing({0}, {1})
    ensures !SafeFrom(c, Apply(c, s, Commit(1)))
  {
    ReachesSelf(c, s0);
    var s1 := FreshRunAdds(c, s0, s0, 0, 0);
    ReachesStep(c, s0, s1, StartEdit(1, {0}, {1}));
    var s2 := Apply(c, s1, StartEdit(1, {0}, {1}));
    s := DeletionReachesLocking(c, s0, s2, 2);
    assert s.txs[2].Locking?;
    ReachedIsExact(c, s0, s, Commit(1));
  }
}
