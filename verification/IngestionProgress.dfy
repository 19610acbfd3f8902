/**
 * What the safety theorems of IngestionRace are about does happen: from the start of any
 * source, stored or discard-mode, an undisturbed delivery admits any facts it verifies,
 * and a deletion on either leg then lists exactly those, erases them and ends the source.
 */
module IngestionProgress {
  import opened Common
  import opened IngestionRace

  /** The state in which one delivery has admitted `facts` and nothing is in flight. */
  function Admitted(s0: State, facts: set<MemId>): State {
    s0.(memories := facts, minted := facts, keyConsumed := true)
  }

  /** A run takes its lock and claims the key. */
  lemma RunClaims(c: Source, s0: State, t: Tx) returns (s: State)
    requires Init(c, s0)
    ensures Reaches(c, s0, s) && s == s0.(txs := map[t := Load], runLock := Some(t))
  {
    ReachesSelf(c, s0);
    ReachesStep(c, s0, s0, StartRun(t));
    var s1 := Goto(s0, t, RunLockWait);
    ReachesStep(c, s0, s1, TakeRunLock(t));
    var s2 := Goto(s1, t, Claim).(runLock := Some(t));
    ReachesStep(c, s0, s2, InsertClaim(t));
    s := Goto(s2, t, Load);
    assert s.txs == map[t := Load];
  }

  /** It loads its source, from the row or from the staged upload, and verifies the facts. */
  lemma RunVerifies(c: Source, s0: State, s: State, t: Tx, facts: set<MemId>) returns (s': State)
    requires Init(c, s0) && Reaches(c, s0, s) && s == s0.(txs := map[t := Load], runLock := Some(t)) && facts != {}
    ensures Reaches(c, s0, s')
    ensures s' == s.(txs := map[t := if c.discard then Finishing(facts, false) else Checkpoint(facts)], minted := facts)
  {
    ReachesStep(c, s0, s, LoadSource(t, c.discard));
    var s1 := Apply(c, s, LoadSource(t, c.discard));
    assert s1.txs == map[t := Modelling(c.discard)];
    ReachesStep(c, s0, s1, Verify(t, facts));
    s' := Apply(c, s1, Verify(t, facts));
    assert s'.txs == map[t := s'.txs[t]];
  }

  lemma RunCommits(c: Source, s0: State, s: State, t: Tx, share: bool, facts: set<MemId>) returns (s': State)
    requires Reaches(c, s0, s) && s.txs == map[t := Finishing(facts, share)] && s.runLock == Some(t)
    requires s.memories == {} && s.rowLock == None
    ensures Reaches(c, s0, s') && s' == s.(txs := map[], runLock := None, memories := facts, keyConsumed := true)
  {
    ReachesStep(c, s0, s, Commit(t));
    s' := Apply(c, s, Commit(t));
    assert s'.txs == map[];
  }

  /** From the start of every source a delivery can admit any facts whatever. */
  lemma DeliveryAdmits(c: Source, s0: State, t: Tx, facts: set<MemId>)
    requires Init(c, s0) && facts != {}
    ensures Reaches(c, s0, Admitted(s0, facts))
  {
    var s1 := RunClaims(c, s0, t);
    var s2 := RunVerifies(c, s0, s1, t, facts);
    if c.discard {
      var s3 := RunCommits(c, s0, s2, t, false, facts);
      assert s3 == Admitted(s0, facts);
    } else {
      ReachesStep(c, s0, s2, Admit(t));
      var s3 := s2.(txs := map[t := Finishing(facts, true)]);
      assert Apply(c, s2, Admit(t)) == s3;
      var s4 := RunCommits(c, s0, s3, t, true, facts);
      assert s4 == Admitted(s0, facts);
    }
  }

  lemma DeletionWaits(c: Source, s0: State, s: State, d: Tx, leg: Leg, hasRow: bool) returns (s': State)
    requires Reaches(c, s0, s) && s.txs == map[d := Cancel(leg, hasRow)] && s.runLock == None && s.keyConsumed
    ensures Reaches(c, s0, s') && s' == s.(runLock := Some(d), txs := map[d := Snapshot(leg, hasRow, AlreadyRan)])
  {
    ReachesStep(c, s0, s, CancelPending(d));
    s' := Apply(c, s, CancelPending(d));
    assert s'.txs == map[d := s'.txs[d]];
  }

  lemma DeletionReads(c: Source, s0: State, s: State, d: Tx, leg: Leg, hasRow: bool) returns (s': State)
    requires Reaches(c, s0, s) && s.txs == map[d := Snapshot(leg, hasRow, AlreadyRan)]
    ensures Reaches(c, s0, s') && s' == s.(txs := map[d := Locking(leg, hasRow, AlreadyRan, s.memories)])
  {
    ReachesStep(c, s0, s, ReadMemories(d));
    s' := Apply(c, s, ReadMemories(d));
    assert s'.txs == map[d := s'.txs[d]];
  }

  lemma DeletionLocks(c: Source, s0: State, s: State, d: Tx, leg: Leg, hasRow: bool) returns (s': State)
    requires Reaches(c, s0, s) && s.txs == map[d := Locking(leg, hasRow, AlreadyRan, s.memories)] && s.memories != {}
    ensures Reaches(c, s0, s')
    ensures s' == s.(txs := map[d := if leg == Attachment then AttachmentRow(AlreadyRan, s.memories)
                                     else Ready(hasRow, AlreadyRan, s.memories)])
  {
    ReachesStep(c, s0, s, LockMemories(d));
    assert s.memories * s.memories == s.memories;
    s' := Apply(c, s, LockMemories(d));
    assert s'.txs == map[d := s'.txs[d]];
  }

  /** A deletion alone with the memories reads them and locks them. */
  lemma DeletionLists(c: Source, s0: State, s: State, d: Tx, leg: Leg, hasRow: bool) returns (s': State)
    requires Reaches(c, s0, s) && s.txs == map[d := Cancel(leg, hasRow)] && s.runLock == None && s.keyConsumed
    requires s.memories != {}
    ensures Reaches(c, s0, s')
    ensures s' == s.(runLock := Some(d), txs := map[d := if leg == Attachment then AttachmentRow(AlreadyRan, s.memories)
                                                         else Ready(hasRow, AlreadyRan, s.memories)])
  {
    var s1 := DeletionWaits(c, s0, s, d, leg, hasRow);
    var s2 := DeletionReads(c, s0, s1, d, leg, hasRow);
    s' := DeletionLocks(c, s0, s2, d, leg, hasRow);
  }

  lemma PrimaryReaches(c: Source, s0: State, s: State, d: Tx) returns (s': State)
    requires Reaches(c, s0, s) && s.txs == map[] && s.runLock == s.rowLock == None
    ensures Reaches(c, s0, s')
    ensures s' == s.(txs := map[d := Cancel(Primary, s.rowExists)], rowLock := if s.rowExists then Some(d) else None)
  {
    ReachesStep(c, s0, s, StartDeletion(d, Primary));
    var s1 := s.(txs := map[d := RowWait]);
    assert Apply(c, s, StartDeletion(d, Primary)) == s1;
    ReachesStep(c, s0, s1, LockRow(d));
    s' := Apply(c, s1, LockRow(d));
    assert s'.txs == map[d := Cancel(Primary, s.rowExists)];
  }

  /** From there a deletion comes to list exactly the facts, on the leg of its own choice. */
  lemma DeletionListsFacts(c: Source, s0: State, d: Tx, leg: Leg, facts: set<MemId>) returns (s: State)
    requires Init(c, s0) && facts != {} && (leg == Attachment ==> c.isFile && !c.discard)
    ensures Reaches(c, s0, s)
    ensures s == Admitted(s0, facts).(txs := map[d := Ready(!c.discard, AlreadyRan, facts)], runLock := Some(d),
                                      rowLock := if c.discard then None else Some(d))
  {
    DeliveryAdmits(c, s0, d, facts);
    var s1 := Admitted(s0, facts);
    if leg == Primary {
      var s2 := PrimaryReaches(c, s0, s1, d);
      s := DeletionLists(c, s0, s2, d, Primary, s1.rowExists);
    } else {
      ReachesStep(c, s0, s1, StartDeletion(d, Attachment));
      var s2 := s1.(txs := map[d := Cancel(Attachment, false)]);
      assert Apply(c, s1, StartDeletion(d, Attachment)) == s2;
      var s3 := DeletionLists(c, s0, s2, d, Attachment, false);
      ReachesStep(c, s0, s3, LockRow(d));
      s := Apply(c, s3, LockRow(d));
      assert s.txs == map[d := s.txs[d]];
    }
  }

  /** And erases them: no memory, no row, no lock is left, and the key stays consumed. */
  lemma DeletionForgets(c: Source, s0: State, d: Tx, leg: Leg, facts: set<MemId>)
    requires Init(c, s0) && facts != {} && (leg == Attachment ==> c.isFile && !c.discard)
    ensures Reaches(c, s0, State(map[], None, None, false, true, {}, facts, true))
  {
    var s := DeletionListsFacts(c, s0, d, leg, facts);
    ReachesStep(c, s0, s, Commit(d));
    var s' := Apply(c, s, Commit(d));
    assert s'.txs == map[] && s'.memories == {};
    assert s' == State(map[], None, None, false, true, {}, facts, true);
  }

  /** A deletion that comes before the delivery consumes its key: the delivery then admits nothing. */
  lemma CancelledRunSkips(c: Source, s: State, t: Tx)
    requires Enabled(c, s, InsertClaim(t)) && s.keyConsumed
    ensures
      var s1 := Apply(c, s, InsertClaim(t));
      Enabled(c, s1, Commit(t)) && Apply(c, s1, Commit(t)).memories == s.memories
  {
  }

  /** A deletion that finds neither a row nor a memory is rolled back. */
  lemma NotFoundRollsBack(c: Source, s: State, d: Tx)
    requires Enabled(c, s, LockMemories(d)) && s.txs[d].leg == Primary
    ensures
      var s1 := Apply(c, s, LockMemories(d));
      (d !in s1.txs <==> !s.txs[d].hasRow && s.txs[d].doomed !! s.memories) && s1.memories == s.memories
      && s1.rowExists == s.rowExists && s1.keyConsumed == s.keyConsumed && s1.deleted == s.deleted
  {
    var doomed := s.txs[d].doomed;
    assert doomed !! s.memories ==> doomed * s.memories == {};
    if !(doomed !! s.memories) {
      var m :| m in doomed && m in s.memories;
      assert m in doomed * s.memories;
    }
  }

  /** An edit of memories nobody has locked adds its successors beside them. */
  lemma EditAdds(c: Source, s0: State, s: State, t: Tx, edited: set<MemId>, heirs: set<MemId>)
    requires Reaches(c, s0, s) && t !in s.txs && edited <= s.memories && edited != {} && |heirs| == |edited|
    requires heirs !! s.minted && (forall u | u in s.txs :: s.txs[u].LockedMemories() !! edited && !s.txs[u].Locking?)
    requires s.runLock != Some(t) && s.rowLock != Some(t)
    ensures Reaches(c, s0, s.(memories := s.memories + heirs, minted := s.minted + heirs))
  {
    ReachesStep(c, s0, s, StartEdit(t, edited, heirs));
    var s1 := Apply(c, s, StartEdit(t, edited, heirs));
    ReachesStep(c, s0, s1, Commit(t));
    assert s1.txs - {t} == s.txs;
  }

  // ------------------------------------------------------------------- waiting

  predicate SharesRow(s: State) { exists u | u in s.txs :: s.txs[u].Finishing? && s.txs[u].share }

  /** Another transaction has locked one of `ms`: the memories it edits, or those it is about to delete. */
  predicate OthersLock(s: State, t: Tx, ms: set<MemId>) {
    exists u | u in s.txs && u != t ::
      match s.txs[u]
      case Editing(edited, _) => !(edited !! ms)
      case AttachmentRow(_, doomed) => !(doomed !! ms)
      case Ready(_, _, doomed) => !(doomed !! ms)
      case _ => false
  }

  /** What a transaction waits for, in each of its phases; a phase not named waits for nothing. */
  predicate Waits(c: Source, s: State, t: Tx)
    requires t in s.txs
  {
    match s.txs[t]
    case RunLockWait => s.runLock != None
    case Checkpoint(_) => s.rowLock != None
    case RowWait => s.rowLock != None || SharesRow(s)
    case AttachmentRow(_, _) => s.rowLock != None || SharesRow(s)
    case Cancel(leg, hasRow) => leg == Primary && !hasRow && c.isFile && s.runLock != None
    case Locking(_, _, _, doomed) => OthersLock(s, t, doomed)
    case _ => false
  }

  /** The step a transaction takes next. */
  function Next(s: State, t: Tx, facts: set<MemId>): Step
    requires t in s.txs
  {
    match s.txs[t]
    case RunLockWait => TakeRunLock(t)
    case Claim => InsertClaim(t)
    case Load => LoadSource(t, false)
    case Modelling(_) => Verify(t, facts)
    case Checkpoint(_) => Admit(t)
    case RowWait => LockRow(t)
    case Cancel(_, _) => CancelPending(t)
    case Snapshot(_, _, _) => ReadMemories(t)
    case Locking(_, _, _, _) => LockMemories(t)
    case AttachmentRow(_, _) => LockRow(t)
    case _ => Commit(t)
  }

  /** A transaction can go on, with any fresh facts, exactly when what it waits for is free. */
  lemma WaitsForLocksOnly(c: Source, s: State, t: Tx, facts: set<MemId>)
    requires t in s.txs && facts !! s.minted
    ensures Enabled(c, s, Next(s, t, facts)) <==> !Waits(c, s, t)
  {
    assert SharesRow(s) <==> exists u | u in s.txs :: s.txs[u].HoldsShare();
    if s.txs[t].Locking? {
      assert OthersLock(s, t, s.txs[t].doomed) <==>
        exists u | u in s.txs && u != t :: !(s.txs[u].LockedMemories() !! s.txs[t].doomed);
    }
  }

  /** How many steps a transaction has left, at most. */
  function Left(ph: Phase): nat {
    match ph
    case RunLockWait => 6
    case Claim => 5
    case Load => 4
    case Modelling(_) => 3
    case Checkpoint(_) => 2
    case RowWait => 5
    case Cancel(leg, _) => if leg == Primary then 4 else 5
    case Snapshot(leg, _, _) => if leg == Primary then 3 else 4
    case Locking(leg, _, _, _) => if leg == Primary then 2 else 3
    case AttachmentRow(_, _) => 2
    case _ => 1
  }

  /** Every step brings its own transaction nearer to its end and leaves the phase of every other alone. */
  lemma StepsCountDown(c: Source, s: State, st: Step)
    requires Enabled(c, s, st) && st.t in s.txs
    ensures
      var s1 := Apply(c, s, st);
      && (st.t in s1.txs ==> Left(s1.txs[st.t]) < Left(s.txs[st.t]))
      && (st.Commit? || st.Abort? ==> st.t !in s1.txs)
      && s1.txs.Keys - {st.t} == s.txs.Keys - {st.t}
      && forall u | u in s.txs && u != st.t :: s1.txs[u] == s.txs[u]
  {
  }
}
