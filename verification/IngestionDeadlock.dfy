/**
 * The two ways of deleting take the row lock and the memory locks in opposite orders:
 * from the very start of a stored file they can come to wait for each other. Which
 * transactions can deadlock at all, over all the locks they take, is in MemoryLocks.
 */
module IngestionDeadlock {
  import opened Common
  import opened IngestionRace

  /**
   * Deletion `p`, on the primary leg, holds the row and wants a memory lock that deletion
   * `a`, on the attachment leg, holds; and `a` wants the row.
   */
  predicate Deadlocked(s: State, p: Tx, a: Tx) {
    && p in s.txs && a in s.txs && p != a
    && s.txs[p].Locking? && s.rowLock == Some(p) && !(s.txs[a].LockedMemories() !! s.txs[p].doomed)
    && s.txs[a].AttachmentRow?
  }

  /** Nothing but the abort of one of the two gets them out of it. */
  lemma DeadlockStays(c: Source, s: State, p: Tx, a: Tx, st: Step)
    requires Deadlocked(s, p, a) && Enabled(c, s, st) && st != Abort(p) && st != Abort(a)
    ensures st.t != p && st.t != a
    ensures Deadlocked(Apply(c, s, st), p, a)
  {
  }

  /** Over any run in which neither aborts, calm or not, neither of the two moves. */
  lemma {:induction false} DeadlockLasts(c: Source, s: State, p: Tx, a: Tx, steps: seq<Step>)
    requires Deadlocked(s, p, a) && Legal(c, s, steps, false) && Abort(p) !in steps && Abort(a) !in steps
    ensures After(c, s, steps, false).txs.Keys >= {p, a}
    ensures After(c, s, steps, false).txs[p] == s.txs[p] && After(c, s, steps, false).txs[a] == s.txs[a]
    decreases |steps|
  {
    if steps != [] {
      DeadlockStays(c, s, p, a, steps[0]);
      DeadlockLasts(c, Apply(c, s, steps[0]), p, a, steps[1..]);
    }
  }

  /** A deletion on the attachment leg, alone with a free run lock, lists and locks the memories. */
  lemma AttachmentTakesMemories(c: Source, s0: State, s: State, a: Tx) returns (s': State)
    requires Reaches(c, s0, s) && s.txs == map[] && s.runLock == None && s.keyConsumed && c.isFile && !c.discard
    ensures Reaches(c, s0, s')
    ensures s' == s.(txs := map[a := AttachmentRow(AlreadyRan, s.memories)], runLock := Some(a))
  {
    ReachesStep(c, s0, s, StartDeletion(a, Attachment));
    var s1 := Goto(s, a, Cancel(Attachment, false));
    ReachesStep(c, s0, s1, CancelPending(a));
    var s2 := Goto(s1, a, Snapshot(Attachment, false, AlreadyRan)).(runLock := Some(a));
    ReachesStep(c, s0, s2, ReadMemories(a));
    var s3 := Goto(s2, a, Locking(Attachment, false, AlreadyRan, s.memories));
    ReachesStep(c, s0, s3, LockMemories(a));
    assert s.memories * s.memories == s.memories;
    s' := Goto(s3, a, AttachmentRow(AlreadyRan, s.memories));
  }

  lemma PrimaryLists(c: Source, s0: State, s: State, p: Tx) returns (s': State)
    requires Reaches(c, s0, s) && p in s.txs && s.txs[p] == Cancel(Primary, true) && s.runLock.Some?
    ensures Reaches(c, s0, s')
    ensures s' == Goto(s, p, Locking(Primary, true, RunInFlight, s.memories))
  {
    ReachesStep(c, s0, s, CancelPending(p));
    var s1 := Goto(s, p, Snapshot(Primary, true, RunInFlight));
    ReachesStep(c, s0, s1, ReadMemories(p));
    s' := Apply(c, s1, ReadMemories(p));
    assert s'.txs == s.txs[p := Locking(Primary, true, RunInFlight, s.memories)];
  }

  /** A deletion on the primary leg takes the row and lists the memories beside it. */
  lemma PrimaryTakesRow(c: Source, s0: State, s: State, p: Tx) returns (s': State)
    requires Reaches(c, s0, s) && p !in s.txs && s.rowExists && s.rowLock == None && s.runLock.Some?
    requires forall u | u in s.txs :: !s.txs[u].HoldsShare()
    ensures Reaches(c, s0, s')
    ensures s' == Goto(s, p, Locking(Primary, true, RunInFlight, s.memories)).(rowLock := Some(p))
  {
    var s1 := PrimaryStarts(c, s0, s, p);
    var s2 := PrimaryLocksRow(c, s0, s1, p);
    s' := PrimaryLists(c, s0, s2, p);
  }

  /**
   * The two legs deadlock on one stored file, from its very start: once a delivery has
   * produced a memory, deleting the email that carries the file locks the memory and
   * wants the row, while deleting the file holds the row and wants the memory. Neither
   * moves again until one of them aborts.
   */
  lemma LegsDeadlock(c: Source, s0: State, p: Tx, a: Tx) returns (s: State)
    requires Init(c, s0) && c.isFile && !c.discard && p != a
    ensures Reaches(c, s0, s) && Deadlocked(s, p, a)
    ensures forall steps | Legal(c, s, steps, false) && Abort(p) !in steps && Abort(a) !in steps ::
      && After(c, s, steps, false).txs.Keys >= {p, a}
      && After(c, s, steps, false).txs[p] == s.txs[p] && After(c, s, steps, false).txs[a] == s.txs[a]
  {
    s := LegsMeet(c, s0, p, a);
    forall steps | Legal(c, s, steps, false) && Abort(p) !in steps && Abort(a) !in steps
      ensures
        && After(c, s, steps, false).txs.Keys >= {p, a}
        && After(c, s, steps, false).txs[p] == s.txs[p] && After(c, s, steps, false).txs[a] == s.txs[a]
    {
      DeadlockLasts(c, s, p, a, steps);
    }
  }

  lemma LegsMeet(c: Source, s0: State, p: Tx, a: Tx) returns (s: State)
    requires Init(c, s0) && c.isFile && !c.discard && p != a
    ensures Reaches(c, s0, s) && Deadlocked(s, p, a)
  {
    ReachesSelf(c, s0);
    var s1 := FreshRunAdds(c, s0, s0, a, 0);
    var s2 := AttachmentTakesMemories(c, s0, s1, a);
    s := PrimaryTakesRow(c, s0, s2, p);
    assert 0 in s.txs[a].LockedMemories() && 0 in s.txs[p].doomed;
  }
}
