/**
 * What the safety theorems of DeletionExecutor are about does happen: writers commit
 * rows with their points, deletions list any committed rows, external calls fail half
 * way, and from wherever a run stands every receipt can still be confirmed.
 */
module ExecutorProgress {
  import opened Common
  import opened DeletionExecutor
  import RC = ReceiptChain

  /** What is assumed of an instance, an injective digest and a verifier that knows its signer, can be had. */
  lemma InstancesExist()
    ensures exists e: Instance :: e.Valid()
  {
    RC.DigestsExist();
    assert Instance(RC.WrittenOut, h => h, (h, signature) => h == signature).Valid();
  }

  /** Some run leads from `s` to `s'`. */
  ghost predicate Reaches(e: Instance, s: State, s': State) {
    exists steps :: Legal(e, s, steps) && After(e, s, steps) == s'
  }

  lemma {:induction false} LegalSnoc(e: Instance, s: State, steps: seq<Step>, st: Step)
    requires Legal(e, s, steps) && Enabled(After(e, s, steps), st)
    ensures Legal(e, s, steps + [st]) && After(e, s, steps + [st]) == Apply(e, After(e, s, steps), st)
    decreases |steps|
  {
    var all := steps + [st];
    if steps == [] {
      assert all[1..] == [];
    } else {
      assert all[0] == steps[0] && all[1..] == steps[1..] + [st];
      LegalSnoc(e, Apply(e, s, steps[0]), steps[1..], st);
    }
  }

  lemma ReachesSelf(e: Instance, s: State)
    ensures Reaches(e, s, s)
  {
    assert Legal(e, s, []) && After(e, s, []) == s;
  }

  lemma ReachesStep(e: Instance, s: State, s': State, st: Step)
    requires Reaches(e, s, s') && Enabled(s', st)
    ensures Reaches(e, s, Apply(e, s', st))
  {
    var steps :| Legal(e, s, steps) && After(e, s, steps) == s';
    LegalSnoc(e, s, steps, st);
  }

  // ------------------------------------------------------------------- writers

  /** Transaction `t` has written and locked nothing yet. */
  predicate Idle(s: State, t: Tx) { t !in s.drafts.Values && t !in s.embeds.Values }

  function Drafting(drafts: map<MemId, Tx>, ids: set<MemId>, t: Tx): map<MemId, Tx> {
    drafts + (map m | m in ids :: t)
  }

  lemma OwnDraftEnds(s: State, s': State, t: Tx, ids: set<MemId>)
    requires Idle(s, t) && ids !! s.drafts.Keys
    requires s'.drafts == Drafting(s.drafts, ids, t) && s'.embeds == s.embeds
    ensures Drafted(s', t) == ids && EndWriter(s', t) == s'.(drafts := s.drafts)
  {
    assert forall m | m in s.drafts :: s.drafts[m] in s.drafts.Values;
    assert forall m | m in s.embeds :: s.embeds[m] in s.embeds.Values;
    assert EndWriter(s', t).drafts == s.drafts;
    assert EndWriter(s', t).embeds == s.embeds;
  }

  lemma RowsAreDrafted(e: Instance, s0: State, s: State, t: Tx, m: MemId) returns (s': State)
    requires Reaches(e, s0, s) && WritersInv(s) && Idle(s, t) && m !in s.minted
    ensures Reaches(e, s0, s')
    ensures s' == s.(drafts := Drafting(s.drafts, {m}, t), minted := s.minted + {m}, points := s.points + {m})
  {
    ReachesStep(e, s0, s, Insert(t, {m}));
    var s1 := Apply(e, s, Insert(t, {m}));
    ReachesStep(e, s0, s1, Upsert(t, m));
    s' := Apply(e, s1, Upsert(t, m));
  }

  /** A writer commits a fresh row and its point; one that aborts leaves the point behind. */
  lemma MemoryIsWritten(e: Instance, s0: State, s: State, t: Tx, m: MemId)
    requires Reaches(e, s0, s) && WritersInv(s) && Idle(s, t) && m !in s.minted
    ensures Reaches(e, s0, s.(rows := s.rows + {m}, minted := s.minted + {m}, points := s.points + {m}))
    ensures Reaches(e, s0, s.(minted := s.minted + {m}, points := s.points + {m}))
  {
    var s1 := RowsAreDrafted(e, s0, s, t, m);
    OwnDraftEnds(s, s1, t, {m});
    ReachesStep(e, s0, s1, CommitWriter(t));
    ReachesStep(e, s0, s1, AbortWriter(t));
  }

  /** An embed job brings the point of a committed row back, unless another one holds the row. */
  lemma PointIsRefreshed(e: Instance, s0: State, s: State, t: Tx, m: MemId)
    requires Reaches(e, s0, s) && WritersInv(s) && Idle(s, t) && m in s.rows && m !in s.embeds
    ensures Reaches(e, s0, s.(points := s.points + {m}))
  {
    ReachesStep(e, s0, s, LockForEmbed(t, m));
    var s1 := s.(embeds := s.embeds[m := t]);
    ReachesStep(e, s0, s1, Upsert(t, m));
    var s2 := s1.(points := s.points + {m});
    assert Apply(e, s1, Upsert(t, m)) == s2;
    ReachesStep(e, s0, s2, CommitWriter(t));
    RefreshEnds(s, s2, t, m);
  }

  lemma RefreshEnds(s: State, s': State, t: Tx, m: MemId)
    requires WritersInv(s) && Idle(s, t) && m !in s.embeds
    requires s'.drafts == s.drafts && s'.embeds == s.embeds[m := t]
    ensures Drafted(s', t) == {} && EndWriter(s', t) == s'.(embeds := s.embeds)
  {
    assert forall x | x in s.drafts :: s.drafts[x] in s.drafts.Values;
    assert forall x | x in s.embeds :: s.embeds[x] in s.embeds.Values;
    assert EndWriter(s', t).drafts == s.drafts;
    assert EndWriter(s', t).embeds == s.embeds;
  }

  /** Whoever may write the point of a row is alone with that row: nobody else may, and nobody can lock it. */
  lemma OneWriterPerRow(s: State, t: Tx, u: Tx, m: MemId)
    requires WritersInv(s) && Enabled(s, Upsert(t, m))
    ensures Enabled(s, Upsert(u, m)) ==> u == t
    ensures !Enabled(s, LockForEmbed(u, m))
  {
  }

  /** A deletion can list any committed rows no embed job holds, and any objects ever stored. */
  lemma AnyRowsAreListed(e: Instance, s: State, rid: ReceiptId, row: Row)
    requires rid !in s.receipts && !row.confirmed && row.points <= s.rows && row.points !! s.embeds.Keys
    requires forall k | k in row.objects :: k in s.mintedKeys
    ensures Reaches(e, s, s.(rows := s.rows - row.points, receipts := s.receipts[rid := row]))
  {
    ReachesSelf(e, s);
    ReachesStep(e, s, s, Request(rid, row));
  }

  /** Objects are stored under fresh keys. */
  lemma ObjectIsStored(e: Instance, s: State, key: ObjectKey)
    requires key !in s.mintedKeys
    ensures Reaches(e, s, s.(objects := s.objects + {key}, mintedKeys := s.mintedKeys + {key}))
  {
    ReachesSelf(e, s);
    ReachesStep(e, s, s, PutObject(key));
  }

  // ----------------------------------------------------------------- executors

  // -------------------------------------------------------------- nothing else is lost

  predicate ListsPoint(s: State, m: MemId) { exists r | r in s.receipts :: m in s.receipts[r].points }

  predicate ListsObject(s: State, k: ObjectKey) { exists r | r in s.receipts :: k in s.receipts[r].objects }

  /** What is in `s` and not in `s'` any more is on a receipt of `s'`, and so is what was on one before. */
  ghost predicate LosesListedOnly(s: State, s': State) {
    && (forall m | (m in s.points && m !in s'.points) || (m in s.rows && m !in s'.rows) || ListsPoint(s, m) ::
         ListsPoint(s', m))
    && (forall k | (k in s.objects && k !in s'.objects) || ListsObject(s, k) :: ListsObject(s', k))
  }

  lemma ReceiptsStay(e: Instance, s: State, st: Step)
    requires Enabled(s, st)
    ensures
      var s' := Apply(e, s, st);
      forall r | r in s.receipts ::
        && r in s'.receipts
        && s'.receipts[r].points == s.receipts[r].points && s'.receipts[r].objects == s.receipts[r].objects
  {
  }

  lemma StepLosesListedOnly(e: Instance, s: State, st: Step)
    requires Enabled(s, st)
    ensures LosesListedOnly(s, Apply(e, s, st))
  {
    ReceiptsStay(e, s, st);
    var s' := Apply(e, s, st);
    forall m | ListsPoint(s, m) ensures ListsPoint(s', m) {
      var r :| r in s.receipts && m in s.receipts[r].points;
      assert r in s'.receipts && m in s'.receipts[r].points;
    }
    forall k | ListsObject(s, k) ensures ListsObject(s', k) {
      var r :| r in s.receipts && k in s.receipts[r].objects;
      assert r in s'.receipts && k in s'.receipts[r].objects;
    }
    if st.DeletePoints? || st.DeleteObject? { assert st.rid in s'.receipts; }
    if st.Request? { assert st.rid in s'.receipts && s'.receipts[st.rid] == st.row; }
  }

  /** Over any run from any state, a row, point or object that disappears is on some receipt. */
  lemma {:induction false} OnlyListedIsLost(e: Instance, s: State, steps: seq<Step>)
    requires Legal(e, s, steps)
    ensures LosesListedOnly(s, After(e, s, steps))
    decreases |steps|
  {
    if steps != [] {
      StepLosesListedOnly(e, s, steps[0]);
      OnlyListedIsLost(e, Apply(e, s, steps[0]), steps[1..]);
    }
  }

  /** A failed call may have removed any part of what it was to remove, or nothing. */
  lemma FailedCallRemovesAnyPart(e: Instance, s: State, rid: ReceiptId, gone: set<MemId>)
    requires rid in s.receipts && rid in s.execs && s.execs[rid].Removing?
    ensures s.execs[rid] == Removing(false, 0) && gone <= s.receipts[rid].points ==>
      Reaches(e, s, s.(points := s.points - gone))
    ensures s.execs[rid].pointsDone && s.execs[rid].next < |s.receipts[rid].objects| ==>
      && Reaches(e, s, s.(objects := s.objects - {s.receipts[rid].objects[s.execs[rid].next]}))
      && Enabled(s, DeleteObject(rid, false, false)) && Apply(e, s, DeleteObject(rid, false, false)) == s
  {
    ReachesSelf(e, s);
    assert s.execs[rid := s.execs[rid]] == s.execs;
    if s.execs[rid] == Removing(false, 0) && gone <= s.receipts[rid].points {
      ReachesStep(e, s, s, DeletePoints(rid, gone, false));
    }
    if s.execs[rid].pointsDone && s.execs[rid].next < |s.receipts[rid].objects| {
      ReachesStep(e, s, s, DeleteObject(rid, true, false));
    }
  }

  lemma ClearedStep(s: State, rid: ReceiptId, next: nat)
    requires rid in s.receipts && next < |s.receipts[rid].objects|
    ensures Keys(s.receipts[rid].objects[..next + 1]) ==
            Keys(s.receipts[rid].objects[..next]) + {s.receipts[rid].objects[next]}
  {
  }

  lemma {:induction false} ObjectsGo(e: Instance, s0: State, s: State, rid: ReceiptId, next: nat)
    requires rid in s.receipts && next <= |s.receipts[rid].objects| && Reaches(e, s0, Cleared(s, rid, next))
    ensures Reaches(e, s0, Cleared(s, rid, |s.receipts[rid].objects|))
    decreases |s.receipts[rid].objects| - next
  {
    if next < |s.receipts[rid].objects| {
      ReachesStep(e, s0, Cleared(s, rid, next), DeleteObject(rid, true, true));
      ClearedStep(s, rid, next);
      assert Apply(e, Cleared(s, rid, next), DeleteObject(rid, true, true)) == Cleared(s, rid, next + 1);
      ObjectsGo(e, s0, s, rid, next + 1);
    }
  }

  lemma RemovalsRun(e: Instance, s0: State, s: State, rid: ReceiptId)
    requires Reaches(e, s0, s) && rid in s.receipts && !s.receipts[rid].confirmed && rid !in s.execs
    ensures Reaches(e, s0, Cleared(s, rid, |s.receipts[rid].objects|))
  {
    ReachesStep(e, s0, s, Begin(rid));
    var s1 := s.(execs := s.execs[rid := Removing(false, 0)]);
    ReachesStep(e, s0, s1, DeletePoints(rid, s.receipts[rid].points, true));
    assert s.receipts[rid].objects[..0] == [];
    assert Apply(e, s1, DeletePoints(rid, s.receipts[rid].points, true)) == Cleared(s, rid, 0);
    ObjectsGo(e, s0, s, rid, 0);
  }

  /** The confirmation of an executor whose removals are done: chain lock, tip, commit. */
  lemma ChainIsLocked(e: Instance, s0: State, s: State, rid: ReceiptId) returns (s': State)
    requires Reaches(e, s0, s) && s.chainLock == {} && rid in s.receipts && rid in s.execs
    requires s.execs[rid] == Removing(true, |s.receipts[rid].objects|)
    ensures Reaches(e, s0, s') && s' == s.(execs := s.execs[rid := HoldsChain], chainLock := {rid})
  {
    ReachesStep(e, s0, s, LockChain(rid));
    s' := Apply(e, s, LockChain(rid));
  }

  lemma TipIsRead(e: Instance, s0: State, s: State, rid: ReceiptId) returns (s': State)
    requires e.Valid() && RC.IsChain(e.digest, s.ledger) && Reaches(e, s0, s)
    requires rid in s.execs && s.execs[rid] == HoldsChain
    ensures Reaches(e, s0, s') && s' == s.(execs := s.execs[rid := HasTip(RC.TipHash(s.ledger))])
  {
    OneTip(e, s.ledger);
    ReachesStep(e, s0, s, ReadTip(rid, RC.TipHash(s.ledger)));
    s' := Apply(e, s, ReadTip(rid, RC.TipHash(s.ledger)));
  }

  lemma ReceiptIsSealed(e: Instance, s0: State, s: State, rid: ReceiptId, now: int) returns (s': State)
    requires Reaches(e, s0, s) && rid in s.receipts && rid in s.execs && s.execs[rid] == HasTip(RC.TipHash(s.ledger))
    ensures Reaches(e, s0, s')
    ensures s' == s.(execs := s.execs - {rid}, chainLock := s.chainLock - {rid},
                     receipts := s.receipts[rid := s.receipts[rid].(confirmed := true)],
                     ledger := s.ledger + [Sealed(e, rid, s.receipts[rid], RC.TipHash(s.ledger), now)])
  {
    ReachesStep(e, s0, s, Confirm(rid, now));
    s' := Apply(e, s, Confirm(rid, now));
  }

  lemma ConfirmationRuns(e: Instance, s0: State, s: State, rid: ReceiptId, now: int)
    requires e.Valid() && RC.IsChain(e.digest, s.ledger) && s.chainLock == {}
    requires rid in s.receipts && rid !in s.execs
    requires Reaches(e, s0, Cleared(s, rid, |s.receipts[rid].objects|))
    ensures Reaches(e, s0, Executed(e, s, rid, now))
  {
    var s1 := Cleared(s, rid, |s.receipts[rid].objects|);
    var s2 := ChainIsLocked(e, s0, s1, rid);
    var s3 := TipIsRead(e, s0, s2, rid);
    var s4 := ReceiptIsSealed(e, s0, s3, rid, now);
    assert s.receipts[rid].objects[..|s.receipts[rid].objects|] == s.receipts[rid].objects;
    assert s4.execs == s.execs;
  }

  /** An attempt that nobody stands in the way of removes what is listed and confirms the receipt. */
  lemma AttemptConfirms(e: Instance, s0: State, s: State, rid: ReceiptId, now: int)
    requires e.Valid() && RC.IsChain(e.digest, s.ledger) && Reaches(e, s0, s)
    requires rid in s.receipts && !s.receipts[rid].confirmed && rid !in s.execs && s.chainLock == {}
    ensures Reaches(e, s0, Executed(e, s, rid, now))
  {
    RemovalsRun(e, s0, s, rid);
    ConfirmationRuns(e, s0, s, rid, now);
  }

  /** Aborting gives up the executor and the chain lock, and nothing else. */
  lemma ExecutorGivesUp(e: Instance, s0: State, s: State, rid: ReceiptId) returns (s': State)
    requires Inv(e, s) && Reaches(e, s0, s)
    ensures Reaches(e, s0, s') && Inv(e, s') && rid !in s'.execs
    ensures s' == s.(execs := s'.execs, chainLock := s.chainLock - {rid}) && s'.execs == s.execs - {rid}
  {
    if rid in s.execs {
      ReachesStep(e, s0, s, Abort(rid));
      StepKeepsInv(e, s, Abort(rid));
      s' := Apply(e, s, Abort(rid));
    } else {
      s' := s;
    }
  }

  lemma LockHolder(e: Instance, s: State) returns (holder: ReceiptId)
    requires Inv(e, s)
    ensures s.chainLock - {holder} == {}
  {
    if s.chainLock == {} { return 0; }
    holder :| holder in s.chainLock;
    assert ExecInv(s, holder);
  }

  /**
   * No failure strands a receipt: wherever a run stands, once whoever works on the
   * receipt or holds the chain lock has given up, every unconfirmed receipt can be
   * confirmed, with all it lists removed and no other receipt touched.
   */
  lemma EveryReceiptCanBeConfirmed(e: Instance, steps: seq<Step>, rid: ReceiptId, now: int)
    requires e.Valid() && Legal(e, EMPTY, steps)
    requires var s := After(e, EMPTY, steps); rid in s.receipts && !s.receipts[rid].confirmed
    ensures
      var s := After(e, EMPTY, steps);
      exists s' ::
        && Reaches(e, s, s') && s'.receipts == s.receipts[rid := s.receipts[rid].(confirmed := true)]
        && s'.points == s.points - s.receipts[rid].points && s'.rows == s.rows
        && |s'.ledger| == |s.ledger| + 1 && s'.ledger[|s.ledger|].payload.id == rid
  {
    EmptyInv(e);
    LegalKeepsInv(e, EMPTY, steps);
    var s := After(e, EMPTY, steps);
    ReachesSelf(e, s);
    var s1 := ExecutorGivesUp(e, s, s, rid);
    var holder := LockHolder(e, s1);
    var s2 := ExecutorGivesUp(e, s, s1, holder);
    AttemptConfirms(e, s, s2, rid, now);
  }

  /** The next success of an executor is possible, or it waits for the chain lock. */
  predicate GoesOn(s: State, rid: ReceiptId)
    requires rid in s.execs && rid in s.receipts
  {
    match s.execs[rid]
    case Removing(false, _) => Enabled(s, DeletePoints(rid, s.receipts[rid].points, true))
    case Removing(true, next) =>
      if next < |s.receipts[rid].objects| then Enabled(s, DeleteObject(rid, true, true)) else Enabled(s, LockChain(rid))
    case HoldsChain => Enabled(s, ReadTip(rid, RC.TipHash(s.ledger)))
    case HasTip(_) => Enabled(s, Confirm(rid, 0))
  }

  lemma NextCall(s: State, rid: ReceiptId)
    requires rid in s.execs && rid in s.receipts
    requires !SeveralTips(s.ledger) && AnswersTip(s.ledger, RC.TipHash(s.ledger))
    requires match s.execs[rid]
             case Removing(false, next) => next == 0
             case Removing(true, next) => next <= |s.receipts[rid].objects|
             case _ => true
    ensures GoesOn(s, rid) <==>
      (s.execs[rid] == Removing(true, |s.receipts[rid].objects|) ==> s.chainLock == {})
  {
  }

  lemma ChainIsFree(e: Instance, s: State)
    requires Inv(e, s)
    ensures s.chainLock == {} <==> forall r | r in s.execs :: s.execs[r].Removing?
  {
    if s.chainLock != {} {
      var holder :| holder in s.chainLock;
      assert holder in s.execs && !s.execs[holder].Removing?;
    }
    forall r | r in s.execs && !s.execs[r].Removing? ensures s.chainLock != {} { assert ExecInv(s, r); }
  }

  lemma WhatNextCallNeeds(e: Instance, s: State, rid: ReceiptId)
    requires Inv(e, s) && rid in s.execs
    ensures rid in s.receipts && !SeveralTips(s.ledger) && AnswersTip(s.ledger, RC.TipHash(s.ledger))
    ensures match s.execs[rid]
            case Removing(false, next) => next == 0
            case Removing(true, next) => next <= |s.receipts[rid].objects|
            case _ => true
  {
    OneTip(e, s.ledger);
    assert ExecInv(s, rid);
  }

  /** In every reachable state an executor's next call can succeed, unless another is past the chain lock it wants. */
  lemma ExecutorWaitsForChainOnly(e: Instance, steps: seq<Step>, rid: ReceiptId)
    requires e.Valid() && Legal(e, EMPTY, steps) && rid in After(e, EMPTY, steps).execs
    ensures
      var s := After(e, EMPTY, steps);
      rid in s.receipts && (GoesOn(s, rid) <==>
        (s.execs[rid] == Removing(true, |s.receipts[rid].objects|) ==> forall r | r in s.execs :: s.execs[r].Removing?))
  {
    EmptyInv(e);
    LegalKeepsInv(e, EMPTY, steps);
    var s := After(e, EMPTY, steps);
    WhatNextCallNeeds(e, s, rid);
    ChainIsFree(e, s);
    NextCall(s, rid);
  }
}
