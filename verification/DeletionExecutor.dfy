/**
 * The external leg of deletion and the receipts it confirms, as interleaved steps
 * over the three stores: database rows, index points, stored objects.
 *
 * Any number of executors, pipeline writes and embed jobs run concurrently and fail
 * anywhere. An abort rolls database writes back; points and objects that an external
 * call has removed, or written, stay that way.
 */
module DeletionExecutor {
  import opened Common
  import RC = ReceiptChain

  type Tx = nat
  type MemId = nat
  type ObjectKey = string
  type ReceiptId = nat

  /** The instance: its hash, its signer and the matching verifier. */
  datatype Instance = Instance(
    digest: RC.Digest, sign: RC.Hash -> RC.Signature, signs: (RC.Hash, RC.Signature) -> bool)
  {
    ghost predicate Valid() {
      RC.Collisionless(digest) && forall h :: signs(h, sign(h))
    }
  }

  /** A receipt row: what the enumeration listed, and whether removal is confirmed. */
  datatype Row = Row(
    sourceType: string, sourceId: string, counts: string,
    points: set<MemId>, objects: seq<ObjectKey>, confirmed: bool)

  datatype Phase =
    | Removing(pointsDone: bool, next: nat)  // objects before `next` are deleted
    | HoldsChain
    | HasTip(prev: RC.Hash)

  datatype State = State(
    rows: set<MemId>,
    drafts: map<MemId, Tx>,           // rows written by a transaction that has not committed
    embeds: map<MemId, Tx>,           // committed rows an embed job holds locked
    minted: set<MemId>,
    points: set<MemId>,
    objects: set<ObjectKey>,
    mintedKeys: set<ObjectKey>,
    receipts: map<ReceiptId, Row>,
    execs: map<ReceiptId, Phase>,     // the executor that holds the receipt row
    chainLock: set<ReceiptId>,
    ledger: seq<RC.Receipt>)          // confirmed receipts in commit order

  const EMPTY := State({}, map[], map[], {}, {}, {}, {}, map[], map[], {}, [])

  datatype Step =
    // writers
    | Insert(t: Tx, ids: set<MemId>)
    | LockForEmbed(t: Tx, m: MemId)
    | Upsert(t: Tx, m: MemId)
    | CommitWriter(t: Tx)
    | AbortWriter(t: Tx)
    | PutObject(key: ObjectKey)
    // the enumeration transaction
    | Request(rid: ReceiptId, row: Row)
    // an executor
    | Begin(rid: ReceiptId)
    | DeletePoints(rid: ReceiptId, gone: set<MemId>, ok: bool)
    | DeleteObject(rid: ReceiptId, took: bool, ok: bool)
    | LockChain(rid: ReceiptId)
    | ReadTip(rid: ReceiptId, tip: RC.Hash)
    | RefuseTips(rid: ReceiptId)
    | Confirm(rid: ReceiptId, now: int)
    | Abort(rid: ReceiptId)

  /** What the tip query may answer: the hash nothing links to, genesis for an empty ledger. */
  predicate AnswersTip(rows: seq<RC.Receipt>, tip: RC.Hash) {
    || (tip == RC.GENESIS && forall r | r in rows :: !RC.IsTip(rows, r))
    || (exists r | r in rows :: RC.IsTip(rows, r) && r.hash == tip)
  }

  predicate SeveralTips(rows: seq<RC.Receipt>) {
    exists i, j | 0 <= i < j < |rows| :: RC.IsTip(rows, rows[i]) && RC.IsTip(rows, rows[j])
  }

  predicate Enabled(s: State, st: Step) {
    match st
    case Insert(_, ids) => ids !! s.minted
    case LockForEmbed(_, m) => m in s.rows && m !in s.embeds
    case Upsert(t, m) => (m in s.drafts && s.drafts[m] == t) || (m in s.embeds && s.embeds[m] == t)
    case CommitWriter(_) => true
    case AbortWriter(_) => true
    case PutObject(key) => key !in s.mintedKeys
    case Request(rid, row) =>
      && rid !in s.receipts && !row.confirmed
      && row.points <= s.rows && row.points !! s.embeds.Keys
      && forall k | k in row.objects :: k in s.mintedKeys
    case Begin(rid) => rid in s.receipts && !s.receipts[rid].confirmed && rid !in s.execs
    // a failed call may have removed any part, a successful one has removed everything
    case DeletePoints(rid, gone, ok) =>
      && rid in s.receipts && rid in s.execs && s.execs[rid] == Removing(false, 0)
      && gone <= s.receipts[rid].points && (ok ==> gone == s.receipts[rid].points)
    case DeleteObject(rid, took, ok) =>
      && rid in s.receipts && rid in s.execs && s.execs[rid].Removing?
      && s.execs[rid].pointsDone && s.execs[rid].next < |s.receipts[rid].objects|
      && (ok ==> took)
    case LockChain(rid) =>
      && rid in s.receipts && rid in s.execs && s.execs[rid] == Removing(true, |s.receipts[rid].objects|)
      && s.chainLock == {}
    case ReadTip(rid, tip) =>
      rid in s.execs && s.execs[rid].HoldsChain? && !SeveralTips(s.ledger) && AnswersTip(s.ledger, tip)
    case RefuseTips(rid) => rid in s.execs && s.execs[rid].HoldsChain? && SeveralTips(s.ledger)
    case Confirm(rid, _) => rid in s.receipts && rid in s.execs && s.execs[rid].HasTip?
    case Abort(rid) => rid in s.execs
  }

  function Drafted(s: State, t: Tx): set<MemId> { set m | m in s.drafts && s.drafts[m] == t }

  /** End of a writing transaction: its drafts and row locks go. */
  function EndWriter(s: State, t: Tx): State {
    s.(drafts := map m | m in s.drafts && s.drafts[m] != t :: s.drafts[m],
       embeds := map m | m in s.embeds && s.embeds[m] != t :: s.embeds[m])
  }

  /** End of an executor: the receipt row and the chain lock are released. */
  function EndExec(s: State, rid: ReceiptId): State {
    s.(execs := s.execs - {rid}, chainLock := s.chainLock - {rid})
  }

  function Sealed(e: Instance, rid: ReceiptId, row: Row, prev: RC.Hash, now: int): RC.Receipt {
    var payload := RC.Payload(rid, row.sourceType, row.sourceId, row.counts, now, now, prev);
    RC.Receipt(payload, e.digest(payload), e.sign(e.digest(payload)))
  }

  function Apply(e: Instance, s: State, st: Step): State
    requires Enabled(s, st)
  {
    match st
    case Insert(t, ids) => s.(drafts := s.drafts + (map m | m in ids :: t), minted := s.minted + ids)
    case LockForEmbed(t, m) => s.(embeds := s.embeds[m := t])
    case Upsert(_, m) => s.(points := s.points + {m})
    case CommitWriter(t) => EndWriter(s, t).(rows := s.rows + Drafted(s, t))
    case AbortWriter(t) => EndWriter(s, t)
    case PutObject(key) => s.(objects := s.objects + {key}, mintedKeys := s.mintedKeys + {key})
    case Request(rid, row) => s.(rows := s.rows - row.points, receipts := s.receipts[rid := row])
    case Begin(rid) => s.(execs := s.execs[rid := Removing(false, 0)])
    case DeletePoints(rid, gone, ok) =>
      s.(points := s.points - gone, execs := s.execs[rid := Removing(ok, 0)])
    case DeleteObject(rid, took, ok) =>
      var n := s.execs[rid].next;
      s.(objects := if took then s.objects - {s.receipts[rid].objects[n]} else s.objects,
         execs := s.execs[rid := Removing(true, if ok then n + 1 else n)])
    case LockChain(rid) => s.(execs := s.execs[rid := HoldsChain], chainLock := {rid})
    case ReadTip(rid, tip) => s.(execs := s.execs[rid := HasTip(tip)])
    case RefuseTips(rid) => EndExec(s, rid)
    case Confirm(rid, now) =>
      EndExec(s, rid).(receipts := s.receipts[rid := s.receipts[rid].(confirmed := true)],
                       ledger := s.ledger + [Sealed(e, rid, s.receipts[rid], s.execs[rid].prev, now)])
    case Abort(rid) => EndExec(s, rid)
  }

  predicate Legal(e: Instance, s: State, steps: seq<Step>)
    decreases |steps|
  {
    steps == [] || (Enabled(s, steps[0]) && Legal(e, Apply(e, s, steps[0]), steps[1..]))
  }

  function After(e: Instance, s: State, steps: seq<Step>): State
    requires Legal(e, s, steps)
    decreases |steps|
  {
    if steps == [] then s else After(e, Apply(e, s, steps[0]), steps[1..])
  }

  // ---------------------------------------------------------------- invariants

  /** A listed memory is gone for good: no row, no draft and no embed lock can bring its point back. */
  predicate Gone(s: State, ids: set<MemId>) {
    ids !! s.rows && ids !! s.drafts.Keys && ids !! s.embeds.Keys && ids <= s.minted
  }

  predicate WritersInv(s: State) {
    && s.rows <= s.minted && s.drafts.Keys <= s.minted && s.rows !! s.drafts.Keys && s.embeds.Keys <= s.rows
    && s.objects <= s.mintedKeys
  }

  predicate Listed(s: State) {
    forall r | r in s.receipts ::
      Gone(s, s.receipts[r].points) && forall k | k in s.receipts[r].objects :: k in s.mintedKeys
  }

  /** The external removals an executor has behind it, or a receipt claims. */
  predicate Removed(s: State, row: Row, next: nat) {
    && next <= |row.objects| && row.points !! s.points
    && forall i | 0 <= i < next :: row.objects[i] !in s.objects
  }

  predicate ExecInv(s: State, rid: ReceiptId)
    requires rid in s.execs
  {
    && rid in s.receipts && !s.receipts[rid].confirmed
    && match s.execs[rid]
       case Removing(pointsDone, next) => if pointsDone then Removed(s, s.receipts[rid], next) else next == 0
       case HoldsChain => s.chainLock == {rid} && Removed(s, s.receipts[rid], |s.receipts[rid].objects|)
       case HasTip(prev) =>
         && s.chainLock == {rid} && Removed(s, s.receipts[rid], |s.receipts[rid].objects|)
         && prev == RC.TipHash(s.ledger)
  }

  predicate ExecsInv(s: State) {
    && (forall r | r in s.chainLock :: r in s.execs && !s.execs[r].Removing?)
    && (forall r | r in s.execs :: ExecInv(s, r))
    && (forall r | r in s.receipts && s.receipts[r].confirmed ::
      Removed(s, s.receipts[r], |s.receipts[r].objects|))
  }

  predicate ListsReceipt(s: State, rid: ReceiptId) {
    exists i | 0 <= i < |s.ledger| :: s.ledger[i].payload.id == rid
  }

  /** The ledger is one line and holds exactly the confirmed receipts, as they were listed. */
  predicate LedgerInv(e: Instance, s: State) {
    && RC.IsChain(e.digest, s.ledger)
    && (forall i | 0 <= i < |s.ledger| :: LedgerEntry(e, s, s.ledger[i]))
    && (forall i, j | 0 <= i < j < |s.ledger| :: s.ledger[i].payload.id != s.ledger[j].payload.id)
    && (forall r | r in s.receipts && s.receipts[r].confirmed :: ListsReceipt(s, r))
  }

  predicate LedgerEntry(e: Instance, s: State, l: RC.Receipt) {
    var p := l.payload;
    && p.id in s.receipts && s.receipts[p.id].confirmed
    && l == Sealed(e, p.id, s.receipts[p.id], p.prevHash, p.signedAt)
  }

  ghost predicate Inv(e: Instance, s: State) {
    e.Valid() && WritersInv(s) && Listed(s) && ExecsInv(s) && LedgerInv(e, s)
  }

  lemma EmptyInv(e: Instance)
    requires e.Valid()
    ensures Inv(e, EMPTY)
  {
  }

  lemma ListedAcross(s: State, s': State)
    requires Listed(s) && s'.receipts.Keys == s.receipts.Keys
    requires forall r | r in s.receipts :: s'.receipts[r].(confirmed := false) == s.receipts[r].(confirmed := false)
    requires s.minted <= s'.minted && s.mintedKeys <= s'.mintedKeys
    requires forall m | m in s.minted && m in s'.rows + s'.drafts.Keys + s'.embeds.Keys ::
      m in s.rows + s.drafts.Keys + s.embeds.Keys
    ensures Listed(s')
  {
    forall r | r in s'.receipts
      ensures Gone(s', s'.receipts[r].points) && forall k | k in s'.receipts[r].objects :: k in s'.mintedKeys
    {
      assert Gone(s, s.receipts[r].points);
      assert s'.receipts[r].(confirmed := false).points == s.receipts[r].points;
      assert s'.receipts[r].(confirmed := false).objects == s.receipts[r].objects;
    }
  }

  lemma WriterStepKeepsListed(e: Instance, s: State, st: Step)
    requires Inv(e, s) && Enabled(s, st) && !st.Request?
    ensures WritersInv(Apply(e, s, st)) && Listed(Apply(e, s, st))
  {
    ListedAcross(s, Apply(e, s, st));
  }

  lemma RequestKeepsListed(e: Instance, s: State, rid: ReceiptId, row: Row)
    requires Inv(e, s) && Enabled(s, Request(rid, row))
    ensures WritersInv(Apply(e, s, Request(rid, row))) && Listed(Apply(e, s, Request(rid, row)))
  {
  }

  /** Removals stay done: writers only touch points outside every receipt, and fresh objects. */
  lemma RemovedAcross(s: State, s': State, row: Row, next: nat)
    requires Removed(s, row, next)
    requires forall m | m in s'.points && m !in s.points :: m !in row.points
    requires forall k | k in s'.objects && k !in s.objects :: k !in row.objects
    ensures Removed(s', row, next)
  {
  }

  /** Steps that leave receipts, executors and the ledger alone. */
  predicate WriterStep(st: Step) {
    st.Insert? || st.LockForEmbed? || st.Upsert? || st.CommitWriter? || st.AbortWriter? || st.PutObject?
  }

  lemma WriterStepKeepsExecs(e: Instance, s: State, st: Step)
    requires Inv(e, s) && Enabled(s, st) && WriterStep(st)
    ensures ExecsInv(Apply(e, s, st))
  {
    var s' := Apply(e, s, st);
    forall r | r in s.receipts
      ensures forall n: nat | Removed(s, s.receipts[r], n) :: Removed(s', s.receipts[r], n)
    {
      assert Gone(s, s.receipts[r].points);
      forall n: nat | Removed(s, s.receipts[r], n) ensures Removed(s', s.receipts[r], n) {
        RemovedAcross(s, s', s.receipts[r], n);
      }
    }
    forall r | r in s'.execs ensures ExecInv(s', r) { assert ExecInv(s, r); }
  }

  /** Executor steps short of confirmation: points and objects only shrink. */
  predicate ExecStep(st: Step) {
    || st.Begin? || st.DeletePoints? || st.DeleteObject? || st.LockChain? || st.ReadTip? || st.RefuseTips? || st.Abort?
  }

  lemma ExecStepShrinks(e: Instance, s: State, st: Step)
    requires Enabled(s, st) && ExecStep(st)
    ensures
      var s' := Apply(e, s, st);
      && s'.points <= s.points && s'.objects <= s.objects && s'.receipts == s.receipts && s'.ledger == s.ledger
      && (s'.chainLock == s.chainLock || s'.chainLock == s.chainLock - {st.rid} || s.chainLock == {})
      && forall r | r in s'.execs && r != st.rid :: r in s.execs && s'.execs[r] == s.execs[r]
  {
  }

  lemma ExecStepKeepsOwn(e: Instance, s: State, st: Step)
    requires Inv(e, s) && Enabled(s, st) && ExecStep(st) && st.rid in Apply(e, s, st).execs
    ensures ExecInv(Apply(e, s, st), st.rid)
  {
    if st.rid in s.execs { assert ExecInv(s, st.rid); }
    if st.ReadTip? { TipIsUnique(e, s.ledger, st.tip); }
  }

  lemma ShrinkKeepsOthers(s: State, s': State, rid: ReceiptId, r: ReceiptId)
    requires r in s.execs && r in s'.execs && ExecInv(s, r) && r != rid
    requires s'.points <= s.points && s'.objects <= s.objects && s'.receipts == s.receipts && s'.ledger == s.ledger
    requires s'.execs[r] == s.execs[r]
      && (s'.chainLock == s.chainLock || s'.chainLock == s.chainLock - {rid} || s.chainLock == {})
    ensures ExecInv(s', r)
  {
  }

  lemma ExecStepKeepsExecs(e: Instance, s: State, st: Step)
    requires Inv(e, s) && Enabled(s, st) && ExecStep(st)
    ensures ExecsInv(Apply(e, s, st))
  {
    var s' := Apply(e, s, st);
    ExecStepShrinks(e, s, st);
    forall r | r in s'.execs ensures ExecInv(s', r) {
      if r == st.rid { ExecStepKeepsOwn(e, s, st); } else { ShrinkKeepsOthers(s, s', st.rid, r); }
    }
    forall r | r in s'.receipts && s'.receipts[r].confirmed
      ensures Removed(s', s'.receipts[r], |s'.receipts[r].objects|)
    {
      RemovedAcross(s, s', s.receipts[r], |s.receipts[r].objects|);
    }
  }

  /** On a linear ledger the tip query has one answer, its end. */
  lemma TipIsUnique(e: Instance, ledger: seq<RC.Receipt>, tip: RC.Hash)
    requires e.Valid() && RC.IsChain(e.digest, ledger) && AnswersTip(ledger, tip)
    ensures tip == RC.TipHash(ledger)
  {
    forall r ensures RC.IsTip(ledger, r) <==> ledger != [] && r == ledger[|ledger| - 1] {
      RC.TipIsLast(e.digest, ledger, ledger, r);
    }
    if ledger != [] { assert RC.IsTip(ledger, ledger[|ledger| - 1]); }
  }

  lemma NeverSeveralTips(e: Instance, ledger: seq<RC.Receipt>)
    requires e.Valid() && RC.IsChain(e.digest, ledger)
    ensures !SeveralTips(ledger)
  {
    forall i, j | 0 <= i < j < |ledger| ensures !(RC.IsTip(ledger, ledger[i]) && RC.IsTip(ledger, ledger[j])) {
      RC.TipIsLast(e.digest, ledger, ledger, ledger[i]);
      RC.TipIsLast(e.digest, ledger, ledger, ledger[j]);
      RC.HashesDiffer(e.digest, ledger, i, j);
    }
  }

  lemma RequestKeepsExecs(e: Instance, s: State, rid: ReceiptId, row: Row)
    requires Inv(e, s) && Enabled(s, Request(rid, row))
    ensures ExecsInv(Apply(e, s, Request(rid, row)))
  {
    var s' := Apply(e, s, Request(rid, row));
    forall r | r in s'.execs ensures ExecInv(s', r) { assert ExecInv(s, r); }
  }

  lemma ConfirmKeepsExecs(e: Instance, s: State, rid: ReceiptId, now: int)
    requires Inv(e, s) && Enabled(s, Confirm(rid, now))
    ensures ExecsInv(Apply(e, s, Confirm(rid, now)))
  {
    var s' := Apply(e, s, Confirm(rid, now));
    assert ExecInv(s, rid);
    // whoever else held the chain lock would have to be this executor
    forall r | r in s'.execs ensures ExecInv(s', r) { assert ExecInv(s, r); }
    forall r | r in s'.receipts && s'.receipts[r].confirmed
      ensures Removed(s', s'.receipts[r], |s'.receipts[r].objects|)
    {
      RemovedAcross(s, s', s.receipts[r], |s.receipts[r].objects|);
    }
  }

  /** Confirming keeps every entry, and the confirmed receipt had none. */
  lemma ConfirmKeepsEntry(e: Instance, s: State, rid: ReceiptId, now: int, l: RC.Receipt)
    requires Inv(e, s) && Enabled(s, Confirm(rid, now)) && LedgerEntry(e, s, l)
    ensures LedgerEntry(e, Apply(e, s, Confirm(rid, now)), l) && l.payload.id != rid
  {
    assert ExecInv(s, rid);
  }

  lemma ConfirmListsReceipt(e: Instance, s: State, rid: ReceiptId, now: int, r: ReceiptId)
    requires Inv(e, s) && Enabled(s, Confirm(rid, now)) && (r == rid || (r in s.receipts && s.receipts[r].confirmed))
    ensures ListsReceipt(Apply(e, s, Confirm(rid, now)), r)
  {
    var s' := Apply(e, s, Confirm(rid, now));
    if r == rid {
      assert s'.ledger[|s.ledger|].payload.id == r;
    } else {
      var i :| 0 <= i < |s.ledger| && s.ledger[i].payload.id == r;
      assert s'.ledger[i].payload.id == r;
    }
  }

  lemma ConfirmExtendsChain(e: Instance, s: State, rid: ReceiptId, now: int)
    requires Inv(e, s) && Enabled(s, Confirm(rid, now))
    ensures RC.IsChain(e.digest, Apply(e, s, Confirm(rid, now)).ledger)
  {
    assert ExecInv(s, rid);
    RC.ChainExtends(e.digest, s.ledger, Sealed(e, rid, s.receipts[rid], s.execs[rid].prev, now));
  }

  lemma ConfirmKeepsLedger(e: Instance, s: State, rid: ReceiptId, now: int)
    requires Inv(e, s) && Enabled(s, Confirm(rid, now))
    ensures LedgerInv(e, Apply(e, s, Confirm(rid, now)))
  {
    var s' := Apply(e, s, Confirm(rid, now));
    ConfirmExtendsChain(e, s, rid, now);
    forall i | 0 <= i < |s.ledger| ensures LedgerEntry(e, s', s.ledger[i]) && s.ledger[i].payload.id != rid {
      ConfirmKeepsEntry(e, s, rid, now, s.ledger[i]);
    }
    forall r | r in s'.receipts && s'.receipts[r].confirmed ensures ListsReceipt(s', r) {
      ConfirmListsReceipt(e, s, rid, now, r);
    }
  }

  lemma OtherStepKeepsLedger(e: Instance, s: State, st: Step)
    requires Inv(e, s) && Enabled(s, st) && !st.Confirm?
    ensures LedgerInv(e, Apply(e, s, st))
  {
    var s' := Apply(e, s, st);
    forall i | 0 <= i < |s'.ledger| ensures LedgerEntry(e, s', s'.ledger[i]) {
      assert LedgerEntry(e, s, s.ledger[i]);
    }
  }

  lemma StepKeepsInv(e: Instance, s: State, st: Step)
    requires Inv(e, s) && Enabled(s, st)
    ensures Inv(e, Apply(e, s, st))
  {
    if st.Request? {
      RequestKeepsListed(e, s, st.rid, st.row);
      RequestKeepsExecs(e, s, st.rid, st.row);
    } else {
      WriterStepKeepsListed(e, s, st);
      if WriterStep(st) { WriterStepKeepsExecs(e, s, st); }
      if ExecStep(st) { ExecStepKeepsExecs(e, s, st); }
    }
    if st.Confirm? {
      ConfirmKeepsExecs(e, s, st.rid, st.now);
      ConfirmKeepsLedger(e, s, st.rid, st.now);
    } else {
      OtherStepKeepsLedger(e, s, st);
    }
  }

  lemma {:induction false} LegalKeepsInv(e: Instance, s: State, steps: seq<Step>)
    requires Inv(e, s) && Legal(e, s, steps)
    ensures Inv(e, After(e, s, steps))
    decreases |steps|
  {
    if steps != [] {
      StepKeepsInv(e, s, steps[0]);
      LegalKeepsInv(e, Apply(e, s, steps[0]), steps[1..]);
    }
  }

  // ------------------------------------------------------------------ theorems

  /**
   * A confirmed receipt tells the truth, then and ever after: in every reachable
   * state each point and object it lists is absent, wherever external calls failed,
   * half-succeeded or were retried, and whatever pipelines and embed jobs write.
   */
  lemma ConfirmedMeansGone(e: Instance, steps: seq<Step>, rid: ReceiptId)
    requires e.Valid() && Legal(e, EMPTY, steps)
    requires var s := After(e, EMPTY, steps); rid in s.receipts && s.receipts[rid].confirmed
    ensures
      var s := After(e, EMPTY, steps);
      && s.receipts[rid].points !! s.points + s.rows
      && forall k | k in s.receipts[rid].objects :: k !in s.objects
  {
    EmptyInv(e);
    LegalKeepsInv(e, EMPTY, steps);
  }

  /** A signed entry of the ledger tells the source and the counts of its receipt row, and one instant. */
  predicate Attests(e: Instance, receipts: map<ReceiptId, Row>, l: RC.Receipt) {
    && l.payload.id in receipts && receipts[l.payload.id].confirmed
    && l.payload.sourceType == receipts[l.payload.id].sourceType
    && l.payload.sourceId == receipts[l.payload.id].sourceId
    && l.payload.counts == receipts[l.payload.id].counts
    && l.payload.signedAt == l.payload.confirmedAt
    && l.hash == e.digest(l.payload) && e.signs(l.hash, l.signature)
  }

  /**
   * The confirmed receipts, and nothing else, form one line from genesis, each once, each
   * with what its row lists, hashed and signed; no executor ever meets two tips.
   */
  lemma LedgerIsOneLine(e: Instance, steps: seq<Step>)
    requires e.Valid() && Legal(e, EMPTY, steps)
    ensures
      var s := After(e, EMPTY, steps);
      && RC.IsChain(e.digest, s.ledger)
      && (forall rid :: ListsReceipt(s, rid) <==> rid in s.receipts && s.receipts[rid].confirmed)
      && (forall i, j | 0 <= i < j < |s.ledger| :: s.ledger[i].payload.id != s.ledger[j].payload.id)
      && (forall i | 0 <= i < |s.ledger| :: Attests(e, s.receipts, s.ledger[i]))
      && forall rid :: !Enabled(s, RefuseTips(rid))
  {
    EmptyInv(e);
    LegalKeepsInv(e, EMPTY, steps);
    var s := After(e, EMPTY, steps);
    NeverSeveralTips(e, s.ledger);
    forall rid ensures ListsReceipt(s, rid) <==> rid in s.receipts && s.receipts[rid].confirmed {
      if ListsReceipt(s, rid) {
        var i :| 0 <= i < |s.ledger| && s.ledger[i].payload.id == rid;
        assert LedgerEntry(e, s, s.ledger[i]);
      }
    }
    forall i | 0 <= i < |s.ledger| ensures Attests(e, s.receipts, s.ledger[i]) {
      assert LedgerEntry(e, s, s.ledger[i]);
    }
  }

  /** A table that holds the ledger's receipts in any order verifies, so VerifyChain accepts it. */
  lemma LedgerVerifies(e: Instance, steps: seq<Step>, table: seq<RC.Receipt>)
    requires e.Valid() && Legal(e, EMPTY, steps)
    requires var s := After(e, EMPTY, steps); |table| == |s.ledger| && forall r :: r in table <==> r in s.ledger
    ensures RC.Sound(e.digest, e.signs, table)
  {
    EmptyInv(e);
    LegalKeepsInv(e, EMPTY, steps);
    var s := After(e, EMPTY, steps);
    forall r | r in table ensures e.signs(r.hash, r.signature) {
      assert r in s.ledger;
      var i :| 0 <= i < |s.ledger| && s.ledger[i] == r;
      assert LedgerEntry(e, s, s.ledger[i]);
    }
    assert RC.Orders(e.digest, table, s.ledger);
  }

  /**
   * Whatever order the table of confirmed receipts comes in, after any run the executor's
   * tip query and the exported anchor name the same receipt, the last one confirmed.
   */
  method LedgerTips(e: Instance, ghost steps: seq<Step>, table: seq<RC.Receipt>)
    returns (tip: Result<RC.Hash, RC.TipError>, anchor: Option<RC.Hash>, count: nat)
    requires e.Valid() && Legal(e, EMPTY, steps)
    requires var s := After(e, EMPTY, steps); |table| == |s.ledger| && forall r :: r in table <==> r in s.ledger
    ensures
      var ledger := After(e, EMPTY, steps).ledger;
      && tip == Ok(RC.TipHash(ledger)) && count == |ledger|
      && anchor == if ledger == [] then None else Some(ledger[|ledger| - 1].hash)
  {
    LedgerIsOneLine(e, steps);
    tip, anchor, count := RC.BothTips(e.digest, table, After(e, EMPTY, steps).ledger);
  }

  lemma StepExtendsLedger(e: Instance, s: State, st: Step)
    requires Enabled(s, st)
    ensures s.ledger <= Apply(e, s, st).ledger
  {
  }

  /**
   * An exported anchor never goes stale: whatever runs afterwards, the receipt it
   * names is still at its place in the ledger, and the confirmed count is no smaller.
   */
  lemma {:induction false} AnchorsStay(e: Instance, s: State, steps: seq<Step>)
    requires Legal(e, s, steps)
    ensures s.ledger <= After(e, s, steps).ledger
    ensures s.ledger != [] ==> exists r :: r in After(e, s, steps).ledger && r.hash == RC.TipHash(s.ledger)
    decreases |steps|
  {
    if steps != [] {
      StepExtendsLedger(e, s, steps[0]);
      AnchorsStay(e, Apply(e, s, steps[0]), steps[1..]);
    }
    if s.ledger != [] {
      assert After(e, s, steps).ledger[|s.ledger| - 1] == s.ledger[|s.ledger| - 1];
    }
  }

  // ------------------------------------------------------------------ executor

  datatype Error = ReceiptNotFound | ExternalCallFailed

  function Keys(objects: seq<ObjectKey>): set<ObjectKey> { set k | k in objects }

  /** The points and the first `next` objects of a receipt are removed. */
  function Cleared(s: State, rid: ReceiptId, next: nat): State
    requires rid in s.receipts && next <= |s.receipts[rid].objects|
  {
    s.(points := s.points - s.receipts[rid].points, objects := s.objects - Keys(s.receipts[rid].objects[..next]),
       execs := s.execs[rid := Removing(true, next)])
  }

  /** What one undisturbed attempt leaves behind: both legs done, one receipt appended. */
  function Executed(e: Instance, s: State, rid: ReceiptId, now: int): State
    requires rid in s.receipts
  {
    var row := s.receipts[rid];
    s.(points := s.points - row.points, objects := s.objects - Keys(row.objects),
       receipts := s.receipts[rid := row.(confirmed := true)],
       ledger := s.ledger + [Sealed(e, rid, row, RC.TipHash(s.ledger), now)])
  }

  class Executor {
    const e: Instance
    var s: State

    constructor (e: Instance)
      requires e.Valid()
      ensures this.e == e && s == EMPTY
    {
      this.e := e;
      s := EMPTY;
    }

    /**
     * One attempt in the job's transaction. `fails` names the external call that
     * errors, counting the point deletion as call 0. A failed attempt has changed
     * nothing in the database, and a later one finishes the work.
     */
    method Execute(rid: ReceiptId, fails: Option<nat>, now: int) returns (r: Result<bool, Error>)
      requires e.Valid() && RC.IsChain(e.digest, s.ledger) && s.chainLock == {} && rid !in s.execs
      modifies this`s
      ensures rid !in old(s).receipts ==> r == Err(ReceiptNotFound) && s == old(s)
      ensures rid in old(s).receipts && old(s).receipts[rid].confirmed ==> r == Ok(true) && s == old(s)
      ensures rid in old(s).receipts && !old(s).receipts[rid].confirmed ==>
        if fails.Some? && fails.value <= |old(s).receipts[rid].objects| then
          r == Err(ExternalCallFailed) && s == old(s).(points := s.points, objects := s.objects)
        else
          r == Ok(false) && s == Executed(e, old(s), rid, now)
      // a success removes exactly what the row lists and seals one receipt about it, at `now`, onto the last one
      ensures r == Ok(false) ==>
        var row := old(s).receipts[rid];
        && s.points == old(s).points - row.points && s.rows == old(s).rows
        && (forall k :: k in s.objects <==> k in old(s).objects && k !in row.objects)
        && s.receipts == old(s).receipts[rid := row.(confirmed := true)]
        && |s.ledger| == |old(s).ledger| + 1 && s.ledger[..|old(s).ledger|] == old(s).ledger
        && var l := s.ledger[|old(s).ledger|];
           Attests(e, s.receipts, l) && l.payload.id == rid && l.payload.confirmedAt == now
           && l.payload.prevHash == RC.TipHash(old(s).ledger)
    {
      if rid !in s.receipts { return Err(ReceiptNotFound); }
      if s.receipts[rid].confirmed { return Ok(true); }
      s := Apply(e, s, Begin(rid));
      var ok := Remove(rid, fails);
      if !ok {
        s := Apply(e, s, Abort(rid));
        assert s.execs == old(s).execs;
        return Err(ExternalCallFailed);
      }
      Seal(rid, now);
      assert s.execs == old(s).execs;
      r := Ok(false);
    }

    /** The external leg: the points in one call, then each object in turn. */
    method Remove(rid: ReceiptId, fails: Option<nat>) returns (ok: bool)
      requires rid in s.receipts && rid in s.execs && s.execs[rid] == Removing(false, 0)
      modifies this`s
      ensures ok <==> fails.None? || fails.value > |old(s).receipts[rid].objects|
      ensures if ok then s == Cleared(old(s), rid, |old(s).receipts[rid].objects|)
              else s == old(s).(points := s.points, objects := s.objects, execs := s.execs)
      ensures rid in s.execs && s.execs == old(s).execs[rid := s.execs[rid]]
    {
      var row := s.receipts[rid];
      if fails == Some(0) { return false; }
      s := Apply(e, s, DeletePoints(rid, row.points, true));
      var next := 0;
      while next < |row.objects|
        invariant next <= |row.objects|
        invariant fails.Some? ==> next < fails.value
        invariant s == Cleared(old(s), rid, next)
      {
        if fails == Some(next + 1) { return false; }
        s := Apply(e, s, DeleteObject(rid, true, true));
        assert Keys(row.objects[..next + 1]) == Keys(row.objects[..next]) + {row.objects[next]};
        next := next + 1;
      }
      ok := true;
    }

    /** The confirmation: chain lock, tip, hash, signature, commit. */
    method Seal(rid: ReceiptId, now: int)
      requires e.Valid() && RC.IsChain(e.digest, s.ledger) && s.chainLock == {} && rid in s.receipts && rid in s.execs
      requires s.execs[rid] == Removing(true, |s.receipts[rid].objects|)
      modifies this`s
      ensures s == old(s).(execs := old(s).execs - {rid},
                           receipts := old(s).receipts[rid := old(s).receipts[rid].(confirmed := true)],
                           ledger := old(s).ledger
                             + [Sealed(e, rid, old(s).receipts[rid], RC.TipHash(old(s).ledger), now)])
    {
      s := Apply(e, s, LockChain(rid));
      OneTip(e, s.ledger);
      s := Apply(e, s, ReadTip(rid, RC.TipHash(s.ledger)));
      s := Apply(e, s, Confirm(rid, now));
      assert s.execs == old(s).execs - {rid};
    }
  }

  /** The tip query of a linear ledger succeeds, with its end. */
  lemma OneTip(e: Instance, ledger: seq<RC.Receipt>)
    requires e.Valid() && RC.IsChain(e.digest, ledger)
    ensures !SeveralTips(ledger) && AnswersTip(ledger, RC.TipHash(ledger))
  {
    NeverSeveralTips(e, ledger);
    if ledger != [] { RC.TipIsLast(e.digest, ledger, ledger, ledger[|ledger| - 1]); }
  }
}
