/**
 * Which transactions on memories can come to wait for each other in a circle: the lock
 * lists of deliveries, deletions, resolutions, rejections and edits, and the exact mix
 * of them that is free of deadlock.
 */
module MemoryLocks {
  import opened Common
  import opened LockOrder

  /** The two memories of a relation, in id order. */
  datatype Pair = Pair(low: MemId, high: MemId)

  /** Ranks grow along replaced-by pointers, so that they make no cycle. */
  predicate Climbs(replacedBy: map<MemId, MemId>, rank: map<MemId, nat>) {
    forall m | m in replacedBy :: m in rank && replacedBy[m] in rank && rank[m] < rank[replacedBy[m]]
  }

  /**
   * What does not change under the transactions in flight: provenance, attachments,
   * relations, pointers, and whose row exists. A deletion takes rows away at its commit
   * only; one that has waited for its source row and finds it gone goes on as a deletion
   * without a row. A relation or a pointer to a memory is made under that memory's lock,
   * so a deletion that has locked the memory meets all of them.
   */
  datatype Catalog = Catalog(
    rows: set<SourceId>,               // sources whose row exists
    files: set<SourceId>,              // sources of type file; without a row, a discard-mode capture
    carrier: map<SourceId, SourceId>,  // the email that carries a file
    origin: map<MemId, SourceId>,
    parties: map<RelId, Pair>,
    replacedBy: map<MemId, MemId>)
  {
    ghost predicate Valid() {
      && (forall r | r in parties :: parties[r].low < parties[r].high)
      && (forall a | a in carrier :: a in files && carrier[a] !in files)
      && exists rank :: Climbs(replacedBy, rank)
    }

    predicate Names(r: RelId, m: MemId) { r in parties && (parties[r].low == m || parties[r].high == m) }
  }

  /** An attachment of a deleted email, with its memories in the order the query returned them. */
  datatype Carried = Carried(file: SourceId, listed: seq<MemId>)

  datatype Txn =
    // a pipeline delivery and the existing memories that stage 6 pairs its facts with
    | Delivery(src: SourceId, candidates: seq<MemId>)
    // a deletion's enumeration transaction with everything its queries return
    | Deletion(src: SourceId, listed: seq<MemId>, carried: seq<Carried>,
               lifted: seq<RelId>, partners: seq<MemId>, pointers: seq<MemId>, erased: seq<RelId>)
    // confirm, correct or dismiss
    | Resolution(rel: RelId, isOpen: bool)
    // review rejection; the relations go by cascade
    | Rejection(mem: MemId, gone: seq<RelId>)
    // an edit, a status change, a bulk change, a nightly batch: memory rows one after another
    | Touch(mems: seq<MemId>)
  {
    predicate Lists(m: MemId) {
      Deletion? && (m in listed || exists k | k in carried :: m in k.listed)
    }
  }

  /** A deletion lists memories of its source and, attachment by attachment, of its attachments. */
  predicate ListingFits(c: Catalog, x: Txn)
    requires x.Deletion?
  {
    && (forall m | m in x.listed :: m in c.origin && c.origin[m] == x.src)
    && (forall k | k in x.carried :: k.file in c.carrier && c.carrier[k.file] == x.src)
    && (forall k, m | k in x.carried && m in k.listed :: m in c.origin && c.origin[m] == k.file)
    && (forall i, j | 0 <= i < j < |x.carried| :: x.carried[i].file != x.carried[j].file)
  }

  /** A deletion meets exactly the relations that name a listed memory, and lifts from every partner. */
  ghost predicate RelationsFit(c: Catalog, x: Txn)
    requires x.Deletion?
  {
    && (forall r | r in x.lifted + x.erased :: exists m :: x.Lists(m) && c.Names(r, m))
    && (forall r, m | x.Lists(m) && c.Names(r, m) :: r in x.lifted + x.erased)
    && (forall m | m in x.partners :: !x.Lists(m) && exists r | r in x.lifted :: c.Names(r, m))
    && (forall r, m | r in x.lifted && c.Names(r, m) && !x.Lists(m) :: m in x.partners)
  }

  /** It nulls exactly the pointers of survivors to a listed memory. */
  ghost predicate PointersFit(c: Catalog, x: Txn)
    requires x.Deletion?
  {
    forall m :: m in x.pointers <==> m in c.replacedBy && x.Lists(c.replacedBy[m]) && !x.Lists(m)
  }

  ghost predicate Sound(c: Catalog, x: Txn) {
    match x
    // facts reach stage 6 past the admission checkpoint, or from a discard-mode capture
    case Delivery(s, candidates) =>
      && (candidates != [] ==> s in c.rows || s in c.files)
      && (forall m | m in candidates :: m in c.origin && c.origin[m] != s)
    case Deletion(_, _, _, _, _, _, _) => ListingFits(c, x) && RelationsFit(c, x) && PointersFit(c, x)
    case Resolution(r, _) => r in c.parties
    case Rejection(m, gone) => forall r :: r in gone <==> c.Names(r, m)
    case Touch(_) => true
  }

  // ------------------------------------------------------------------- the lock lists

  function Mems(ids: seq<MemId>): (r: seq<Lock>)
    ensures |r| == |ids| && forall i | 0 <= i < |ids| :: r[i] == Mem(ids[i])
  {
    seq(|ids|, i requires 0 <= i < |ids| => Mem(ids[i]))
  }

  function Rels(ids: seq<RelId>): (r: seq<Lock>)
    ensures |r| == |ids| && forall i | 0 <= i < |ids| :: r[i] == Rel(ids[i])
  {
    seq(|ids|, i requires 0 <= i < |ids| => Rel(ids[i]))
  }

  function RowOf(c: Catalog, s: SourceId): seq<Lock> { if s in c.rows then [Row(s)] else [] }

  /** The source row; for a file without one, the run lock that waits a run out; else nothing. */
  function Gate(c: Catalog, s: SourceId): seq<Lock> {
    if s in c.rows then [Row(s)] else if s in c.files then [Run(s)] else []
  }

  /** For each attachment its memories and then its row. */
  function CarriedLocks(c: Catalog, carried: seq<Carried>): seq<Lock> {
    if carried == [] then []
    else Mems(carried[0].listed) + RowOf(c, carried[0].file) + CarriedLocks(c, carried[1..])
  }

  function Listing(c: Catalog, x: Txn): seq<Lock>
    requires x.Deletion?
  {
    Mems(x.listed) + CarriedLocks(c, x.carried)
  }

  /** The lift, the nulled pointers and the cascade of the delete. */
  function Beyond(x: Txn): seq<Lock>
    requires x.Deletion?
  {
    Rels(x.lifted) + Mems(x.partners) + Mems(x.pointers) + Rels(x.erased)
  }

  function LocksOf(c: Catalog, x: Txn): seq<Lock>
    requires x.Resolution? ==> x.rel in c.parties
  {
    match x
    case Delivery(s, candidates) => [Run(s)] + RowOf(c, s) + Mems(candidates)
    case Deletion(s, _, _, _, _, _, _) => Gate(c, s) + (Listing(c, x) + Beyond(x))
    case Resolution(r, isOpen) =>
      if isOpen then [Rel(r), Mem(c.parties[r].low), Mem(c.parties[r].high)] else [Rel(r)]
    case Rejection(m, gone) => [Mem(m)] + Rels(gone)
    case Touch(mems) => Mems(mems)
  }

  /** Every lock is exclusive but the row lock of an admission checkpoint. */
  function ScriptOf(c: Catalog, x: Txn): (s: Script)
    requires x.Resolution? ==> x.rel in c.parties
    ensures Steady(s)
  {
    var locks := LocksOf(c, x);
    seq(|locks|, i requires 0 <= i < |locks| => Request(locks[i], x.Delivery? && locks[i].Row?))
  }

  ghost predicate AllSound(c: Catalog, f: map<Tx, Txn>) {
    c.Valid() && forall t | t in f :: Sound(c, f[t])
  }

  ghost function Scripts(c: Catalog, f: map<Tx, Txn>): (r: map<Tx, Script>)
    requires AllSound(c, f)
    ensures r.Keys == f.Keys
  {
    map t | t in f :: ScriptOf(c, f[t])
  }

  // ------------------------------------------------------------------------ the kinds

  datatype Kind =
    | Admit         // a delivery that pairs its facts with nothing
    | Reconcile     // a delivery whose candidates come in id order
    | DeleteFile    // a plain deletion of a stored file
    | DeleteSource  // any other plain deletion without attachments
    | Carry         // a plain deletion with attachments
    | Resolve
    | Edit          // memory rows in id order, or a rejection no relation is erased with
    | Scattered     // memory rows out of id order
    | Lifts         // a deletion or rejection that locks relation rows
    | Points        // a deletion that nulls pointers of other memories
    | Passed        // a deletion of a memory that somebody else locks before another lock
    | Rowless       // a deletion that lists memories behind no lock

  predicate Ascending(ids: seq<MemId>) { forall i, j | 0 <= i < j < |ids| :: ids[i] < ids[j] }

  /** The transaction goes on to lock more after memory `m`. */
  predicate GoesOn(c: Catalog, x: Txn, m: MemId)
    requires x.Resolution? ==> x.rel in c.parties
  {
    exists i | 0 <= i < |LocksOf(c, x)| - 1 :: LocksOf(c, x)[i] == Mem(m)
  }

  /** A transaction of another sort that is in flight passes through a memory the deletion lists. */
  ghost predicate IsPassed(c: Catalog, f: map<Tx, Txn>, t: Tx)
    requires AllSound(c, f) && t in f
  {
    exists u, m | u in f && u != t && !f[u].Deletion? && f[t].Lists(m) :: GoesOn(c, f[u], m)
  }

  predicate IsRowless(c: Catalog, x: Txn)
    requires x.Deletion?
  {
    Gate(c, x.src) == [] || exists k | k in x.carried :: k.file !in c.rows
  }

  ghost function KindOf(c: Catalog, f: map<Tx, Txn>, t: Tx): Kind
    requires AllSound(c, f) && t in f
  {
    match f[t]
    case Delivery(_, candidates) =>
      if candidates == [] then Admit else if Ascending(candidates) then Reconcile else Scattered
    case Deletion(s, _, carried, lifted, partners, pointers, erased) =>
      if lifted != [] || partners != [] || erased != [] then Lifts
      else if pointers != [] then Points
      else if IsPassed(c, f, t) then Passed
      else if IsRowless(c, f[t]) then Rowless
      else if carried != [] then Carry
      else if s in c.files && s in c.rows then DeleteFile
      else DeleteSource
    case Resolution(_, _) => Resolve
    case Rejection(_, gone) => if gone == [] then Edit else Lifts
    case Touch(mems) => if Ascending(mems) then Edit else Scattered
  }

  ghost predicate OfKinds(c: Catalog, f: map<Tx, Txn>, kinds: set<Kind>)
    requires AllSound(c, f)
  {
    forall t | t in f :: KindOf(c, f, t) in kinds
  }

  /** The mixes that are free of deadlock. */
  predicate Harmless(kinds: set<Kind>) {
    && Lifts !in kinds && Points !in kinds && Scattered !in kinds && Rowless !in kinds
    && (Passed in kinds ==> Reconcile !in kinds && Edit !in kinds)
    && (Carry in kinds ==> Reconcile !in kinds && DeleteFile !in kinds)
  }

  // ------------------------------------------------ deletions wait at their gates only

  lemma {:induction false} CarriedAsks(c: Catalog, carried: seq<Carried>, l: Lock)
    requires l in CarriedLocks(c, carried)
    ensures exists k | k in carried :: (l.Mem? && l.id in k.listed) || (l == Row(k.file) && k.file in c.rows)
  {
    if l in CarriedLocks(c, carried[1..]) {
      CarriedAsks(c, carried[1..], l);
      var k :| k in carried[1..] && ((l.Mem? && l.id in k.listed) || (l == Row(k.file) && k.file in c.rows));
      assert k in carried;
    } else {
      assert carried[0] in carried;
    }
  }

  /** Behind its gate a plain deletion asks for listed memories and rows of attachments only. */
  lemma ListingAsks(c: Catalog, x: Txn, l: Lock)
    requires x.Deletion? && l in Listing(c, x)
    ensures (l.Mem? && x.Lists(l.id)) || (l.Row? && l.src in c.rows && exists k | k in x.carried :: k.file == l.src)
  {
    if l in CarriedLocks(c, x.carried) { CarriedAsks(c, x.carried, l); }
  }

  lemma ListedOrigin(c: Catalog, x: Txn, m: MemId)
    requires c.Valid() && Sound(c, x) && x.Lists(m) && !IsRowless(c, x)
    ensures m in c.origin
    ensures c.origin[m] == x.src
      || (&& c.origin[m] in c.carrier && c.carrier[c.origin[m]] == x.src
          && c.origin[m] in c.rows && x.carried != [])
  {
    if m !in x.listed {
      var k :| k in x.carried && m in k.listed;
      assert c.origin[m] == k.file;
    }
  }

  /** A family of one of the harmless mixes. */
  ghost predicate Settled(c: Catalog, f: map<Tx, Txn>, kinds: set<Kind>) {
    AllSound(c, f) && OfKinds(c, f, kinds) && Harmless(kinds)
  }

  /** A resolution names no memory of a deletion that meets no relation. */
  lemma ResolutionsStayClear(c: Catalog, x: Txn, y: Txn, m: MemId)
    requires Sound(c, x) && Sound(c, y) && x.Lists(m) && x.lifted == x.erased == [] && y.Resolution?
    ensures !GoesOn(c, y, m)
  {
    if GoesOn(c, y, m) { assert c.Names(y.rel, m); }
  }

  lemma OthersStop(c: Catalog, f: map<Tx, Txn>, kinds: set<Kind>, t: Tx, u: Tx, m: MemId)
    requires Settled(c, f, kinds) && Passed in kinds && t in f && f[t].Lists(m) && u in f && !f[u].Deletion?
    ensures !GoesOn(c, f[u], m)
  {
    assert KindOf(c, f, t) in kinds && KindOf(c, f, u) in kinds;
    if f[u].Resolution? { ResolutionsStayClear(c, f[t], f[u], m); }
  }

  lemma NobodyPasses(c: Catalog, f: map<Tx, Txn>, kinds: set<Kind>, t: Tx)
    requires Settled(c, f, kinds) && t in f
    ensures Passed in kinds ==> !IsPassed(c, f, t)
  {
    if Passed in kinds {
      forall u, m | u in f && u != t && !f[u].Deletion? && f[t].Lists(m) ensures !GoesOn(c, f[u], m) {
        OthersStop(c, f, kinds, t, u, m);
      }
    }
  }

  lemma SettledDeletion(c: Catalog, f: map<Tx, Txn>, kinds: set<Kind>, t: Tx)
    requires Settled(c, f, kinds) && t in f && f[t].Deletion?
    ensures !IsPassed(c, f, t) && !IsRowless(c, f[t]) && Beyond(f[t]) == []
    ensures f[t].carried != [] ==> Carry in kinds && f[t].src !in c.files
    ensures f[t].carried == [] && f[t].src in c.files && f[t].src in c.rows ==> DeleteFile in kinds
  {
    assert KindOf(c, f, t) in kinds;
    NobodyPasses(c, f, kinds, t);
    if f[t].carried != [] { assert f[t].carried[0] in f[t].carried; }
  }

  /** A memory is listed under one source only. */
  lemma ListedOnce(c: Catalog, f: map<Tx, Txn>, kinds: set<Kind>, t: Tx, u: Tx, m: MemId)
    requires Settled(c, f, kinds) && t in f && u in f && f[t].Lists(m) && f[u].Lists(m)
    ensures f[t].src == f[u].src
  {
    SettledDeletion(c, f, kinds, t);
    SettledDeletion(c, f, kinds, u);
    ListedOrigin(c, f[t], m);
    ListedOrigin(c, f[u], m);
  }

  lemma GatesClash(c: Catalog, x: Txn, y: Txn)
    requires x.Deletion? && y.Deletion? && x.src == y.src && Gate(c, x.src) != []
    ensures ScriptOf(c, x) != [] && ScriptOf(c, y) != [] && Conflict(ScriptOf(c, x)[0], ScriptOf(c, y)[0])
  {
  }

  /** Only one deletion of a source is past the gate. */
  lemma OnePastGate(c: Catalog, f: map<Tx, Txn>, at: map<Tx, nat>, t: Tx, u: Tx)
    requires AllSound(c, f) && Compatible(Scripts(c, f), at)
    requires t in f && u in f && f[t].Deletion? && f[u].Deletion? && f[t].src == f[u].src
    requires Gate(c, f[t].src) != [] && at[t] > 0 && at[u] > 0
    ensures t == u
  {
    GatesClash(c, f[t], f[u]);
  }

  /** The lock that `t` waits for is one that `u` already holds. */
  lemma HeldLock(c: Catalog, f: map<Tx, Txn>, at: map<Tx, nat>, t: Tx, u: Tx) returns (k: nat)
    requires AllSound(c, f) && Waits(Scripts(c, f), at, t, u)
    ensures k < at[u] <= |LocksOf(c, f[u])| && at[t] < |LocksOf(c, f[t])|
    ensures LocksOf(c, f[u])[k] == LocksOf(c, f[t])[at[t]]
  {
    var fs := Scripts(c, f);
    k :| 0 <= k < at[u] && Conflict(fs[t][at[t]], fs[u][k]);
  }

  lemma PastGate(c: Catalog, x: Txn, n: nat)
    requires x.Deletion? && !IsRowless(c, x) && Beyond(x) == [] && 0 < n < |LocksOf(c, x)|
    ensures LocksOf(c, x)[n] in Listing(c, x)
  {
    assert LocksOf(c, x)[n] == Listing(c, x)[n - 1];
  }

  lemma PastGateAsks(c: Catalog, x: Txn, n: nat)
    requires x.Deletion? && !IsRowless(c, x) && Beyond(x) == [] && 0 < n < |LocksOf(c, x)|
    ensures
      var l := LocksOf(c, x)[n];
      (l.Mem? && x.Lists(l.id)) || (l.Row? && l.src in c.rows && exists k | k in x.carried :: k.file == l.src)
  {
    PastGate(c, x, n);
    ListingAsks(c, x, LocksOf(c, x)[n]);
  }

  /** A memory that a deletion waits for is held by a transaction that asks for nothing more. */
  lemma MemoryHolderIsDone(c: Catalog, f: map<Tx, Txn>, kinds: set<Kind>, at: map<Tx, nat>, t: Tx, u: Tx, k: nat)
    requires Settled(c, f, kinds) && Compatible(Scripts(c, f), at)
    requires t in f && u in f && t != u && f[t].Deletion? && 0 < at[t] < |LocksOf(c, f[t])| && k < at[u]
    requires LocksOf(c, f[u])[k] == LocksOf(c, f[t])[at[t]] && LocksOf(c, f[u])[k].Mem?
    ensures at[u] == |LocksOf(c, f[u])|
  {
    SettledDeletion(c, f, kinds, t);
    PastGateAsks(c, f[t], at[t]);
    var m := LocksOf(c, f[u])[k].id;
    if f[u].Deletion? {
      SettledDeletion(c, f, kinds, u);
      PastGateAsks(c, f[u], k);
      ListedOnce(c, f, kinds, t, u, m);
      OnePastGate(c, f, at, t, u);
    } else {
      assert !GoesOn(c, f[u], m);
    }
  }

  /** The row of an attachment is held by no other deletion. */
  lemma RowHolderIsNoDeletion(c: Catalog, f: map<Tx, Txn>, kinds: set<Kind>, at: map<Tx, nat>, t: Tx, u: Tx, k: nat)
    requires Settled(c, f, kinds) && Compatible(Scripts(c, f), at)
    requires t in f && u in f && f[t].Deletion? && 0 < at[t] && k < at[u] <= |LocksOf(c, f[u])|
    requires LocksOf(c, f[u])[k].Row? && LocksOf(c, f[u])[k].src in c.rows
    requires exists a | a in f[t].carried :: a.file == LocksOf(c, f[u])[k].src
    requires f[u].Deletion?
    ensures t == u
  {
    var s := LocksOf(c, f[u])[k].src;
    SettledDeletion(c, f, kinds, t);
    SettledDeletion(c, f, kinds, u);
    if k > 0 { PastGateAsks(c, f[u], k); }
    OnePastGate(c, f, at, t, u);
  }

  /** Where attachments are deleted, whoever else holds a row asks for nothing more. */
  lemma RowHolderAdmits(c: Catalog, f: map<Tx, Txn>, kinds: set<Kind>, u: Tx, k: nat)
    requires Settled(c, f, kinds) && Carry in kinds && u in f && !f[u].Deletion?
    requires k < |LocksOf(c, f[u])| && LocksOf(c, f[u])[k].Row?
    ensures k + 1 == |LocksOf(c, f[u])|
  {
    assert f[u].Delivery? && KindOf(c, f, u) in kinds;
  }

  /** So is the row of an attachment. */
  lemma RowHolderIsDone(c: Catalog, f: map<Tx, Txn>, kinds: set<Kind>, at: map<Tx, nat>, t: Tx, u: Tx, k: nat)
    requires Settled(c, f, kinds) && Compatible(Scripts(c, f), at)
    requires t in f && u in f && t != u && f[t].Deletion? && 0 < at[t]
    requires k < at[u] <= |LocksOf(c, f[u])| && LocksOf(c, f[u])[k].Row? && LocksOf(c, f[u])[k].src in c.rows
    requires exists a | a in f[t].carried :: a.file == LocksOf(c, f[u])[k].src
    ensures at[u] == |LocksOf(c, f[u])|
  {
    if f[u].Deletion? {
      RowHolderIsNoDeletion(c, f, kinds, at, t, u, k);
    } else {
      SettledDeletion(c, f, kinds, t);
      RowHolderAdmits(c, f, kinds, u, k);
    }
  }

  /** What a deletion waits for past its gate is held by a transaction that asks for nothing more. */
  lemma HolderIsDone(c: Catalog, f: map<Tx, Txn>, kinds: set<Kind>, at: map<Tx, nat>, t: Tx, u: Tx)
    requires Settled(c, f, kinds) && Compatible(Scripts(c, f), at)
    requires Waits(Scripts(c, f), at, t, u) && f[t].Deletion? && at[t] > 0
    ensures at[u] == |LocksOf(c, f[u])|
  {
    var k := HeldLock(c, f, at, t, u);
    SettledDeletion(c, f, kinds, t);
    PastGateAsks(c, f[t], at[t]);
    if LocksOf(c, f[u])[k].Mem? {
      MemoryHolderIsDone(c, f, kinds, at, t, u, k);
    } else {
      RowHolderIsDone(c, f, kinds, at, t, u, k);
    }
  }

  // ---------------------------------------------------------- everybody else goes up

  /** The order in which every transaction but a deletion takes its locks. */
  function Height(l: Lock): nat {
    match l
    case Run(_) => 0
    case Row(_) => 1
    case Rel(_) => 2
    case Mem(m) => 3 + m
  }

  predicate Rising(locks: seq<Lock>) { forall i, j | 0 <= i < j < |locks| :: Height(locks[i]) < Height(locks[j]) }

  lemma MemsRise(ids: seq<MemId>)
    requires Ascending(ids)
    ensures Rising(Mems(ids))
  {
  }

  lemma DeliveryRises(c: Catalog, x: Txn)
    requires x.Delivery? && Ascending(x.candidates)
    ensures Rising(LocksOf(c, x))
  {
    MemsRise(x.candidates);
    var front := [Run(x.src)] + RowOf(c, x.src);
    assert Rising(front);
    assert LocksOf(c, x) == front + Mems(x.candidates);
  }

  lemma OthersRise(c: Catalog, f: map<Tx, Txn>, kinds: set<Kind>, t: Tx)
    requires Settled(c, f, kinds) && t in f && !f[t].Deletion?
    ensures Rising(LocksOf(c, f[t]))
  {
    assert KindOf(c, f, t) in kinds;
    match f[t]
    case Delivery(_, _) => DeliveryRises(c, f[t]);
    case Touch(mems) => MemsRise(mems);
    case Resolution(_, _) =>
    case Rejection(_, _) =>
  }

  /** The height of the lock a transaction asks for next. */
  ghost function NextHeight(c: Catalog, f: map<Tx, Txn>, at: map<Tx, nat>, t: Tx): nat
    requires AllSound(c, f) && Fits(Scripts(c, f), at)
  {
    if t in f && at[t] < |LocksOf(c, f[t])| then Height(LocksOf(c, f[t])[at[t]]) else 0
  }

  lemma WaitsGoUp(c: Catalog, f: map<Tx, Txn>, kinds: set<Kind>, at: map<Tx, nat>, t: Tx, u: Tx)
    requires Settled(c, f, kinds) && Waits(Scripts(c, f), at, t, u)
    requires !f[u].Deletion? && at[u] < |LocksOf(c, f[u])|
    ensures NextHeight(c, f, at, t) < NextHeight(c, f, at, u)
  {
    var k := HeldLock(c, f, at, t, u);
    OthersRise(c, f, kinds, u);
  }

  lemma {:induction false} Highest(some: set<Tx>, height: Tx -> nat) returns (t: Tx)
    requires some != {}
    ensures t in some && forall u | u in some :: height(u) <= height(t)
    decreases some
  {
    t :| t in some;
    if some != {t} {
      var v := Highest(some - {t}, height);
      if height(t) < height(v) { t := v; }
    }
  }

  /** Whoever is waited for in a knot is no deletion. */
  lemma KnotSuccessor(c: Catalog, f: map<Tx, Txn>, kinds: set<Kind>, at: map<Tx, nat>, knot: set<Tx>, t: Tx)
    returns (u: Tx)
    requires Settled(c, f, kinds) && Compatible(Scripts(c, f), at) && Knot(Scripts(c, f), at, knot) && t in knot
    ensures u in knot && Waits(Scripts(c, f), at, t, u)
    ensures !f[u].Deletion? && at[u] < |LocksOf(c, f[u])|
  {
    var fs := Scripts(c, f);
    assert WaitsFor(fs, at, t, knot);
    u :| u in knot && Waits(fs, at, t, u);
    assert WaitsFor(fs, at, u, knot);
    var v: Tx :| v in knot && Waits(fs, at, u, v);
    assert WaitsFor(fs, at, v, knot);
    if f[u].Deletion? {
      var k := HeldLock(c, f, at, t, u);
      HolderIsDone(c, f, kinds, at, u, v);
    }
  }

  lemma SettledHasNoKnot(c: Catalog, f: map<Tx, Txn>, kinds: set<Kind>, at: map<Tx, nat>, knot: set<Tx>)
    requires Settled(c, f, kinds) && Compatible(Scripts(c, f), at)
    ensures !Knot(Scripts(c, f), at, knot)
  {
    if Knot(Scripts(c, f), at, knot) {
      var t: Tx :| t in knot;
      var top := Highest(knot, u => NextHeight(c, f, at, u));
      var u := KnotSuccessor(c, f, kinds, at, knot, top);
      WaitsGoUp(c, f, kinds, at, top, u);
    }
  }

  // ------------------------------------------------------------- the harmful mixes

  /** No family of these kinds can deadlock. */
  ghost predicate DeadlockFree(kinds: set<Kind>) {
    forall c, f | AllSound(c, f) && OfKinds(c, f, kinds) :: !CanDeadlock(Scripts(c, f))
  }

  function Two(x: Txn, y: Txn): map<Tx, Txn> { map[0 := x, 1 := y] }

  /** `a` holds `p` locks and asks for number `j` of `b`, which holds `q` and asks for number `i` of `a`. */
  predicate Crossing(a: seq<Lock>, b: seq<Lock>, p: nat, q: nat, i: nat, j: nat) {
    && i < p < |a| && j < q < |b| && a[p] == b[j] && b[q] == a[i]
    && forall k, l | 0 <= k < p && 0 <= l < q :: a[k] != b[l]
  }

  lemma CrossingCrosses(c: Catalog, x: Txn, y: Txn, p: nat, q: nat, i: nat, j: nat)
    requires (x.Resolution? ==> x.rel in c.parties) && (y.Resolution? ==> y.rel in c.parties) && !x.Delivery?
    requires Crossing(LocksOf(c, x), LocksOf(c, y), p, q, i, j)
    ensures Crossed(ScriptOf(c, x), ScriptOf(c, y), p, q)
  {
    var s, t := ScriptOf(c, x), ScriptOf(c, y);
    assert Conflict(s[p], t[j]) && Conflict(t[q], s[i]);
  }

  lemma CrossingDeadlocks(c: Catalog, x: Txn, y: Txn, a: seq<Lock>, b: seq<Lock>, p: nat, q: nat, i: nat, j: nat)
    requires AllSound(c, Two(x, y)) && !x.Delivery?
    requires (x.Resolution? ==> x.rel in c.parties) && (y.Resolution? ==> y.rel in c.parties)
    requires LocksOf(c, x) == a && LocksOf(c, y) == b && Crossing(a, b, p, q, i, j)
    ensures CanDeadlock(Scripts(c, Two(x, y)))
  {
    CrossingCrosses(c, x, y, p, q, i, j);
    var fs := Scripts(c, Two(x, y));
    assert fs[0] == ScriptOf(c, x) && fs[1] == ScriptOf(c, y);
    CrossedDeadlock(fs, 0, 1, p, q);
  }

  lemma TwoSound(c: Catalog, x: Txn, y: Txn)
    requires c.Valid() && Sound(c, x) && Sound(c, y)
    ensures AllSound(c, Two(x, y))
  {
  }

  lemma TwoOfKinds(c: Catalog, x: Txn, y: Txn, k: Kind, l: Kind, kinds: set<Kind>)
    requires AllSound(c, Two(x, y)) && KindOf(c, Two(x, y), 0) == k && KindOf(c, Two(x, y), 1) == l
    requires k in kinds && l in kinds
    ensures OfKinds(c, Two(x, y), kinds)
  {
  }

  lemma CrossingRefutes(c: Catalog, x: Txn, y: Txn, a: seq<Lock>, b: seq<Lock>, p: nat, q: nat, i: nat, j: nat,
                        kinds: set<Kind>)
    requires AllSound(c, Two(x, y)) && OfKinds(c, Two(x, y), kinds) && !x.Delivery?
    requires (x.Resolution? ==> x.rel in c.parties) && (y.Resolution? ==> y.rel in c.parties)
    requires LocksOf(c, x) == a && LocksOf(c, y) == b && Crossing(a, b, p, q, i, j)
    ensures !DeadlockFree(kinds)
  {
    CrossingDeadlocks(c, x, y, a, b, p, q, i, j);
  }

  /** Without pointers there is no cycle of them. */
  lemma NoPointersClimb(c: Catalog)
    requires c.replacedBy == map[] && forall r | r in c.parties :: c.parties[r].low < c.parties[r].high
    requires forall a | a in c.carrier :: a in c.files && c.carrier[a] !in c.files
    ensures c.Valid()
  {
    assert Climbs(c.replacedBy, map[]);
  }

  predicate TiedToNothing(x: Txn) {
    x.Deletion? && x.lifted == x.erased == [] && x.partners == x.pointers == []
  }

  lemma TwoDeletionsPassNothing(c: Catalog, x: Txn, y: Txn)
    requires AllSound(c, Two(x, y)) && x.Deletion? && y.Deletion?
    ensures !IsPassed(c, Two(x, y), 0) && !IsPassed(c, Two(x, y), 1)
  {
  }

  lemma PlainIsSound(c: Catalog, x: Txn)
    requires TiedToNothing(x) && |x.carried| <= 1 && c.parties == map[] && c.replacedBy == map[]
    requires forall m | m in x.listed :: m in c.origin && c.origin[m] == x.src
    requires x.carried != [] ==>
      var k := x.carried[0];
      && k.file in c.carrier && c.carrier[k.file] == x.src
      && forall m | m in k.listed :: m in c.origin && c.origin[m] == k.file
    ensures Sound(c, x)
  {
  }

  /** A deletion tied to nothing that lists `listed` and carries at most one attachment. */
  function Plain(s: SourceId, listed: seq<MemId>, carried: seq<Carried>): (x: Txn)
    ensures TiedToNothing(x)
  {
    Deletion(s, listed, carried, [], [], [], [])
  }

  lemma PlainLocks(c: Catalog, s: SourceId, listed: seq<MemId>)
    ensures LocksOf(c, Plain(s, listed, [])) == Gate(c, s) + Mems(listed)
  {
    assert Beyond(Plain(s, listed, [])) == [];
  }

  lemma CarryLocks(c: Catalog, s: SourceId, listed: seq<MemId>, k: Carried)
    requires s in c.rows && k.file in c.rows
    ensures LocksOf(c, Plain(s, listed, [k])) == [Row(s)] + Mems(listed) + Mems(k.listed) + [Row(k.file)]
  {
    assert Beyond(Plain(s, listed, [k])) == [] && CarriedLocks(c, [k][1..]) == [];
  }

  /** A deletion of one memory that lifts one relation from its partner. */
  function Lifting(s: SourceId, m: MemId, r: RelId, partner: MemId): Txn {
    Deletion(s, [m], [], [r], [partner], [], [])
  }

  lemma LiftingIsSound(c: Catalog, s: SourceId, m: MemId, r: RelId, partner: MemId)
    requires m in c.origin && c.origin[m] == s && partner != m && c.replacedBy == map[]
    requires c.parties == map[r := Pair(m, partner)] || c.parties == map[r := Pair(partner, m)]
    ensures Sound(c, Lifting(s, m, r, partner))
  {
    assert Lifting(s, m, r, partner).Lists(m) && c.Names(r, m) && c.Names(r, partner);
  }

  lemma LiftingLocks(c: Catalog, s: SourceId, m: MemId, r: RelId, partner: MemId)
    requires s in c.rows
    ensures LocksOf(c, Lifting(s, m, r, partner)) == [Row(s), Mem(m), Rel(r), Mem(partner)]
  {
  }

  lemma ContradictingSources() returns (c: Catalog, x: Txn, y: Txn)
    ensures c.Valid() && Sound(c, x) && Sound(c, y)
    ensures x.Deletion? && y.Deletion? && x.lifted != [] && y.lifted != []
    ensures LocksOf(c, x) == [Row(0), Mem(0), Rel(0), Mem(1)]
    ensures LocksOf(c, y) == [Row(1), Mem(1), Rel(0), Mem(0)]
  {
    c := Catalog({0, 1}, {}, map[], map[0 := 0, 1 := 1], map[0 := Pair(0, 1)], map[]);
    NoPointersClimb(c);
    x, y := Lifting(0, 0, 0, 1), Lifting(1, 1, 0, 0);
    LiftingIsSound(c, 0, 0, 0, 1);
    LiftingIsSound(c, 1, 1, 0, 0);
    LiftingLocks(c, 0, 0, 0, 1);
    LiftingLocks(c, 1, 1, 0, 0);
  }

  /** Deleting two sources whose memories contradict each other. */
  lemma LiftsDeadlock(kinds: set<Kind>)
    requires Lifts in kinds
    ensures !DeadlockFree(kinds)
  {
    var a, b := [Row(0), Mem(0), Rel(0), Mem(1)], [Row(1), Mem(1), Rel(0), Mem(0)];
    assert Crossing(a, b, 3, 2, 2, 1);
    var c, x, y := ContradictingSources();
    TwoSound(c, x, y);
    TwoOfKinds(c, x, y, Lifts, Lifts, kinds);
    CrossingRefutes(c, x, y, a, b, 3, 2, 2, 1, kinds);
  }

  /** Memory 0 of source 0 is replaced by 2 of source 1, and 3 of source 1 by 1 of source 0. */
  const CROSS_POINTERS := Catalog({0, 1}, {}, map[], map[0 := 0, 1 := 0, 2 := 1, 3 := 1], map[], map[0 := 2, 3 := 1])

  /** A deletion that lists two memories and nulls another one's pointer. */
  function Nulling(s: SourceId, m: MemId, n: MemId, pointer: MemId): Txn {
    Deletion(s, [m, n], [], [], [], [pointer], [])
  }

  lemma NullingIsSound(c: Catalog, s: SourceId, m: MemId, n: MemId, pointer: MemId)
    requires m in c.origin && n in c.origin && c.origin[m] == c.origin[n] == s && c.parties == map[]
    requires pointer in c.replacedBy && c.replacedBy[pointer] in {m, n} && pointer !in {m, n}
    requires forall p | p in c.replacedBy && c.replacedBy[p] in {m, n} && p !in {m, n} :: p == pointer
    ensures Sound(c, Nulling(s, m, n, pointer))
  {
  }

  lemma CrossPointers() returns (c: Catalog, x: Txn, y: Txn)
    ensures c.Valid() && Sound(c, x) && Sound(c, y) && x == Nulling(0, 0, 1, 3) && y == Nulling(1, 2, 3, 0)
    ensures c.rows == {0, 1}
  {
    c, x, y := CROSS_POINTERS, Nulling(0, 0, 1, 3), Nulling(1, 2, 3, 0);
    assert Climbs(c.replacedBy, map[0 := 0, 2 := 1, 3 := 0, 1 := 1]);
    NullingIsSound(c, 0, 0, 1, 3);
    NullingIsSound(c, 1, 2, 3, 0);
  }

  lemma NullingKinds(c: Catalog, x: Txn, y: Txn, kinds: set<Kind>)
    requires c.Valid() && Sound(c, x) && Sound(c, y) && x == Nulling(0, 0, 1, 3) && y == Nulling(1, 2, 3, 0)
    requires Points in kinds
    ensures AllSound(c, Two(x, y)) && OfKinds(c, Two(x, y), kinds)
  {
  }

  lemma NullingLocks(c: Catalog, s: SourceId, m: MemId, n: MemId, pointer: MemId)
    requires s in c.rows
    ensures LocksOf(c, Nulling(s, m, n, pointer)) == [Row(s), Mem(m), Mem(n), Mem(pointer)]
  {
  }

  /** Deleting two sources of which each has a memory that is replaced by one of the other's. */
  lemma PointsDeadlock(kinds: set<Kind>)
    requires Points in kinds
    ensures !DeadlockFree(kinds)
  {
    var a, b := [Row(0), Mem(0), Mem(1), Mem(3)], [Row(1), Mem(2), Mem(3), Mem(0)];
    assert Crossing(a, b, 3, 3, 1, 2);
    var c, x, y := CrossPointers();
    NullingLocks(c, 0, 0, 1, 3);
    NullingLocks(c, 1, 2, 3, 0);
    NullingKinds(c, x, y, kinds);
    CrossingRefutes(c, x, y, a, b, 3, 3, 1, 2, kinds);
  }

  lemma PassedPair(c: Catalog, x: Txn, y: Txn, i: nat, m: MemId)
    requires AllSound(c, Two(x, y)) && TiedToNothing(x) && x.Lists(m) && !y.Deletion?
    requires y.Resolution? ==> y.rel in c.parties
    requires i + 1 < |LocksOf(c, y)| && LocksOf(c, y)[i] == Mem(m)
    ensures KindOf(c, Two(x, y), 0) == Passed
  {
    assert GoesOn(c, y, m) && Two(x, y)[1] == y;
  }

  /** Memories 1 and 2 of source 0, tied to nothing. */
  lemma TwoMemories(rows: set<SourceId>) returns (c: Catalog)
    ensures c.Valid() && c.rows == rows && c.files == {} && c.parties == map[] && c.replacedBy == map[]
    ensures 1 in c.origin && 2 in c.origin && c.origin[1] == c.origin[2] == 0
  {
    c := Catalog(rows, {}, map[], map[1 := 0, 2 := 0], map[], map[]);
    NoPointersClimb(c);
  }

  /** A deletion of these memories, in either order. */
  lemma TwoListed(c: Catalog, m: MemId, n: MemId) returns (x: Txn)
    requires c.parties == map[] && c.replacedBy == map[]
    requires m in c.origin && n in c.origin && c.origin[m] == c.origin[n] == 0
    ensures Sound(c, x) && x == Plain(0, [m, n], [])
  {
    x := Plain(0, [m, n], []);
    PlainIsSound(c, x);
  }

  lemma Backwards() returns (c: Catalog, x: Txn)
    ensures c.Valid() && c.rows == {0, 1} && 1 in c.origin && 2 in c.origin && c.origin[1] == c.origin[2] == 0
    ensures Sound(c, x) && TiedToNothing(x) && x.Lists(1) && LocksOf(c, x) == [Row(0), Mem(2), Mem(1)]
  {
    c := TwoMemories({0, 1});
    x := TwoListed(c, 2, 1);
    PlainLocks(c, 0, [2, 1]);
  }

  lemma EditInOrder(c: Catalog) returns (y: Txn)
    ensures Sound(c, y) && y.Touch? && Ascending(y.mems) && LocksOf(c, y) == [Mem(1), Mem(2)]
  {
    y := Touch([1, 2]);
  }

  lemma DeliveryInOrder(c: Catalog) returns (y: Txn)
    requires 1 in c.rows && 1 in c.origin && 2 in c.origin && c.origin[1] == c.origin[2] == 0
    ensures Sound(c, y) && y.Delivery? && y.candidates != [] && Ascending(y.candidates)
    ensures LocksOf(c, y) == [Run(1), Row(1), Mem(1), Mem(2)]
  {
    y := Delivery(1, [1, 2]);
  }

  /** In id order, a bulk change is an edit and a delivery reconciles. */
  lemma OrderedKinds(c: Catalog, x: Txn, y: Txn)
    requires AllSound(c, Two(x, y))
    ensures y.Touch? && Ascending(y.mems) ==> KindOf(c, Two(x, y), 1) == Edit
    ensures y.Delivery? && y.candidates != [] && Ascending(y.candidates) ==> KindOf(c, Two(x, y), 1) == Reconcile
  {
  }

  lemma PassedOfKinds(c: Catalog, x: Txn, y: Txn, i: nat, m: MemId, k: Kind, kinds: set<Kind>)
    requires Passed in kinds && k in kinds && AllSound(c, Two(x, y)) && TiedToNothing(x) && x.Lists(m)
    requires (y.Touch? && Ascending(y.mems) && k == Edit)
      || (y.Delivery? && y.candidates != [] && Ascending(y.candidates) && k == Reconcile)
    requires i + 1 < |LocksOf(c, y)| && LocksOf(c, y)[i] == Mem(m)
    ensures OfKinds(c, Two(x, y), kinds)
  {
    PassedPair(c, x, y, i, m);
    OrderedKinds(c, x, y);
    TwoOfKinds(c, x, y, Passed, k, kinds);
  }

  /** A deletion returns two memories in one order, `y` locks them in the other. */
  lemma PassedDeadlocks(c: Catalog, x: Txn, y: Txn, b: seq<Lock>, k: Kind, kinds: set<Kind>)
    requires Passed in kinds && k in kinds && AllSound(c, Two(x, y))
    requires TiedToNothing(x) && x.Lists(1) && LocksOf(c, x) == [Row(0), Mem(2), Mem(1)]
    requires (y.Touch? && Ascending(y.mems) && k == Edit)
      || (y.Delivery? && y.candidates != [] && Ascending(y.candidates) && k == Reconcile)
    requires |b| > 1 && LocksOf(c, y) == b && Crossing([Row(0), Mem(2), Mem(1)], b, 2, |b| - 1, 1, |b| - 2)
    ensures !DeadlockFree(kinds)
  {
    PassedOfKinds(c, x, y, |b| - 2, 1, k, kinds);
    CrossingRefutes(c, x, y, [Row(0), Mem(2), Mem(1)], b, 2, |b| - 1, 1, |b| - 2, kinds);
  }

  /** A bulk change passes through two memories of a source that is being deleted. */
  lemma PassedByEdit(kinds: set<Kind>)
    requires Passed in kinds && Edit in kinds
    ensures !DeadlockFree(kinds)
  {
    var b := [Mem(1), Mem(2)];
    assert Crossing([Row(0), Mem(2), Mem(1)], b, 2, 1, 1, 0);
    var c, x := Backwards();
    var y := EditInOrder(c);
    TwoSound(c, x, y);
    PassedDeadlocks(c, x, y, b, Edit, kinds);
  }

  /** So does a delivery that pairs its facts with both. */
  lemma PassedByDelivery(kinds: set<Kind>)
    requires Passed in kinds && Reconcile in kinds
    ensures !DeadlockFree(kinds)
  {
    var b := [Run(1), Row(1), Mem(1), Mem(2)];
    assert Crossing([Row(0), Mem(2), Mem(1)], b, 2, 3, 1, 2);
    var c, x := Backwards();
    var y := DeliveryInOrder(c);
    TwoSound(c, x, y);
    PassedDeadlocks(c, x, y, b, Reconcile, kinds);
  }

  lemma OppositeOrders() returns (c: Catalog, x: Txn, y: Txn)
    ensures c.Valid() && Sound(c, x) && Sound(c, y) && y.Delivery? && y.candidates == [1, 3, 2] && x == Touch([2, 1])
    ensures LocksOf(c, x) == [Mem(2), Mem(1)] && LocksOf(c, y) == [Run(4), Row(4), Mem(1), Mem(3), Mem(2)]
  {
    c := Catalog({0, 4}, {}, map[], map[1 := 0, 2 := 0, 3 := 0], map[], map[]);
    NoPointersClimb(c);
    x, y := Touch([2, 1]), Delivery(4, [1, 3, 2]);
  }

  /** A bulk change and a delivery that meet two memories in opposite orders. */
  lemma ScatteredDeadlocks(kinds: set<Kind>)
    requires Scattered in kinds
    ensures !DeadlockFree(kinds)
  {
    var a, b := [Mem(2), Mem(1)], [Run(4), Row(4), Mem(1), Mem(3), Mem(2)];
    assert Crossing(a, b, 1, 4, 0, 2);
    var c, x, y := OppositeOrders();
    TwoSound(c, x, y);
    assert x.mems[0] > x.mems[1] && y.candidates[1] > y.candidates[2];
    TwoOfKinds(c, x, y, Scattered, Scattered, kinds);
    CrossingRefutes(c, x, y, a, b, 1, 4, 0, 2, kinds);
  }

  lemma OneSourceWithoutRow() returns (c: Catalog, x: Txn, y: Txn)
    ensures c.Valid() && Sound(c, x) && Sound(c, y) && TiedToNothing(x) && TiedToNothing(y)
    ensures Gate(c, x.src) == Gate(c, y.src) == []
    ensures LocksOf(c, x) == [Mem(1), Mem(2)] && LocksOf(c, y) == [Mem(2), Mem(1)]
  {
    c := TwoMemories({});
    x := TwoListed(c, 1, 2);
    y := TwoListed(c, 2, 1);
    PlainLocks(c, 0, [1, 2]);
    PlainLocks(c, 0, [2, 1]);
  }

  /** Two deletions of one source without a row, whose queries return the memories in different orders. */
  lemma RowlessDeadlocks(kinds: set<Kind>)
    requires Rowless in kinds
    ensures !DeadlockFree(kinds)
  {
    var a, b := [Mem(1), Mem(2)], [Mem(2), Mem(1)];
    assert Crossing(a, b, 1, 1, 0, 0);
    var c, x, y := OneSourceWithoutRow();
    TwoSound(c, x, y);
    TwoDeletionsPassNothing(c, x, y);
    TwoOfKinds(c, x, y, Rowless, Rowless, kinds);
    CrossingRefutes(c, x, y, a, b, 1, 1, 0, 0, kinds);
  }

  /** An email 0 with an attachment 1, and memory 5 of one of them. */
  lemma EmailWithFile(owner: SourceId) returns (c: Catalog)
    ensures c.Valid() && c.rows == {0, 1} && c.files == {1} && c.carrier == map[1 := 0] && c.origin == map[5 := owner]
    ensures c.parties == map[] && c.replacedBy == map[]
  {
    c := Catalog({0, 1}, {1}, map[1 := 0], map[5 := owner], map[], map[]);
    NoPointersClimb(c);
  }

  lemma EmailAndItsFile() returns (c: Catalog, x: Txn, y: Txn)
    ensures c.Valid() && Sound(c, x) && Sound(c, y) && TiedToNothing(x) && TiedToNothing(y) && y.carried == []
    ensures x.src in c.rows && |x.carried| == 1 && x.carried[0].file in c.rows && y.src in c.rows && y.src in c.files
    ensures LocksOf(c, x) == [Row(0), Mem(5), Row(1)] && LocksOf(c, y) == [Row(1), Mem(5)]
  {
    c := EmailWithFile(1);
    x, y := Plain(0, [], [Carried(1, [5])]), Plain(1, [5], []);
    PlainIsSound(c, x);
    PlainIsSound(c, y);
    CarryLocks(c, 0, [], Carried(1, [5]));
    PlainLocks(c, 1, [5]);
  }

  lemma EmailAndItsFileKinds(c: Catalog, x: Txn, y: Txn)
    requires AllSound(c, Two(x, y)) && TiedToNothing(x) && TiedToNothing(y) && y.carried == []
    requires x.src in c.rows && |x.carried| == 1 && x.carried[0].file in c.rows && y.src in c.rows && y.src in c.files
    ensures KindOf(c, Two(x, y), 0) == Carry && KindOf(c, Two(x, y), 1) == DeleteFile
  {
    TwoDeletionsPassNothing(c, x, y);
  }

  /** An attachment is deleted through its email and on its own. */
  lemma CarryMeetsDeleteFile(kinds: set<Kind>)
    requires Carry in kinds && DeleteFile in kinds
    ensures !DeadlockFree(kinds)
  {
    var a, b := [Row(0), Mem(5), Row(1)], [Row(1), Mem(5)];
    assert Crossing(a, b, 2, 1, 1, 0);
    var c, x, y := EmailAndItsFile();
    TwoSound(c, x, y);
    EmailAndItsFileKinds(c, x, y);
    TwoOfKinds(c, x, y, Carry, DeleteFile, kinds);
    CrossingRefutes(c, x, y, a, b, 2, 1, 1, 0, kinds);
  }

  lemma ReconcilingOne(c: Catalog, s: SourceId, m: MemId)
    requires s in c.rows && m in c.origin && c.origin[m] != s
    ensures Sound(c, Delivery(s, [m])) && LocksOf(c, Delivery(s, [m])) == [Run(s), Row(s), Mem(m)]
  {
  }

  lemma EmailAndFileDelivery() returns (c: Catalog, x: Txn, y: Txn)
    ensures c.Valid() && Sound(c, x) && Sound(c, y) && TiedToNothing(x) && y.Delivery? && y.candidates == [5]
    ensures x.src in c.rows && |x.carried| == 1 && x.carried[0].file in c.rows && x.src !in c.files
    ensures LocksOf(c, x) == [Row(0), Mem(5), Row(1)] && LocksOf(c, y) == [Run(1), Row(1), Mem(5)]
  {
    c := EmailWithFile(0);
    x, y := Plain(0, [5], [Carried(1, [])]), Delivery(1, [5]);
    PlainIsSound(c, x);
    CarryLocks(c, 0, [5], Carried(1, []));
    ReconcilingOne(c, 1, 5);
  }

  lemma LastIsNotPassed(c: Catalog, x: Txn, y: Txn)
    requires AllSound(c, Two(x, y)) && y.Delivery? && y.candidates == [5]
    ensures !IsPassed(c, Two(x, y), 0)
  {
    assert forall m :: !GoesOn(c, y, m);
  }

  /** A delivery of an attachment pairs a fact with a memory of the email that is being deleted. */
  lemma CarryMeetsReconcile(kinds: set<Kind>)
    requires Carry in kinds && Reconcile in kinds
    ensures !DeadlockFree(kinds)
  {
    var a, b := [Row(0), Mem(5), Row(1)], [Run(1), Row(1), Mem(5)];
    assert Crossing(a, b, 2, 2, 1, 1);
    var c, x, y := EmailAndFileDelivery();
    TwoSound(c, x, y);
    LastIsNotPassed(c, x, y);
    TwoOfKinds(c, x, y, Carry, Reconcile, kinds);
    CrossingRefutes(c, x, y, a, b, 2, 2, 1, 1, kinds);
  }

  lemma HarmfulDeadlocks(kinds: set<Kind>)
    requires !Harmless(kinds)
    ensures !DeadlockFree(kinds)
  {
    if Lifts in kinds {
      LiftsDeadlock(kinds);
    } else if Points in kinds {
      PointsDeadlock(kinds);
    } else if Scattered in kinds {
      ScatteredDeadlocks(kinds);
    } else if Rowless in kinds {
      RowlessDeadlocks(kinds);
    } else if Carry in kinds && Reconcile in kinds {
      CarryMeetsReconcile(kinds);
    } else if Carry in kinds && DeleteFile in kinds {
      CarryMeetsDeleteFile(kinds);
    } else if Reconcile in kinds {
      PassedByDelivery(kinds);
    } else {
      PassedByEdit(kinds);
    }
  }

  /**
   * A mix of transactions is free of deadlock if and only if: no deletion or rejection
   * locks relation rows or nulls pointers, nobody locks memories out of id order, every
   * listing is behind a row or a run lock, no deletion of a memory that others pass
   * through is mixed with deliveries that reconcile or with edits, and emails with attachments are not deleted
   * beside deliveries that reconcile or deletions of stored files.
   */
  lemma DeadlockFreeExactly(kinds: set<Kind>)
    ensures DeadlockFree(kinds) <==> Harmless(kinds)
  {
    if Harmless(kinds) {
      forall c, f | AllSound(c, f) && OfKinds(c, f, kinds) ensures !CanDeadlock(Scripts(c, f)) {
        SettledNeverDeadlocks(c, f, kinds);
      }
    } else {
      HarmfulDeadlocks(kinds);
    }
  }

  lemma SettledNeverDeadlocks(c: Catalog, f: map<Tx, Txn>, kinds: set<Kind>)
    requires Settled(c, f, kinds)
    ensures !CanDeadlock(Scripts(c, f))
  {
    var fs := Scripts(c, f);
    forall at, knot | Reachable(fs, at) ensures !Knot(fs, at, knot) {
      ReachableExactly(fs, at);
      SettledHasNoKnot(c, f, kinds, at, knot);
    }
  }
}
