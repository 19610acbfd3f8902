/**
 * Waiting cycles between particular transactions: the deliveries and deletions of one
 * source never deadlock, and for a deletion beside a resolution, beside a deletion of
 * one of its attachments and beside a delivery of one there is an exact condition.
 */
module DeadlockPairs {
  import opened Common
  import opened LockOrder
  import opened MemoryLocks

  // -------------------------------------------------------------------- one source

  /** Deliveries and deletions of one source that has a row or is a discard-mode file. */
  ghost predicate OneSource(c: Catalog, f: map<Tx, Txn>, s: SourceId) {
    && AllSound(c, f) && Gate(c, s) != []
    && forall t | t in f :: (f[t].Delivery? || f[t].Deletion?) && f[t].src == s
  }

  lemma CarriedTakesNoRun(c: Catalog, carried: seq<Carried>, s: SourceId)
    ensures Run(s) !in CarriedLocks(c, carried)
  {
    if Run(s) in CarriedLocks(c, carried) { CarriedAsks(c, carried, Run(s)); }
  }

  /** Past its gate a deletion asks for no run lock. */
  lemma PastGateNoRun(c: Catalog, x: Txn, n: nat, s: SourceId)
    requires x.Deletion? && |Gate(c, x.src)| <= n < |LocksOf(c, x)|
    ensures LocksOf(c, x)[n] != Run(s)
  {
    CarriedTakesNoRun(c, x.carried, s);
    assert Run(s) !in Listing(c, x) + Beyond(x);
    assert LocksOf(c, x)[n] == (Listing(c, x) + Beyond(x))[n - |Gate(c, x.src)|];
  }

  lemma OneDeliveryRuns(c: Catalog, f: map<Tx, Txn>, s: SourceId, at: map<Tx, nat>, t: Tx, u: Tx)
    requires OneSource(c, f, s) && Compatible(Scripts(c, f), at)
    requires t in f && u in f && f[t].Delivery? && f[u].Delivery? && at[t] > 0 && at[u] > 0
    ensures t == u
  {
    assert Conflict(ScriptOf(c, f[t])[0], ScriptOf(c, f[u])[0]);
  }

  /** A deletion's gate clashes with the row lock of a delivery of its source, or with its run lock. */
  lemma GateBlocksDelivery(c: Catalog, d: Txn, v: Txn)
    requires d.Deletion? && v.Delivery? && d.src == v.src && Gate(c, d.src) != []
    ensures ScriptOf(c, d) != [] && ScriptOf(c, v) != []
    ensures d.src in c.rows ==> |ScriptOf(c, v)| > 1 && Conflict(ScriptOf(c, d)[0], ScriptOf(c, v)[1])
    ensures d.src !in c.rows ==> Conflict(ScriptOf(c, d)[0], ScriptOf(c, v)[0])
  {
  }

  /** While a deletion is past the gate, a delivery holds its run lock at most. */
  lemma DeliveryStopsAtGate(c: Catalog, f: map<Tx, Txn>, s: SourceId, at: map<Tx, nat>, d: Tx, v: Tx)
    requires OneSource(c, f, s) && Compatible(Scripts(c, f), at)
    requires d in f && v in f && f[d].Deletion? && f[v].Delivery? && at[d] > 0
    ensures at[v] <= 1
  {
    GateBlocksDelivery(c, f[d], f[v]);
    assert Apart(Scripts(c, f)[d], at[d], Scripts(c, f)[v], at[v]);
  }

  lemma DeletionWaitsForNoDelivery(c: Catalog, f: map<Tx, Txn>, s: SourceId, at: map<Tx, nat>, d: Tx, v: Tx)
    requires OneSource(c, f, s) && d in f && v in f && f[d].Deletion? && f[v].Delivery? && at.Keys == f.Keys
    requires at[d] > 0 && at[v] <= 1
    ensures !Waits(Scripts(c, f), at, d, v)
  {
    if Waits(Scripts(c, f), at, d, v) {
      var k := HeldLock(c, f, at, d, v);
      PastGateNoRun(c, f[d], at[d], s);
    }
  }

  lemma DeletionWaitsForNobody(c: Catalog, f: map<Tx, Txn>, s: SourceId, at: map<Tx, nat>, d: Tx, v: Tx)
    requires OneSource(c, f, s) && Compatible(Scripts(c, f), at) && d in f && f[d].Deletion? && at[d] > 0
    ensures !Waits(Scripts(c, f), at, d, v)
  {
    if Waits(Scripts(c, f), at, d, v) {
      if f[v].Deletion? {
        var k := HeldLock(c, f, at, d, v);
        OnePastGate(c, f, at, d, v);
      } else {
        DeliveryStopsAtGate(c, f, s, at, d, v);
        DeletionWaitsForNoDelivery(c, f, s, at, d, v);
      }
    }
  }

  lemma HolderIsDelivery(c: Catalog, f: map<Tx, Txn>, s: SourceId, at: map<Tx, nat>, knot: set<Tx>, t: Tx)
    returns (u: Tx)
    requires OneSource(c, f, s) && Compatible(Scripts(c, f), at) && Knot(Scripts(c, f), at, knot) && t in knot
    ensures u in knot && u in f && u != t && f[u].Delivery? && at[u] > 0
  {
    var fs := Scripts(c, f);
    assert WaitsFor(fs, at, t, knot);
    u :| u in knot && Waits(fs, at, t, u);
    assert WaitsFor(fs, at, u, knot);
    var v: Tx :| v in knot && Waits(fs, at, u, v);
    if f[u].Deletion? { DeletionWaitsForNobody(c, f, s, at, u, v); }
  }

  /**
   * Deliveries and deletions of one source never deadlock, however many there are,
   * whatever the deliveries reconcile with and whatever the deletions lift and cascade.
   */
  lemma OneSourceNeverDeadlocks(c: Catalog, f: map<Tx, Txn>, s: SourceId)
    requires OneSource(c, f, s)
    ensures !CanDeadlock(Scripts(c, f))
  {
    var fs := Scripts(c, f);
    forall at, knot | Reachable(fs, at) ensures !Knot(fs, at, knot) {
      ReachableExactly(fs, at);
      if Knot(fs, at, knot) {
        var t: Tx :| t in knot;
        var u := HolderIsDelivery(c, f, s, at, knot, t);
        var v := HolderIsDelivery(c, f, s, at, knot, u);
        OneDeliveryRuns(c, f, s, at, u, v);
      }
    }
  }

  // ------------------------------------------------------------------ pairs of lists

  /** Where the first list first names a lock of the second; its length when nowhere. */
  function FirstShared(a: seq<Lock>, b: seq<Lock>): (i: nat)
    ensures i <= |a| && forall k | 0 <= k < i :: a[k] !in b
    ensures i < |a| ==> a[i] in b
  {
    if a == [] || a[0] in b then 0 else 1 + FirstShared(a[1..], b)
  }

  /** The first locks that the lists share are different ones. */
  predicate OutOfOrder(a: seq<Lock>, b: seq<Lock>) {
    FirstShared(a, b) < |a| && FirstShared(b, a) < |b| && a[FirstShared(a, b)] != b[FirstShared(b, a)]
  }

  lemma FirstIsFirstShared(c: Catalog, x: Txn, y: Txn)
    requires (x.Resolution? ==> x.rel in c.parties) && (y.Resolution? ==> y.rel in c.parties)
    requires !x.Delivery? || !y.Delivery?
    ensures First(ScriptOf(c, x), ScriptOf(c, y), |ScriptOf(c, y)|) == FirstShared(LocksOf(c, x), LocksOf(c, y))
  {
    var s, t, a, b := ScriptOf(c, x), ScriptOf(c, y), LocksOf(c, x), LocksOf(c, y);
    forall k | 0 <= k < |s| ensures Clashes(s[k], t, |t|) <==> a[k] in b {
      if a[k] in b {
        var l: nat :| l < |b| && b[l] == a[k];
        assert Conflict(s[k], t[l]);
      }
    }
  }

  /** Two transactions, not both deliveries, can deadlock if and only if the first locks they share differ. */
  lemma TwoDeadlockExactly(c: Catalog, f: map<Tx, Txn>, a: Tx, b: Tx)
    requires AllSound(c, f) && a != b && f.Keys == {a, b} && (!f[a].Delivery? || !f[b].Delivery?)
    ensures CanDeadlock(Scripts(c, f)) <==> OutOfOrder(LocksOf(c, f[a]), LocksOf(c, f[b]))
  {
    PairExactly(Scripts(c, f), a, b);
    FirstIsFirstShared(c, f[a], f[b]);
    FirstIsFirstShared(c, f[b], f[a]);
  }

  /** Both are named, `low` only after `high`. */
  predicate HighFirst(locks: seq<Lock>, low: Lock, high: Lock) {
    exists i, j | 0 <= i < j < |locks| :: locks[i] == high && locks[j] == low && low !in locks[..j]
  }

  // ------------------------------------------------------- a deletion and a resolution

  lemma FrontHasNoRelation(c: Catalog, x: Txn, r: RelId)
    requires x.Deletion?
    ensures Rel(r) !in Gate(c, x.src) + Listing(c, x)
  {
    if Rel(r) in Listing(c, x) { ListingAsks(c, x, Rel(r)); }
  }

  lemma RelationIsAsked(x: Txn, r: RelId)
    requires x.Deletion? && r in x.lifted + x.erased
    ensures Rel(r) in Beyond(x)
  {
    var i :| 0 <= i < |x.lifted + x.erased| && (x.lifted + x.erased)[i] == r;
    assert (Rels(x.lifted) + Rels(x.erased))[i] == Rel(r);
  }

  /** A deletion that locks a relation row has locked every memory it lists before. */
  lemma MemoryBeforeRelation(c: Catalog, x: Txn, r: RelId, m: MemId) returns (a: nat)
    requires x.Lists(m) && r in x.lifted + x.erased
    ensures Rel(r) in LocksOf(c, x) && a < |LocksOf(c, x)|
    ensures LocksOf(c, x)[a] == Mem(m) && Rel(r) !in LocksOf(c, x)[..a + 1]
  {
    var front := Gate(c, x.src) + Listing(c, x);
    ListedIsAsked(c, x, m);
    FrontHasNoRelation(c, x, r);
    RelationIsAsked(x, r);
    assert Mem(m) in front;
    a :| a < |front| && front[a] == Mem(m);
    assert LocksOf(c, x) == front + Beyond(x);
    assert LocksOf(c, x)[..a + 1] == front[..a + 1];
  }

  lemma {:induction false} CarriedIsAsked(c: Catalog, carried: seq<Carried>, k: Carried, l: Lock)
    requires k in carried && l in Mems(k.listed) + RowOf(c, k.file)
    ensures l in CarriedLocks(c, carried)
  {
    if k != carried[0] { CarriedIsAsked(c, carried[1..], k, l); }
  }

  lemma ListedIsAsked(c: Catalog, x: Txn, m: MemId)
    requires x.Lists(m)
    ensures Mem(m) in Listing(c, x)
  {
    if m in x.listed {
      var i :| 0 <= i < |x.listed| && x.listed[i] == m;
      assert Mems(x.listed)[i] == Mem(m);
    } else {
      var k :| k in x.carried && m in k.listed;
      var i :| 0 <= i < |k.listed| && k.listed[i] == m;
      assert Mems(k.listed)[i] == Mem(m);
      CarriedIsAsked(c, x.carried, k, Mem(m));
    }
  }

  lemma RelationsAsked(c: Catalog, x: Txn, r: RelId)
    requires x.Deletion? && r !in x.lifted + x.erased
    ensures Rel(r) !in LocksOf(c, x)
  {
    if Rel(r) in Listing(c, x) { ListingAsks(c, x, Rel(r)); }
    assert Rel(r) !in Rels(x.lifted) && Rel(r) !in Rels(x.erased);
  }

  lemma HighFirstIsOutOfOrder(a: seq<Lock>, rel: Lock, low: Lock, high: Lock)
    requires rel !in a && low != high && HighFirst(a, low, high)
    ensures OutOfOrder(a, [rel, low, high])
  {
    var b := [rel, low, high];
    var x, y :| 0 <= x < y < |a| && a[x] == high && a[y] == low && low !in a[..y];
    assert b[0] == rel && b[1] == low && b[2] == high;
    assert high in b && low in a && FirstShared(a, b) <= x;
    assert a[FirstShared(a, b)] in a[..y];
  }

  lemma OutOfOrderIsHighFirst(a: seq<Lock>, rel: Lock, low: Lock, high: Lock)
    requires rel !in a && OutOfOrder(a, [rel, low, high])
    ensures HighFirst(a, low, high)
  {
    var b := [rel, low, high];
    var i, y := FirstShared(a, b), FirstShared(a, [low]);
    assert b[0] == rel && b[1] == low && b[2] == high;
    assert low in a && a[i] == high;
    assert low in [low] && a[y] == low && low !in a[..y] && i < y;
  }

  lemma RelationOutOfOrder(a: seq<Lock>, k: nat, rel: Lock, low: Lock, high: Lock)
    requires rel in a && k < |a| && (a[k] == low || a[k] == high) && rel !in a[..k + 1]
    ensures OutOfOrder(a, [rel, low, high])
  {
    var b := [rel, low, high];
    assert b[0] == rel && FirstShared(b, a) == 0;
    assert a[k] in b && FirstShared(a, b) <= k;
    assert a[FirstShared(a, b)] in a[..k + 1];
  }

  lemma NamedMemoryIsTaken(c: Catalog, x: Txn, r: RelId, m: MemId)
    requires Sound(c, x) && x.Lists(m) && c.Names(r, m)
    ensures OutOfOrder(LocksOf(c, x), [Rel(r), Mem(c.parties[r].low), Mem(c.parties[r].high)])
  {
    var k := MemoryBeforeRelation(c, x, r, m);
    RelationOutOfOrder(LocksOf(c, x), k, Rel(r), Mem(c.parties[r].low), Mem(c.parties[r].high));
  }

  lemma UnnamedMemories(c: Catalog, x: Txn, r: RelId)
    requires c.Valid() && Sound(c, x) && x.Deletion? && r in c.parties
    requires !x.Lists(c.parties[r].low) && !x.Lists(c.parties[r].high)
    ensures
      var low, high := Mem(c.parties[r].low), Mem(c.parties[r].high);
      OutOfOrder(LocksOf(c, x), [Rel(r), low, high]) <==> HighFirst(LocksOf(c, x), low, high)
  {
    var a, low, high := LocksOf(c, x), Mem(c.parties[r].low), Mem(c.parties[r].high);
    RelationsAsked(c, x, r);
    if HighFirst(a, low, high) {
      HighFirstIsOutOfOrder(a, Rel(r), low, high);
    } else if OutOfOrder(a, [Rel(r), low, high]) {
      OutOfOrderIsHighFirst(a, Rel(r), low, high);
    }
  }

  /**
   * A deletion and the resolution of a relation can deadlock if and only if the relation
   * is open and either the deletion lists one of its memories, or the deletion locks both,
   * as partners or for their pointers, and the lower one last.
   */
  lemma DeletionMeetsResolutionExactly(c: Catalog, f: map<Tx, Txn>, d: Tx, r: Tx)
    requires AllSound(c, f) && d != r && f.Keys == {d, r} && f[d].Deletion? && f[r].Resolution?
    ensures
      var pair := c.parties[f[r].rel];
      CanDeadlock(Scripts(c, f)) <==>
        f[r].isOpen && (f[d].Lists(pair.low) || f[d].Lists(pair.high)
                        || HighFirst(LocksOf(c, f[d]), Mem(pair.low), Mem(pair.high)))
  {
    TwoDeadlockExactly(c, f, d, r);
    var rel, pair := f[r].rel, c.parties[f[r].rel];
    if !f[r].isOpen {
      assert LocksOf(c, f[r]) == [Rel(rel)];
    } else if f[d].Lists(pair.low) {
      NamedMemoryIsTaken(c, f[d], rel, pair.low);
    } else if f[d].Lists(pair.high) {
      NamedMemoryIsTaken(c, f[d], rel, pair.high);
    } else {
      UnnamedMemories(c, f[d], rel);
    }
  }

  // -------------------------------------- an email's deletion and its attachment

  /** In an email's deletion an attachment's row comes after every memory of that attachment. */
  lemma {:induction false} RowAfterMemories(c: Catalog, carried: seq<Carried>, k: Carried, m: MemId) returns (a: nat)
    requires k in carried && m in k.listed
    requires forall i, j | 0 <= i < j < |carried| :: carried[i].file != carried[j].file
    ensures a < |CarriedLocks(c, carried)| && CarriedLocks(c, carried)[a] == Mem(m)
    ensures Row(k.file) !in CarriedLocks(c, carried)[..a + 1]
  {
    var locks := CarriedLocks(c, carried);
    if k == carried[0] {
      var i :| 0 <= i < |k.listed| && k.listed[i] == m;
      a := i;
      assert locks[..a + 1] == Mems(k.listed)[..a + 1];
    } else {
      var front := Mems(carried[0].listed) + RowOf(c, carried[0].file);
      var b := RowAfterMemories(c, carried[1..], k, m);
      a := |front| + b;
      assert locks == front + CarriedLocks(c, carried[1..]);
      assert locks[..a + 1] == front + CarriedLocks(c, carried[1..])[..b + 1];
    }
  }

  lemma SharedMemory(c: Catalog, x: Txn, y: Txn, m: MemId)
    requires Sound(c, x) && Sound(c, y) && TiedToNothing(x) && TiedToNothing(y) && x.carried == []
    requires Mem(m) in LocksOf(c, x) && Mem(m) in LocksOf(c, y)
    ensures m in x.listed && (y.src == x.src || exists k | k in y.carried :: k.file == x.src && m in k.listed)
  {
    assert Beyond(x) == Beyond(y) == [];
    ListingAsks(c, x, Mem(m));
    ListingAsks(c, y, Mem(m));
  }

  /** Both deletions list memory `m`, one as its own, the other as an attachment's. */
  predicate BothList(x: Txn, y: Txn, m: MemId)
    requires x.Deletion? && y.Deletion?
  {
    m in x.listed && exists k | k in y.carried :: k.file == x.src && m in k.listed
  }

  lemma RowAfterOwnMemories(c: Catalog, y: Txn, k: Carried, m: MemId) returns (z: nat)
    requires y.Deletion? && ListingFits(c, y) && k in y.carried && m in k.listed && y.src != k.file
    ensures z < |LocksOf(c, y)| && LocksOf(c, y)[z] == Mem(m) && Row(k.file) !in LocksOf(c, y)[..z + 1]
  {
    var b, front := LocksOf(c, y), Gate(c, y.src) + Mems(y.listed);
    var n := RowAfterMemories(c, y.carried, k, m);
    z := |front| + n;
    assert b == front + CarriedLocks(c, y.carried) + Beyond(y);
    assert b[..z + 1] == front + CarriedLocks(c, y.carried)[..n + 1];
  }

  lemma CarriedRowIsAsked(c: Catalog, y: Txn, k: Carried)
    requires y.Deletion? && k in y.carried && k.file in c.rows
    ensures Row(k.file) in LocksOf(c, y)
  {
    CarriedIsAsked(c, y.carried, k, Row(k.file));
  }

  lemma GateComesLast(a: seq<Lock>, b: seq<Lock>, z: nat)
    requires a != [] && a[0] in b && z < |b| && b[z] in a && a[0] !in b[..z + 1]
    ensures OutOfOrder(a, b)
  {
    assert FirstShared(a, b) == 0 && FirstShared(b, a) <= z;
    assert b[FirstShared(b, a)] in b[..z + 1];
  }

  lemma CarriedRowComesLast(c: Catalog, x: Txn, y: Txn, m: MemId)
    requires c.Valid() && Sound(c, y) && x.Deletion? && y.Deletion? && x.src in c.rows && BothList(x, y, m)
    ensures OutOfOrder(LocksOf(c, x), LocksOf(c, y))
  {
    var k :| k in y.carried && k.file == x.src && m in k.listed;
    assert y.src == c.carrier[k.file];
    var z := RowAfterOwnMemories(c, y, k, m);
    CarriedRowIsAsked(c, y, k);
    ListedIsAsked(c, x, m);
    assert LocksOf(c, x)[0] == Row(x.src);
    GateComesLast(LocksOf(c, x), LocksOf(c, y), z);
  }

  lemma HeadIsIn<T>(s: seq<T>)
    ensures s == [] || s[0] in s
  {
  }

  lemma FileCarriesNothing(c: Catalog, x: Txn)
    requires c.Valid() && Sound(c, x) && x.Deletion? && x.src in c.files
    ensures x.carried == []
  {
    HeadIsIn(x.carried);
  }

  lemma OutOfOrderSharesMemory(c: Catalog, x: Txn, y: Txn) returns (m: MemId)
    requires TiedToNothing(x) && y.Deletion?
    requires x.src in c.rows && x.carried == [] && OutOfOrder(LocksOf(c, x), LocksOf(c, y))
    ensures Mem(m) in LocksOf(c, x) && Mem(m) in LocksOf(c, y)
  {
    var a, b := LocksOf(c, x), LocksOf(c, y);
    var l := if a[FirstShared(a, b)] == Row(x.src) then b[FirstShared(b, a)] else a[FirstShared(a, b)];
    assert l in a && l in b && l != Row(x.src);
    assert a == [Row(x.src)] + Mems(x.listed) by { assert Beyond(x) == []; }
    m := l.id;
  }

  lemma SameSourceInOrder(c: Catalog, x: Txn, y: Txn)
    requires x.Deletion? && y.Deletion? && x.src == y.src && Gate(c, x.src) != []
    ensures !OutOfOrder(LocksOf(c, x), LocksOf(c, y))
  {
    var a, b := LocksOf(c, x), LocksOf(c, y);
    assert a[0] == b[0] && FirstShared(a, b) == FirstShared(b, a) == 0;
  }

  /**
   * Deleting a stored file and deleting the email that carries it can deadlock if and
   * only if both list one and the same memory of the file. No two other deletions of
   * which one is of a stored file can.
   */
  lemma LegsDeadlockExactly(c: Catalog, f: map<Tx, Txn>, d: Tx, e: Tx)
    requires AllSound(c, f) && d != e && f.Keys == {d, e} && TiedToNothing(f[d]) && TiedToNothing(f[e])
    requires f[d].src in c.rows && f[d].src in c.files
    ensures CanDeadlock(Scripts(c, f)) <==> exists m :: BothList(f[d], f[e], m)
  {
    TwoDeadlockExactly(c, f, d, e);
    var x, y := f[d], f[e];
    if m :| BothList(x, y, m) {
      CarriedRowComesLast(c, x, y, m);
    } else if OutOfOrder(LocksOf(c, x), LocksOf(c, y)) {
      FileCarriesNothing(c, x);
      var m := OutOfOrderSharesMemory(c, x, y);
      SharedMemory(c, x, y, m);
      if y.src == x.src { SameSourceInOrder(c, x, y); }
      assert BothList(x, y, m);
    }
  }

  /** Before the row of file `s` the list has a memory from `candidates`. */
  predicate MeetsBeforeRow(locks: seq<Lock>, s: SourceId, candidates: seq<MemId>) {
    exists y | 0 <= y < |locks| :: locks[y].Mem? && locks[y].id in candidates && Row(s) !in locks[..y]
  }

  lemma MeetsBeforeRowExactly(a: seq<Lock>, b: seq<Lock>, s: SourceId, candidates: seq<MemId>)
    requires a == [Run(s), Row(s)] + Mems(candidates) && Run(s) !in b && Row(s) in b
    ensures OutOfOrder(a, b) <==> MeetsBeforeRow(b, s, candidates)
  {
    assert a[0] == Run(s) && a[1] == Row(s);
    assert FirstShared(a, b) == 1;
    var j := FirstShared(b, a);
    if OutOfOrder(a, b) {
      assert b[j].Mem? && b[j].id in candidates && Row(s) !in b[..j];
    }
    if y :| 0 <= y < |b| && b[y].Mem? && b[y].id in candidates && Row(s) !in b[..y] {
      var i :| 0 <= i < |candidates| && candidates[i] == b[y].id;
      assert a[i + 2] == b[y] && j <= y;
    }
  }

  lemma CarrierAsks(c: Catalog, y: Txn, s: SourceId)
    requires c.Valid() && Sound(c, y) && y.Deletion? && s in c.rows && exists k | k in y.carried :: k.file == s
    ensures Row(s) in LocksOf(c, y) && Run(s) !in LocksOf(c, y)
  {
    var k :| k in y.carried && k.file == s;
    CarriedRowIsAsked(c, y, k);
    if Run(s) in LocksOf(c, y) {
      var n: nat :| n < |LocksOf(c, y)| && LocksOf(c, y)[n] == Run(s);
      if n >= |Gate(c, y.src)| { PastGateNoRun(c, y, n, s); }
    }
  }

  /**
   * A delivery of an attachment and the deletion of its email can deadlock if and only
   * if the deletion locks a memory the delivery reconciles with before the attachment's row.
   */
  lemma DeliveryMeetsCarrierExactly(c: Catalog, f: map<Tx, Txn>, v: Tx, e: Tx)
    requires AllSound(c, f) && v != e && f.Keys == {v, e} && f[v].Delivery? && f[e].Deletion?
    requires f[v].src in c.rows && exists k | k in f[e].carried :: k.file == f[v].src
    ensures CanDeadlock(Scripts(c, f)) <==> MeetsBeforeRow(LocksOf(c, f[e]), f[v].src, f[v].candidates)
  {
    TwoDeadlockExactly(c, f, v, e);
    CarrierAsks(c, f[e], f[v].src);
    MeetsBeforeRowExactly(LocksOf(c, f[v]), LocksOf(c, f[e]), f[v].src, f[v].candidates);
  }

  // ------------------------------------------------------------- what is locked, in what order

  lemma {:induction false} CarriedAsksExactly(c: Catalog, carried: seq<Carried>, l: Lock)
    ensures l in CarriedLocks(c, carried) <==>
      exists k | k in carried :: (l.Mem? && l.id in k.listed) || (l == Row(k.file) && k.file in c.rows)
  {
    if l in CarriedLocks(c, carried) { CarriedAsks(c, carried, l); }
    if k :| k in carried && ((l.Mem? && l.id in k.listed) || (l == Row(k.file) && k.file in c.rows)) {
      MemsAsked(k.listed, l);
      CarriedIsAsked(c, carried, k, l);
    }
  }

  lemma MemsAsked(ids: seq<MemId>, l: Lock)
    ensures l in Mems(ids) <==> l.Mem? && l.id in ids
  {
    if l.Mem? && l.id in ids {
      var i :| 0 <= i < |ids| && ids[i] == l.id;
      assert Mems(ids)[i] == l;
    }
  }

  lemma RelsAsked(ids: seq<RelId>, l: Lock)
    ensures l in Rels(ids) <==> l.Rel? && l.rel in ids
  {
    if l.Rel? && l.rel in ids {
      var i :| 0 <= i < |ids| && ids[i] == l.rel;
      assert Rels(ids)[i] == l;
    }
  }

  /**
   * A deletion asks for its source row, or the run lock of a file without one; for every
   * listed memory, partner and pointing row; for the rows of its attachments; for the
   * relations it lifts or erases; and for nothing else.
   */
  lemma DeletionAsksExactly(c: Catalog, x: Txn, l: Lock)
    requires x.Deletion?
    ensures l in LocksOf(c, x) <==>
      match l
      case Row(s) => s in c.rows && (s == x.src || exists k | k in x.carried :: k.file == s)
      case Run(s) => s == x.src && s !in c.rows && s in c.files
      case Mem(m) => x.Lists(m) || m in x.partners || m in x.pointers
      case Rel(r) => r in x.lifted || r in x.erased
  {
    MemsAsked(x.listed, l);
    CarriedAsksExactly(c, x.carried, l);
    MemsAsked(x.partners, l);
    MemsAsked(x.pointers, l);
    RelsAsked(x.lifted, l);
    RelsAsked(x.erased, l);
    assert l in LocksOf(c, x) <==>
      l in Gate(c, x.src) || l in Mems(x.listed) || l in CarriedLocks(c, x.carried) || l in Beyond(x);
  }

  /** The others: the run lock and the row of a delivery, a relation and its memories, a memory and its relations. */
  lemma OthersAskExactly(c: Catalog, x: Txn, l: Lock)
    requires !x.Deletion? && (x.Resolution? ==> x.rel in c.parties)
    ensures l in LocksOf(c, x) <==>
      match x
      case Delivery(s, candidates) => l == Run(s) || (l == Row(s) && s in c.rows) || (l.Mem? && l.id in candidates)
      case Resolution(r, isOpen) => l == Rel(r) || (isOpen && l.Mem? && c.Names(r, l.id))
      case Rejection(m, gone) => l == Mem(m) || (l.Rel? && l.rel in gone)
      case Touch(mems) => l.Mem? && l.id in mems
  {
    match x
    case Delivery(s, candidates) =>
      MemsAsked(candidates, l);
      assert l in LocksOf(c, x) <==> l == Run(s) || l in RowOf(c, s) || l in Mems(candidates);
    case Resolution(r, isOpen) =>
    case Rejection(m, gone) =>
      RelsAsked(gone, l);
      assert l in LocksOf(c, x) <==> l == Mem(m) || l in Rels(gone);
    case Touch(mems) => MemsAsked(mems, l);
  }

  /** How far a lock is down the order that every transaction but a deletion keeps to. */
  function Level(l: Lock): nat {
    match l case Run(_) => 0 case Row(_) => 1 case Mem(_) => 2 case Rel(_) => 3
  }

  /** Deliveries go from run lock to source row to memories, rejections from the memory to its relations. */
  lemma LevelsRise(c: Catalog, x: Txn, i: nat, j: nat)
    requires (x.Delivery? || x.Rejection?) && i < j < |LocksOf(c, x)|
    ensures
      var l, k := LocksOf(c, x)[i], LocksOf(c, x)[j];
      Level(l) < Level(k) || (x.Delivery? && l.Mem? && k.Mem?) || (l.Rel? && k.Rel?)
  {
  }

  /**
   * A deletion's gate comes first, and the memories it lists and the rows of its
   * attachments come before every relation, partner and pointing row.
   */
  lemma DeletionLocksInOrder(c: Catalog, x: Txn, i: nat, j: nat)
    requires Sound(c, x) && x.Deletion? && i < j < |LocksOf(c, x)|
    ensures
      var l, k := LocksOf(c, x)[i], LocksOf(c, x)[j];
      && !k.Run? && (k == Row(x.src) ==> exists a | a in x.carried :: a.file == x.src)
      && (l.Rel? || (l.Mem? && !x.Lists(l.id)) ==> !k.Row? && (k.Mem? ==> !x.Lists(k.id)))
  {
    var gate, listing := Gate(c, x.src), Listing(c, x);
    var locks := LocksOf(c, x);
    assert locks == gate + listing + Beyond(x);
    if j < |gate| + |listing| {
      assert locks[j] == listing[j - |gate|] && locks[j] in listing;
      ListingAsks(c, x, locks[j]);
      if i >= |gate| {
        assert locks[i] == listing[i - |gate|] && locks[i] in listing;
        ListingAsks(c, x, locks[i]);
      }
    } else {
      assert locks[j] == Beyond(x)[j - |gate| - |listing|] && locks[j] in Beyond(x);
      BeyondAsks(c, x, locks[j]);
    }
  }

  lemma BeyondAsks(c: Catalog, x: Txn, l: Lock)
    requires Sound(c, x) && x.Deletion? && l in Beyond(x)
    ensures l.Rel? || (l.Mem? && !x.Lists(l.id))
  {
    MemsAsked(x.partners, l);
    MemsAsked(x.pointers, l);
    RelsAsked(x.lifted, l);
    RelsAsked(x.erased, l);
  }

  predicate ReplacedBy(c: Catalog, m: MemId, n: MemId) { m in c.replacedBy && c.replacedBy[m] == n }

  /** Nobody is replaced, over however many steps, by themselves. */
  lemma PointersNeverReturn(c: Catalog, path: seq<MemId>)
    requires c.Valid() && |path| >= 2
    requires forall i, j | 0 <= i < |path| && 0 <= j < |path| && j == i + 1 :: ReplacedBy(c, path[i], path[j])
    ensures path[0] != path[|path| - 1]
  {
    var rank :| Climbs(c.replacedBy, rank);
    RanksClimb(c, rank, path);
  }

  lemma {:induction false} RanksClimb(c: Catalog, rank: map<MemId, nat>, path: seq<MemId>)
    requires Climbs(c.replacedBy, rank) && |path| >= 2
    requires forall i, j | 0 <= i < |path| && 0 <= j < |path| && j == i + 1 :: ReplacedBy(c, path[i], path[j])
    ensures path[0] in rank && path[|path| - 1] in rank && rank[path[0]] < rank[path[|path| - 1]]
    decreases |path|
  {
    var n := |path| - 1;
    assert ReplacedBy(c, path[n - 1], path[n]);
    if n > 1 { RanksClimb(c, rank, path[..n]); }
  }
}
