/**
 * Waiting in cycles, over every lock that the transactions on memories take: the run
 * lock and the row of a source, memory rows and relation rows.
 *
 * A transaction is the list of the locks it asks for, in order; it holds a prefix of
 * the list and waits while the next request clashes with what another one holds. Any
 * transaction may end at any point, by committing or by aborting, and start again.
 * What a transaction finds in the tables, hence which rows it locks and in what order,
 * is a parameter of that transaction alone, so that transactions in flight may have
 * read different states of the database.
 */
module LockOrder {
  import opened Common

  type Tx = nat
  type SourceId = nat
  type MemId = nat
  type RelId = nat

  datatype Lock = Run(src: SourceId) | Row(src: SourceId) | Mem(id: MemId) | Rel(rel: RelId)

  /** Only the admission checkpoint's key-share lock is `shared`. */
  datatype Request = Request(lock: Lock, shared: bool)

  type Script = seq<Request>

  predicate Conflict(p: Request, q: Request) { p.lock == q.lock && !(p.shared && q.shared) }

  /** The request clashes with one of the first `n` of the script. */
  predicate Clashes(p: Request, s: Script, n: nat)
    requires n <= |s|
  {
    exists k | 0 <= k < n :: Conflict(p, s[k])
  }

  // -------------------------------------------------------------------- the machine

  datatype Step = Acquire(t: Tx) | End(t: Tx)

  /** How many locks of its script each transaction holds. */
  predicate Fits(f: map<Tx, Script>, at: map<Tx, nat>) {
    at.Keys == f.Keys && forall t | t in f :: at[t] <= |f[t]|
  }

  function Start(f: map<Tx, Script>): map<Tx, nat> { map t | t in f :: 0 }

  predicate Enabled(f: map<Tx, Script>, at: map<Tx, nat>, st: Step) {
    && Fits(f, at)
    && match st
       case Acquire(t) =>
         && t in f && at[t] < |f[t]|
         && forall u | u in f && u != t :: !Clashes(f[t][at[t]], f[u], at[u])
       case End(t) => t in f
  }

  function Apply(f: map<Tx, Script>, at: map<Tx, nat>, st: Step): map<Tx, nat>
    requires Enabled(f, at, st)
  {
    match st
    case Acquire(t) => at[t := at[t] + 1]
    case End(t) => at[t := 0]
  }

  predicate Legal(f: map<Tx, Script>, at: map<Tx, nat>, steps: seq<Step>)
    decreases |steps|
  {
    steps == [] || (Enabled(f, at, steps[0]) && Legal(f, Apply(f, at, steps[0]), steps[1..]))
  }

  function After(f: map<Tx, Script>, at: map<Tx, nat>, steps: seq<Step>): map<Tx, nat>
    requires Legal(f, at, steps)
    decreases |steps|
  {
    if steps == [] then at else After(f, Apply(f, at, steps[0]), steps[1..])
  }

  ghost predicate Reachable(f: map<Tx, Script>, at: map<Tx, nat>) {
    exists steps :: Legal(f, Start(f), steps) && After(f, Start(f), steps) == at
  }

  /** A transaction may ask for its next lock exactly when no other holds that lock, or all who do share it with it. */
  lemma MayLockExactly(f: map<Tx, Script>, at: map<Tx, nat>, t: Tx)
    requires Fits(f, at) && t in f
    ensures Enabled(f, at, Acquire(t)) <==>
      at[t] < |f[t]| && forall u, k: nat | u in f && u != t && k < at[u] && f[u][k].lock == f[t][at[t]].lock ::
        f[u][k].shared && f[t][at[t]].shared
  {
    if at[t] < |f[t]| && !Enabled(f, at, Acquire(t)) {
      var u :| u in f && u != t && Clashes(f[t][at[t]], f[u], at[u]);
      var k: nat :| k < at[u] && Conflict(f[t][at[t]], f[u][k]);
      assert f[u][k].lock == f[t][at[t]].lock;
    }
  }

  /** It then holds one lock more; at its end it holds none; nobody else's locks change. */
  lemma WhatIsHeld(f: map<Tx, Script>, at: map<Tx, nat>, st: Step)
    requires Enabled(f, at, st)
    ensures
      var at' := Apply(f, at, st);
      && Fits(f, at') && at'[st.t] == (if st.End? then 0 else at[st.t] + 1)
      && forall u | u in f && u != st.t :: at'[u] == at[u]
  {
  }

  /** Transaction `t` is blocked on a lock that `u` holds. */
  predicate Waits(f: map<Tx, Script>, at: map<Tx, nat>, t: Tx, u: Tx) {
    && Fits(f, at) && t in f && u in f && t != u
    && at[t] < |f[t]| && Clashes(f[t][at[t]], f[u], at[u])
  }

  predicate WaitsFor(f: map<Tx, Script>, at: map<Tx, nat>, t: Tx, some: set<Tx>) {
    exists u | u in some :: Waits(f, at, t, u)
  }

  /** Each of these transactions waits for another one of them. */
  predicate Knot(f: map<Tx, Script>, at: map<Tx, nat>, knot: set<Tx>) {
    knot != {} && forall t {:trigger WaitsFor(f, at, t, knot)} | t in knot :: WaitsFor(f, at, t, knot)
  }

  ghost predicate CanDeadlock(f: map<Tx, Script>) {
    exists at, knot :: Reachable(f, at) && Knot(f, at, knot)
  }

  // --------------------------------------------------- reachable is pairwise compatible

  /** The first `m` requests of one script and the first `n` of another do not clash. */
  predicate Apart(a: Script, m: nat, b: Script, n: nat)
    requires m <= |a| && n <= |b|
  {
    forall i, j | 0 <= i < m && 0 <= j < n :: !Conflict(a[i], b[j])
  }

  /** No two transactions hold clashing locks. */
  predicate Compatible(f: map<Tx, Script>, at: map<Tx, nat>) {
    Fits(f, at) && forall t, u | t in f && u in f && t != u :: Apart(f[t], at[t], f[u], at[u])
  }

  lemma ApartSnoc(a: Script, m: nat, b: Script, n: nat)
    requires m < |a| && n <= |b| && Apart(a, m, b, n) && !Clashes(a[m], b, n)
    ensures Apart(a, m + 1, b, n) && Apart(b, n, a, m + 1)
  {
  }

  lemma StepKeepsCompatible(f: map<Tx, Script>, at: map<Tx, nat>, st: Step)
    requires Compatible(f, at) && Enabled(f, at, st)
    ensures Compatible(f, Apply(f, at, st))
  {
    var t, at' := st.t, Apply(f, at, st);
    forall u | u in f && u != t
      ensures Apart(f[t], at'[t], f[u], at'[u]) && Apart(f[u], at'[u], f[t], at'[t])
    {
      assert Apart(f[t], at[t], f[u], at[u]);
      if st.Acquire? { ApartSnoc(f[t], at[t], f[u], at[u]); }
    }
  }

  lemma {:induction false} RunKeepsCompatible(f: map<Tx, Script>, at: map<Tx, nat>, steps: seq<Step>)
    requires Compatible(f, at) && Legal(f, at, steps)
    ensures Compatible(f, After(f, at, steps))
    decreases |steps|
  {
    if steps != [] {
      StepKeepsCompatible(f, at, steps[0]);
      RunKeepsCompatible(f, Apply(f, at, steps[0]), steps[1..]);
    }
  }

  lemma {:induction false} LegalSnoc(f: map<Tx, Script>, at: map<Tx, nat>, steps: seq<Step>, st: Step)
    requires Legal(f, at, steps) && Enabled(f, After(f, at, steps), st)
    ensures Legal(f, at, steps + [st])
    ensures After(f, at, steps + [st]) == Apply(f, After(f, at, steps), st)
    decreases |steps|
  {
    var all := steps + [st];
    if steps == [] {
      assert all[0] == st && all[1..] == [];
    } else {
      assert all[0] == steps[0] && all[1..] == steps[1..] + [st];
      LegalSnoc(f, Apply(f, at, steps[0]), steps[1..], st);
    }
  }

  lemma ReachableStep(f: map<Tx, Script>, at: map<Tx, nat>, st: Step)
    requires Reachable(f, at) && Enabled(f, at, st)
    ensures Reachable(f, Apply(f, at, st))
  {
    var steps :| Legal(f, Start(f), steps) && After(f, Start(f), steps) == at;
    LegalSnoc(f, Start(f), steps, st);
  }

  /** Undoing the last lock of compatible positions leaves compatible positions from which it can be taken. */
  lemma OneLess(f: map<Tx, Script>, at: map<Tx, nat>, t: Tx)
    requires Compatible(f, at) && t in f && at[t] > 0
    ensures
      var before := at[t := at[t] - 1];
      Compatible(f, before) && Enabled(f, before, Acquire(t)) && Apply(f, before, Acquire(t)) == at
  {
    var before := at[t := at[t] - 1];
    forall u | u in f && u != t ensures !Clashes(f[t][before[t]], f[u], before[u]) {
      assert Apart(f[t], at[t], f[u], at[u]);
    }
    forall u, v | u in f && v in f && u != v ensures Apart(f[u], before[u], f[v], before[v]) {
      assert Apart(f[u], at[u], f[v], at[v]);
    }
    assert before[t := before[t] + 1] == at;
  }

  /** The transactions in `todo` reach their positions one after another; `t` is the one at work. */
  lemma {:induction false} InTurn(f: map<Tx, Script>, at: map<Tx, nat>, todo: set<Tx>, t: Tx)
    requires Compatible(f, at) && t in f && (forall u | u in f && u !in todo && u != t :: at[u] == 0)
    ensures Reachable(f, at)
    decreases todo, at[t]
  {
    if at[t] > 0 {
      OneLess(f, at, t);
      InTurn(f, at[t := at[t] - 1], todo, t);
      ReachableStep(f, at[t := at[t] - 1], Acquire(t));
    } else if u :| u in todo && u in f {
      InTurn(f, at, todo - {u}, u);
    } else {
      assert at == Start(f);
      assert Legal(f, at, []) && After(f, at, []) == at;
    }
  }

  /** Runs reach exactly the positions in which no two transactions hold clashing locks. */
  lemma ReachableExactly(f: map<Tx, Script>, at: map<Tx, nat>)
    ensures Reachable(f, at) <==> Compatible(f, at)
  {
    if Reachable(f, at) {
      var steps :| Legal(f, Start(f), steps) && After(f, Start(f), steps) == at;
      RunKeepsCompatible(f, Start(f), steps);
    }
    if Compatible(f, at) {
      if t :| t in f {
        InTurn(f, at, f.Keys, t);
      } else {
        assert at == Start(f) && Legal(f, at, []) && After(f, at, []) == at;
      }
    }
  }

  // --------------------------------------------------------------- two transactions

  /** Where `s` first asks for something that clashes with the first `n` requests of `t`; else its length. */
  function First(s: Script, t: Script, n: nat): (i: nat)
    requires n <= |t|
    ensures i <= |s| && forall k | 0 <= k < i :: !Clashes(s[k], t, n)
    ensures i < |s| ==> Clashes(s[i], t, n)
  {
    if s == [] || Clashes(s[0], t, n) then 0 else 1 + First(s[1..], t, n)
  }

  /** A transaction asks for each lock in one mode. */
  predicate Steady(s: Script) { forall i, j | 0 <= i < j < |s| && s[i].lock == s[j].lock :: s[i] == s[j] }

  /** The first locks over which the two compete are different ones. */
  predicate DifferentGates(s: Script, t: Script) {
    var i, j := First(s, t, |t|), First(t, s, |s|);
    i < |s| && j < |t| && s[i].lock != t[j].lock
  }

  /** Both wait: `s` holds `p` locks, `t` holds `q`, and each next request clashes with the other's. */
  predicate Crossed(s: Script, t: Script, p: nat, q: nat) {
    && p < |s| && q < |t| && Apart(s, p, t, q)
    && Clashes(s[p], t, q) && Clashes(t[q], s, p)
  }

  lemma GatesCross(s: Script, t: Script) returns (p: nat, q: nat)
    requires DifferentGates(s, t)
    ensures Crossed(s, t, p, q)
  {
    var i, j := First(s, t, |t|), First(t, s, |s|);
    p := First(s, [t[j]], 1);
    var r :| 0 <= r < |s| && Conflict(t[j], s[r]);
    assert Conflict(s[r], [t[j]][0]);
    assert Conflict(s[p], t[j]) && p > i;
    q := First(t, s, p);
    var k :| 0 <= k < |t| && Conflict(s[i], t[k]);
    assert Conflict(t[k], s[i]) && Clashes(t[k], s, p);
    assert q < |t| && Clashes(t[q], s, |s|) && q >= j;
    assert !Clashes(t[j], s, p) by {
      forall x | 0 <= x < p ensures !Conflict(t[j], s[x]) { assert !Conflict(s[x], [t[j]][0]); }
    }
    forall x, y | 0 <= x < p && 0 <= y < q ensures !Conflict(s[x], t[y]) {
      assert !Clashes(t[y], s, p) && !Conflict(t[y], s[x]);
    }
  }

  lemma CrossedMeansGates(s: Script, t: Script, p: nat, q: nat)
    requires Steady(t) && Crossed(s, t, p, q)
    ensures DifferentGates(s, t)
  {
    var i, j := First(s, t, |t|), First(t, s, |s|);
    var y :| 0 <= y < q && Conflict(s[p], t[y]);
    var x :| 0 <= x < p && Conflict(t[q], s[x]);
    assert Conflict(t[y], s[p]) && Conflict(s[x], t[q]);
    assert Clashes(t[y], s, |s|) && Clashes(s[x], t, |t|);
    assert i < p && j < q && !Conflict(s[i], t[j]);
    var k :| 0 <= k < |t| && Conflict(s[i], t[k]);
  }

  lemma CrossedDeadlock(f: map<Tx, Script>, a: Tx, b: Tx, p: nat, q: nat)
    requires a != b && f.Keys == {a, b} && Crossed(f[a], f[b], p, q)
    ensures CanDeadlock(f)
  {
    var at := map[a := p, b := q];
    assert Apart(f[b], q, f[a], p);
    assert Compatible(f, at);
    ReachableExactly(f, at);
    assert Waits(f, at, a, b) && Waits(f, at, b, a);
    assert WaitsFor(f, at, a, {a, b}) && WaitsFor(f, at, b, {a, b});
    assert Knot(f, at, {a, b});
  }

  lemma KnotOfTwo(f: map<Tx, Script>, at: map<Tx, nat>, knot: set<Tx>, a: Tx, b: Tx)
    requires a != b && f.Keys == {a, b} && Knot(f, at, knot)
    ensures Waits(f, at, a, b) && Waits(f, at, b, a)
  {
    var t: Tx :| t in knot;
    assert WaitsFor(f, at, t, knot);
    var u: Tx :| u in knot && Waits(f, at, t, u);
    assert WaitsFor(f, at, u, knot);
    var v: Tx :| v in knot && Waits(f, at, u, v);
  }

  lemma DeadlockCrosses(f: map<Tx, Script>, a: Tx, b: Tx) returns (p: nat, q: nat)
    requires a != b && f.Keys == {a, b} && CanDeadlock(f)
    ensures Crossed(f[a], f[b], p, q)
  {
    var at: map<Tx, nat>, knot: set<Tx> :| Reachable(f, at) && Knot(f, at, knot);
    ReachableExactly(f, at);
    KnotOfTwo(f, at, knot, a, b);
    p, q := at[a], at[b];
  }

  /** Two transactions can wait for each other if and only if the first locks they compete for differ. */
  lemma PairExactly(f: map<Tx, Script>, a: Tx, b: Tx)
    requires a != b && f.Keys == {a, b} && Steady(f[a]) && Steady(f[b])
    ensures CanDeadlock(f) <==> DifferentGates(f[a], f[b])
  {
    if DifferentGates(f[a], f[b]) {
      var p, q := GatesCross(f[a], f[b]);
      CrossedDeadlock(f, a, b, p, q);
    }
    if CanDeadlock(f) {
      var p, q := DeadlockCrosses(f, a, b);
      CrossedMeansGates(f[a], f[b], p, q);
    }
  }
}
