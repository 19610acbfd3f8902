/** The difference between two snapshots of a subject, with supersession followed forward. */
module Timeline {
  import opened Common

  type Id = string

  /** A fact of a snapshot; `rest` stands for everything the diff does not look at. */
  datatype Fact = Fact(id: Id, supersededBy: Option<Id>, rest: string)

  datatype Change = Change(before: Fact, after: Fact)

  datatype Diff = Diff(added: seq<Fact>, changed: seq<Change>, removed: seq<Fact>, kept: seq<Fact>)

  predicate UniqueIds(facts: seq<Fact>) { forall i, j | 0 <= i < j < |facts| :: facts[i].id != facts[j].id }

  function Ids(facts: seq<Fact>): set<Id> { set f | f in facts :: f.id }

  function ById(facts: seq<Fact>): (m: map<Id, Fact>)
    ensures m.Keys == Ids(facts) && forall id | id in m :: m[id] in facts && m[id].id == id
  {
    if facts == [] then map[]
    else
      var n := |facts| - 1;
      assert facts == facts[..n] + [facts[n]];
      ById(facts[..n])[facts[n].id := facts[n]]
  }

  /** Both snapshots together; the later one wins. */
  function Visible(from: seq<Fact>, to: seq<Fact>): map<Id, Fact> { ById(from) + ById(to) }

  /** A pointer that leads somewhere: absent and empty ones do not. */
  predicate Leads(pointer: Option<Id>) { pointer.Some? && pointer.value != "" }

  /** One hop across a visible fact. */
  function Hop(visible: map<Id, Fact>, pointer: Option<Id>): Option<Id> {
    if Leads(pointer) && pointer.value in visible then visible[pointer.value].supersededBy else None
  }

  /** The pointer after `k` hops. */
  function Nth(visible: map<Id, Fact>, pointer: Option<Id>, k: nat): Option<Id> {
    if k == 0 then pointer else Hop(visible, Nth(visible, pointer, k - 1))
  }

  predicate Arrives(visible: map<Id, Fact>, toIds: set<Id>, pointer: Option<Id>, k: nat) {
    Leads(Nth(visible, pointer, k)) && Nth(visible, pointer, k).value in toIds
  }

  /**
   * `r` is the first fact of `toIds` on the chain from `pointer`; None exactly when no
   * number of hops arrives at one.
   */
  ghost predicate IsSuccessor(visible: map<Id, Fact>, toIds: set<Id>, pointer: Option<Id>, r: Option<Id>) {
    match r
    case Some(id) =>
      exists k: nat ::
        && Arrives(visible, toIds, pointer, k) && Nth(visible, pointer, k) == Some(id)
        && forall j: nat | j < k :: !Arrives(visible, toIds, pointer, j)
    case None => forall k: nat :: !Arrives(visible, toIds, pointer, k)
  }

  lemma SuccessorIsUnique(visible: map<Id, Fact>, toIds: set<Id>, pointer: Option<Id>, r: Option<Id>, q: Option<Id>)
    requires IsSuccessor(visible, toIds, pointer, r) && IsSuccessor(visible, toIds, pointer, q)
    ensures r == q
  {
    if r.Some? && q.Some? {
      var k: nat :| Arrives(visible, toIds, pointer, k) && Nth(visible, pointer, k) == r
                    && forall j: nat | j < k :: !Arrives(visible, toIds, pointer, j);
      var l: nat :| Arrives(visible, toIds, pointer, l) && Nth(visible, pointer, l) == q
                    && forall j: nat | j < l :: !Arrives(visible, toIds, pointer, j);
      assert !(k < l) && !(l < k);
    }
  }

  /** A set that no hop leaves. */
  predicate Trapped(visible: map<Id, Fact>, s: set<Id>) {
    forall id | id in s && id in visible && Leads(visible[id].supersededBy) :: visible[id].supersededBy.value in s
  }

  lemma {:induction false} TrappedForever(visible: map<Id, Fact>, s: set<Id>, pointer: Option<Id>, k: nat)
    requires Trapped(visible, s) && (Leads(pointer) ==> pointer.value in s)
    ensures Leads(Nth(visible, pointer, k)) ==> Nth(visible, pointer, k).value in s
    decreases k
  {
    if k > 0 { TrappedForever(visible, s, pointer, k - 1); }
  }

  /** The walk ends on cyclic pointers too: a pointer seen before can only lead round again. */
  method SuccessorAtTo(visible: map<Id, Fact>, toById: map<Id, Fact>, start: Fact) returns (r: Option<Fact>)
    requires start.id in visible && visible[start.id] == start && start.id !in toById
    requires forall id | id in toById :: toById[id].id == id
    ensures IsSuccessor(visible, toById.Keys, start.supersededBy, if r.Some? then Some(r.value.id) else None)
    ensures r.Some? ==> r.value.id in toById && toById[r.value.id] == r.value
  {
    var seen := {start.id};
    var pointer := start.supersededBy;
    ghost var k: nat := 0;
    while Leads(pointer) && pointer.value !in seen
      invariant pointer == Nth(visible, start.supersededBy, k)
      invariant start.id in seen && seen !! toById.Keys
      invariant forall j: nat | j < k :: !Arrives(visible, toById.Keys, start.supersededBy, j)
      invariant forall id | id in seen && id in visible && Leads(visible[id].supersededBy) ::
        visible[id].supersededBy.value in seen || visible[id].supersededBy == pointer
      invariant Leads(start.supersededBy) ==> start.supersededBy.value in seen || start.supersededBy == pointer
      decreases visible.Keys - seen, Leads(pointer)
    {
      seen := seen + {pointer.value};
      if pointer.value in toById {
        assert Arrives(visible, toById.Keys, start.supersededBy, k);
        return Some(toById[pointer.value]);
      }
      pointer := Hop(visible, pointer);
      k := k + 1;
    }
    forall j: nat ensures !Arrives(visible, toById.Keys, start.supersededBy, j) {
      TrappedForever(visible, seen, start.supersededBy, j);
    }
    r := None;
  }

  // --------------------------------------------------------------------- the diff

  function Befores(changed: seq<Change>): seq<Fact> {
    if changed == [] then [] else Befores(changed[..|changed| - 1]) + [changed[|changed| - 1].before]
  }

  function Holding(facts: seq<Fact>, ids: set<Id>): seq<Fact> { Select(facts, (f: Fact) => f.id in ids) }

  lemma HoldingGrows(facts: seq<Fact>, ids: set<Id>, f: Fact)
    ensures Holding(facts + [f], ids) == Holding(facts, ids) + if f.id in ids then [f] else []
  {
    assert (facts + [f])[..|facts|] == facts;
  }

  /** What a change or a removal claims about a fact that no longer holds. */
  ghost predicate Became(from: seq<Fact>, to: seq<Fact>, before: Fact, r: Option<Id>) {
    before in from && before.id !in Ids(to) && IsSuccessor(Visible(from, to), Ids(to), before.supersededBy, r)
  }

  ghost predicate ChangeIsHonest(from: seq<Fact>, to: seq<Fact>, c: Change) {
    c.after in to && Became(from, to, c.before, Some(c.after.id))
  }

  lemma OutcomesAgree(from: seq<Fact>, to: seq<Fact>, before: Fact, r: Option<Id>, q: Option<Id>)
    requires Became(from, to, before, r) && Became(from, to, before, q)
    ensures r == q
  {
    SuccessorIsUnique(Visible(from, to), Ids(to), before.supersededBy, r, q);
  }

  lemma {:induction false} ByIdOf(facts: seq<Fact>, f: Fact)
    requires UniqueIds(facts) && f in facts
    ensures f.id in ById(facts) && ById(facts)[f.id] == f
  {
    var n := |facts| - 1;
    if f != facts[n] {
      var i :| 0 <= i < |facts| && facts[i] == f;
      assert facts[..n][i] == f;
      ByIdOf(facts[..n], f);
    }
  }

  /** The three lists hold exactly `facts`, each as often. */
  predicate Accounts(facts: seq<Fact>, kept: seq<Fact>, changed: seq<Change>, removed: seq<Fact>) {
    multiset(facts) == multiset(kept) + multiset(Befores(changed)) + multiset(removed)
  }

  lemma AccountsForOneMore(facts: seq<Fact>, f: Fact, kept: seq<Fact>, changed: seq<Change>, removed: seq<Fact>,
                           after: Fact)
    requires Accounts(facts, kept, changed, removed)
    ensures Accounts(facts + [f], kept + [f], changed, removed)
    ensures Accounts(facts + [f], kept, changed + [Change(f, after)], removed)
    ensures Accounts(facts + [f], kept, changed, removed + [f])
  {
    assert (changed + [Change(f, after)])[..|changed|] == changed;
  }

  /** What became of a fact that no longer holds: a change, or nothing visible. */
  method Fate(from: seq<Fact>, to: seq<Fact>, visible: map<Id, Fact>, toById: map<Id, Fact>, memory: Fact)
    returns (after: Option<Fact>)
    requires UniqueIds(from) && memory in from && memory.id !in Ids(to)
    requires visible == Visible(from, to) && toById == ById(to)
    ensures after.Some? ==> ChangeIsHonest(from, to, Change(memory, after.value))
    ensures after.None? ==> Became(from, to, memory, None)
  {
    ByIdOf(from, memory);
    after := SuccessorAtTo(visible, toById, memory);
  }

  /** The first `n` earlier facts are sorted out: kept, changed or removed. */
  ghost predicate SortedOut(from: seq<Fact>, to: seq<Fact>, n: nat, changed: seq<Change>, removed: seq<Fact>,
                            kept: seq<Fact>)
    requires n <= |from|
  {
    && (forall c | c in changed :: ChangeIsHonest(from, to, c))
    && (forall f | f in removed :: Became(from, to, f, None))
    && kept == Holding(from[..n], Ids(to)) && Accounts(from[..n], kept, changed, removed)
  }

  lemma NothingSorted(from: seq<Fact>, to: seq<Fact>)
    ensures SortedOut(from, to, 0, [], [], [])
  {
    assert from[..0] == [];
  }

  lemma OneMoreSorted(from: seq<Fact>, to: seq<Fact>, n: nat, changed: seq<Change>, removed: seq<Fact>,
                      kept: seq<Fact>, after: Option<Fact>)
    requires n < |from| && SortedOut(from, to, n, changed, removed, kept)
    requires from[n].id !in Ids(to) ==>
      if after.Some? then ChangeIsHonest(from, to, Change(from[n], after.value)) else Became(from, to, from[n], None)
    ensures
      if from[n].id in Ids(to) then SortedOut(from, to, n + 1, changed, removed, kept + [from[n]])
      else if after.Some? then SortedOut(from, to, n + 1, changed + [Change(from[n], after.value)], removed, kept)
      else SortedOut(from, to, n + 1, changed, removed + [from[n]], kept)
  {
    PrefixGrows(from, n);
    HoldingGrows(from[..n], Ids(to), from[n]);
    AccountsForOneMore(from[..n], from[n], kept, changed, removed, if after.Some? then after.value else from[n]);
  }

  /** The earlier facts: those that still hold, those that changed, those that dropped out. */
  method SortOut(from: seq<Fact>, to: seq<Fact>) returns (changed: seq<Change>, removed: seq<Fact>, kept: seq<Fact>)
    requires UniqueIds(from)
    ensures SortedOut(from, to, |from|, changed, removed, kept)
  {
    var toById, visible, toIds := ById(to), Visible(from, to), Ids(to);
    changed, removed, kept := [], [], [];
    NothingSorted(from, to);
    for i := 0 to |from|
      invariant SortedOut(from, to, i, changed, removed, kept)
    {
      var memory := from[i];
      if memory.id in toIds {
        OneMoreSorted(from, to, i, changed, removed, kept, None);
        kept := kept + [memory];
      } else {
        var after := Fate(from, to, visible, toById, memory);
        OneMoreSorted(from, to, i, changed, removed, kept, after);
        if after.Some? {
          changed := changed + [Change(memory, after.value)];
        } else {
          removed := removed + [memory];
        }
      }
    }
  }

  /**
   * The diff accounts for every fact. The earlier snapshot splits into kept, changed
   * and removed facts, each once; a change names the first later fact its chain
   * reaches, a removal reaches none; every later fact is kept, added or a change's
   * outcome, and an added one is neither of the other two.
   */
  method ComputeTimelineDiff(from: seq<Fact>, to: seq<Fact>) returns (d: Diff)
    requires UniqueIds(from) && UniqueIds(to)
    ensures Accounts(from, d.kept, d.changed, d.removed)
    ensures forall c | c in d.changed :: ChangeIsHonest(from, to, c)
    ensures forall f | f in d.removed :: Became(from, to, f, None)
    ensures forall f :: f in d.kept <==> f in from && f.id in Ids(to)
    ensures forall f :: f in d.added <==>
      f in to && f.id !in Ids(from) && forall c | c in d.changed :: c.after.id != f.id
    ensures forall c, f | c in d.changed && f in d.removed :: c.before != f
    ensures forall c, e | c in d.changed && e in d.changed && c.before == e.before :: c == e
    ensures forall f | f in to :: f.id in Ids(d.kept) || f in d.added || exists c | c in d.changed :: c.after == f
  {
    var changed, removed, kept := SortOut(from, to);
    assert from[..|from|] == from;
    var fromIds, changedAfterIds := Ids(from), set c | c in changed :: c.after.id;
    var added := Select(to, (f: Fact) => f.id !in fromIds && f.id !in changedAfterIds);
    d := Diff(added, changed, removed, kept);
    forall c, f | c in changed && f in removed ensures c.before != f {
      if c.before == f { OutcomesAgree(from, to, f, Some(c.after.id), None); }
    }
    forall c, e | c in changed && e in changed && c.before == e.before ensures c == e {
      OutcomesAgree(from, to, c.before, Some(c.after.id), Some(e.after.id));
      ByIdOf(to, c.after);
      ByIdOf(to, e.after);
    }
    forall f | f in to ensures f.id in Ids(kept) || f in added || exists c | c in changed :: c.after == f {
      if f.id in changedAfterIds {
        var c :| c in changed && c.after.id == f.id;
        assert ChangeIsHonest(from, to, c);
        ByIdOf(to, f);
        ByIdOf(to, c.after);
      } else if f.id in fromIds {
        var g :| g in from && g.id == f.id;
        assert g in kept;
      }
    }
  }

  // ------------------------------------------------------------------ chains of facts

  /** No id occurs twice: none in no facts, and one more fact must bring a new id. */
  lemma UniqueIdsSpec(facts: seq<Fact>, f: Fact)
    ensures UniqueIds([]) && (UniqueIds(facts + [f]) <==> UniqueIds(facts) && f.id !in Ids(facts))
  {
    var all := facts + [f];
    if UniqueIds(all) {
      forall i, j | 0 <= i < j < |facts| ensures facts[i].id != facts[j].id { assert all[i].id != all[j].id; }
      forall g | g in facts ensures g.id != f.id {
        var i :| 0 <= i < |facts| && facts[i] == g;
        assert all[i].id != all[|facts|].id;
      }
    }
  }

  predicate Names(f: Fact, next: Fact) { f.supersededBy == Some(next.id) && next.id != "" }

  /** Each fact names the next one as its successor. */
  predicate Linked(path: seq<Fact>) {
    forall i, j | 0 <= i < |path| && 0 <= j < |path| && j == i + 1 :: Names(path[i], path[j])
  }

  /** An earlier fact that no longer holds. */
  predicate Past(from: seq<Fact>, to: seq<Fact>, f: Fact) { f in from && f.id !in Ids(to) }

  /** A chain of successors, of which all but the last no longer hold and the last one does. */
  ghost predicate Chain(from: seq<Fact>, to: seq<Fact>, before: Fact, path: seq<Fact>) {
    && |path| >= 2 && path[0] == before && path[|path| - 1] in to && Linked(path)
    && forall i | 0 <= i < |path| - 1 :: Past(from, to, path[i])
  }

  lemma LinkedGrows(path: seq<Fact>, f: Fact)
    requires path != [] && Linked(path) && Names(path[|path| - 1], f)
    ensures Linked(path + [f])
  {
  }

  predicate Shows(visible: map<Id, Fact>, f: Fact) { f.id in visible && visible[f.id] == f }

  lemma EarlierIsVisible(from: seq<Fact>, to: seq<Fact>, f: Fact)
    requires UniqueIds(from) && f in from && f.id !in Ids(to)
    ensures Shows(Visible(from, to), f)
  {
    ByIdOf(from, f);
  }

  lemma {:induction false} NthOnPath(visible: map<Id, Fact>, path: seq<Fact>, k: nat)
    requires |path| >= 2 && Linked(path) && k < |path| - 1
    requires forall i | 0 <= i < |path| - 1 :: Shows(visible, path[i])
    ensures Nth(visible, path[0].supersededBy, k) == Some(path[k + 1].id)
    decreases k
  {
    assert Names(path[k], path[k + 1]);
    if k > 0 {
      NthOnPath(visible, path, k - 1);
      assert Names(path[k - 1], path[k]) && Shows(visible, path[k]);
    }
  }

  lemma NthOnChain(from: seq<Fact>, to: seq<Fact>, before: Fact, path: seq<Fact>, k: nat)
    requires UniqueIds(from) && Chain(from, to, before, path) && k < |path| - 1
    ensures Nth(Visible(from, to), before.supersededBy, k) == Some(path[k + 1].id)
  {
    forall i | 0 <= i < |path| - 1 ensures Shows(Visible(from, to), path[i]) {
      assert Past(from, to, path[i]);
      EarlierIsVisible(from, to, path[i]);
    }
    NthOnPath(Visible(from, to), path, k);
  }

  lemma ChainArrives(from: seq<Fact>, to: seq<Fact>, before: Fact, path: seq<Fact>)
    requires UniqueIds(from) && Chain(from, to, before, path)
    ensures Became(from, to, before, Some(path[|path| - 1].id))
  {
    var n := |path| - 2;
    assert path[0] == before;
    forall j: nat | j <= n ensures Nth(Visible(from, to), before.supersededBy, j) == Some(path[j + 1].id) {
      NthOnChain(from, to, before, path, j);
    }
    assert Names(path[n], path[n + 1]);
    assert Arrives(Visible(from, to), Ids(to), before.supersededBy, n);
    forall j: nat | j < n ensures !Arrives(Visible(from, to), Ids(to), before.supersededBy, j) {
      assert Past(from, to, path[j + 1]);
    }
  }

  /** The facts met on the first `k` hops, none of which holds later. */
  lemma {:induction false} FactsMet(from: seq<Fact>, to: seq<Fact>, before: Fact, k: nat) returns (path: seq<Fact>)
    requires before in from && before.id !in Ids(to) && Leads(Nth(Visible(from, to), before.supersededBy, k))
    requires forall j: nat | j < k :: !Arrives(Visible(from, to), Ids(to), before.supersededBy, j)
    ensures |path| == k + 1 && path[0] == before
    ensures path[k].supersededBy == Nth(Visible(from, to), before.supersededBy, k)
    ensures Linked(path) && forall i | 0 <= i <= k :: Past(from, to, path[i])
    decreases k
  {
    if k == 0 { return [before]; }
    var visible, pointer := Visible(from, to), Nth(Visible(from, to), before.supersededBy, k - 1);
    assert Leads(pointer) && pointer.value in visible;
    var met := FactsMet(from, to, before, k - 1);
    assert !Arrives(visible, Ids(to), before.supersededBy, k - 1);
    LinkedGrows(met, visible[pointer.value]);
    path := met + [visible[pointer.value]];
  }

  lemma ArrivalHasChain(from: seq<Fact>, to: seq<Fact>, before: Fact, k: nat) returns (path: seq<Fact>)
    requires before in from && before.id !in Ids(to) && Arrives(Visible(from, to), Ids(to), before.supersededBy, k)
    requires forall j: nat | j < k :: !Arrives(Visible(from, to), Ids(to), before.supersededBy, j)
    ensures Chain(from, to, before, path)
    ensures Some(path[|path| - 1].id) == Nth(Visible(from, to), before.supersededBy, k)
  {
    var met := FactsMet(from, to, before, k);
    var last :| last in to && Some(last.id) == met[k].supersededBy;
    LinkedGrows(met, last);
    path := met + [last];
  }

  lemma {:induction false} FirstArrival(visible: map<Id, Fact>, toIds: set<Id>, pointer: Option<Id>, k: nat)
    returns (first: nat)
    requires Arrives(visible, toIds, pointer, k)
    ensures Arrives(visible, toIds, pointer, first) && forall j: nat | j < first :: !Arrives(visible, toIds, pointer, j)
    decreases k
  {
    if j: nat :| j < k && Arrives(visible, toIds, pointer, j) {
      first := FirstArrival(visible, toIds, pointer, j);
    } else {
      first := k;
    }
  }

  /**
   * What a change and a removal claim, on the facts alone: a fact changed into the later
   * one that a chain of successors leads to, and was removed when no chain leads to any.
   */
  lemma OutcomeIsAChain(from: seq<Fact>, to: seq<Fact>, before: Fact, r: Option<Id>)
    requires UniqueIds(from) && before in from && before.id !in Ids(to)
    ensures Became(from, to, before, r) <==>
      match r
      case Some(id) => exists path: seq<Fact> :: Chain(from, to, before, path) && path[|path| - 1].id == id
      case None => forall path: seq<Fact> :: !Chain(from, to, before, path)
  {
    var visible, toIds, pointer := Visible(from, to), Ids(to), before.supersededBy;
    if k: nat :| Arrives(visible, toIds, pointer, k) {
      var first := FirstArrival(visible, toIds, pointer, k);
      var path := ArrivalHasChain(from, to, before, first);
      ChainArrives(from, to, before, path);
      forall other: seq<Fact> | Chain(from, to, before, other) ensures path[|path| - 1].id == other[|other| - 1].id {
        ChainArrives(from, to, before, other);
        OutcomesAgree(from, to, before, Some(path[|path| - 1].id), Some(other[|other| - 1].id));
      }
      if Became(from, to, before, r) { OutcomesAgree(from, to, before, r, Some(path[|path| - 1].id)); }
    } else {
      forall path: seq<Fact> ensures !Chain(from, to, before, path) {
        if Chain(from, to, before, path) { ChainArrives(from, to, before, path); }
      }
    }
  }
}
