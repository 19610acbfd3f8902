/**
 * What each reconciliation action leaves in the tables, row by row: which rows change,
 * in which fields, and what a successor takes over from the row it replaces.
 */
module ReconciliationOutcomes {
  import opened Common
  import opened MemoryTables
  import opened ReconcilePolicy
  import opened Reconciliation

  /** Every row but those of `changed` is as before, and no row but those of `added` is new. */
  predicate OthersKept(t: Tables, t': Tables, changed: set<MemId>, added: set<MemId>) {
    && t'.memories.Keys == t.memories.Keys + added && t'.used == t.used + added
    && forall m | m in t.memories && m !in changed :: t'.memories[m] == t.memories[m]
  }

  /** When the fact began to hold: at its recorded start, else at `otherwise`. */
  function Began(m: Memory, otherwise: int): int {
    if m.validFrom.Some? then m.validFrom.value else otherwise
  }

  /** The row is replaced by `heir` at instant `at`; its text, owner and provenance stay. */
  predicate ReplacedAt(before: Memory, after: Memory, heir: MemId, at: int) {
    && after.status == Replaced && after.supersededBy == Some(heir) && after.validUntil == Some(at)
    && after.owner == before.owner && after.source == before.source && after.content == before.content
    && after.createdAt == before.createdAt && after.validFrom == before.validFrom
  }

  /** A successor written at `now`: new text and start, the predecessor's owner, provenance and end. */
  predicate Succeeds(before: Memory, heir: Memory, content: string, status: Status, start: int, now: int) {
    && heir.content == content && heir.status == status && heir.validFrom == Some(start) && heir.createdAt == now
    && heir.owner == before.owner && heir.source == before.source && heir.validUntil == before.validUntil
    && heir.supersededBy == None
  }

  /** Detection records both statuses as they were and makes both parties contradicted. */
  lemma DetectionOutcome(t: Tables, x: MemId, y: MemId, rid: RelId)
    requires Enabled(t, DetectPair(x, y, rid))
    ensures
      var t' := Apply(t, DetectPair(x, y, rid));
      && OthersKept(t, t', {x, y}, {})
      && t'.memories[x] == t.memories[x].(status := Contradicted)
      && t'.memories[y] == t.memories[y].(status := Contradicted)
      && t'.relations == t.relations[rid := Relation(x, y, t.memories[x].status, t.memories[y].status, None)]
  {
  }

  /** A merge that composes no new text, and a supersession, replace the loser by the survivor and nothing else. */
  lemma PlainMergeOutcome(t: Tables, survivor: MemId, loser: MemId, now: int)
    requires Enabled(t, MergePair(survivor, loser, None, now))
    ensures
      var t' := Apply(t, MergePair(survivor, loser, None, now));
      && OthersKept(t, t', {loser}, {}) && t'.relations == t.relations
      && ReplacedAt(t.memories[loser], t'.memories[loser], survivor, Began(t.memories[survivor], now))
      && Apply(t, SupersedePair(survivor, loser, now)) == t'
  {
  }

  /**
   * An enriching merge writes one successor of the survivor: the new text under the
   * survivor's owner, provenance, status and start. Both parties are replaced by it.
   */
  lemma EnrichingMergeOutcome(t: Tables, survivor: MemId, loser: MemId, id: MemId, content: string, now: int)
    requires WellFormed(t) && Enabled(t, MergePair(survivor, loser, Some((id, content)), now))
    ensures
      var t' := Apply(t, MergePair(survivor, loser, Some((id, content)), now));
      var start := Began(t.memories[survivor], now);
      && OthersKept(t, t', {survivor, loser}, {id}) && t'.relations == t.relations
      && Succeeds(t.memories[survivor], t'.memories[id], content, t.memories[survivor].status, start, now)
      && ReplacedAt(t.memories[survivor], t'.memories[survivor], id, start)
      && ReplacedAt(t.memories[loser], t'.memories[loser], id, start)
  {
  }

  /**
   * A correction writes one approved successor for each party, with that party's text,
   * owner and provenance, starting now; each party is replaced by its own at that instant.
   */
  lemma CorrectionOutcome(t: Tables, rid: RelId, aContent: string, bContent: string,
                          aHeir: MemId, bHeir: MemId, now: int)
    requires WellFormed(t) && Enabled(t, CorrectPair(rid, aContent, bContent, aHeir, bHeir, now))
    ensures
      var t' := Apply(t, CorrectPair(rid, aContent, bContent, aHeir, bHeir, now));
      var a, b := t.relations[rid].a, t.relations[rid].b;
      && OthersKept(t, t', {a, b}, {aHeir, bHeir})
      && Succeeds(t.memories[a], t'.memories[aHeir], aContent, UserApproved, now, now)
      && Succeeds(t.memories[b], t'.memories[bHeir], bContent, UserApproved, now, now)
      && ReplacedAt(t.memories[a], t'.memories[a], aHeir, now) && ReplacedAt(t.memories[b], t'.memories[b], bHeir, now)
      && t'.relations == t.relations[rid := t.relations[rid].(resolution := Some(Corrected))]
  {
  }

  /**
   * A confirmation approves the chosen party. The other one becomes outdated if its
   * interval ended before the winner began, else it is replaced by the winner then.
   */
  lemma ConfirmationOutcome(t: Tables, rid: RelId, firstWins: bool)
    requires WellFormed(t) && Enabled(t, ConfirmPair(rid, firstWins))
    ensures
      var t' := Apply(t, ConfirmPair(rid, firstWins));
      var winner := if firstWins then t.relations[rid].a else t.relations[rid].b;
      var loser := if firstWins then t.relations[rid].b else t.relations[rid].a;
      var start := Began(t.memories[winner], t.memories[winner].createdAt);
      && OthersKept(t, t', {winner, loser}, {})
      && t'.memories[winner] == t.memories[winner].(status := UserApproved)
      && (if t.memories[loser].validUntil.Some? && t.memories[loser].validUntil.value <= start
          then t'.memories[loser] == t.memories[loser].(status := Outdated)
          else ReplacedAt(t.memories[loser], t'.memories[loser], winner, start))
      && t'.relations ==
         t.relations[rid := t.relations[rid].(resolution := Some(if firstWins then ConfirmedA else ConfirmedB))]
  {
  }

  /** Dismissal gives each contradicted party the status recorded for it, unless that is contradicted too. */
  lemma DismissalOutcome(t: Tables, rid: RelId)
    requires WellFormed(t) && Enabled(t, DismissPair(rid))
    ensures
      var t', r := Apply(t, DismissPair(rid)), t.relations[rid];
      && OthersKept(t, t', {r.a, r.b}, {})
      && (t'.memories[r.a] == if t.memories[r.a].status == Contradicted
            then t.memories[r.a].(status := r.aPrior) else t.memories[r.a])
      && (t'.memories[r.b] == if t.memories[r.b].status == Contradicted
            then t.memories[r.b].(status := r.bPrior) else t.memories[r.b])
      && t'.relations == t.relations[rid := r.(resolution := Some(Dismissed))]
  {
  }

  /** Between two facts with recorded starts only the later one may supersede, and approved ones never take part. */
  lemma LaterFactSupersedes(winner: Memory, loser: Memory)
    ensures winner.status == UserApproved || loser.status == UserApproved ==> !SupersessionUnambiguous(winner, loser)
    ensures winner.status != UserApproved && loser.status != UserApproved ==>
      (SupersessionUnambiguous(winner, loser) <==> Began(winner, winner.createdAt) > Began(loser, loser.createdAt))
  {
  }

  /**
   * A deletion takes the doomed memories and every relation to one. A survivor loses its
   * pointer to a doomed memory; if it is contradicted, and only then, it gets back a status
   * that an open relation to a doomed memory recorded.
   */
  lemma DeletionOutcome(t: Tables, doomed: set<MemId>, order: seq<RelId>)
    requires Enabled(t, Delete(doomed, order))
    ensures
      var t' := Apply(t, Delete(doomed, order));
      && (forall m :: m in t'.memories <==> m in t.memories && m !in doomed) && t'.used == t.used
      && (forall m | m in t'.memories ::
           var pointer, status := t.memories[m].supersededBy, t'.memories[m].status;
           && t'.memories[m] == t.memories[m].(status := status,
                supersededBy := if pointer.Some? && pointer.value in doomed then None else pointer)
           && (if t.memories[m].status == Contradicted then LiftOutcome(t, doomed, m, status)
               else status == t.memories[m].status))
      && (forall r :: r in t'.relations <==>
           r in t.relations && t.relations[r].a !in doomed && t.relations[r].b !in doomed)
      && (forall r | r in t'.relations :: t'.relations[r] == t.relations[r])
  {
    ForgetSpec(t, doomed, order);
    forall m | m in t.memories && m !in doomed && t.memories[m].status == Contradicted
      ensures LiftOutcome(t, doomed, m, LiftedStatus(t, doomed, order, m))
    {
      LiftedOutcome(t, doomed, order, m);
    }
  }

  // ------------------------------------------------------------------------ pairs

  /** The two relations join the same memories, whichever way round. */
  predicate Doubles(r: Relation, q: Relation) { {r.a, r.b} == {q.a, q.b} }

  lemma SamePairSpec(r: Relation, x: MemId, y: MemId)
    ensures r.SamePair(x, y) <==> {r.a, r.b} == {x, y}
  {
    if {r.a, r.b} == {x, y} {
      assert r.a in {x, y} && r.b in {x, y};
      assert x in {r.a, r.b} && y in {r.a, r.b};
    }
  }

  predicate PairedOnce(t: Tables) {
    forall r, q | r in t.relations && q in t.relations && r != q :: !Doubles(t.relations[r], t.relations[q])
  }

  lemma DetectionKeepsPairedOnce(t: Tables, x: MemId, y: MemId, rid: RelId)
    requires PairedOnce(t) && Enabled(t, DetectPair(x, y, rid))
    ensures PairedOnce(Apply(t, DetectPair(x, y, rid)))
  {
    forall r | r in t.relations ensures {t.relations[r].a, t.relations[r].b} != {x, y} {
      SamePairSpec(t.relations[r], x, y);
    }
  }

  lemma OtherActionsRelateNothing(t: Tables, act: Action)
    requires WellFormed(t) && Enabled(t, act) && !act.DetectPair?
    ensures forall r | r in Apply(t, act).relations ::
      r in t.relations && Apply(t, act).relations[r].a == t.relations[r].a
      && Apply(t, act).relations[r].b == t.relations[r].b
  {
    if act.Delete? { ForgetSpec(t, act.doomed, act.order); }
  }

  lemma {:induction false} RunKeepsPairedOnce(t: Tables, run: seq<Action>)
    requires WellFormed(t) && PairedOnce(t) && Legal(t, run)
    ensures PairedOnce(After(t, run))
    decreases |run|
  {
    if run != [] {
      ActionKeepsWellFormed(t, run[0]);
      if run[0].DetectPair? {
        DetectionKeepsPairedOnce(t, run[0].incoming, run[0].existing, run[0].rid);
      } else {
        OtherActionsRelateNothing(t, run[0]);
      }
      RunKeepsPairedOnce(Apply(t, run[0]), run[1..]);
    }
  }

  /** Over any run two memories are related at most once, whatever became of the relation. */
  lemma PairIsRelatedOnce(run: seq<Action>)
    requires Legal(EMPTY, run)
    ensures PairedOnce(After(EMPTY, run))
  {
    RunKeepsPairedOnce(EMPTY, run);
  }
}
