/**
 * The aggregate's reconciliation actions over the memory and relation tables, and
 * what every run of them and of source deletions keeps: statuses come back, no
 * memory is stranded as contradicted, replaced-by pointers never form a cycle.
 */
module Reconciliation {
  import opened Common
  import opened MemoryTables
  import opened ReconcilePolicy

  // ------------------------------------------------------------- state functions

  /** The interval is closed and the pointer set at a row that exists already. */
  function CloseAndPoint(t: Tables, loser: MemId, target: MemId, at: int): Tables
    requires loser in t.memories
  {
    t.(memories := t.memories[loser := t.memories[loser].(
         status := Replaced, supersededBy := Some(target), validUntil := Some(at))])
  }

  function InsertMemory(t: Tables, id: MemId, row: Memory): Tables {
    t.(memories := t.memories[id := row], used := t.used + {id})
  }

  /** Supersession by a new row that inherits the predecessor's provenance. */
  function Supersede(t: Tables, predecessor: MemId, successor: MemId, row: Memory, now: int): Tables
    requires predecessor in t.memories
  {
    var from := match row.validFrom case Some(at) => at case None => now;
    CloseAndPoint(InsertMemory(t, successor, row.(validFrom := Some(from), supersededBy := None)), predecessor,
      successor, from)
  }

  function Heir(predecessor: Memory, content: string, status: Status, now: int): Memory {
    predecessor.(content := content, status := status, createdAt := now)
  }

  /** An edit: the successor is approved and starts now. */
  function Edit(t: Tables, predecessor: MemId, successor: MemId, content: string, now: int): Tables
    requires predecessor in t.memories
  {
    Supersede(t, predecessor, successor,
      Heir(t.memories[predecessor], content, UserApproved, now).(validFrom := None), now)
  }

  function Detect(t: Tables, incoming: MemId, existing: MemId, rid: RelId): Tables
    requires incoming in t.memories && existing in t.memories
  {
    var rel := Relation(incoming, existing, t.memories[incoming].status, t.memories[existing].status, None);
    var paired := t.(relations := t.relations[rid := rel]);
    SetStatus(SetStatus(paired, incoming, Contradicted), existing, Contradicted)
  }

  /** The pair has a relation, open or resolved. */
  predicate Related(t: Tables, x: MemId, y: MemId) {
    exists r | r in t.relations :: t.relations[r].SamePair(x, y)
  }

  predicate MayDetect(t: Tables, incoming: MemId, existing: MemId)
    requires incoming in t.memories && existing in t.memories
  {
    && t.memories[incoming].status != Replaced && t.memories[existing].status != Replaced
    && !Related(t, incoming, existing)
  }

  /** `enriched` is the normalised model text when it may replace the survivor's. */
  predicate Enriches(survivor: Memory, enriched: string, normalized: string) {
    enriched != "" && enriched != normalized && (survivor.status == Active || survivor.status == Uncertain)
  }

  function Merged(t: Tables, survivor: MemId, loser: MemId, enrichment: Option<(MemId, string)>, now: int): Tables
    requires survivor in t.memories && loser in t.memories
  {
    match enrichment
    case None =>
      var from := t.memories[survivor].validFrom;
      CloseAndPoint(t, loser, survivor, if from.Some? then from.value else now)
    case Some((id, content)) =>
      var row := Heir(t.memories[survivor], content, t.memories[survivor].status, now);
      var t1 := Supersede(t, survivor, id, row, now);
      CloseAndPoint(t1, loser, id, if row.validFrom.Some? then row.validFrom.value else now)
  }

  function Resolve(t: Tables, rid: RelId, resolution: Resolution): Tables
    requires rid in t.relations
  {
    t.(relations := t.relations[rid := t.relations[rid].(resolution := Some(resolution))])
  }

  function Confirm(t: Tables, rid: RelId, firstWins: bool): Tables
    requires rid in t.relations && t.relations[rid].a in t.memories && t.relations[rid].b in t.memories
  {
    var r := t.relations[rid];
    var winner, loser := if firstWins then r.a else r.b, if firstWins then r.b else r.a;
    var t1 := SetStatus(t, winner, UserApproved);
    var t2 := if OutdatedLoser(t1.memories[winner], t.memories[loser]) then SetStatus(t1, loser, Outdated)
              else CloseAndPoint(t1, loser, winner, EventTime(t1.memories[winner]));
    Resolve(t2, rid, if firstWins then ConfirmedA else ConfirmedB)
  }

  function Correct(t: Tables, rid: RelId, aContent: string, bContent: string, aHeir: MemId, bHeir: MemId,
                   now: int): Tables
    requires rid in t.relations && t.relations[rid].a in t.memories && t.relations[rid].b in t.memories
  {
    var r := t.relations[rid];
    Resolve(Edit(Edit(t, r.a, aHeir, aContent, now), r.b, bHeir, bContent, now), rid, Corrected)
  }

  function Dismiss(t: Tables, rid: RelId): Tables
    requires rid in t.relations
  {
    var r := t.relations[rid];
    Resolve(Restore(Restore(t, r.a, r.aPrior), r.b, r.bPrior), rid, Dismissed)
  }

  // ------------------------------------------------------------------------ runs

  datatype Action =
    | Insert(id: MemId, row: Memory)
    | DetectPair(incoming: MemId, existing: MemId, rid: RelId)
    | MergePair(survivor: MemId, loser: MemId, enrichment: Option<(MemId, string)>, now: int)
    | SupersedePair(winner: MemId, loser: MemId, now: int)
    | ConfirmPair(rid: RelId, firstWins: bool)
    | CorrectPair(rid: RelId, aContent: string, bContent: string, aHeir: MemId, bHeir: MemId, now: int)
    | DismissPair(rid: RelId)
    | Delete(doomed: set<MemId>, order: seq<RelId>)

  predicate OpenPair(t: Tables, rid: RelId) {
    && rid in t.relations && t.relations[rid].Open()
    && t.relations[rid].a in t.memories && t.relations[rid].b in t.memories
  }

  /** When an action takes effect; skipped and refused calls change nothing and are no action. */
  ghost predicate Enabled(t: Tables, act: Action) {
    match act
    case Insert(id, row) => id !in t.used && row.supersededBy == None && row.status != Contradicted
      && row.status != Replaced
    case DetectPair(x, y, rid) =>
      x != y && x in t.memories && y in t.memories && MayDetect(t, x, y) && rid !in t.relations
    case MergePair(x, y, enrichment, _) =>
      && x != y && x in t.memories && y in t.memories
      && t.memories[x].status != Replaced && t.memories[y].status != Replaced
      && (enrichment.Some? ==>
        && enrichment.value.0 !in t.used && (t.memories[x].status == Active || t.memories[x].status == Uncertain))
    case SupersedePair(x, y, _) =>
      && x != y && x in t.memories && y in t.memories
      && t.memories[x].status != Replaced && t.memories[y].status != Replaced
    case ConfirmPair(rid, _) =>
      && OpenPair(t, rid)
      && t.memories[t.relations[rid].a].status == Contradicted && t.memories[t.relations[rid].b].status == Contradicted
    case CorrectPair(rid, _, _, x, y, _) =>
      && OpenPair(t, rid) && x !in t.used && y !in t.used && x != y
      && t.memories[t.relations[rid].a].status != Replaced && t.memories[t.relations[rid].b].status != Replaced
    case DismissPair(rid) => OpenPair(t, rid)
    case Delete(doomed, order) => Enumerates(t, doomed, order)
  }

  function Apply(t: Tables, act: Action): Tables
    requires Enabled(t, act)
  {
    match act
    case Insert(id, row) => InsertMemory(t, id, row)
    case DetectPair(x, y, rid) => Detect(t, x, y, rid)
    case MergePair(x, y, enrichment, now) => Merged(t, x, y, enrichment, now)
    case SupersedePair(x, y, now) => Merged(t, x, y, None, now)
    case ConfirmPair(rid, firstWins) => Confirm(t, rid, firstWins)
    case CorrectPair(rid, aContent, bContent, x, y, now) => Correct(t, rid, aContent, bContent, x, y, now)
    case DismissPair(rid) => Dismiss(t, rid)
    case Delete(doomed, order) => Forget(t, doomed, order)
  }

  // ------------------------------------------------------------------ invariants

  /** What the schema enforces: fresh ids, relations between two distinct rows that exist. */
  predicate WellFormed(t: Tables) {
    && t.memories.Keys <= t.used
    && forall r | r in t.relations ::
      && t.relations[r].a != t.relations[r].b
      && t.relations[r].a in t.memories && t.relations[r].b in t.memories
  }

  /** Relation `rid` is open and dismissing it gives `m` a status other than contradicted. */
  predicate Releases(t: Tables, rid: RelId, m: MemId) {
    rid in t.relations && t.relations[rid].Open() && t.relations[rid].Names(m)
      && t.relations[rid].PriorOf(m) != Contradicted
  }

  /** Every contradicted memory has an open relation whose dismissal releases it. */
  ghost predicate NoneStranded(t: Tables) {
    forall m | m in t.memories && t.memories[m].status == Contradicted :: exists rid :: Releases(t, rid, m)
  }

  /** A pointer leads from a replaced row to a row that exists. */
  predicate Pointers(t: Tables) {
    forall m | m in t.memories && t.memories[m].supersededBy.Some? ::
      t.memories[m].status == Replaced && t.memories[m].supersededBy.value in t.memories
  }

  predicate Ranks(t: Tables, rank: map<MemId, nat>) {
    && t.memories.Keys <= rank.Keys
    && forall m | m in t.memories && t.memories[m].supersededBy.Some? ::
      t.memories[m].supersededBy.value in rank && rank[m] < rank[t.memories[m].supersededBy.value]
  }

  /** Replaced-by pointers form a forest: ranks grow along them. */
  ghost predicate Forest(t: Tables) { Pointers(t) && exists rank :: Ranks(t, rank) }

  ghost predicate Inv(t: Tables) { WellFormed(t) && NoneStranded(t) && Forest(t) }

  // ----------------------------------------------------------- pointers: a forest

  lemma LinkKeepsForest(t: Tables, loser: MemId, target: MemId, at: int)
    requires Forest(t) && loser in t.memories && target in t.memories && loser != target
    requires t.memories[loser].status != Replaced && t.memories[target].status != Replaced
    ensures Forest(CloseAndPoint(t, loser, target, at))
  {
    var rank: map<MemId, nat> :| Ranks(t, rank);
    var top := if rank[loser] < rank[target] then rank[target] else rank[loser];
    assert Ranks(CloseAndPoint(t, loser, target, at), rank[target := top + 1]);
  }

  lemma InsertKeepsForest(t: Tables, id: MemId, row: Memory)
    requires Forest(t) && id !in t.memories && row.supersededBy == None
    ensures Forest(InsertMemory(t, id, row))
  {
    var rank: map<MemId, nat> :| Ranks(t, rank);
    var rank' := if id in rank then rank else rank[id := 0];
    assert Ranks(InsertMemory(t, id, row), rank');
  }

  lemma StatusKeepsForest(t: Tables, m: MemId, status: Status)
    requires Forest(t) && m in t.memories && t.memories[m].status != Replaced
    ensures Forest(SetStatus(t, m, status))
  {
    var rank: map<MemId, nat> :| Ranks(t, rank);
    assert Ranks(SetStatus(t, m, status), rank);
  }

  lemma RelationsDontMatter(t: Tables, t': Tables)
    requires Forest(t) && t'.memories == t.memories
    ensures Forest(t')
  {
    var rank: map<MemId, nat> :| Ranks(t, rank);
    assert Ranks(t', rank);
  }

  lemma SupersedeKeepsForest(t: Tables, predecessor: MemId, successor: MemId, row: Memory, now: int)
    requires Forest(t) && predecessor in t.memories && successor !in t.memories
    requires t.memories[predecessor].status != Replaced && row.status != Replaced
    ensures Forest(Supersede(t, predecessor, successor, row, now))
  {
    var from := match row.validFrom case Some(at) => at case None => now;
    var heir := row.(validFrom := Some(from), supersededBy := None);
    InsertKeepsForest(t, successor, heir);
    LinkKeepsForest(InsertMemory(t, successor, heir), predecessor, successor, from);
  }

  lemma MergeKeepsForest(t: Tables, survivor: MemId, loser: MemId, enrichment: Option<(MemId, string)>, now: int)
    requires WellFormed(t) && Forest(t) && Enabled(t, MergePair(survivor, loser, enrichment, now))
    ensures Forest(Merged(t, survivor, loser, enrichment, now))
  {
    var from := t.memories[survivor].validFrom;
    var at := if from.Some? then from.value else now;
    if enrichment.None? {
      LinkKeepsForest(t, loser, survivor, at);
    } else {
      var id := enrichment.value.0;
      var row := Heir(t.memories[survivor], enrichment.value.1, t.memories[survivor].status, now);
      SupersedeKeepsForest(t, survivor, id, row, now);
      LinkKeepsForest(Supersede(t, survivor, id, row, now), loser, id, at);
    }
  }

  lemma RestoreKeepsForest(t: Tables, m: MemId, prior: Status)
    requires Forest(t)
    ensures Forest(Restore(t, m, prior))
  {
    if m in t.memories && t.memories[m].status == Contradicted { StatusKeepsForest(t, m, prior); }
  }

  lemma ResolutionKeepsForest(t: Tables, act: Action)
    requires WellFormed(t) && Forest(t) && Enabled(t, act) && (act.ConfirmPair? || act.CorrectPair? || act.DismissPair?)
    ensures Forest(Apply(t, act))
  {
    var r := t.relations[act.rid];
    match act
    case ConfirmPair(rid, firstWins) =>
      var winner, loser := if firstWins then r.a else r.b, if firstWins then r.b else r.a;
      StatusKeepsForest(t, winner, UserApproved);
      var t1 := SetStatus(t, winner, UserApproved);
      if OutdatedLoser(t1.memories[winner], t.memories[loser]) {
        StatusKeepsForest(t1, loser, Outdated);
        RelationsDontMatter(SetStatus(t1, loser, Outdated), Apply(t, act));
      } else {
        LinkKeepsForest(t1, loser, winner, EventTime(t1.memories[winner]));
        RelationsDontMatter(CloseAndPoint(t1, loser, winner, EventTime(t1.memories[winner])), Apply(t, act));
      }
    case CorrectPair(rid, aContent, bContent, x, y, now) =>
      var t1 := Edit(t, r.a, x, aContent, now);
      SupersedeKeepsForest(t, r.a, x, Heir(t.memories[r.a], aContent, UserApproved, now).(validFrom := None), now);
      SupersedeKeepsForest(t1, r.b, y, Heir(t1.memories[r.b], bContent, UserApproved, now).(validFrom := None), now);
      RelationsDontMatter(Edit(t1, r.b, y, bContent, now), Apply(t, act));
    case DismissPair(rid) =>
      RestoreKeepsForest(t, r.a, r.aPrior);
      RestoreKeepsForest(Restore(t, r.a, r.aPrior), r.b, r.bPrior);
      RelationsDontMatter(Restore(Restore(t, r.a, r.aPrior), r.b, r.bPrior), Apply(t, act));
  }

  lemma ForgetKeepsForest(t: Tables, doomed: set<MemId>, order: seq<RelId>)
    requires Forest(t) && Enumerates(t, doomed, order)
    ensures Forest(Forget(t, doomed, order))
  {
    ForgetSpec(t, doomed, order);
    var rank: map<MemId, nat> :| Ranks(t, rank);
    assert Ranks(Forget(t, doomed, order), rank);
  }

  lemma DetectKeepsForest(t: Tables, x: MemId, y: MemId, rid: RelId)
    requires WellFormed(t) && Forest(t) && Enabled(t, DetectPair(x, y, rid))
    ensures Forest(Detect(t, x, y, rid))
  {
    StatusKeepsForest(t, x, Contradicted);
    StatusKeepsForest(SetStatus(t, x, Contradicted), y, Contradicted);
    RelationsDontMatter(SetStatus(SetStatus(t, x, Contradicted), y, Contradicted), Detect(t, x, y, rid));
  }

  lemma ActionKeepsForest(t: Tables, act: Action)
    requires WellFormed(t) && Forest(t) && Enabled(t, act)
    ensures Forest(Apply(t, act))
  {
    match act
    case Insert(id, row) => InsertKeepsForest(t, id, row);
    case DetectPair(x, y, rid) => DetectKeepsForest(t, x, y, rid);
    case MergePair(x, y, enrichment, now) => MergeKeepsForest(t, x, y, enrichment, now);
    case SupersedePair(x, y, now) => MergeKeepsForest(t, x, y, None, now);
    case ConfirmPair(_, _) => ResolutionKeepsForest(t, act);
    case CorrectPair(_, _, _, _, _, _) => ResolutionKeepsForest(t, act);
    case DismissPair(_) => ResolutionKeepsForest(t, act);
    case Delete(doomed, order) => ForgetKeepsForest(t, doomed, order);
  }

  lemma ActionKeepsWellFormed(t: Tables, act: Action)
    requires WellFormed(t) && Enabled(t, act)
    ensures WellFormed(Apply(t, act))
  {
    if act.Delete? { ForgetSpec(t, act.doomed, act.order); }
  }

  // ------------------------------------------------------- nobody stays accused

  /** A witness stays one while its relation stays open. */
  lemma NoneStrandedAcross(t: Tables, t': Tables)
    requires NoneStranded(t)
    requires forall m | m in t'.memories && t'.memories[m].status == Contradicted ::
      && m in t.memories && t.memories[m].status == Contradicted
      && forall rid | Releases(t, rid, m) :: rid in t'.relations && t'.relations[rid] == t.relations[rid]
    ensures NoneStranded(t')
  {
    forall m | m in t'.memories && t'.memories[m].status == Contradicted ensures exists rid :: Releases(t', rid, m) {
      var rid :| Releases(t, rid, m);
      assert Releases(t', rid, m);
    }
  }

  lemma DetectStrandsNobody(t: Tables, x: MemId, y: MemId, rid: RelId)
    requires NoneStranded(t) && Enabled(t, DetectPair(x, y, rid))
    ensures NoneStranded(Detect(t, x, y, rid))
  {
    var t' := Detect(t, x, y, rid);
    forall m | m in t'.memories && t'.memories[m].status == Contradicted ensures exists r :: Releases(t', r, m) {
      if t.memories[m].status == Contradicted {
        var r :| Releases(t, r, m);
        assert Releases(t', r, m);
      } else {
        assert Releases(t', rid, m);
      }
    }
  }

  lemma DismissStrandsNobody(t: Tables, rid: RelId)
    requires WellFormed(t) && NoneStranded(t) && Enabled(t, DismissPair(rid))
    ensures NoneStranded(Dismiss(t, rid))
  {
    var t' := Dismiss(t, rid);
    forall m | m in t'.memories && t'.memories[m].status == Contradicted ensures exists r :: Releases(t', r, m) {
      var r :| Releases(t, r, m);
      assert Releases(t', r, m);
    }
  }

  lemma DeleteStrandsNobody(t: Tables, doomed: set<MemId>, order: seq<RelId>)
    requires WellFormed(t) && NoneStranded(t) && Enumerates(t, doomed, order)
    ensures NoneStranded(Forget(t, doomed, order))
  {
    ForgetSpec(t, doomed, order);
    var t' := Forget(t, doomed, order);
    forall m | m in t'.memories && t'.memories[m].status == Contradicted ensures exists r :: Releases(t', r, m) {
      FirstPriorSpec(t, doomed, order, m);
      var r :| Releases(t, r, m);
      assert !Touches(t.relations[r], doomed);
      assert Releases(t', r, m);
    }
  }

  lemma WriteStrandsNobody(t: Tables, act: Action)
    requires NoneStranded(t) && Enabled(t, act) && (act.Insert? || act.MergePair? || act.SupersedePair?)
    ensures NoneStranded(Apply(t, act))
  {
    NoneStrandedAcross(t, Apply(t, act));
  }

  lemma ConfirmStrandsNobody(t: Tables, rid: RelId, firstWins: bool)
    requires NoneStranded(t) && Enabled(t, ConfirmPair(rid, firstWins))
    ensures NoneStranded(Confirm(t, rid, firstWins))
  {
    NoneStrandedAcross(t, Confirm(t, rid, firstWins));
  }

  lemma CorrectStrandsNobody(t: Tables, act: Action)
    requires NoneStranded(t) && Enabled(t, act) && act.CorrectPair?
    ensures NoneStranded(Apply(t, act))
  {
    NoneStrandedAcross(t, Apply(t, act));
  }

  lemma ActionStrandsNobody(t: Tables, act: Action)
    requires WellFormed(t) && NoneStranded(t) && Enabled(t, act)
    ensures NoneStranded(Apply(t, act))
  {
    match act
    case Insert(_, _) => WriteStrandsNobody(t, act);
    case DetectPair(x, y, rid) => DetectStrandsNobody(t, x, y, rid);
    case MergePair(_, _, _, _) => WriteStrandsNobody(t, act);
    case SupersedePair(_, _, _) => WriteStrandsNobody(t, act);
    case ConfirmPair(rid, firstWins) => ConfirmStrandsNobody(t, rid, firstWins);
    case CorrectPair(_, _, _, _, _, _) => CorrectStrandsNobody(t, act);
    case DismissPair(rid) => DismissStrandsNobody(t, rid);
    case Delete(doomed, order) => DeleteStrandsNobody(t, doomed, order);
  }

  // ------------------------------------------------------------------------ runs

  ghost predicate Legal(t: Tables, run: seq<Action>)
    decreases |run|
  {
    run == [] || (Enabled(t, run[0]) && Legal(Apply(t, run[0]), run[1..]))
  }

  ghost function After(t: Tables, run: seq<Action>): Tables
    requires Legal(t, run)
    decreases |run|
  {
    if run == [] then t else After(Apply(t, run[0]), run[1..])
  }

  lemma EmptyInv()
    ensures Inv(EMPTY)
  {
    assert Ranks(EMPTY, map[]);
  }

  lemma {:induction false} RunKeepsInv(t: Tables, run: seq<Action>)
    requires Inv(t) && Legal(t, run)
    ensures Inv(After(t, run))
    decreases |run|
  {
    if run != [] {
      ActionKeepsWellFormed(t, run[0]);
      ActionStrandsNobody(t, run[0]);
      ActionKeepsForest(t, run[0]);
      RunKeepsInv(Apply(t, run[0]), run[1..]);
    }
  }

  lemma {:induction false} RunSnoc(t: Tables, run: seq<Action>, act: Action)
    requires Legal(t, run) && Enabled(After(t, run), act)
    ensures Legal(t, run + [act]) && After(t, run + [act]) == Apply(After(t, run), act)
    decreases |run|
  {
    var all := run + [act];
    if run == [] {
      assert all[1..] == [];
    } else {
      assert all[0] == run[0] && all[1..] == run[1..] + [act];
      RunSnoc(Apply(t, run[0]), run[1..], act);
    }
  }

  /** One more action of a run that starts with empty tables. */
  lemma Extend(run: seq<Action>, act: Action) returns (t: Tables, run': seq<Action>)
    requires Legal(EMPTY, run) && Enabled(After(EMPTY, run), act)
    ensures Legal(EMPTY, run') && After(EMPTY, run') == t == Apply(After(EMPTY, run), act)
  {
    RunSnoc(EMPTY, run, act);
    t, run' := Apply(After(EMPTY, run), act), run + [act];
  }

  function Fact(status: Status): Memory {
    Memory("", SourceRef("user_note", ""), "", status, 0, None, None, None)
  }

  /** Memories 0, 1 and 2, the first with the given status, the others active. */
  lemma ThreeMemories(status: Status) returns (t: Tables, run: seq<Action>)
    requires status == Active || status == Uncertain
    ensures Legal(EMPTY, run) && After(EMPTY, run) == t
    ensures t == Tables(map[0 := Fact(status), 1 := Fact(Active), 2 := Fact(Active)], map[], {0, 1, 2})
  {
    assert Legal(EMPTY, []) && After(EMPTY, []) == EMPTY;
    t, run := Extend([], Insert(0, Fact(status)));
    t, run := Extend(run, Insert(1, Fact(Active)));
    t, run := Extend(run, Insert(2, Fact(Active)));
    assert t.memories == map[0 := Fact(status), 1 := Fact(Active), 2 := Fact(Active)];
  }

  /** Memory 0, accused of contradicting 1 and then 2. */
  lemma AccusedTwice(status: Status) returns (t: Tables, run: seq<Action>)
    requires status == Active || status == Uncertain
    ensures Legal(EMPTY, run) && After(EMPTY, run) == t
    ensures t.memories == map[0 := Fact(Contradicted), 1 := Fact(Contradicted), 2 := Fact(Contradicted)]
    ensures t.relations ==
      map[0 := Relation(0, 1, status, Active, None), 1 := Relation(0, 2, Contradicted, Active, None)]
  {
    t, run := ThreeMemories(status);
    t, run := Extend(run, DetectPair(0, 1, 0));
    assert t.relations == map[0 := Relation(0, 1, status, Active, None)];
    assert t.memories == map[0 := Fact(Contradicted), 1 := Fact(Contradicted), 2 := Fact(Active)];
    t, run := Extend(run, DetectPair(0, 2, 1));
  }

  /**
   * Nobody is stranded: after any run of detections, merges, supersessions,
   * resolutions and deletions, each contradicted memory has an open relation whose
   * dismissal gives it back a status other than contradicted.
   */
  lemma ContradictedCanBeReleased(run: seq<Action>, m: MemId)
    requires Legal(EMPTY, run)
    requires var t := After(EMPTY, run); m in t.memories && t.memories[m].status == Contradicted
    ensures
      var t := After(EMPTY, run);
      exists rid :: OpenPair(t, rid) && m in Dismiss(t, rid).memories
        && Dismiss(t, rid).memories[m].status != Contradicted
  {
    EmptyInv();
    RunKeepsInv(EMPTY, run);
    var t := After(EMPTY, run);
    var rid :| Releases(t, rid, m);
    assert OpenPair(t, rid);
    assert Dismiss(t, rid).memories[m].status == t.relations[rid].PriorOf(m);
  }

  /** Review rejection: the row goes, and its relations with it; no lift comes before. */
  predicate MayReject(t: Tables, m: MemId) {
    && m in t.memories && t.memories[m].status == Uncertain
    && forall k | k in t.memories :: t.memories[k].supersededBy != Some(m)
  }

  /** Some open relation that does not name `m` can release `p`. */
  ghost predicate ReleasedWithout(t: Tables, p: MemId, m: MemId) {
    exists rid :: Releases(t, rid, p) && !t.relations[rid].Names(m)
  }

  lemma ErasedRelations(t: Tables, p: MemId, m: MemId)
    ensures (exists rid :: Releases(Erase(t, {m}), rid, p)) <==> ReleasedWithout(t, p, m)
  {
    if rid :| Releases(Erase(t, {m}), rid, p) { assert Releases(t, rid, p); }
    if rid :| Releases(t, rid, p) && !t.relations[rid].Names(m) { assert Releases(Erase(t, {m}), rid, p); }
  }

  /**
   * Rejecting a memory is safe if and only if every other contradicted memory has a
   * relation to release it that does not name the rejected one.
   */
  lemma RejectionIsSafeExactly(t: Tables, m: MemId)
    ensures NoneStranded(Erase(t, {m})) <==>
      forall p | p in t.memories && p != m && t.memories[p].status == Contradicted :: ReleasedWithout(t, p, m)
  {
    var t' := Erase(t, {m});
    if NoneStranded(t') {
      forall p | p in t.memories && p != m && t.memories[p].status == Contradicted ensures ReleasedWithout(t, p, m) {
        assert p in t'.memories;
        ErasedRelations(t, p, m);
      }
    }
    if forall p | p in t.memories && p != m && t.memories[p].status == Contradicted :: ReleasedWithout(t, p, m) {
      forall p | p in t'.memories && t'.memories[p].status == Contradicted ensures exists rid :: Releases(t', rid, p) {
        ErasedRelations(t, p, m);
      }
    }
  }

  /**
   * The guard does fail: dismissing one of two accusations makes an uncertain memory
   * rejectable while the other still holds its partner, who is then stranded.
   */
  lemma RejectionCanStrand()
    ensures exists run ::
      && Legal(EMPTY, run) && MayReject(After(EMPTY, run), 0) && After(EMPTY, run).memories[0].status == Uncertain
      && !NoneStranded(Erase(After(EMPTY, run), {0}))
  {
    var t5, run5 := AccusedTwice(Uncertain);
    var t6, run6 := Extend(run5, DismissPair(0));
    assert t6.memories == map[0 := Fact(Uncertain), 1 := Fact(Active), 2 := Fact(Contradicted)];
    assert t6.relations[1].Names(0);
    var t' := Erase(t6, {0});
    assert 2 in t'.memories && t'.memories[2].status == Contradicted && t'.relations == map[];
    assert !NoneStranded(t');
  }

  // --------------------------------------------------------- statuses come back

  /** `m` stands at `base` or is accused, and an accused `m` has a relation that recorded `base`. */
  ghost predicate Based(t: Tables, m: MemId, base: Status) {
    && m in t.used
    && (m in t.memories ==>
      && (t.memories[m].status == base || t.memories[m].status == Contradicted)
      && (forall r | r in t.relations && t.relations[r].Open() && t.relations[r].Names(m) ::
        t.relations[r].PriorOf(m) == base || t.relations[r].PriorOf(m) == Contradicted)
      && (t.memories[m].status == Contradicted ==> exists r :: Recalls(t, r, m, base)))
  }

  predicate Recalls(t: Tables, r: RelId, m: MemId, base: Status) {
    r in t.relations && t.relations[r].Open() && t.relations[r].Names(m) && t.relations[r].PriorOf(m) == base
  }

  /** The action gives `m` no new standing: it is not confirmed, corrected, superseded or merged away. */
  predicate Spares(t: Tables, act: Action, m: MemId) {
    match act
    case MergePair(survivor, loser, enrichment, _) => loser != m && (enrichment.Some? ==> survivor != m)
    case SupersedePair(_, loser, _) => loser != m
    case ConfirmPair(rid, _) => rid in t.relations && !t.relations[rid].Names(m)
    case CorrectPair(rid, _, _, _, _, _) => rid in t.relations && !t.relations[rid].Names(m)
    case _ => true
  }

  lemma BasedAcross(t: Tables, t': Tables, m: MemId, base: Status)
    requires Based(t, m, base) && m in t'.used
    requires m in t'.memories ==> m in t.memories && t'.memories[m].status == t.memories[m].status
    requires forall r | r in t'.relations && t'.relations[r].Open() && t'.relations[r].Names(m) ::
      r in t.relations && t.relations[r] == t'.relations[r]
    requires forall r | r in t.relations && t.relations[r].Open() && t.relations[r].Names(m) ::
      r in t'.relations && t'.relations[r] == t.relations[r]
    ensures Based(t', m, base)
  {
    if m in t'.memories && t'.memories[m].status == Contradicted {
      var r :| Recalls(t, r, m, base);
      assert Recalls(t', r, m, base);
    }
  }

  lemma DetectKeepsBased(t: Tables, x: MemId, y: MemId, rid: RelId, m: MemId, base: Status)
    requires WellFormed(t) && Enabled(t, DetectPair(x, y, rid)) && Based(t, m, base) && base != Contradicted
    ensures Based(Detect(t, x, y, rid), m, base)
  {
    var t' := Detect(t, x, y, rid);
    if m in t'.memories && t'.memories[m].status == Contradicted {
      if t.memories[m].status == Contradicted {
        var r :| Recalls(t, r, m, base);
        assert Recalls(t', r, m, base);
      } else {
        assert Recalls(t', rid, m, base);
      }
    }
  }

  lemma DismissKeepsBased(t: Tables, rid: RelId, m: MemId, base: Status)
    requires WellFormed(t) && Enabled(t, DismissPair(rid)) && Based(t, m, base) && base != Contradicted
    ensures Based(Dismiss(t, rid), m, base)
  {
    var t' := Dismiss(t, rid);
    if m in t'.memories && t'.memories[m].status == Contradicted {
      var r :| Recalls(t, r, m, base);
      assert Recalls(t', r, m, base);
    }
  }

  lemma DeleteKeepsBased(t: Tables, doomed: set<MemId>, order: seq<RelId>, m: MemId, base: Status)
    requires WellFormed(t) && Enumerates(t, doomed, order) && Based(t, m, base) && base != Contradicted
    ensures Based(Forget(t, doomed, order), m, base)
  {
    ForgetSpec(t, doomed, order);
    var t' := Forget(t, doomed, order);
    if m in t'.memories {
      FirstPriorSpec(t, doomed, order, m);
      if t'.memories[m].status == Contradicted {
        var r :| Recalls(t, r, m, base);
        assert !Touches(t.relations[r], doomed);
        assert Recalls(t', r, m, base);
      }
    }
  }

  lemma WriteKeepsBased(t: Tables, act: Action, m: MemId, base: Status)
    requires WellFormed(t) && Enabled(t, act) && Spares(t, act, m) && Based(t, m, base)
    requires act.Insert? || act.MergePair? || act.SupersedePair?
    ensures Based(Apply(t, act), m, base)
  {
    BasedAcross(t, Apply(t, act), m, base);
  }

  lemma ResolutionKeepsBased(t: Tables, act: Action, m: MemId, base: Status)
    requires WellFormed(t) && Enabled(t, act) && Spares(t, act, m) && Based(t, m, base)
    requires act.ConfirmPair? || act.CorrectPair?
    ensures Based(Apply(t, act), m, base)
  {
    BasedAcross(t, Apply(t, act), m, base);
  }

  lemma ActionKeepsBased(t: Tables, act: Action, m: MemId, base: Status)
    requires WellFormed(t) && Enabled(t, act) && Spares(t, act, m) && Based(t, m, base) && base != Contradicted
    ensures Based(Apply(t, act), m, base)
  {
    match act
    case Insert(_, _) => WriteKeepsBased(t, act, m, base);
    case DetectPair(x, y, rid) => DetectKeepsBased(t, x, y, rid, m, base);
    case MergePair(_, _, _, _) => WriteKeepsBased(t, act, m, base);
    case SupersedePair(_, _, _) => WriteKeepsBased(t, act, m, base);
    case ConfirmPair(_, _) => ResolutionKeepsBased(t, act, m, base);
    case CorrectPair(_, _, _, _, _, _) => ResolutionKeepsBased(t, act, m, base);
    case DismissPair(rid) => DismissKeepsBased(t, rid, m, base);
    case Delete(doomed, order) => DeleteKeepsBased(t, doomed, order, m, base);
  }

  ghost predicate SparesAll(t: Tables, run: seq<Action>, m: MemId)
    requires Legal(t, run)
    decreases |run|
  {
    run == [] || (Spares(t, run[0], m) && SparesAll(Apply(t, run[0]), run[1..], m))
  }

  lemma {:induction false} RunKeepsBased(t: Tables, run: seq<Action>, m: MemId, base: Status)
    requires WellFormed(t) && Legal(t, run) && SparesAll(t, run, m) && Based(t, m, base) && base != Contradicted
    ensures Based(After(t, run), m, base)
    decreases |run|
  {
    if run != [] {
      ActionKeepsWellFormed(t, run[0]);
      ActionKeepsBased(t, run[0], m, base);
      RunKeepsBased(Apply(t, run[0]), run[1..], m, base);
    }
  }

  ghost predicate Unaccused(t: Tables, m: MemId) {
    forall r | r in t.relations && t.relations[r].Open() :: !t.relations[r].Names(m)
  }

  /**
   * A memory that nobody accuses any more stands where it stood before its first
   * detection, however many relations named it and in whatever order they were
   * dismissed or lifted; other memories may meanwhile be merged, confirmed or corrected.
   */
  lemma StatusComesBack(t: Tables, run: seq<Action>, m: MemId)
    requires WellFormed(t) && Legal(t, run) && SparesAll(t, run, m)
    requires m in t.memories && t.memories[m].status != Contradicted
    requires m in After(t, run).memories
    requires forall r | r in t.relations && t.relations[r].resolution == None ::
      t.relations[r].a != m && t.relations[r].b != m
    requires forall r | r in After(t, run).relations && After(t, run).relations[r].resolution == None ::
      After(t, run).relations[r].a != m && After(t, run).relations[r].b != m
    ensures After(t, run).memories[m].status == t.memories[m].status
  {
    RunKeepsBased(t, run, m, t.memories[m].status);
  }

  // ------------------------------------------------------- when a confirmation sticks

  function Winner(r: Relation, firstWins: bool): MemId { if firstWins then r.a else r.b }

  /** No other open relation recorded a status for the winner that a dismissal could bring back. */
  predicate NothingOlder(t: Tables, rid: RelId, m: MemId) {
    forall r | r in t.relations && r != rid && t.relations[r].Open() && t.relations[r].Names(m) ::
      t.relations[r].PriorOf(m) == UserApproved || t.relations[r].PriorOf(m) == Contradicted
  }

  /**
   * Whatever happens to others, `m` is approved whenever it is not contradicted, and
   * whenever no open relation names it.
   */
  ghost predicate ApprovalSticks(t: Tables, m: MemId) {
    forall run | Legal(t, run) && SparesAll(t, run, m) && m in After(t, run).memories ::
      var t' := After(t, run);
      t'.memories[m].status != Contradicted || Unaccused(t', m) ==> t'.memories[m].status == UserApproved
  }

  lemma ConfirmApproves(t: Tables, rid: RelId, firstWins: bool)
    requires WellFormed(t) && Enabled(t, ConfirmPair(rid, firstWins))
    ensures
      var m, t1 := Winner(t.relations[rid], firstWins), Confirm(t, rid, firstWins);
      && WellFormed(t1) && t1.used == t.used && m in t1.memories && t1.memories[m].status == UserApproved
      && t1.relations.Keys == t.relations.Keys && !t1.relations[rid].Open()
      && forall r | r in t.relations && r != rid :: t1.relations[r] == t.relations[r]
  {
    ActionKeepsWellFormed(t, ConfirmPair(rid, firstWins));
  }

  lemma GuardedApprovalSticks(t: Tables, rid: RelId, firstWins: bool)
    requires WellFormed(t) && Enabled(t, ConfirmPair(rid, firstWins))
    requires NothingOlder(t, rid, Winner(t.relations[rid], firstWins))
    ensures ApprovalSticks(Confirm(t, rid, firstWins), Winner(t.relations[rid], firstWins))
  {
    var m, t1 := Winner(t.relations[rid], firstWins), Confirm(t, rid, firstWins);
    ConfirmApproves(t, rid, firstWins);
    assert Based(t1, m, UserApproved);
    forall run | Legal(t1, run) && SparesAll(t1, run, m) && m in After(t1, run).memories
      ensures
        var t' := After(t1, run);
        t'.memories[m].status != Contradicted || Unaccused(t', m) ==> t'.memories[m].status == UserApproved
    {
      RunKeepsBased(t1, run, m, UserApproved);
    }
  }

  /** A new accusation and the dismissal of an old one: `m` goes back to what the old one recorded. */
  lemma OldPriorComesBack(t: Tables, m: MemId, elder: RelId) returns (run: seq<Action>)
    requires WellFormed(t) && m in t.memories && t.memories[m].status == UserApproved
    requires elder in t.relations && t.relations[elder].Open() && t.relations[elder].Names(m)
    requires t.relations[elder].PriorOf(m) != Contradicted
    ensures Legal(t, run) && SparesAll(t, run, m)
    ensures m in After(t, run).memories && After(t, run).memories[m].status == t.relations[elder].PriorOf(m)
  {
    var z := FreshId(t.used);
    var rid := FreshId(t.relations.Keys);
    var t1 := InsertMemory(t, z, Fact(Active));
    assert z !in t.memories && !Related(t1, m, z);
    var t2 := Detect(t1, m, z, rid);
    assert t2.relations[elder] == t.relations[elder] && t2.memories[m].status == Contradicted;
    var t3 := Dismiss(t2, elder);
    assert t3.memories[m].status == t.relations[elder].PriorOf(m);
    run := ThreeSteps(t, m, Insert(z, Fact(Active)), DetectPair(m, z, rid), DismissPair(elder));
  }

  lemma ThreeSteps(t: Tables, m: MemId, p: Action, q: Action, r: Action) returns (run: seq<Action>)
    requires Enabled(t, p) && Enabled(Apply(t, p), q) && Enabled(Apply(Apply(t, p), q), r)
    requires p.Insert? && q.DetectPair? && r.DismissPair?
    ensures Legal(t, run) && After(t, run) == Apply(Apply(Apply(t, p), q), r) && SparesAll(t, run, m)
  {
    var t1, t2, t3 := Apply(t, p), Apply(Apply(t, p), q), Apply(Apply(Apply(t, p), q), r);
    run := [p, q, r];
    assert run[1..] == [q, r] && [q, r][1..] == [r] && [r][1..] == [];
    assert Legal(t3, []) && After(t3, []) == t3 && SparesAll(t3, [], m);
    assert Legal(t2, [r]) && After(t2, [r]) == t3 && SparesAll(t2, [r], m);
    assert Legal(t1, [q, r]) && After(t1, [q, r]) == t3 && SparesAll(t1, [q, r], m);
  }

  /**
   * A confirmation sticks if and only if no other open relation recorded, for the
   * winner, a status other than approved or contradicted. Otherwise a new accusation
   * and the dismissal of that relation bring the old status back.
   */
  lemma ConfirmationSticksExactly(t: Tables, rid: RelId, firstWins: bool)
    requires WellFormed(t) && Enabled(t, ConfirmPair(rid, firstWins))
    ensures
      var m := Winner(t.relations[rid], firstWins);
      NothingOlder(t, rid, m) <==> ApprovalSticks(Confirm(t, rid, firstWins), m)
  {
    var m, t1 := Winner(t.relations[rid], firstWins), Confirm(t, rid, firstWins);
    if NothingOlder(t, rid, m) {
      GuardedApprovalSticks(t, rid, firstWins);
    } else {
      ConfirmApproves(t, rid, firstWins);
      var elder :| elder in t.relations && elder != rid && t.relations[elder].Open() && t.relations[elder].Names(m)
                 && t.relations[elder].PriorOf(m) != UserApproved && t.relations[elder].PriorOf(m) != Contradicted;
      var run := OldPriorComesBack(t1, m, elder);
    }
  }

  /** The guard does fail: a memory accused twice is confirmed in the second relation. */
  lemma ConfirmationIsForgotten()
    ensures exists run ::
      && Legal(EMPTY, run) && Enabled(After(EMPTY, run), ConfirmPair(1, true))
      && Winner(After(EMPTY, run).relations[1], true) == 0
      && !ApprovalSticks(Confirm(After(EMPTY, run), 1, true), 0)
  {
    var t5, run5 := AccusedTwice(Active);
    EmptyInv();
    RunKeepsInv(EMPTY, run5);
    assert t5.relations[0].Names(0) && !NothingOlder(t5, 1, 0);
    ConfirmationSticksExactly(t5, 1, true);
  }

  // ------------------------------------------------------------ pointer chains

  /** `path` follows replaced-by pointers. */
  predicate PointerPath(t: Tables, path: seq<MemId>) {
    && (forall i | 0 <= i < |path| :: path[i] in t.memories)
    && forall i | 0 <= i < |path| - 1 :: t.memories[path[i]].supersededBy == Some(path[i + 1])
  }

  lemma {:induction false} PathsClimb(t: Tables, rank: map<MemId, nat>, path: seq<MemId>, i: nat, j: nat)
    requires Ranks(t, rank) && PointerPath(t, path) && i < j < |path|
    ensures rank[path[i]] < rank[path[j]]
    decreases j
  {
    assert t.memories[path[j - 1]].supersededBy == Some(path[j]);
    if i < j - 1 { PathsClimb(t, rank, path, i, j - 1); }
  }

  /**
   * Following replaced-by pointers ends, in every state any run reaches and from every
   * row: no path revisits a memory, so none is longer than the table.
   */
  lemma PointersEnd(run: seq<Action>, path: seq<MemId>)
    requires Legal(EMPTY, run) && PointerPath(After(EMPTY, run), path)
    ensures Distinct(path) && |path| <= |After(EMPTY, run).memories|
    ensures forall m | m in After(EMPTY, run).memories && After(EMPTY, run).memories[m].supersededBy.Some? ::
      && After(EMPTY, run).memories[m].status == Replaced
      && After(EMPTY, run).memories[m].supersededBy.value in After(EMPTY, run).memories
  {
    EmptyInv();
    RunKeepsInv(EMPTY, run);
    var t := After(EMPTY, run);
    var rank: map<MemId, nat> :| Ranks(t, rank);
    forall i, j | 0 <= i < j < |path| ensures path[i] != path[j] { PathsClimb(t, rank, path, i, j); }
    DistinctCount(path);
    SubsetSize((set m | m in path), t.memories.Keys);
    assert |t.memories.Keys| == |t.memories|;
  }

  // --------------------------------------------------------------------- service

  datatype Error = SelfPair | NotFound | IllegalTransition | ChangedSinceDetection | AlreadyReplaced

  datatype PairResult =
    | MergeDone(survivor: MemId, loser: MemId, enriched: bool)
    | ContradictionCreated(rid: RelId)
    | Superseded(winner: MemId, loser: MemId)
    | Skipped

  datatype ResolveAction =
    | ConfirmOne(firstWins: bool)
    | CorrectBoth(aContent: string, bContent: string)
    | DismissBoth

  /** The first error of a pair lookup. */
  function PairError(t: Tables, x: MemId, y: MemId): Option<Error> {
    if x == y then Some(SelfPair)
    else if x !in t.memories || y !in t.memories then Some(NotFound)
    else None
  }

  predicate AnyReplaced(t: Tables, x: MemId, y: MemId)
    requires x in t.memories && y in t.memories
  {
    t.memories[x].status == Replaced || t.memories[y].status == Replaced
  }

  class MemoryReconciliation {
    var t: Tables
    const normalize: string -> string

    constructor (normalize: string -> string)
      ensures t == EMPTY && this.normalize == normalize
    {
      t := EMPTY;
      this.normalize := normalize;
    }

    /** The enrichment of a merge, if the composed text may replace the survivor's. */
    function Enrichment(survivor: Memory, text: string, heir: MemId): Option<(MemId, string)> {
      var enriched := normalize(text);
      if Enriches(survivor, enriched, normalize(survivor.content)) then Some((heir, enriched)) else None
    }

    /** `text` is the model's merged content, empty when it composed none. */
    method MergeSameFact(incoming: MemId, existing: MemId, text: string, heir: MemId, now: int)
      returns (r: Result<PairResult, Error>)
      requires heir !in t.used && WellFormed(t) && Pointers(t)
      modifies this`t
      ensures match PairError(old(t), incoming, existing)
        case Some(e) => r == Err(e) && t == old(t)
        case None =>
          var decision := ChooseSurvivor(old(t).memories[incoming], old(t).memories[existing]);
          if AnyReplaced(old(t), incoming, existing) || decision.NoMerge? then r == Ok(Skipped) && t == old(t)
          else
            var survivor := if decision.firstSurvives then incoming else existing;
            var loser := if decision.firstSurvives then existing else incoming;
            var enrichment := Enrichment(old(t).memories[survivor], text, heir);
            && Enabled(old(t), MergePair(survivor, loser, enrichment, now))
            && t == Apply(old(t), MergePair(survivor, loser, enrichment, now))
            && r == Ok(MergeDone(if enrichment.Some? then heir else survivor, loser, enrichment.Some?))
      // a merge enriches exactly when there is another text and the survivor is active or uncertain
      ensures r.Ok? && r.value.MergeDone? ==>
        var text' := normalize(text);
        var survivor := old(t).memories[if r.value.loser == incoming then existing else incoming];
        && (r.value.enriched <==>
            && text' != "" && text' != normalize(survivor.content)
            && (survivor.status == Active || survivor.status == Uncertain))
        && (r.value.enriched ==> heir in t.memories && t.memories[heir].content == text')
    {
      if incoming == existing { return Err(SelfPair); }
      if incoming !in t.memories || existing !in t.memories { return Err(NotFound); }
      if t.memories[incoming].status == Replaced || t.memories[existing].status == Replaced { return Ok(Skipped); }
      if t.memories[incoming].supersededBy == Some(existing) || t.memories[existing].supersededBy == Some(incoming) {
        return Ok(Skipped);
      }
      var decision := ChooseSurvivor(t.memories[incoming], t.memories[existing]);
      if decision.NoMerge? { return Ok(Skipped); }
      var survivor, loser := incoming, existing;
      if !decision.firstSurvives { survivor, loser := existing, incoming; }
      var row := t.memories[survivor];
      var finalSurvivor, enriched := survivor, false;
      var content := normalize(text);
      if Enriches(row, content, normalize(row.content)) {
        t := Supersede(t, survivor, heir, Heir(row, content, row.status, now), now);
        finalSurvivor, enriched := heir, true;
      }
      var from := t.memories[finalSurvivor].validFrom;
      t := CloseAndPoint(t, loser, finalSurvivor, if from.Some? then from.value else now);
      r := Ok(MergeDone(finalSurvivor, loser, enriched));
    }

    /** Detection: a pair is related once for all, open or resolved. */
    method CreateContradiction(incoming: MemId, existing: MemId, rid: RelId) returns (r: Result<PairResult, Error>)
      requires rid !in t.relations
      modifies this`t
      ensures match PairError(old(t), incoming, existing)
        case Some(e) => r == Err(e) && t == old(t)
        case None =>
          if !MayDetect(old(t), incoming, existing) then r == Ok(Skipped) && t == old(t)
          else
            && Enabled(old(t), DetectPair(incoming, existing, rid))
            && t == Apply(old(t), DetectPair(incoming, existing, rid)) && r == Ok(ContradictionCreated(rid))
      // two memories that no relation joins yet, whichever way round, are related now
      ensures r == Ok(ContradictionCreated(rid)) <==>
        && incoming != existing && incoming in old(t).memories && existing in old(t).memories
        && old(t).memories[incoming].status != Replaced && old(t).memories[existing].status != Replaced
        && forall q | q in old(t).relations ::
             (old(t).relations[q].a, old(t).relations[q].b) !in {(incoming, existing), (existing, incoming)}
    {
      if incoming == existing { return Err(SelfPair); }
      if incoming !in t.memories || existing !in t.memories { return Err(NotFound); }
      if t.memories[incoming].status == Replaced || t.memories[existing].status == Replaced { return Ok(Skipped); }
      if Related(t, incoming, existing) { return Ok(Skipped); }
      var a, b := t.memories[incoming].status, t.memories[existing].status;
      t := t.(relations := t.relations[rid := Relation(incoming, existing, a, b, None)]);
      if a != Contradicted {
        assert MayTransition(a, Contradicted, ByReconciliation);
        t := SetStatus(t, incoming, Contradicted);
      }
      if b != Contradicted {
        assert MayTransition(b, Contradicted, ByReconciliation);
        t := SetStatus(t, existing, Contradicted);
      }
      assert t.memories == Detect(old(t), incoming, existing, rid).memories;
      r := Ok(ContradictionCreated(rid));
    }

    method ApplySupersession(winner: MemId, loser: MemId, now: int) returns (r: Result<PairResult, Error>)
      modifies this`t
      ensures match PairError(old(t), winner, loser)
        case Some(e) => r == Err(e) && t == old(t)
        case None =>
          if AnyReplaced(old(t), winner, loser)
            || !SupersessionUnambiguous(old(t).memories[winner], old(t).memories[loser])
          then r == Ok(Skipped) && t == old(t)
          else
            && Enabled(old(t), SupersedePair(winner, loser, now))
            && t == Apply(old(t), SupersedePair(winner, loser, now)) && r == Ok(Superseded(winner, loser))
    {
      if winner == loser { return Err(SelfPair); }
      if winner !in t.memories || loser !in t.memories { return Err(NotFound); }
      if t.memories[winner].status == Replaced || t.memories[loser].status == Replaced { return Ok(Skipped); }
      if !SupersessionUnambiguous(t.memories[winner], t.memories[loser]) { return Ok(Skipped); }
      var from := t.memories[winner].validFrom;
      t := CloseAndPoint(t, loser, winner, if from.Some? then from.value else now);
      r := Ok(Superseded(winner, loser));
    }

    /** The action a resolution stands for; `aHeir` and `bHeir` are the rows a correction inserts. */
    function AsAction(rid: RelId, action: ResolveAction, aHeir: MemId, bHeir: MemId, now: int): Action {
      match action
      case ConfirmOne(firstWins) => ConfirmPair(rid, firstWins)
      case CorrectBoth(aContent, bContent) => CorrectPair(rid, aContent, bContent, aHeir, bHeir, now)
      case DismissBoth => DismissPair(rid)
    }

    /** Owner resolution: every error leaves both tables as they were. `alreadyResolved` is the result. */
    method ResolveContradiction(user: User, rid: RelId, action: ResolveAction, aHeir: MemId, bHeir: MemId, now: int)
      returns (r: Result<bool, Error>)
      requires WellFormed(t) && aHeir !in t.used && bHeir !in t.used && aHeir != bHeir
      modifies this`t
      ensures r.Err? || r == Ok(true) ==> t == old(t)
      ensures r == Ok(true) <==> rid in old(t).relations && !old(t).relations[rid].Open()
      ensures r == Ok(false) ==>
        && Enabled(old(t), AsAction(rid, action, aHeir, bHeir, now))
        && t == Apply(old(t), AsAction(rid, action, aHeir, bHeir, now))
      ensures r == Err(NotFound) <==>
        || rid !in old(t).relations
        || (old(t).relations[rid].Open() &&
            (old(t).memories[old(t).relations[rid].a].owner != user
              || old(t).memories[old(t).relations[rid].b].owner != user))
      ensures r.Err? && r.error != NotFound ==> !Enabled(old(t), AsAction(rid, action, aHeir, bHeir, now))
    {
      if rid !in t.relations { return Err(NotFound); }
      var relation := t.relations[rid];
      if !relation.Open() { return Ok(true); }
      var a, b := t.memories[relation.a], t.memories[relation.b];
      if a.owner != user || b.owner != user { return Err(NotFound); }
      match action {
        case ConfirmOne(firstWins) =>
          if a.status != Contradicted || b.status != Contradicted { return Err(ChangedSinceDetection); }
          ApplyConfirm(rid, firstWins);
        case CorrectBoth(aContent, bContent) =>
          if a.status == Replaced || b.status == Replaced { return Err(AlreadyReplaced); }
          ApplyCorrect(rid, aContent, bContent, aHeir, bHeir, now);
        case DismissBoth =>
          t := Restore(t, relation.a, relation.aPrior);
          t := Restore(t, relation.b, relation.bPrior);
          t := Resolve(t, rid, Dismissed);
      }
      r := Ok(false);
    }

    method ApplyConfirm(rid: RelId, firstWins: bool)
      requires WellFormed(t) && Enabled(t, ConfirmPair(rid, firstWins))
      modifies this`t
      ensures t == Confirm(old(t), rid, firstWins)
    {
      var relation := t.relations[rid];
      var winner, loser := relation.a, relation.b;
      if !firstWins { winner, loser := relation.b, relation.a; }
      assert MayTransition(Contradicted, UserApproved, ByUser("")) && MayTransition(Contradicted, Outdated, ByUser(""));
      t := SetStatus(t, winner, UserApproved);
      var confirmed := t.memories[winner];
      if OutdatedLoser(confirmed, t.memories[loser]) {
        t := SetStatus(t, loser, Outdated);
      } else {
        t := CloseAndPoint(t, loser, winner, EventTime(confirmed));
      }
      t := Resolve(t, rid, if firstWins then ConfirmedA else ConfirmedB);
    }

    method ApplyCorrect(rid: RelId, aContent: string, bContent: string, aHeir: MemId, bHeir: MemId, now: int)
      requires WellFormed(t) && Enabled(t, CorrectPair(rid, aContent, bContent, aHeir, bHeir, now))
      modifies this`t
      ensures t == Correct(old(t), rid, aContent, bContent, aHeir, bHeir, now)
    {
      var relation := t.relations[rid];
      t := Edit(t, relation.a, aHeir, aContent, now);
      t := Edit(t, relation.b, bHeir, bContent, now);
      t := Resolve(t, rid, Corrected);
    }
  }
}
