/**
 * The memory and relation tables, and the database work of erasing memories: lift
 * the contradictions they raised, null the pointers into them, delete them. A
 * relation goes with either of its parties (foreign key cascade).
 */
module MemoryTables {
  import opened Common

  type User = string
  type MemId = nat
  type RelId = nat

  datatype Status = Uncertain | Active | UserApproved | Contradicted | Replaced | Outdated

  datatype SourceRef = SourceRef(kind: string, id: string)

  datatype Memory = Memory(
    owner: User, source: SourceRef, content: string, status: Status, createdAt: int,
    validFrom: Option<int>, validUntil: Option<int>, supersededBy: Option<MemId>)

  datatype Resolution = ConfirmedA | ConfirmedB | Corrected | Dismissed

  /** A detected contradiction; a resolved row stays, so its pair is never detected again. */
  datatype Relation = Relation(a: MemId, b: MemId, aPrior: Status, bPrior: Status, resolution: Option<Resolution>) {
    predicate Open() { resolution.None? }
    predicate Names(m: MemId) { a == m || b == m }
    predicate SamePair(x: MemId, y: MemId) { (a == x && b == y) || (a == y && b == x) }
    function PriorOf(m: MemId): Status { if a == m then aPrior else bPrior }
  }

  datatype Tables = Tables(memories: map<MemId, Memory>, relations: map<RelId, Relation>, used: set<MemId>)

  const EMPTY := Tables(map[], map[], {})

  function SetStatus(t: Tables, m: MemId, status: Status): Tables
    requires m in t.memories
  {
    t.(memories := t.memories[m := t.memories[m].(status := status)])
  }

  /** Back to the recorded prior status: only from contradicted, and never to it. */
  function Restore(t: Tables, m: MemId, prior: Status): Tables {
    if m !in t.memories || t.memories[m].status != Contradicted || prior == Contradicted then t
    else SetStatus(t, m, prior)
  }

  // -------------------------------------------------------------------- lifting

  /** The party that survives when `doomed` goes. */
  function Survivor(r: Relation, doomed: set<MemId>): Option<MemId> {
    if r.a in doomed then if r.b in doomed then None else Some(r.b) else Some(r.a)
  }

  predicate Touches(r: Relation, doomed: set<MemId>) { r.a in doomed || r.b in doomed }

  /** `order` lists the open relations that touch `doomed`, in whatever order the query returned them. */
  ghost predicate Enumerates(t: Tables, doomed: set<MemId>, order: seq<RelId>) {
    forall r :: r in order <==> r in t.relations && t.relations[r].Open() && Touches(t.relations[r], doomed)
  }

  function LiftOne(t: Tables, doomed: set<MemId>, r: Relation): Tables {
    match Survivor(r, doomed)
    case None => t
    case Some(m) => Restore(t, m, r.PriorOf(m))
  }

  function Lift(t: Tables, doomed: set<MemId>, order: seq<RelId>): Tables
    requires forall r | r in order :: r in t.relations
    decreases |order|
  {
    if order == [] then t
    else
      var n := |order| - 1;
      LiftOne(Lift(t, doomed, order[..n]), doomed, t.relations[order[n]])
  }

  /** The relation's survivor is `m`, and it recorded a status to go back to. */
  predicate Releases(r: Relation, doomed: set<MemId>, m: MemId) {
    Survivor(r, doomed) == Some(m) && r.PriorOf(m) != Contradicted
  }

  /** The first recorded prior status that releases `m`. */
  function FirstPrior(t: Tables, doomed: set<MemId>, order: seq<RelId>, m: MemId): Option<Status>
    requires forall r | r in order :: r in t.relations
    decreases |order|
  {
    if order == [] then None
    else
      var n := |order| - 1;
      match FirstPrior(t, doomed, order[..n], m)
      case Some(st) => Some(st)
      case None =>
        var r := t.relations[order[n]];
        if Releases(r, doomed, m) then Some(r.PriorOf(m)) else None
  }

  function LiftedStatus(t: Tables, doomed: set<MemId>, order: seq<RelId>, m: MemId): Status
    requires m in t.memories && forall r | r in order :: r in t.relations
  {
    if t.memories[m].status != Contradicted then t.memories[m].status
    else match FirstPrior(t, doomed, order, m) case Some(st) => st case None => Contradicted
  }

  /**
   * A lift touches nothing but the status of contradicted survivors, and gives each
   * the first prior status on record.
   */
  lemma {:induction false} LiftSpec(t: Tables, doomed: set<MemId>, order: seq<RelId>)
    requires forall r | r in order :: r in t.relations
    ensures
      var t' := Lift(t, doomed, order);
      && t'.relations == t.relations && t'.used == t.used && t'.memories.Keys == t.memories.Keys
      && forall m | m in t.memories :: t'.memories[m] == t.memories[m].(status := LiftedStatus(t, doomed, order, m))
    decreases |order|
  {
    if order != [] {
      var n := |order| - 1;
      LiftSpec(t, doomed, order[..n]);
      forall m | m in t.memories ensures
        Lift(t, doomed, order).memories[m] == t.memories[m].(status := LiftedStatus(t, doomed, order, m))
      {
        FirstPriorSpec(t, doomed, order[..n], m);
        FirstPriorSpec(t, doomed, order, m);
      }
    }
  }

  lemma {:induction false} FirstPriorSpec(t: Tables, doomed: set<MemId>, order: seq<RelId>, m: MemId)
    requires forall r | r in order :: r in t.relations
    ensures
      match FirstPrior(t, doomed, order, m)
      case None => forall r | r in order :: !Releases(t.relations[r], doomed, m)
      case Some(st) =>
        st != Contradicted && exists r | r in order ::
          Releases(t.relations[r], doomed, m) && t.relations[r].PriorOf(m) == st
    decreases |order|
  {
    if order != [] {
      var n := |order| - 1;
      FirstPriorSpec(t, doomed, order[..n], m);
      assert order[n] in order;
    }
  }

  /** An open relation between `m` and a doomed memory recorded `status` for `m`. */
  predicate Recorded(r: Relation, doomed: set<MemId>, m: MemId, status: Status) {
    && r.Open()
    && ((r.a == m && r.b in doomed && r.aPrior == status) || (r.b == m && r.a in doomed && r.bPrior == status))
  }

  /** What a contradicted survivor may come out with: a recorded status, contradicted only for want of another. */
  ghost predicate LiftOutcome(t: Tables, doomed: set<MemId>, m: MemId, status: Status) {
    if status == Contradicted then
      forall r, prior | r in t.relations && Recorded(t.relations[r], doomed, m, prior) :: prior == Contradicted
    else
      exists r :: r in t.relations && Recorded(t.relations[r], doomed, m, status)
  }

  /** Only relations to doomed memories decide what a lift restores. */
  lemma LiftedOutcome(t: Tables, doomed: set<MemId>, order: seq<RelId>, m: MemId)
    requires Enumerates(t, doomed, order) && m in t.memories && m !in doomed && t.memories[m].status == Contradicted
    ensures LiftOutcome(t, doomed, m, LiftedStatus(t, doomed, order, m))
  {
    FirstPriorSpec(t, doomed, order, m);
    forall r, prior | r in t.relations && Recorded(t.relations[r], doomed, m, prior)
      ensures r in order && t.relations[r].PriorOf(m) == prior && Survivor(t.relations[r], doomed) == Some(m)
    {
    }
    if st: Status :| FirstPrior(t, doomed, order, m) == Some(st) {
      var r :| r in order && Releases(t.relations[r], doomed, m) && t.relations[r].PriorOf(m) == st;
      assert Recorded(t.relations[r], doomed, m, st);
    }
  }

  // -------------------------------------------------------------------- erasing

  /** Survivors that pointed at a row about to go. */
  function Nulled(t: Tables, doomed: set<MemId>): set<MemId> {
    set m | m in t.memories && m !in doomed && t.memories[m].supersededBy.Some?
      && t.memories[m].supersededBy.value in doomed
  }

  function NullPointers(t: Tables, doomed: set<MemId>): Tables {
    t.(memories := map m | m in t.memories ::
         if m in Nulled(t, doomed) then t.memories[m].(supersededBy := None) else t.memories[m])
  }

  function Erase(t: Tables, doomed: set<MemId>): Tables {
    t.(memories := t.memories - doomed,
       relations := map r | r in t.relations && !Touches(t.relations[r], doomed) :: t.relations[r])
  }

  /** Everything a deletion transaction does to these two tables. */
  function Forget(t: Tables, doomed: set<MemId>, order: seq<RelId>): Tables
    requires forall r | r in order :: r in t.relations
  {
    Erase(NullPointers(Lift(t, doomed, order), doomed), doomed)
  }

  /** A survivor of Forget: nothing changed but a nulled pointer and a lifted status. */
  function Survived(t: Tables, doomed: set<MemId>, order: seq<RelId>, m: MemId): Memory
    requires m in t.memories && forall r | r in order :: r in t.relations
  {
    t.memories[m].(status := LiftedStatus(t, doomed, order, m),
                   supersededBy := if m in Nulled(t, doomed) then None else t.memories[m].supersededBy)
  }

  lemma ForgetSpec(t: Tables, doomed: set<MemId>, order: seq<RelId>)
    requires forall r | r in order :: r in t.relations
    ensures
      var t' := Forget(t, doomed, order);
      && t'.memories.Keys == t.memories.Keys - doomed && t'.used == t.used
      && (forall m | m in t'.memories :: t'.memories[m] == Survived(t, doomed, order, m))
      && (forall r :: r in t'.relations <==> r in t.relations && !Touches(t.relations[r], doomed))
      && (forall r | r in t'.relations :: t'.relations[r] == t.relations[r])
  {
    LiftSpec(t, doomed, order);
  }

  /** Restores the surviving partner of each relation in turn; `lifted` counts the relations that had one. */
  method LiftContradictions(t0: Tables, doomed: set<MemId>, order: seq<RelId>) returns (t: Tables, lifted: nat)
    requires forall r | r in order :: r in t0.relations
    ensures t == Lift(t0, doomed, order)
    ensures lifted == |Surviving(t0, doomed, order)|
  {
    t, lifted := t0, 0;
    for i := 0 to |order|
      invariant t == Lift(t0, doomed, order[..i]) && lifted == |Surviving(t0, doomed, order[..i])|
    {
      assert order[..i + 1][..i] == order[..i];
      var relation := t0.relations[order[i]];
      if relation.a in doomed && relation.b in doomed { continue; }
      var partner := if relation.a in doomed then relation.b else relation.a;
      var prior := if partner == relation.a then relation.aPrior else relation.bPrior;
      t := Restore(t, partner, prior);
      lifted := lifted + 1;
    }
    assert order[..|order|] == order;
  }

  function Surviving(t: Tables, doomed: set<MemId>, order: seq<RelId>): seq<RelId>
    requires forall r | r in order :: r in t.relations
    decreases |order|
  {
    if order == [] then []
    else
      var n := |order| - 1;
      Surviving(t, doomed, order[..n]) + (if Survivor(t.relations[order[n]], doomed).Some? then [order[n]] else [])
  }
}
