/**
 * The approval machine composed with the job queue: a confirm moves a row and
 * enqueues its execution in one transaction, and only a queue delivery executes.
 */
module Approvals {
  import opened Common
  import Q = JobQueue

  type ApprovalId = string

  datatype Status = Draft | PendingApproval | Approved | Rejected | Expired | Executed

  datatype Principal = Principal(user: string, org: string)

  datatype Row = Row(status: Status, requestedBy: string, org: string, contentBearing: bool, expiresAt: int)

  datatype Error = NotFound | IllegalTransition | InvalidPayload

  datatype State = State(
    rows: map<ApprovalId, Row>,
    queue: Q.State,
    confirmed: set<ApprovalId>,  // rows some confirm has approved
    ran: seq<ApprovalId>)        // committed effects, in commit order

  datatype Step =
    | Create(id: ApprovalId, row: Row)
    | Confirm(id: ApprovalId, who: Principal, approve: bool, job: Q.JobId)
    | Expire(now: int)
    | Queue(st: Q.Step)

  const EMPTY := State(map[], Q.EMPTY, {}, [])

  const JOB_MAX_ATTEMPTS := 10

  function KeyOf(id: ApprovalId): Q.Key { Q.Key("approval.execute", "approval", id) }

  /** The queue carries jobs of every type; these are the approvals'. */
  predicate IsApproval(k: Q.Key) { k == KeyOf(k.sourceId) }

  /** The edges of the machine; everything else is refused. */
  predicate MayMove(from: Status, to: Status) {
    match from
    case Draft => to == PendingApproval
    case PendingApproval => to == Approved || to == Rejected || to == Expired
    case Approved => to == Executed
    case _ => false
  }

  /** A foreign organisation, and anyone but the requester of personal content, sees no row. */
  predicate Visible(row: Row, who: Principal) {
    row.org == who.org && (row.contentBearing ==> row.requestedBy == who.user)
  }

  predicate Stale(row: Row, now: int) { row.status == PendingApproval && row.expiresAt < now }

  /** The delivery `st` would commit a run of the executor, not a skip and not another handler. */
  predicate RunsHandler(s: State, st: Q.Step) {
    && st.Succeed? && st.t in s.queue.deliveries
    && s.queue.deliveries[st.t].phase.Claimed? && IsApproval(s.queue.deliveries[st.t].key)
  }

  function Target(s: State, st: Q.Step): ApprovalId
    requires RunsHandler(s, st)
  {
    s.queue.deliveries[st.t].key.sourceId
  }

  predicate Enabled(s: State, step: Step) {
    match step
    case Create(id, row) => id !in s.rows && (row.status == Draft || row.status == PendingApproval)
    case Confirm(id, who, approve, job) =>
      && id in s.rows && Visible(s.rows[id], who)
      && MayMove(s.rows[id].status, if approve then Approved else Rejected)
      && (approve ==> Q.Enabled(s.queue, Q.Enqueue(job, KeyOf(id), JOB_MAX_ATTEMPTS)))
    case Expire(_) => true
    case Queue(st) =>
      && Q.Enabled(s.queue, st)
      // nobody else enqueues or cancels an approval's job
      && (st.Enqueue? || st.ConsumeKey? ==> !IsApproval(st.key))
      // the executor throws for a missing row and for every other status
      && (RunsHandler(s, st) ==>
        var id := Target(s, st);
        id in s.rows && (s.rows[id].status == Approved || s.rows[id].status == Executed))
  }

  function Apply(s: State, step: Step): State
    requires Enabled(s, step)
  {
    match step
    case Create(id, row) => s.(rows := s.rows[id := row])
    case Confirm(id, _, approve, job) =>
      var moved := s.(rows := s.rows[id := s.rows[id].(status := if approve then Approved else Rejected)]);
      if !approve then moved
      else moved.(queue := Q.Apply(s.queue, Q.Enqueue(job, KeyOf(id), JOB_MAX_ATTEMPTS)),
                  confirmed := s.confirmed + {id})
    case Expire(now) => s.(rows := AllExpired(s.rows, now))
    case Queue(st) =>
      var s' := s.(queue := Q.Apply(s.queue, st));
      if RunsHandler(s, st) && s.rows[Target(s, st)].status == Approved then Execute(s', Target(s, st)) else s'
  }

  function AllExpired(rows: map<ApprovalId, Row>, now: int): map<ApprovalId, Row> {
    map id | id in rows :: if Stale(rows[id], now) then rows[id].(status := Expired) else rows[id]
  }

  /** The effect and the row update, in the job's own transaction. */
  function Execute(s: State, id: ApprovalId): State
    requires id in s.rows
  {
    s.(rows := s.rows[id := s.rows[id].(status := Executed)], ran := s.ran + [id])
  }

  predicate Legal(s: State, steps: seq<Step>)
    decreases |steps|
  {
    steps == [] || (Enabled(s, steps[0]) && Legal(Apply(s, steps[0]), steps[1..]))
  }

  function After(s: State, steps: seq<Step>): State
    requires Legal(s, steps)
    decreases |steps|
  {
    if steps == [] then s else After(Apply(s, steps[0]), steps[1..])
  }

  // ---------------------------------------------------------------- invariants

  ghost predicate RowsInv(s: State) {
    && (forall id | id in s.rows && s.rows[id].status == Approved :: KeyOf(id) in s.queue.enqueued && id in s.confirmed)
    && (forall id | KeyOf(id) in s.queue.consumed :: id in s.rows && s.rows[id].status == Executed)
    && (forall id :: id in s.ran <==> id in s.rows && s.rows[id].status == Executed)
    && (forall id | id in s.ran :: id in s.confirmed)
    && (forall i, j | 0 <= i < j < |s.ran| :: s.ran[i] != s.ran[j])
  }

  ghost predicate Inv(s: State) { Q.Inv(s.queue) && RowsInv(s) }

  /** Only a run of the executor consumes an approval's key. */
  lemma OthersConsumeNoApproval(s: State, st: Q.Step)
    requires Inv(s) && Enabled(s, Queue(st)) && !RunsHandler(s, st)
    ensures forall id | KeyOf(id) in Q.Apply(s.queue, st).consumed :: KeyOf(id) in s.queue.consumed
  {
    forall id | KeyOf(id) in Q.Apply(s.queue, st).consumed ensures KeyOf(id) in s.queue.consumed {
      assert IsApproval(KeyOf(id));
    }
  }

  lemma QueueStepKeepsRows(s: State, st: Q.Step)
    requires Inv(s) && Enabled(s, Queue(st))
    ensures RowsInv(Apply(s, Queue(st)))
  {
    var s' := Apply(s, Queue(st));
    if RunsHandler(s, st) {
      var id := Target(s, st);
      if s.rows[id].status == Approved {
        assert id !in s.ran;
        forall x ensures x in s'.ran <==> x in s'.rows && s'.rows[x].status == Executed {
          assert x in s'.ran <==> x in s.ran || x == id;
        }
      }
      forall x | KeyOf(x) in s'.queue.consumed ensures x in s'.rows && s'.rows[x].status == Executed {
        assert KeyOf(x) in s.queue.consumed || KeyOf(x) == s.queue.deliveries[st.t].key;
      }
    } else {
      OthersConsumeNoApproval(s, st);
    }
  }

  lemma StepKeepsInv(s: State, step: Step)
    requires Inv(s) && Enabled(s, step)
    ensures Inv(Apply(s, step))
  {
    match step
    case Create(_, _) =>
    case Confirm(id, _, approve, job) =>
      if approve { Q.StepKeepsInv(s.queue, Q.Enqueue(job, KeyOf(id), JOB_MAX_ATTEMPTS)); }
    case Expire(_) =>
    case Queue(st) =>
      Q.StepKeepsInv(s.queue, st);
      QueueStepKeepsRows(s, st);
  }

  lemma {:induction false} LegalKeepsInv(s: State, steps: seq<Step>)
    requires Inv(s) && Legal(s, steps)
    ensures Inv(After(s, steps))
    decreases |steps|
  {
    if steps != [] {
      StepKeepsInv(s, steps[0]);
      LegalKeepsInv(Apply(s, steps[0]), steps[1..]);
    }
  }

  /**
   * In every run of creates, confirms, expiries and deliveries, an action's effect
   * commits at most once, only for a row that a confirm approved, and exactly the
   * executed rows have run; a rejected or expired row never has.
   */
  lemma EffectsAreApprovedAndUnique(steps: seq<Step>)
    requires Legal(EMPTY, steps)
    ensures
      var s := After(EMPTY, steps);
      && (forall i, j | 0 <= i < j < |s.ran| :: s.ran[i] != s.ran[j])
      && (forall id | id in s.ran :: id in s.confirmed)
      && (forall id :: id in s.ran <==> id in s.rows && s.rows[id].status == Executed)
  {
    Q.EmptyInv();
    LegalKeepsInv(EMPTY, steps);
  }

  /** An approved row that has not run is never forgotten: its job is queued, failed or parked. */
  lemma ApprovedRowsAreExecutedOrPending(steps: seq<Step>, id: ApprovalId)
    requires Legal(EMPTY, steps)
    requires var s := After(EMPTY, steps); id in s.rows && s.rows[id].status == Approved
    ensures
      var q := After(EMPTY, steps).queue;
      || (exists j :: j in q.jobs && q.jobs[j].key == KeyOf(id))
      || (exists row :: row in q.dead && q.dead[row] == KeyOf(id))
  {
    Q.EmptyInv();
    LegalKeepsInv(EMPTY, steps);
    var q := After(EMPTY, steps).queue;
    assert Q.Accounted(q, KeyOf(id));
    if exists j :: Q.Stands(q, j, KeyOf(id)) {
      var j :| Q.Stands(q, j, KeyOf(id));
      assert j in q.jobs && q.jobs[j].key == KeyOf(id);
    }
  }

  /** Rejected, expired and executed rows are final. */
  lemma {:induction false} TerminalRowsStay(s: State, steps: seq<Step>, id: ApprovalId)
    requires Inv(s) && Legal(s, steps) && id in s.rows
    requires s.rows[id].status == Rejected || s.rows[id].status == Expired || s.rows[id].status == Executed
    ensures id in After(s, steps).rows && After(s, steps).rows[id] == s.rows[id]
    decreases |steps|
  {
    if steps != [] {
      StepKeepsInv(s, steps[0]);
      TerminalRowsStay(Apply(s, steps[0]), steps[1..], id);
    }
  }

  /**
   * Every step of every kind changes a row by one edge of the machine or not at all, and
   * in nothing but its status; only a confirm approves or rejects, only time expires, and
   * only a delivery of its own job executes.
   */
  lemma StepsFollowEdges(s: State, step: Step, id: ApprovalId)
    requires Enabled(s, step) && id in s.rows
    ensures
      var s' := Apply(s, step);
      && id in s'.rows && s'.rows[id] == s.rows[id].(status := s'.rows[id].status)
      && match (s.rows[id].status, s'.rows[id].status)
         case (PendingApproval, Approved) => step.Confirm? && step.id == id && step.approve
         case (PendingApproval, Rejected) => step.Confirm? && step.id == id && !step.approve
         case (PendingApproval, Expired) => step.Expire? && s.rows[id].expiresAt < step.now
         case (Approved, Executed) =>
           && step.Queue? && step.st.Succeed? && s'.ran == s.ran + [id]
           && s.queue.deliveries[step.st.t].key == Q.Key("approval.execute", "approval", id)
         case (before, after) => before == after
  {
  }

  /** The table of edges. */
  lemma Edges(from: Status, to: Status)
    ensures MayMove(from, to) <==>
      (from, to) in {(Draft, PendingApproval), (PendingApproval, Approved), (PendingApproval, Rejected),
                     (PendingApproval, Expired), (Approved, Executed)}
  {
  }

  /** Some run leads from `s` to `s'`. */
  ghost predicate Reaches(s: State, s': State) {
    exists steps :: Legal(s, steps) && After(s, steps) == s'
  }

  lemma {:induction false} LegalSnoc(s: State, steps: seq<Step>, step: Step)
    requires Legal(s, steps) && Enabled(After(s, steps), step)
    ensures Legal(s, steps + [step]) && After(s, steps + [step]) == Apply(After(s, steps), step)
    decreases |steps|
  {
    var all := steps + [step];
    if steps == [] {
      assert all[1..] == [];
    } else {
      assert all[0] == steps[0] && all[1..] == steps[1..] + [step];
      LegalSnoc(Apply(s, steps[0]), steps[1..], step);
    }
  }

  lemma ReachesSelf(s: State)
    ensures Reaches(s, s)
  {
    assert Legal(s, []) && After(s, []) == s;
  }

  lemma ReachesStep(s: State, s': State, step: Step)
    requires Reaches(s, s') && Enabled(s', step)
    ensures Reaches(s, Apply(s', step))
  {
    var steps :| Legal(s, steps) && After(s, steps) == s';
    LegalSnoc(s, steps, step);
  }

  /** A queued job of an approval is picked up and claims its key. */
  lemma JobClaims(s0: State, s: State, id: ApprovalId, job: Q.JobId, t: Q.Tx) returns (s': State)
    requires Reaches(s0, s) && t !in s.queue.deliveries && job in s.queue.jobs && s.queue.jobs[job].key == KeyOf(id)
    requires s.queue.jobs[job].attempts < s.queue.jobs[job].maxAttempts
    requires KeyOf(id) !in s.queue.runLock && KeyOf(id) !in s.queue.consumed
    ensures Reaches(s0, s') && s' == s.(queue := s'.queue) && t in s'.queue.deliveries
    ensures s'.queue.deliveries[t].phase == Q.Claimed && s'.queue.deliveries[t].key == KeyOf(id)
  {
    ReachesStep(s0, s, Queue(Q.PickUp(t, job)));
    var s1 := Apply(s, Queue(Q.PickUp(t, job)));
    ReachesStep(s0, s1, Queue(Q.TakeRunLock(t)));
    var s2 := Apply(s1, Queue(Q.TakeRunLock(t)));
    ReachesStep(s0, s2, Queue(Q.InsertClaim(t)));
    s' := Apply(s2, Queue(Q.InsertClaim(t)));
  }

  /**
   * An approved action does run: after the confirm, a delivery of the job it enqueued can
   * commit the effect, once, and mark the row executed.
   */
  lemma ConfirmedActionRuns(s: State, id: ApprovalId, who: Principal, job: Q.JobId, t: Q.Tx)
    requires Inv(s) && Enabled(s, Confirm(id, who, true, job))
    requires t !in s.queue.deliveries && KeyOf(id) !in s.queue.runLock
    ensures exists s' ::
      && Reaches(s, s') && s'.rows == s.rows[id := s.rows[id].(status := Executed)] && s'.ran == s.ran + [id]
      && KeyOf(id) in s'.queue.consumed
  {
    ReachesSelf(s);
    ReachesStep(s, s, Confirm(id, who, true, job));
    var s1 := Apply(s, Confirm(id, who, true, job));
    var s2 := JobClaims(s, s1, id, job, t);
    ReachesStep(s, s2, Queue(Q.Succeed(t)));
    var s3 := Apply(s2, Queue(Q.Succeed(t)));
    assert s3.rows == s.rows[id := s.rows[id].(status := Executed)];
  }

  // ------------------------------------------------------------------- service

  class ApprovalService {
    var s: State

    constructor ()
      ensures s == EMPTY
    {
      s := EMPTY;
    }

    method CreateApproval(id: ApprovalId, who: Principal, status: Status, contentBearing: bool, expiresAt: int)
      requires id !in s.rows && (status == Draft || status == PendingApproval)
      modifies this
      ensures
        var row := Row(status, who.user, who.org, contentBearing, expiresAt);
        Enabled(old(s), Create(id, row)) && s == Apply(old(s), Create(id, row))
    {
      s := s.(rows := s.rows[id := Row(status, who.user, who.org, contentBearing, expiresAt)]);
    }

    /** The authenticated decision: the row and, on approval, its job move together. */
    method ConfirmApproval(id: ApprovalId, who: Principal, approve: bool, job: Q.JobId)
        returns (r: Result<Status, Error>)
      requires job !in s.queue.usedIds
      modifies this
      ensures r.Err? ==> s == old(s)
      ensures r.Ok? <==> Enabled(old(s), Confirm(id, who, approve, job))
      ensures r.Ok? ==> s == Apply(old(s), Confirm(id, who, approve, job))
      ensures r.Ok? ==> id in s.rows && r.value == s.rows[id].status
      // from the row: another organisation's, or somebody else's personal content, is not found
      ensures r == Err(NotFound) <==>
        || id !in old(s).rows || old(s).rows[id].org != who.org
        || (old(s).rows[id].contentBearing && old(s).rows[id].requestedBy != who.user)
      ensures r.Ok? ==>
        && old(s).rows[id].status == PendingApproval
        && s.rows == old(s).rows[id := old(s).rows[id].(status := if approve then Approved else Rejected)]
      ensures r == Err(IllegalTransition) ==> old(s).rows[id].status != PendingApproval
      ensures r.Ok? && approve ==>
        s.queue.jobs == old(s).queue.jobs[job := Q.Job(Q.Key("approval.execute", "approval", id), 0, 10)]
      ensures r.Ok? && !approve ==> s.queue == old(s).queue
    {
      if id !in s.rows || s.rows[id].org != who.org { return Err(NotFound); }
      var current := s.rows[id];
      if current.contentBearing && current.requestedBy != who.user { return Err(NotFound); }
      var to := if approve then Approved else Rejected;
      if !MayMove(current.status, to) { return Err(IllegalTransition); }
      s := s.(rows := s.rows[id := current.(status := to)]);
      if approve {
        s := s.(queue := Q.Apply(s.queue, Q.Enqueue(job, KeyOf(id), JOB_MAX_ATTEMPTS)),
                confirmed := s.confirmed + {id});
      }
      r := Ok(to);
    }

    /** The scheduled pass; `n` is the number of rows it expired. */
    method ExpireStale(now: int) returns (n: nat)
      modifies this
      ensures s == Apply(old(s), Expire(now)) && s.rows.Keys == old(s).rows.Keys
      ensures forall id | id in s.rows ::
        s.rows[id] ==
          if old(s).rows[id].status == PendingApproval && old(s).rows[id].expiresAt < now
          then old(s).rows[id].(status := Expired) else old(s).rows[id]
      ensures n == |set id | id in old(s).rows && Stale(old(s).rows[id], now)|
    {
      ghost var before := s.rows;
      var stale := set id | id in s.rows && Stale(s.rows[id], now);
      n := |stale|;
      var todo := stale;
      while todo != {}
        invariant todo <= stale && s == old(s).(rows := s.rows) && s.rows.Keys == before.Keys
        invariant forall id | id in before ::
          s.rows[id] == if id in stale - todo then before[id].(status := Expired) else before[id]
        decreases todo
      {
        var id :| id in todo;
        s := s.(rows := s.rows[id := s.rows[id].(status := Expired)]);
        todo := todo - {id};
      }
      assert s.rows.Keys == AllExpired(before, now).Keys;
      assert s.rows == AllExpired(before, now);
    }

    /**
     * The executor, inside a claimed delivery's transaction. An error rolls the
     * claim back with it, so nothing but Ok commits anything. `payloadValid` is false
     * when the stored payload does not parse or the effect throws.
     */
    method ExecuteApproval(t: Q.Tx, payloadValid: bool) returns (r: Result<bool, Error>)
      requires RunsHandler(s, Q.Succeed(t))
      modifies this
      ensures r.Err? ==> s == old(s)
      ensures r.Ok? ==> Enabled(old(s), Queue(Q.Succeed(t))) && s == Apply(old(s), Queue(Q.Succeed(t)))
      ensures r.Ok? ==> (r.value <==> old(s).rows[old(s).queue.deliveries[t].key.sourceId].status == Executed)
      ensures r == Ok(false) ==>
        var id := old(s).queue.deliveries[t].key.sourceId;
        && s.ran == old(s).ran + [id] && s.rows == old(s).rows[id := old(s).rows[id].(status := Executed)]
      ensures r == Ok(true) ==> s.ran == old(s).ran && s.rows == old(s).rows
      ensures r.Ok? <==>
        var id := old(s).queue.deliveries[t].key.sourceId;
        && id in old(s).rows
        && (old(s).rows[id].status == Executed || (old(s).rows[id].status == Approved && payloadValid))
    {
      var id := s.queue.deliveries[t].key.sourceId;
      if id !in s.rows { return Err(NotFound); }
      if s.rows[id].status == Executed {
        s := s.(queue := Q.Apply(s.queue, Q.Succeed(t)));
        return Ok(true);
      }
      if s.rows[id].status != Approved { return Err(IllegalTransition); }
      if !payloadValid { return Err(InvalidPayload); }
      s := s.(queue := Q.Apply(s.queue, Q.Succeed(t)));
      s := Execute(s, id);
      r := Ok(false);
    }
  }
}
