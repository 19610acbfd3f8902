/**
 * The job queue: idempotent deliveries, run locks, retries, dead letters and the
 * operator's retry, as interleaved steps of any number of workers.
 *
 * A worker may crash at any step. A job can be delivered to two workers at once (a
 * redelivery after a lost worker), and one key can be enqueued many times.
 */
module JobQueue {
  import opened Common

  datatype Key = Key(jobType: string, sourceType: string, sourceId: string)
  type Tx = nat
  type JobId = nat
  type RowId = nat

  const DEAD_LETTER_WRITE_ATTEMPTS := 3
  const RETRY_MAX_ATTEMPTS := 10

  datatype Job = Job(key: Key, attempts: nat, maxAttempts: nat)

  datatype Phase =
    | Blocked              // waits for the run lock of its key
    | Locked
    | Claimed              // the claim row is inserted, the handler runs
    | Duplicate            // the key was consumed before: skip
    | Committed            // the transaction is durable, the job still queued
    | Failed(writes: nat)  // rolled back; so many dead-letter writes have failed
    | Parked               // the dead-letter row is durable, the job still queued
  {
    predicate HoldsRunLock() { Locked? || Claimed? || Duplicate? }
  }

  /** One delivery of one job; `last` is attempts >= max_attempts at pick-up. */
  datatype Delivery = Delivery(job: JobId, key: Key, last: bool, phase: Phase)

  datatype State = State(
    jobs: map<JobId, Job>,          // queued, running and permanently failed jobs
    usedIds: set<JobId>,
    deliveries: map<Tx, Delivery>,
    runLock: map<Key, Tx>,
    consumed: set<Key>,
    dead: map<RowId, Key>,
    enqueued: set<Key>,
    effects: seq<Key>)              // committed handler effects, in commit order

  datatype Step =
    | Enqueue(job: JobId, key: Key, maxAttempts: nat)
    | PickUp(t: Tx, job: JobId)
    | TakeRunLock(t: Tx)
    | InsertClaim(t: Tx)
    | Succeed(t: Tx)
    | Fail(t: Tx)
    | Rethrow(t: Tx)
    | WriteDead(t: Tx, ok: bool, row: RowId)
    | Complete(t: Tx)
    | Crash(t: Tx)
    | ConsumeKey(key: Key)          // the deletion saga cancels a pending job
    | Retry(row: RowId, job: JobId) // the operator's retry of a dead letter

  const EMPTY := State(map[], {}, map[], map[], {}, map[], {}, [])

  predicate Enabled(s: State, st: Step) {
    match st
    case Enqueue(j, _, max) => j !in s.usedIds && max >= 1
    case PickUp(t, j) => t !in s.deliveries && j in s.jobs && s.jobs[j].attempts < s.jobs[j].maxAttempts
    case TakeRunLock(t) => t in s.deliveries && s.deliveries[t].phase.Blocked? && s.deliveries[t].key !in s.runLock
    case InsertClaim(t) => t in s.deliveries && s.deliveries[t].phase.Locked?
    case Succeed(t) => t in s.deliveries && (s.deliveries[t].phase.Claimed? || s.deliveries[t].phase.Duplicate?)
    case Fail(t) =>
      t in s.deliveries && (s.deliveries[t].phase.Blocked? || s.deliveries[t].phase.HoldsRunLock())
    case Rethrow(t) =>
      && t in s.deliveries && s.deliveries[t].phase.Failed?
      && (s.deliveries[t].last ==> s.deliveries[t].phase.writes >= DEAD_LETTER_WRITE_ATTEMPTS)
    case WriteDead(t, _, row) =>
      && t in s.deliveries && s.deliveries[t].phase.Failed? && s.deliveries[t].last
      && s.deliveries[t].phase.writes < DEAD_LETTER_WRITE_ATTEMPTS && row !in s.dead
    case Complete(t) => t in s.deliveries && (s.deliveries[t].phase.Committed? || s.deliveries[t].phase.Parked?)
    case Crash(t) => t in s.deliveries
    case ConsumeKey(k) => k !in s.runLock
    case Retry(row, j) => row in s.dead && j !in s.usedIds
  }

  function Goto(s: State, t: Tx, ph: Phase): State
    requires t in s.deliveries
  {
    s.(deliveries := s.deliveries[t := s.deliveries[t].(phase := ph)])
  }

  /** Transaction end: the run lock is released. */
  function Unlock(s: State, t: Tx): State
    requires t in s.deliveries
  {
    if s.deliveries[t].phase.HoldsRunLock() then s.(runLock := s.runLock - {s.deliveries[t].key}) else s
  }

  function End(s: State, t: Tx): State
    requires t in s.deliveries
  {
    Unlock(s, t).(deliveries := s.deliveries - {t})
  }

  function Apply(s: State, st: Step): State
    requires Enabled(s, st)
  {
    match st
    case Enqueue(j, k, max) =>
      s.(jobs := s.jobs[j := Job(k, 0, max)], usedIds := s.usedIds + {j}, enqueued := s.enqueued + {k})
    case PickUp(t, j) =>
      var job := s.jobs[j].(attempts := s.jobs[j].attempts + 1);
      s.(jobs := s.jobs[j := job],
         deliveries := s.deliveries[t := Delivery(j, job.key, job.attempts >= job.maxAttempts, Blocked)])
    case TakeRunLock(t) => Goto(s, t, Locked).(runLock := s.runLock[s.deliveries[t].key := t])
    case InsertClaim(t) => Goto(s, t, if s.deliveries[t].key in s.consumed then Duplicate else Claimed)
    case Succeed(t) =>
      var k := s.deliveries[t].key;
      var done := Goto(Unlock(s, t), t, Committed);
      if s.deliveries[t].phase.Duplicate? then done
      else done.(consumed := s.consumed + {k}, effects := s.effects + [k])
    case Fail(t) => Goto(Unlock(s, t), t, Failed(0))
    case Rethrow(t) => End(s, t)
    case WriteDead(t, ok, row) =>
      if ok then Goto(s, t, Parked).(dead := s.dead[row := s.deliveries[t].key])
      else Goto(s, t, Failed(s.deliveries[t].phase.writes + 1))
    case Complete(t) => End(s, t).(jobs := s.jobs - {s.deliveries[t].job})
    case Crash(t) => End(s, t)
    case ConsumeKey(k) => s.(consumed := s.consumed + {k})
    case Retry(row, j) =>
      s.(jobs := s.jobs[j := Job(s.dead[row], 0, RETRY_MAX_ATTEMPTS)], usedIds := s.usedIds + {j},
         dead := s.dead - {row})
  }

  predicate Legal(s: State, steps: seq<Step>)
    decreases |steps|
  {
    steps == [] || (Enabled(s, steps[0]) && Legal(Apply(s, steps[0]), steps[1..]))
  }

  function After(s: State, steps: seq<Step>): State
    requires Legal(s, steps)
    decreases |steps|
  {
    if steps == [] then s else After(Apply(s, steps[0]), steps[1..])
  }

  // ---------------------------------------------------------------- invariants

  ghost predicate ParkedOn(s: State, j: JobId) {
    exists t :: t in s.deliveries && s.deliveries[t].job == j && s.deliveries[t].phase.Parked?
  }

  /** A job that still stands for its key: no dead-letter row has taken over from it. */
  ghost predicate Stands(s: State, j: JobId, k: Key) {
    j in s.jobs && s.jobs[j].key == k && !ParkedOn(s, j)
  }

  /** The key is consumed, held by the queue (running and permanently failed jobs too), or a dead letter. */
  ghost predicate Accounted(s: State, k: Key) {
    k in s.consumed || (exists row :: row in s.dead && s.dead[row] == k) || (exists j :: Stands(s, j, k))
  }

  ghost predicate DeliveryInv(s: State, t: Tx)
    requires t in s.deliveries
  {
    var d := s.deliveries[t];
    && d.job in s.usedIds
    && (d.job in s.jobs ==> s.jobs[d.job].key == d.key)
    && (d.phase.HoldsRunLock() <==> d.key in s.runLock && s.runLock[d.key] == t)
    && (d.phase.Claimed? ==> d.key !in s.consumed)
    && (d.phase.Duplicate? || d.phase.Committed? ==> d.key in s.consumed)
  }

  ghost predicate Inv(s: State) {
    && s.jobs.Keys <= s.usedIds
    && (forall t | t in s.deliveries :: DeliveryInv(s, t))
    && (forall k | k in s.runLock :: s.runLock[k] in s.deliveries && s.deliveries[s.runLock[k]].key == k)
    && (forall k | k in s.enqueued :: Accounted(s, k))
    && EffectsInv(s)
  }

  /** Every effect belongs to a consumed key, and no key has two. */
  predicate EffectsInv(s: State) {
    && (forall i | 0 <= i < |s.effects| :: s.effects[i] in s.consumed)
    && (forall i, j | 0 <= i < j < |s.effects| :: s.effects[i] != s.effects[j])
  }

  lemma EmptyInv()
    ensures Inv(EMPTY)
  {
  }

  /** A job keeps standing when no delivery of it newly parks. */
  lemma StandsAcross(s: State, s': State, j: JobId, k: Key)
    requires Stands(s, j, k) && j in s'.jobs && s'.jobs[j].key == k
    requires forall t | t in s'.deliveries && s'.deliveries[t].phase.Parked? ::
      t in s.deliveries && s.deliveries[t] == s'.deliveries[t]
    ensures Stands(s', j, k)
  {
  }

  lemma AccountedAcross(s: State, s': State, k: Key)
    requires Accounted(s, k) && s.consumed <= s'.consumed
    requires forall row | row in s.dead :: row in s'.dead && s'.dead[row] == s.dead[row]
    requires forall j | j in s.jobs :: j in s'.jobs && s'.jobs[j].key == s.jobs[j].key
    requires forall t | t in s'.deliveries && s'.deliveries[t].phase.Parked? ::
      t in s.deliveries && s.deliveries[t] == s'.deliveries[t]
    ensures Accounted(s', k)
  {
    if k !in s.consumed && !(exists row :: row in s.dead && s.dead[row] == k) {
      var j :| Stands(s, j, k);
      StandsAcross(s, s', j, k);
    } else if k !in s.consumed {
      var row :| row in s.dead && s.dead[row] == k;
      assert row in s'.dead && s'.dead[row] == k;
    }
  }

  /** Deliveries are independent: it is enough to look at the one that moved. */
  lemma MoveKeepsInv(s: State, s': State, t: Tx)
    requires Inv(s) && t in s.deliveries && t in s'.deliveries
    requires s'.deliveries == s.deliveries[t := s'.deliveries[t]] && !s'.deliveries[t].phase.Parked?
    requires s' == s.(deliveries := s'.deliveries, runLock := s'.runLock)
    requires s'.deliveries[t].key == s.deliveries[t].key && DeliveryInv(s', t)
    requires forall k | k in s.runLock.Keys + s'.runLock.Keys && k != s.deliveries[t].key ::
      k in s.runLock && k in s'.runLock && s'.runLock[k] == s.runLock[k]
    requires s.deliveries[t].key in s'.runLock ==> s'.runLock[s.deliveries[t].key] == t || s'.runLock == s.runLock
    requires s'.runLock != s.runLock ==> s.deliveries[t].key in s.runLock ==> s.runLock[s.deliveries[t].key] == t
    ensures Inv(s')
  {
    forall u | u in s'.deliveries ensures DeliveryInv(s', u) {
      if u != t { assert DeliveryInv(s, u); }
    }
    forall k | k in s'.enqueued ensures Accounted(s', k) { AccountedAcross(s, s', k); }
  }

  /** Steps that leave jobs, dead letters and parked deliveries where they were. */
  lemma LocalStepKeepsInv(s: State, st: Step)
    requires Inv(s) && Enabled(s, st)
    requires st.TakeRunLock? || st.InsertClaim? || st.Fail? || (st.WriteDead? && !st.ok)
    ensures Inv(Apply(s, st))
  {
    assert DeliveryInv(s, st.t);
    MoveKeepsInv(s, Apply(s, st), st.t);
  }

  lemma SucceedKeepsDeliveries(s: State, t: Tx, u: Tx)
    requires Inv(s) && Enabled(s, Succeed(t)) && u in s.deliveries
    ensures DeliveryInv(Apply(s, Succeed(t)), u)
  {
    assert DeliveryInv(s, t) && DeliveryInv(s, u);
  }

  lemma SucceedKeepsAccounts(s: State, t: Tx, k: Key)
    requires Inv(s) && Enabled(s, Succeed(t)) && k in s.enqueued
    ensures Accounted(Apply(s, Succeed(t)), k)
  {
    AccountedAcross(s, Apply(s, Succeed(t)), k);
  }

  lemma SucceedKeepsEffects(s: State, t: Tx)
    requires EffectsInv(s) && Enabled(s, Succeed(t)) && DeliveryInv(s, t)
    ensures EffectsInv(Apply(s, Succeed(t)))
  {
  }

  lemma SucceedKeepsInv(s: State, t: Tx)
    requires Inv(s) && Enabled(s, Succeed(t))
    ensures Inv(Apply(s, Succeed(t)))
  {
    var s' := Apply(s, Succeed(t));
    assert DeliveryInv(s, t);
    SucceedKeepsEffects(s, t);
    assert s'.deliveries.Keys == s.deliveries.Keys;
    forall u | u in s'.deliveries ensures DeliveryInv(s', u) { SucceedKeepsDeliveries(s, t, u); }
    forall k | k in s'.enqueued ensures Accounted(s', k) { SucceedKeepsAccounts(s, t, k); }
  }

  lemma EndKeepsInv(s: State, t: Tx)
    requires Inv(s) && t in s.deliveries
    ensures Inv(End(s, t))
  {
    var s' := End(s, t);
    assert DeliveryInv(s, t);
    forall k | k in s'.enqueued ensures Accounted(s', k) { AccountedAcross(s, s', k); }
  }

  lemma EnqueueKeepsInv(s: State, j: JobId, k: Key, max: nat)
    requires Inv(s) && Enabled(s, Enqueue(j, k, max))
    ensures Inv(Apply(s, Enqueue(j, k, max)))
  {
    var s' := Apply(s, Enqueue(j, k, max));
    forall k' | k' in s'.enqueued ensures Accounted(s', k') {
      if k' == k {
        assert forall t | t in s.deliveries :: DeliveryInv(s, t);
        assert Stands(s', j, k);
      } else {
        AccountedAcross(s, s', k');
      }
    }
  }

  lemma PickUpKeepsInv(s: State, t: Tx, j: JobId)
    requires Inv(s) && Enabled(s, PickUp(t, j))
    ensures Inv(Apply(s, PickUp(t, j)))
  {
    var s' := Apply(s, PickUp(t, j));
    forall k | k in s'.enqueued ensures Accounted(s', k) { AccountedAcross(s, s', k); }
  }

  /** The dead-letter row takes over from the job the parked delivery came from. */
  lemma ParkKeepsInv(s: State, t: Tx, row: RowId)
    requires Inv(s) && Enabled(s, WriteDead(t, true, row))
    ensures Inv(Apply(s, WriteDead(t, true, row)))
  {
    var s' := Apply(s, WriteDead(t, true, row));
    var d := s.deliveries[t];
    assert DeliveryInv(s, t);
    forall k | k in s'.enqueued ensures Accounted(s', k) {
      if k == d.key {
        assert row in s'.dead && s'.dead[row] == k;
      } else if k !in s.consumed && !(exists r :: r in s.dead && s.dead[r] == k) {
        var j :| Stands(s, j, k);
        assert Stands(s', j, k);
      } else if k !in s.consumed {
        var r :| r in s.dead && s.dead[r] == k;
        assert r in s'.dead && s'.dead[r] == k;
      }
    }
  }

  /** The new job takes over from the dead-letter row. */
  lemma RetryKeepsInv(s: State, row: RowId, j: JobId)
    requires Inv(s) && Enabled(s, Retry(row, j))
    ensures Inv(Apply(s, Retry(row, j)))
  {
    var s' := Apply(s, Retry(row, j));
    assert forall t | t in s.deliveries :: DeliveryInv(s, t);
    assert Stands(s', j, s.dead[row]);
    forall k | k in s'.enqueued ensures Accounted(s', k) {
      if k != s.dead[row] && k !in s.consumed {
        if exists r :: r in s.dead && s.dead[r] == k {
          var r :| r in s.dead && s.dead[r] == k;
          assert r in s'.dead && s'.dead[r] == k;
        } else {
          var j' :| Stands(s, j', k);
          StandsAcross(s, s', j', k);
        }
      }
    }
  }

  /** A job leaves the queue only when its key is consumed or a dead letter has taken over. */
  lemma CompleteKeepsInv(s: State, t: Tx)
    requires Inv(s) && Enabled(s, Complete(t))
    ensures Inv(Apply(s, Complete(t)))
  {
    var s' := Apply(s, Complete(t));
    var d := s.deliveries[t];
    EndKeepsInv(s, t);
    forall u | u in s'.deliveries ensures DeliveryInv(s', u) { assert DeliveryInv(s, u); }
    forall k | k in s'.enqueued ensures Accounted(s', k) {
      if k !in s.consumed && !(exists r :: r in s.dead && s.dead[r] == k) {
        assert Accounted(s, k);
        var j :| Stands(s, j, k);
        assert DeliveryInv(s, t);
        assert j != d.job;
        assert Stands(s', j, k);
      }
    }
  }

  lemma StepKeepsInv(s: State, st: Step)
    requires Inv(s) && Enabled(s, st)
    ensures Inv(Apply(s, st))
  {
    match st
    case Enqueue(j, k, max) => EnqueueKeepsInv(s, j, k, max);
    case PickUp(t, j) => PickUpKeepsInv(s, t, j);
    case Succeed(t) => SucceedKeepsInv(s, t);
    case Rethrow(t) => EndKeepsInv(s, t);
    case WriteDead(t, ok, row) => if ok { ParkKeepsInv(s, t, row); } else { LocalStepKeepsInv(s, st); }
    case Complete(t) => CompleteKeepsInv(s, t);
    case Crash(t) => EndKeepsInv(s, t);
    case ConsumeKey(k) => ConsumeKeepsInv(s, k);
    case Retry(row, j) => RetryKeepsInv(s, row, j);
    case TakeRunLock(_) => LocalStepKeepsInv(s, st);
    case InsertClaim(_) => LocalStepKeepsInv(s, st);
    case Fail(_) => LocalStepKeepsInv(s, st);
  }

  lemma ConsumeKeepsInv(s: State, k: Key)
    requires Inv(s) && Enabled(s, ConsumeKey(k))
    ensures Inv(Apply(s, ConsumeKey(k)))
  {
    var s' := Apply(s, ConsumeKey(k));
    forall u | u in s'.deliveries ensures DeliveryInv(s', u) { assert DeliveryInv(s, u); }
    forall k' | k' in s'.enqueued ensures Accounted(s', k') { AccountedAcross(s, s', k'); }
  }

  lemma {:induction false} LegalKeepsInv(s: State, steps: seq<Step>)
    requires Inv(s) && Legal(s, steps)
    ensures Inv(After(s, steps))
    decreases |steps|
  {
    if steps != [] {
      StepKeepsInv(s, steps[0]);
      LegalKeepsInv(Apply(s, steps[0]), steps[1..]);
    }
  }

  /**
   * No job is lost: after any run every enqueued key is consumed, still held by the
   * queue, or parked as a dead letter.
   */
  lemma NoJobIsLost(steps: seq<Step>, k: Key)
    requires Legal(EMPTY, steps)
    requires k in After(EMPTY, steps).enqueued
    ensures
      var s := After(EMPTY, steps);
      || k in s.consumed
      || (exists j :: j in s.jobs && s.jobs[j].key == k)
      || (exists row :: row in s.dead && s.dead[row] == k)
  {
    EmptyInv();
    LegalKeepsInv(EMPTY, steps);
    var s := After(EMPTY, steps);
    assert Accounted(s, k);
    if exists j :: Stands(s, j, k) {
      var j :| Stands(s, j, k);
      assert j in s.jobs && s.jobs[j].key == k;
    }
  }

  /**
   * At most once: over all deliveries, crashes, cancellations and operator retries no
   * key's handler effect commits twice, and every effect that committed consumed its key.
   */
  lemma EffectsAtMostOnce(steps: seq<Step>)
    requires Legal(EMPTY, steps)
    ensures var e := After(EMPTY, steps).effects; forall i, j | 0 <= i < j < |e| :: e[i] != e[j]
    ensures var s := After(EMPTY, steps); forall i | 0 <= i < |s.effects| :: s.effects[i] in s.consumed
  {
    EmptyInv();
    LegalKeepsInv(EMPTY, steps);
  }

  /** Once a key is consumed, by its run or by the saga, no later delivery runs its handler. */
  lemma {:induction false} ConsumedKeysStayQuiet(s: State, steps: seq<Step>, k: Key)
    requires Inv(s) && Legal(s, steps) && k in s.consumed
    ensures k in After(s, steps).consumed
    ensures k in After(s, steps).effects <==> k in s.effects
    decreases |steps|
  {
    if steps != [] {
      var s1 := Apply(s, steps[0]);
      StepKeepsInv(s, steps[0]);
      if steps[0].Succeed? { assert DeliveryInv(s, steps[0].t); }
      ConsumedKeysStayQuiet(s1, steps[1..], k);
    }
  }

  // ------------------------------------------------------------------- progress

  /**
   * A delivery goes through its phases in order: what it may do next is decided by its
   * phase, the run lock of its key and, once it has failed, by the final attempt and the
   * three dead-letter writes.
   */
  lemma NextSteps(s: State, t: Tx, row: RowId, ok: bool)
    requires t in s.deliveries && row !in s.dead
    ensures
      var d := s.deliveries[t];
      && (Enabled(s, TakeRunLock(t)) <==> d.phase == Blocked && d.key !in s.runLock)
      && (Enabled(s, InsertClaim(t)) <==> d.phase == Locked)
      && (Enabled(s, Succeed(t)) <==> d.phase == Claimed || d.phase == Duplicate)
      && (Enabled(s, Fail(t)) <==> d.phase in {Blocked, Locked, Claimed, Duplicate})
      && (Enabled(s, WriteDead(t, ok, row)) <==> d.last && d.phase in {Failed(0), Failed(1), Failed(2)})
      && (Enabled(s, Rethrow(t)) <==> d.phase.Failed? && !(d.last && d.phase in {Failed(0), Failed(1), Failed(2)}))
      && (Enabled(s, Complete(t)) <==> d.phase == Committed || d.phase == Parked)
      && Enabled(s, Crash(t))
  {
  }

  /** A cancellation consumes the key and does nothing else; no job is touched. */
  lemma CancelledKey(s: State, k: Key)
    requires Enabled(s, ConsumeKey(k))
    ensures
      var s1 := Apply(s, ConsumeKey(k));
      k in s1.consumed && s1.consumed - {k} == s.consumed - {k} && s1 == s.(consumed := s1.consumed)
  {
  }

  /** A job is delivered at most as often as it has attempts; ids and rows are used once. */
  lemma NewDeliveries(s: State, t: Tx, j: JobId, k: Key, max: nat, row: RowId)
    ensures Enabled(s, PickUp(t, j)) <==>
      t !in s.deliveries && j in s.jobs && s.jobs[j].maxAttempts - s.jobs[j].attempts > 0
    ensures Enabled(s, Enqueue(j, k, max)) <==> j !in s.usedIds && max > 0
    ensures Enabled(s, Retry(row, j)) <==> row in s.dead && j !in s.usedIds
    ensures Enabled(s, ConsumeKey(k)) <==> k !in s.runLock
  {
  }

  /** A worker picks job `j` up and its handler succeeds. */
  function GoodRun(t: Tx, j: JobId): seq<Step> {
    [PickUp(t, j), TakeRunLock(t), InsertClaim(t), Succeed(t), Complete(t)]
  }

  lemma {:induction false} LegalFive(s: State, a: Step, b: Step, c: Step, d: Step, f: Step)
    requires Enabled(s, a) && Enabled(Apply(s, a), b)
    requires var s2 := Apply(Apply(s, a), b); Enabled(s2, c) && Enabled(Apply(s2, c), d)
    requires var s4 := Apply(Apply(Apply(Apply(s, a), b), c), d); Enabled(s4, f)
    ensures Legal(s, [a, b, c, d, f])
    ensures After(s, [a, b, c, d, f]) == Apply(Apply(Apply(Apply(Apply(s, a), b), c), d), f)
  {
    var s1 := Apply(s, a);
    var s2 := Apply(s1, b);
    var s3 := Apply(s2, c);
    var s4 := Apply(s3, d);
    var s5 := Apply(s4, f);
    assert Legal(s5, []) && After(s5, []) == s5;
    assert [f][1..] == [] && Legal(s4, [f]) && After(s4, [f]) == s5;
    assert [d, f][1..] == [f] && Legal(s3, [d, f]) && After(s3, [d, f]) == s5;
    assert [c, d, f][1..] == [d, f] && Legal(s2, [c, d, f]) && After(s2, [c, d, f]) == s5;
    assert [b, c, d, f][1..] == [c, d, f] && Legal(s1, [b, c, d, f]) && After(s1, [b, c, d, f]) == s5;
    assert [a, b, c, d, f][1..] == [b, c, d, f];
  }

  /** A job with attempts left can run: its key's effect commits, and the job is gone. */
  lemma JobCanRun(s: State, j: JobId, t: Tx)
    requires j in s.jobs && s.jobs[j].attempts < s.jobs[j].maxAttempts && t !in s.deliveries
    requires s.jobs[j].key !in s.runLock && s.jobs[j].key !in s.consumed
    ensures Legal(s, GoodRun(t, j))
    ensures
      var k, s' := s.jobs[j].key, After(s, GoodRun(t, j));
      && s'.effects == s.effects + [k] && s'.consumed == s.consumed + {k}
      && s'.jobs == s.jobs - {j} && s'.dead == s.dead
  {
    LegalFive(s, PickUp(t, j), TakeRunLock(t), InsertClaim(t), Succeed(t), Complete(t));
  }

  /** An enqueued job is the caller's, untried, and can run. */
  lemma EnqueuedJobRuns(s: State, j: JobId, k: Key, max: nat, t: Tx)
    requires Enabled(s, Enqueue(j, k, max)) && t !in s.deliveries && k !in s.runLock && k !in s.consumed
    ensures
      var s1 := Apply(s, Enqueue(j, k, max));
      && s1.jobs == s.jobs[j := Job(k, 0, max)] && k in s1.enqueued
      && Legal(s1, GoodRun(t, j)) && After(s1, GoodRun(t, j)).effects == s.effects + [k]
  {
    JobCanRun(Apply(s, Enqueue(j, k, max)), j, t);
  }

  /**
   * The operator's retry revives the dead letter's work: the row is gone, the new job
   * carries its key with ten untried attempts, and unless the key is consumed or running
   * the job can run and commit the effect.
   */
  lemma RetriedJobRuns(s: State, row: RowId, j: JobId, t: Tx)
    requires Enabled(s, Retry(row, j)) && t !in s.deliveries
    ensures
      var s1 := Apply(s, Retry(row, j));
      && s1.dead == s.dead - {row} && s1.jobs == s.jobs[j := Job(s.dead[row], 0, 10)] && Enabled(s1, PickUp(t, j))
      && Apply(s1, PickUp(t, j)).deliveries[t].key == s.dead[row] && !Apply(s1, PickUp(t, j)).deliveries[t].last
    ensures
      var s1 := Apply(s, Retry(row, j));
      s.dead[row] !in s.runLock && s.dead[row] !in s.consumed ==>
        Legal(s1, GoodRun(t, j)) && After(s1, GoodRun(t, j)).effects == s.effects + [s.dead[row]]
  {
    if s.dead[row] !in s.runLock && s.dead[row] !in s.consumed {
      JobCanRun(Apply(s, Retry(row, j)), j, t);
    }
  }

  /** `n` undisturbed deliveries of job `j`, each of which throws. */
  function FailedTimes(s: State, j: JobId, row: RowId, n: nat): State {
    if n == 0 then s
    else
      var s' := FailedTimes(s, j, row, n - 1);
      if j in s'.jobs then Delivered(s', j, true, true, row) else s'
  }

  /** A job whose handler keeps throwing stays queued until its last attempt, which makes it a dead letter. */
  lemma {:induction false} FailingJobIsParked(s: State, j: JobId, row: RowId, n: nat)
    requires j in s.jobs && s.jobs[j].key !in s.consumed && row !in s.dead
    requires 0 < n && s.jobs[j].attempts + n <= s.jobs[j].maxAttempts
    ensures FailedTimes(s, j, row, n) ==
      if s.jobs[j].attempts + n < s.jobs[j].maxAttempts then
        s.(jobs := s.jobs[j := s.jobs[j].(attempts := s.jobs[j].attempts + n)])
      else
        s.(jobs := s.jobs - {j}, dead := s.dead[row := s.jobs[j].key])
    decreases n
  {
    if n > 1 {
      FailingJobIsParked(s, j, row, n - 1);
      var s' := FailedTimes(s, j, row, n - 1);
      assert s'.jobs - {j} == s.jobs - {j};
    } else {
      assert FailedTimes(s, j, row, 0) == s;
    }
  }

  /** What one undisturbed delivery of job `j` leaves behind. */
  function Delivered(s: State, j: JobId, throws: bool, writable: bool, row: RowId): State
    requires j in s.jobs
  {
    var job := s.jobs[j].(attempts := s.jobs[j].attempts + 1);
    if job.key in s.consumed then s.(jobs := s.jobs - {j})
    else if !throws then
      s.(jobs := s.jobs - {j}, consumed := s.consumed + {job.key}, effects := s.effects + [job.key])
    else if job.attempts >= job.maxAttempts && writable then
      s.(jobs := s.jobs - {j}, dead := s.dead[row := job.key])
    else s.(jobs := s.jobs[j := job])
  }

  /** A worker's view of the queue tables. */
  class Worker {
    var s: State

    constructor ()
      ensures s == EMPTY
    {
      s := EMPTY;
    }

    /**
     * One undisturbed delivery, as `idempotentTask` runs it: run lock, claim,
     * handler, and on a final failure up to three dead-letter writes, of which
     * `writeFails` says which ones fail. Each assignment is one transaction.
     */
    method Deliver(t: Tx, j: JobId, handlerThrows: bool, writeFails: seq<bool>, row: RowId)
      requires Enabled(s, PickUp(t, j)) && s.jobs[j].key !in s.runLock && row !in s.dead
      requires |writeFails| == DEAD_LETTER_WRITE_ATTEMPTS
      modifies this
      ensures s == Delivered(old(s), j, handlerThrows, false in writeFails, row)
    {
      ghost var s0 := s;
      Open(t, j);
      if s.deliveries[t].phase.Duplicate? || !handlerThrows {
        Close(t);
        assert s.jobs == s0.jobs - {j};
      } else {
        RollBack(t);
        assert s.runLock == s0.runLock;
        GiveUp(t, writeFails, row);
        assert s0.jobs[j := s0.jobs[j].(attempts := s0.jobs[j].attempts + 1)] - {j} == s0.jobs - {j};
      }
      assert s.deliveries == s0.deliveries && s.runLock == s0.runLock;
    }

    /** Picks the job up, takes its run lock and inserts the claim. */
    method Open(t: Tx, j: JobId)
      requires Enabled(s, PickUp(t, j)) && s.jobs[j].key !in s.runLock
      modifies this
      ensures
        var k, job := old(s.jobs[j].key), old(s.jobs[j]).(attempts := old(s.jobs[j].attempts) + 1);
        s == old(s).(jobs := old(s.jobs)[j := job], runLock := old(s.runLock)[k := t],
                     deliveries := old(s.deliveries)[t := Delivery(j, k, job.attempts >= job.maxAttempts,
                                     if k in old(s.consumed) then Duplicate else Claimed)])
    {
      s := Apply(s, PickUp(t, j));
      s := Apply(s, TakeRunLock(t));
      s := Apply(s, InsertClaim(t));
    }

    /** Commits the claim with its effect, or the skip, and completes the job. */
    method Close(t: Tx)
      requires Enabled(s, Succeed(t))
      modifies this
      ensures
        var d, ran := old(s.deliveries[t]), old(s.deliveries[t]).phase.Claimed?;
        s == old(s).(deliveries := old(s.deliveries) - {t}, runLock := old(s.runLock) - {d.key},
                     jobs := old(s.jobs) - {d.job},
                     consumed := if ran then old(s.consumed) + {d.key} else old(s.consumed),
                     effects := if ran then old(s.effects) + [d.key] else old(s.effects))
    {
      s := Apply(s, Succeed(t));
      s := Apply(s, Complete(t));
    }

    method RollBack(t: Tx)
      requires t in s.deliveries && s.deliveries[t].phase.Claimed?
      modifies this
      ensures s == old(s).(deliveries := old(s.deliveries)[t := old(s.deliveries[t]).(phase := Failed(0))],
                           runLock := old(s.runLock) - {old(s.deliveries[t]).key})
    {
      s := Apply(s, Fail(t));
    }

    /** The catch block: park the job after its final attempt, or let the error through. */
    method GiveUp(t: Tx, writeFails: seq<bool>, row: RowId)
      requires t in s.deliveries && s.deliveries[t].phase == Failed(0) && row !in s.dead
      requires |writeFails| == DEAD_LETTER_WRITE_ATTEMPTS
      modifies this
      ensures
        var d := old(s.deliveries[t]);
        s == if d.last && false in writeFails then
               old(s).(deliveries := old(s.deliveries) - {t}, jobs := old(s.jobs) - {d.job},
                       dead := old(s.dead)[row := d.key])
             else
               old(s).(deliveries := old(s.deliveries) - {t})
    {
      ghost var failed := s;
      if s.deliveries[t].last {
        var w := 0;
        while w < DEAD_LETTER_WRITE_ATTEMPTS
          invariant 0 <= w <= DEAD_LETTER_WRITE_ATTEMPTS
          invariant s == Goto(failed, t, Failed(w))
          invariant forall i | 0 <= i < w :: writeFails[i]
        {
          s := Apply(s, WriteDead(t, !writeFails[w], row));
          if !writeFails[w] {
            s := Apply(s, Complete(t));
            assert false in writeFails;
            return;
          }
          w := w + 1;
        }
      }
      s := Apply(s, Rethrow(t));
    }
  }
}
