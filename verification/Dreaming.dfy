/**
 * The window bookkeeping of the nightly cycle: every run takes up where the last
 * finished one ended. A run reads its clock, then the watermark, then inserts its row,
 * each in a statement of its own; runs may overlap between any two of them, fail at any
 * point, and finish in any order. Clocks and finish stamps are arbitrary: a run reads its
 * stamp before it commits it, so finishes may commit out of stamp order.
 */
module Dreaming {
  import opened Common

  type RunId = nat

  const LOOKBACK := 24 * 3600 * 1000

  /**
   * A run that has read its watermark, hence knows its window; `inserted` says that its
   * row is in the table, `live` that its process may still go on. A slow start can make
   * `from` exceed `to`.
   */
  datatype Run = Run(from: int, to: int, inserted: bool, finishedAt: Option<int>, live: bool) {
    predicate Holds(x: int) { from <= x < to }
  }

  /** `drafts` are runs that have read their clock only; `first` is the run whose finish committed first. */
  datatype State = State(runs: map<RunId, Run>, drafts: map<RunId, int>, first: Option<RunId>)

  datatype Step =
    | ReadClock(id: RunId, now: int)
    | ReadWatermark(id: RunId, last: Option<RunId>)
    | Insert(id: RunId)
    | Finish(id: RunId, at: int)
    | Crash(id: RunId)

  const COLD := State(map[], map[], None)

  predicate Finished(s: State, id: RunId) { id in s.runs && s.runs[id].finishedAt.Some? }

  /** A run between its watermark and its finish, whether its row is in the table yet or not. */
  predicate Pending(s: State, id: RunId) { id in s.runs && s.runs[id].finishedAt.None? && s.runs[id].live }

  /** What the watermark query may return: a run with the latest finish, nothing when none has finished. */
  predicate IsLast(s: State, last: Option<RunId>) {
    match last
    case None => forall id | id in s.runs :: !Finished(s, id)
    case Some(l) =>
      && Finished(s, l)
      && forall id | id in s.runs && Finished(s, id) :: s.runs[id].finishedAt.value <= s.runs[l].finishedAt.value
  }

  predicate Enabled(s: State, st: Step) {
    match st
    case ReadClock(id, now) => id !in s.runs && id !in s.drafts
    case ReadWatermark(id, last) => id in s.drafts && id !in s.runs && IsLast(s, last)
    case Insert(id) => Pending(s, id) && !s.runs[id].inserted
    case Finish(id, at) => Pending(s, id) && s.runs[id].inserted
    case Crash(id) => Pending(s, id) || id in s.drafts
  }

  function ScopeFrom(s: State, now: int, last: Option<RunId>): int
    requires last.Some? ==> last.value in s.runs
  {
    match last case Some(l) => s.runs[l].to case None => now - LOOKBACK
  }

  function Apply(s: State, st: Step): State
    requires Enabled(s, st)
  {
    match st
    case ReadClock(id, now) => s.(drafts := s.drafts[id := now])
    case ReadWatermark(id, last) =>
      var now := s.drafts[id];
      s.(runs := s.runs[id := Run(ScopeFrom(s, now, last), now, false, None, true)], drafts := s.drafts - {id})
    case Insert(id) => s.(runs := s.runs[id := s.runs[id].(inserted := true)])
    case Finish(id, at) =>
      s.(runs := s.runs[id := s.runs[id].(finishedAt := Some(at), live := false)],
         first := if s.first.None? then Some(id) else s.first)
    case Crash(id) =>
      if Pending(s, id) then s.(runs := s.runs[id := s.runs[id].(live := false)]) else s.(drafts := s.drafts - {id})
  }

  /**
   * The condition, asked where a run finds no watermark and looks back: its window and
   * that of every run pending by then, inserted or not, touch each other.
   */
  predicate Guarded(s: State, st: Step) {
    st.ReadWatermark? && st.last.None? && st.id in s.drafts ==>
      forall p | p in s.runs && Pending(s, p) ::
        s.drafts[st.id] - LOOKBACK <= s.runs[p].to && s.runs[p].from <= s.drafts[st.id]
  }

  predicate Legal(s: State, steps: seq<Step>, guarded: bool)
    decreases |steps|
  {
    steps == [] ||
    (Enabled(s, steps[0]) && (guarded ==> Guarded(s, steps[0])) && Legal(Apply(s, steps[0]), steps[1..], guarded))
  }

  function After(s: State, steps: seq<Step>, guarded: bool): State
    requires Legal(s, steps, guarded)
    decreases |steps|
  {
    if steps == [] then s else After(Apply(s, steps[0]), steps[1..], guarded)
  }

  // ------------------------------------------------------------------- coverage

  predicate Covers(s: State, x: int) { exists id | id in s.runs :: Finished(s, id) && s.runs[id].Holds(x) }

  /** `x` lies between the start of the first finished run's window and the end of finished window `id`. */
  predicate Within(s: State, id: RunId, x: int) {
    && s.first.Some? && s.first.value in s.runs && Finished(s, id)
    && s.runs[s.first.value].from <= x < s.runs[id].to
  }

  /** From the start of the first finished run's window up to the latest finished window end there is no gap. */
  ghost predicate NoGap(s: State) {
    forall id, x: int | Within(s, id, x) :: Covers(s, x)
  }

  /** Before anything has finished every run has looked back. */
  predicate LookedBack(s: State) {
    s.first.None? ==> forall id | id in s.runs :: !Finished(s, id) && s.runs[id].from == s.runs[id].to - LOOKBACK
  }

  /** A pending run starts no later than some finished window ends, or than any other pending one does. */
  ghost predicate Attached(s: State) {
    forall id | id in s.runs && Pending(s, id) ::
      if s.first.Some? then exists p :: Finished(s, p) && s.runs[id].from <= s.runs[p].to
      else forall p | p in s.runs && Pending(s, p) :: s.runs[id].from <= s.runs[p].to
  }

  ghost predicate Inv(s: State) {
    LookedBack(s) && Attached(s) && NoGap(s) && (s.first.Some? ==> Finished(s, s.first.value))
  }

  lemma CoversStays(s: State, s': State, x: int)
    requires Covers(s, x)
    requires forall id | id in s.runs && Finished(s, id) :: id in s'.runs && s'.runs[id] == s.runs[id]
    ensures Covers(s', x)
  {
    var id :| id in s.runs && Finished(s, id) && s.runs[id].Holds(x);
    assert Finished(s', id);
  }

  /** Steps that finish nothing, and add no pending run or one that is attached, keep everything. */
  lemma QuietKeepsInv(s: State, s': State)
    requires Inv(s) && s'.first == s.first && LookedBack(s')
    requires forall id :: Finished(s', id) <==> Finished(s, id)
    requires forall id | id in s.runs && Finished(s, id) :: id in s'.runs && s'.runs[id] == s.runs[id]
    requires s.first.Some? ==> forall id | id in s'.runs && Pending(s', id) ::
      (id in s.runs && Pending(s, id) && s'.runs[id].from == s.runs[id].from)
      || exists p :: Finished(s, p) && s'.runs[id].from <= s.runs[p].to
    requires s.first.None? ==> Attached(s')
    ensures Inv(s')
  {
    forall id | s'.first.Some? && id in s'.runs && Pending(s', id)
      ensures exists p :: Finished(s', p) && s'.runs[id].from <= s'.runs[p].to
    {
      var p :| Finished(s, p) && s'.runs[id].from <= s.runs[p].to;
      assert Finished(s', p);
    }
    forall id, x: int | Within(s', id, x) ensures Covers(s', x) {
      assert Within(s, id, x);
      CoversStays(s, s', x);
    }
  }

  lemma WatermarkKeepsInv(s: State, id: RunId, last: Option<RunId>)
    requires Inv(s) && Enabled(s, ReadWatermark(id, last)) && Guarded(s, ReadWatermark(id, last))
    ensures Inv(Apply(s, ReadWatermark(id, last)))
  {
    if s.first.Some? {
      assert Finished(s, s.first.value);
      assert last.Some? && Finished(s, last.value);
    }
    QuietKeepsInv(s, Apply(s, ReadWatermark(id, last)));
  }

  lemma FinishKeepsAttached(s: State, id: RunId, at: int)
    requires Inv(s) && Enabled(s, Finish(id, at))
    ensures Attached(Apply(s, Finish(id, at)))
  {
    var s' := Apply(s, Finish(id, at));
    forall i | i in s'.runs && Pending(s', i) ensures exists p :: Finished(s', p) && s'.runs[i].from <= s'.runs[p].to {
      assert Pending(s, i) && i != id;
      if s.first.Some? {
        var p :| Finished(s, p) && s.runs[i].from <= s.runs[p].to;
        assert Finished(s', p) && p != id;
      } else {
        assert Finished(s', id);
      }
    }
  }

  lemma FinishLeavesNoGap(s: State, id: RunId, at: int, i: RunId, x: int)
    requires Inv(s) && Enabled(s, Finish(id, at)) && Within(Apply(s, Finish(id, at)), i, x)
    ensures Covers(Apply(s, Finish(id, at)), x)
  {
    var s' := Apply(s, Finish(id, at));
    if s.runs[id].Holds(x) {
      assert Finished(s', id) && s'.runs[id].Holds(x);
    } else if s.first.Some? {
      assert s.first.value != id;
      if i == id {
        var p :| Finished(s, p) && s.runs[id].from <= s.runs[p].to;
        assert Within(s, p, x);
      } else {
        assert Within(s, i, x);
      }
      CoversStays(s, s', x);
    }
  }

  lemma FinishKeepsInv(s: State, id: RunId, at: int)
    requires Inv(s) && Enabled(s, Finish(id, at))
    ensures Inv(Apply(s, Finish(id, at)))
  {
    FinishKeepsAttached(s, id, at);
    forall i, x: int | Within(Apply(s, Finish(id, at)), i, x) ensures Covers(Apply(s, Finish(id, at)), x) {
      FinishLeavesNoGap(s, id, at, i, x);
    }
  }

  lemma StepKeepsInv(s: State, st: Step)
    requires Inv(s) && Enabled(s, st) && Guarded(s, st)
    ensures Inv(Apply(s, st))
  {
    match st
    case ReadClock(_, _) => QuietKeepsInv(s, Apply(s, st));
    case ReadWatermark(id, last) => WatermarkKeepsInv(s, id, last);
    case Insert(_) => QuietKeepsInv(s, Apply(s, st));
    case Finish(id, at) => FinishKeepsInv(s, id, at);
    case Crash(_) => QuietKeepsInv(s, Apply(s, st));
  }

  lemma {:induction false} RunKeepsInv(s: State, steps: seq<Step>)
    requires Inv(s) && Legal(s, steps, true)
    ensures Inv(After(s, steps, true))
    decreases |steps|
  {
    if steps != [] {
      StepKeepsInv(s, steps[0]);
      RunKeepsInv(Apply(s, steps[0]), steps[1..]);
    }
  }

  /**
   * Over any guarded sequence of finished, overlapping and crashed runs the finished
   * windows leave no gap.
   */
  lemma WindowsLeaveNoGap(steps: seq<Step>)
    requires Legal(COLD, steps, true)
    ensures NoGap(After(COLD, steps, true))
  {
    RunKeepsInv(COLD, steps);
  }

  // --------------------------------------------------------------- single flight

  /** At most one run at a time, from its clock to its finish, as for scheduled cycles; a crashed one is over. */
  predicate SingleFlight(s: State, steps: seq<Step>)
    requires Legal(s, steps, false)
    decreases |steps|
  {
    steps == [] ||
    ((steps[0].ReadClock? ==> s.drafts == map[] && forall id | id in s.runs :: !Pending(s, id))
     && SingleFlight(Apply(s, steps[0]), steps[1..]))
  }

  predicate Alone(s: State) {
    forall id | id in s.drafts ::
      (forall p | p in s.drafts :: p == id) && (forall p | p in s.runs :: !Pending(s, p))
  }

  lemma {:induction false} SingleFlightIsGuarded(s: State, steps: seq<Step>)
    requires Legal(s, steps, false) && SingleFlight(s, steps) && Alone(s)
    ensures Legal(s, steps, true) && After(s, steps, true) == After(s, steps, false)
    decreases |steps|
  {
    if steps != [] { SingleFlightIsGuarded(Apply(s, steps[0]), steps[1..]); }
  }

  /** Scheduled cycles run one at a time, so they never need the condition. */
  lemma SingleFlightLeavesNoGap(steps: seq<Step>)
    requires Legal(COLD, steps, false) && SingleFlight(COLD, steps)
    ensures NoGap(After(COLD, steps, false))
  {
    SingleFlightIsGuarded(COLD, steps);
    WindowsLeaveNoGap(steps);
  }

  // ------------------------------------------------------------ the exact condition

  /** The row of a pending run gets into the table, if it is not there yet. */
  lemma InsertIfNeeded(s: State, id: RunId) returns (steps: seq<Step>)
    requires Pending(s, id)
    ensures Legal(s, steps, true)
    ensures After(s, steps, true) == s.(runs := s.runs[id := s.runs[id].(inserted := true)])
  {
    if s.runs[id].inserted {
      steps := [];
    } else {
      steps := [Insert(id)];
      assert steps[1..] == [];
    }
  }

  lemma {:induction false} LegalAppend(s: State, a: seq<Step>, b: seq<Step>, guarded: bool)
    requires Legal(s, a, guarded) && Legal(After(s, a, guarded), b, guarded)
    ensures Legal(s, a + b, guarded) && After(s, a + b, guarded) == After(After(s, a, guarded), b, guarded)
    decreases |a|
  {
    if a == [] {
      assert a + b == b;
    } else {
      assert (a + b)[1..] == a[1..] + b;
      LegalAppend(Apply(s, a[0]), a[1..], b, guarded);
    }
  }

  /** Two runs whose rows are in the table finish one after the other. */
  lemma TwoFinish(s: State, a: RunId, b: RunId) returns (steps: seq<Step>)
    requires Pending(s, a) && Pending(s, b) && a != b && s.runs[a].inserted && s.runs[b].inserted
    ensures Legal(s, steps, true)
    ensures After(s, steps, true) == Apply(Apply(s, Finish(a, 0)), Finish(b, 0))
  {
    steps := [Finish(a, 0), Finish(b, 0)];
    var s1 := Apply(s, steps[0]);
    var s2 := Apply(s1, steps[1]);
    assert steps[1..] == [steps[1]] && [steps[1]][1..] == [];
    assert Legal(s2, [], true) && After(s2, [], true) == s2;
    assert Legal(s1, steps[1..], true) && After(s1, steps[1..], true) == s2;
  }

  /** Only `a` and `b` have finished, `a` first, with the windows they had in `s`. */
  predicate JustFinished(s: State, a: RunId, b: RunId, s': State)
    requires a in s.runs && b in s.runs
  {
    && s'.first == Some(a) && (forall id | id in s'.runs :: Finished(s', id) <==> id == a || id == b)
    && a in s'.runs && s'.runs[a].from == s.runs[a].from && s'.runs[a].to == s.runs[a].to
    && b in s'.runs && s'.runs[b].from == s.runs[b].from && s'.runs[b].to == s.runs[b].to
  }

  /** Two pending runs get into the table and finish, `a` first, nothing else having finished. */
  lemma BothFinish(s: State, a: RunId, b: RunId) returns (steps: seq<Step>)
    requires Pending(s, a) && Pending(s, b) && a != b && s.first.None? && forall id | id in s.runs :: !Finished(s, id)
    ensures Legal(s, steps, true) && JustFinished(s, a, b, After(s, steps, true))
  {
    var first := InsertIfNeeded(s, a);
    var s1 := After(s, first, true);
    var second := InsertIfNeeded(s1, b);
    var s2 := After(s1, second, true);
    var third := TwoFinish(s2, a, b);
    LegalAppend(s1, second, third, true);
    LegalAppend(s, first, second + third, true);
    steps := first + (second + third);
  }

  /**
   * Once a run has looked back across more than the lookback from a pending one, both
   * may finish, and the time between their windows belongs to no finished run.
   */
  lemma UnguardedLookbackGaps(s: State, u: RunId, id: RunId) returns (steps: seq<Step>)
    requires Inv(s) && s.first.None? && Pending(s, u) && Enabled(s, ReadWatermark(id, None))
    requires s.runs[u].to < s.drafts[id] - LOOKBACK || s.drafts[id] < s.runs[u].from
    ensures Legal(Apply(s, ReadWatermark(id, None)), steps, true)
    ensures !NoGap(After(Apply(s, ReadWatermark(id, None)), steps, true))
  {
    var s1 := Apply(s, ReadWatermark(id, None));
    assert Pending(s1, u) && Pending(s1, id);
    if s.runs[u].to < s.drafts[id] - LOOKBACK {
      steps := BothFinish(s1, u, id);
      var s' := After(s1, steps, true);
      assert Within(s', id, s.runs[u].to) && !Covers(s', s.runs[u].to);
    } else {
      steps := BothFinish(s1, id, u);
      var s' := After(s1, steps, true);
      assert Within(s', u, s.drafts[id]) && !Covers(s', s.drafts[id]);
    }
  }

  /**
   * The condition is exact: reading the watermark is safe for everything that may follow
   * if and only if the run does not look back across a pending one.
   */
  lemma GuardIsExact(s: State, id: RunId, last: Option<RunId>)
    requires Inv(s) && Enabled(s, ReadWatermark(id, last))
    ensures
      var s1 := Apply(s, ReadWatermark(id, last));
      Guarded(s, ReadWatermark(id, last)) <==> forall steps | Legal(s1, steps, true) :: NoGap(After(s1, steps, true))
  {
    var st := ReadWatermark(id, last);
    var s1 := Apply(s, st);
    if Guarded(s, st) {
      WatermarkKeepsInv(s, id, last);
      forall steps | Legal(s1, steps, true) ensures NoGap(After(s1, steps, true)) { RunKeepsInv(s1, steps); }
    } else {
      var u :| u in s.runs && Pending(s, u)
               && !(s.drafts[id] - LOOKBACK <= s.runs[u].to && s.runs[u].from <= s.drafts[id]);
      var steps := UnguardedLookbackGaps(s, u, id);
    }
  }

  /** The states GuardIsExact speaks of include every one that a guarded run reaches. */
  lemma GuardedRunsAreExact(steps: seq<Step>, id: RunId, last: Option<RunId>)
    requires Legal(COLD, steps, true) && Enabled(After(COLD, steps, true), ReadWatermark(id, last))
    ensures
      var s := After(COLD, steps, true);
      var s1 := Apply(s, ReadWatermark(id, last));
      Guarded(s, ReadWatermark(id, last)) <==> forall more | Legal(s1, more, true) :: NoGap(After(s1, more, true))
  {
    RunKeepsInv(COLD, steps);
    GuardIsExact(After(COLD, steps, true), id, last);
  }

  /**
   * From a cold start a guarded run comes to a second run that finds no watermark more
   * than the lookback after the first one's clock, whose row is not even inserted yet.
   */
  lemma LookbackIsReachedUnsafe(now: int) returns (steps: seq<Step>)
    ensures Legal(COLD, steps, true) && Enabled(After(COLD, steps, true), ReadWatermark(1, None))
    ensures !Guarded(After(COLD, steps, true), ReadWatermark(1, None))
    ensures exists more ::
      var s1 := Apply(After(COLD, steps, true), ReadWatermark(1, None));
      Legal(s1, more, true) && !NoGap(After(s1, more, true))
  {
    var late := now + 2 * LOOKBACK;
    steps := [ReadClock(0, now), ReadWatermark(0, None), ReadClock(1, late)];
    var s1 := Apply(COLD, steps[0]);
    var s2 := Apply(s1, steps[1]);
    var s3 := Apply(s2, steps[2]);
    assert Legal(s3, [], true) && After(s3, [], true) == s3;
    assert steps[1..][1..] == [steps[2]] && [steps[2]][1..] == [];
    assert Legal(s2, [steps[2]], true) && After(s2, [steps[2]], true) == s3;
    assert Legal(s1, steps[1..], true) && After(s1, steps[1..], true) == s3;
    assert Pending(s3, 0) && s3.drafts[1] == late && s3.runs[0].to == now;
    GuardedRunsAreExact(steps, 1, None);
  }

  // ------------------------------------------------------------------- single runs

  /** A run that nothing stops: clock, watermark, row, finish. */
  function WholeRun(id: RunId, now: int, last: Option<RunId>, at: int): seq<Step> {
    [ReadClock(id, now), ReadWatermark(id, last), Insert(id), Finish(id, at)]
  }

  /**
   * A run is never kept from finishing: its window is then on record, from the window end
   * of the finished run it took up, or from 24 hours back, to its own clock.
   */
  lemma RunFinishes(s: State, id: RunId, now: int, last: Option<RunId>, at: int)
    requires id !in s.runs && id !in s.drafts && IsLast(s, last)
    ensures Legal(s, WholeRun(id, now, last, at), false)
    ensures
      var s' := After(s, WholeRun(id, now, last, at), false);
      var from := if last.Some? then s.runs[last.value].to else now - 86400000;
      && s'.runs == s.runs[id := Run(from, now, true, Some(at), false)] && s'.drafts == s.drafts
      && (s.first.Some? ==> s'.first == s.first) && (s.first.None? ==> s'.first == Some(id))
  {
    var steps := WholeRun(id, now, last, at);
    var s1 := Apply(s, steps[0]);
    var s2 := Apply(s1, steps[1]);
    var s3 := Apply(s2, steps[2]);
    var s4 := Apply(s3, steps[3]);
    assert Legal(s4, [], false) && After(s4, [], false) == s4;
    assert [steps[3]][1..] == [] && Legal(s3, [steps[3]], false) && After(s3, [steps[3]], false) == s4;
    assert [steps[2], steps[3]][1..] == [steps[3]];
    assert Legal(s2, [steps[2], steps[3]], false) && After(s2, [steps[2], steps[3]], false) == s4;
    assert steps[1..][1..] == [steps[2], steps[3]];
    assert Legal(s1, steps[1..], false) && After(s1, steps[1..], false) == s4;
    assert s4.drafts == s.drafts;
  }

  /** What a run may do next: its clock first, then the watermark, then its row, then its finish, each once. */
  lemma NextOfRun(s: State, id: RunId, now: int, last: Option<RunId>)
    requires id !in s.drafts || id !in s.runs
    ensures Enabled(s, ReadClock(id, now)) <==> id !in s.drafts && id !in s.runs
    ensures Enabled(s, ReadWatermark(id, last)) ==> id in s.drafts
    ensures last.Some? && Enabled(s, ReadWatermark(id, last)) ==>
      && last.value in s.runs && s.runs[last.value].finishedAt.Some?
      && forall r | r in s.runs && s.runs[r].finishedAt.Some? ::
           s.runs[r].finishedAt.value <= s.runs[last.value].finishedAt.value
    ensures Enabled(s, Insert(id)) <==>
      id in s.runs && s.runs[id].live && s.runs[id].finishedAt == None && !s.runs[id].inserted
    ensures Enabled(s, Finish(id, now)) <==>
      id in s.runs && s.runs[id].live && s.runs[id].finishedAt == None && s.runs[id].inserted
  {
  }

  /** A run may crash wherever it stands; it then takes no further step, and its row, if any, stays unfinished. */
  lemma CrashEndsRun(s: State, id: RunId)
    requires id !in s.drafts || id !in s.runs
    ensures Enabled(s, Crash(id)) <==>
      id in s.drafts || (id in s.runs && s.runs[id].finishedAt == None && s.runs[id].live)
    ensures Enabled(s, Crash(id)) ==>
      var s' := Apply(s, Crash(id));
      && id !in s'.drafts && s'.drafts.Keys == s.drafts.Keys - {id} && s'.runs.Keys == s.runs.Keys
      && (forall other | other in s.runs && other != id :: s'.runs[other] == s.runs[other])
      && (id in s.runs ==> s'.runs[id].from == s.runs[id].from && s'.runs[id].to == s.runs[id].to
                           && s'.runs[id].finishedAt == None)
      && s'.first == s.first && !Enabled(s', Insert(id))
      && (forall last :: !Enabled(s', ReadWatermark(id, last))) && (forall at :: !Enabled(s', Finish(id, at)))
  {
  }

  // --------------------------------------------------------------------- service

  class DreamingService {
    var s: State

    constructor ()
      ensures s == COLD
    {
      s := COLD;
    }

    /** The last finished run's window end; without one, the lookback. */
    method DefaultScopeFrom(now: int) returns (from: int, last: Option<RunId>)
      ensures IsLast(s, last) && from == ScopeFrom(s, now, last)
      ensures last.None? ==> from == now - 86400000 && forall id | id in s.runs :: s.runs[id].finishedAt == None
      ensures last.Some? ==> last.value in s.runs && from == s.runs[last.value].to
      ensures last.Some? ==> s.runs[last.value].finishedAt.Some?
      ensures last.Some? ==> forall id | id in s.runs && s.runs[id].finishedAt.Some? ::
        s.runs[id].finishedAt.value <= s.runs[last.value].finishedAt.value
    {
      last := None;
      var todo := s.runs.Keys;
      while todo != {}
        invariant todo <= s.runs.Keys
        invariant last.Some? ==> Finished(s, last.value)
        invariant forall id | id in s.runs && id !in todo && Finished(s, id) ::
          last.Some? && s.runs[id].finishedAt.value <= s.runs[last.value].finishedAt.value
        decreases todo
      {
        var id :| id in todo;
        if Finished(s, id) && (last.None? || s.runs[last.value].finishedAt.value < s.runs[id].finishedAt.value) {
          last := Some(id);
        }
        todo := todo - {id};
      }
      from := match last case Some(l) => s.runs[l].to case None => now - LOOKBACK;
    }

    /** The run's clock; everything it does later uses this instant. */
    method ReadClock(id: RunId, now: int)
      requires Enabled(s, Step.ReadClock(id, now))
      modifies this
      ensures s == Apply(old(s), Step.ReadClock(id, now))
    {
      s := s.(drafts := s.drafts[id := now]);
    }

    /** Fixes the run's window. */
    method ReadWatermark(id: RunId) returns (last: Option<RunId>)
      requires id in s.drafts && id !in s.runs
      modifies this
      ensures Enabled(old(s), Step.ReadWatermark(id, last)) && s == Apply(old(s), Step.ReadWatermark(id, last))
    {
      var now := s.drafts[id];
      var from;
      from, last := DefaultScopeFrom(now);
      s := s.(runs := s.runs[id := Run(from, now, false, None, true)], drafts := s.drafts - {id});
    }

    /** Inserts the run row; the work follows. */
    method InsertRun(id: RunId)
      requires Enabled(s, Insert(id))
      modifies this
      ensures s == Apply(old(s), Insert(id))
    {
      s := s.(runs := s.runs[id := s.runs[id].(inserted := true)]);
    }

    /** Stamps the row once the work is done. */
    method FinishRun(id: RunId, at: int)
      requires Enabled(s, Finish(id, at))
      modifies this
      ensures s == Apply(old(s), Finish(id, at))
    {
      var first := if s.first.None? then Some(id) else s.first;
      s := s.(runs := s.runs[id := s.runs[id].(finishedAt := Some(at), live := false)], first := first);
    }
  }
}
