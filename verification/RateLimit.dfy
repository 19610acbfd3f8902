/**
 * The fixed-window limiter of the HTTP guard and of email intake: what a window
 * lets through, what any interval of one window length can see, and that evicting
 * expired windows changes no verdict.
 */
module RateLimit {
  import opened Common

  datatype Window = Window(count: nat, resetAt: int)

  const EVICTION_THRESHOLD := 10000

  /** A request finds no window, or one that has run out. */
  predicate Opens(w: Option<Window>, now: int) { w.None? || now >= w.value.resetAt }

  predicate Admits(w: Option<Window>, limit: nat, now: int) { Opens(w, now) || w.value.count < limit }

  /** The window after a request: opened, counted up, or left full. */
  function Next(w: Option<Window>, limit: nat, length: nat, now: int): Window {
    if Opens(w, now) then Window(1, now + length)
    else if w.value.count >= limit then w.value
    else w.value.(count := w.value.count + 1)
  }

  // -------------------------------------------------------------- one key's run

  predicate NonDecreasing(times: seq<int>) { forall i, j | 0 <= i < j < |times| :: times[i] <= times[j] }

  function Verdicts(w: Option<Window>, limit: nat, length: nat, times: seq<int>): (r: seq<bool>)
    ensures |r| == |times|
    decreases |times|
  {
    if times == [] then []
    else [Admits(w, limit, times[0])] + Verdicts(Some(Next(w, limit, length, times[0])), limit, length, times[1..])
  }

  /** How many requests with a time in [x, x + length) are admitted. */
  function AdmittedIn(w: Option<Window>, limit: nat, length: nat, times: seq<int>, x: int): nat
    decreases |times|
  {
    if times == [] then 0
    else
      (if Admits(w, limit, times[0]) && x <= times[0] < x + length then 1 else 0)
      + AdmittedIn(Some(Next(w, limit, length, times[0])), limit, length, times[1..], x)
  }

  /** The true verdicts among the requests in [x, x + length). */
  function Passed(verdicts: seq<bool>, times: seq<int>, length: nat, x: int): nat
    requires |verdicts| == |times|
    decreases |times|
  {
    if times == [] then 0
    else (if verdicts[0] && x <= times[0] < x + length then 1 else 0) + Passed(verdicts[1..], times[1..], length, x)
  }

  lemma {:induction false} AdmittedArePassed(w: Option<Window>, limit: nat, length: nat, times: seq<int>, x: int)
    ensures AdmittedIn(w, limit, length, times, x) == Passed(Verdicts(w, limit, length, times), times, length, x)
    decreases |times|
  {
    if times != [] { AdmittedArePassed(Some(Next(w, limit, length, times[0])), limit, length, times[1..], x); }
  }

  /** A window admits its first `limit` requests and refuses the rest until it runs out. */
  lemma {:induction false} WindowAdmitsItsShare(w: Window, limit: nat, length: nat, times: seq<int>, i: nat)
    requires i < |times| && forall k | 0 <= k < |times| :: times[k] < w.resetAt
    ensures Verdicts(Some(w), limit, length, times)[i] <==> w.count + i < limit
    decreases i
  {
    var next := Next(Some(w), limit, length, times[0]);
    if i > 0 { WindowAdmitsItsShare(next, limit, length, times[1..], i - 1); }
  }

  /**
   * At most `limit` requests per window: of the requests that arrive within one
   * window length of the one that opens it, exactly the first `limit` pass.
   */
  lemma FirstOnesPass(w: Option<Window>, limit: nat, length: nat, times: seq<int>, i: nat)
    requires limit > 0 && i < |times| && Opens(w, times[0])
    requires forall k | 0 < k < |times| :: times[k] < times[0] + length
    ensures Verdicts(w, limit, length, times)[i] <==> i < limit
  {
    if i > 0 { WindowAdmitsItsShare(Window(1, times[0] + length), limit, length, times[1..], i - 1); }
  }

  /** What an interval may still see, given the window in force and a clock past `clock`. */
  function Allowance(w: Option<Window>, limit: nat, length: nat, clock: int, x: int): int {
    if clock >= x + length then 0
    else if w.None? || w.value.resetAt <= x then 2 * limit - 1
    else if w.value.resetAt < x + length then (limit - w.value.count) + limit
    else limit - w.value.count
  }

  lemma {:induction false} AdmittedWithinAllowance(w: Option<Window>, limit: nat, length: nat, times: seq<int>,
      clock: int, x: int)
    requires limit > 0 && (w.Some? ==> 1 <= w.value.count <= limit)
    requires NonDecreasing(times) && forall i | 0 <= i < |times| :: clock <= times[i]
    ensures AdmittedIn(w, limit, length, times, x) <= Allowance(w, limit, length, clock, x)
    decreases |times|
  {
    if times != [] {
      var now := times[0];
      AdmittedWithinAllowance(Some(Next(w, limit, length, now)), limit, length, times[1..], now, x);
    }
  }

  /**
   * Over a whole run, however long, no half-open interval of one window length sees
   * more than 2 * limit - 1 admitted requests: the opener of the older window is
   * always outside it.
   */
  lemma IntervalBound(limit: nat, length: nat, times: seq<int>, x: int)
    requires limit > 0 && NonDecreasing(times)
    ensures Passed(Verdicts(None, limit, length, times), times, length, x) <= 2 * limit - 1
  {
    AdmittedArePassed(None, limit, length, times, x);
    if times != [] { AdmittedWithinAllowance(None, limit, length, times, times[0], x); }
  }

  function Repeat(now: int, n: nat): (r: seq<int>)
    ensures |r| == n && forall i | 0 <= i < n :: r[i] == now
  {
    if n == 0 then [] else [now] + Repeat(now, n - 1)
  }

  lemma {:induction false} BurstIsAdmitted(w: Window, limit: nat, length: nat, now: int, n: nat, rest: seq<int>, x: int)
    requires w.count + n <= limit && now < w.resetAt && x <= now < x + length
    ensures AdmittedIn(Some(w), limit, length, Repeat(now, n) + rest, x)
         == n + AdmittedIn(Some(Window(w.count + n, w.resetAt)), limit, length, rest, x)
    decreases n
  {
    if n > 0 {
      assert (Repeat(now, n) + rest)[1..] == Repeat(now, n - 1) + rest;
      BurstIsAdmitted(Window(w.count + 1, w.resetAt), limit, length, now, n - 1, rest, x);
    } else {
      assert Repeat(now, 0) + rest == rest;
    }
  }

  /** The bound is sharp: one request, a burst just before the window ends, a burst just after. */
  lemma IntervalBoundIsReached(limit: nat, length: nat)
    requires limit > 0 && length > 1
    ensures
      var times := [0] + Repeat(length - 1, limit - 1) + Repeat(length, limit);
      NonDecreasing(times) && Passed(Verdicts(None, limit, length, times), times, length, length - 1) == 2 * limit - 1
  {
    var late, after := Repeat(length - 1, limit - 1), Repeat(length, limit);
    var times := [0] + late + after;
    assert times[1..] == late + after && after == [length] + Repeat(length, limit - 1);
    var x := length - 1;
    BurstIsAdmitted(Window(1, length), limit, length, x, limit - 1, after, x);
    var full := Window(limit, length);
    assert Next(Some(full), limit, length, length) == Window(1, 2 * length);
    assert Repeat(length, limit - 1) + [] == Repeat(length, limit - 1);
    BurstIsAdmitted(Window(1, 2 * length), limit, length, length, limit - 1, [], x);
    AdmittedArePassed(None, limit, length, times, x);
  }

  // ------------------------------------------------------------------- many keys

  datatype Request<K> = Request(key: K, at: int)

  function Lookup<K>(windows: map<K, Window>, key: K): Option<Window> {
    if key in windows then Some(windows[key]) else None
  }

  function Counted<K>(windows: map<K, Window>, limit: nat, length: nat, r: Request<K>): map<K, Window> {
    windows[r.key := Next(Lookup(windows, r.key), limit, length, r.at)]
  }

  function Decisions<K>(windows: map<K, Window>, limit: nat, length: nat, requests: seq<Request<K>>): (r: seq<bool>)
    ensures |r| == |requests|
    decreases |requests|
  {
    if requests == [] then []
    else
      [Admits(Lookup(windows, requests[0].key), limit, requests[0].at)]
      + Decisions(Counted(windows, limit, length, requests[0]), limit, length, requests[1..])
  }

  function TimesOf<K(==)>(requests: seq<Request<K>>, key: K): seq<int> {
    if requests == [] then []
    else (if requests[0].key == key then [requests[0].at] else []) + TimesOf(requests[1..], key)
  }

  function DecisionsOf<K(==)>(requests: seq<Request<K>>, verdicts: seq<bool>, key: K): seq<bool>
    requires |requests| == |verdicts|
  {
    if requests == [] then []
    else (if requests[0].key == key then [verdicts[0]] else []) + DecisionsOf(requests[1..], verdicts[1..], key)
  }

  /** Keys do not disturb each other: each one is decided as if it were alone. */
  lemma {:induction false} KeysAreIndependent<K>(windows: map<K, Window>, limit: nat, length: nat,
      requests: seq<Request<K>>, key: K)
    ensures DecisionsOf(requests, Decisions(windows, limit, length, requests), key)
         == Verdicts(Lookup(windows, key), limit, length, TimesOf(requests, key))
    decreases |requests|
  {
    if requests != [] {
      var windows' := Counted(windows, limit, length, requests[0]);
      KeysAreIndependent(windows', limit, length, requests[1..], key);
      assert Decisions(windows, limit, length, requests)[1..] == Decisions(windows', limit, length, requests[1..]);
      if requests[0].key == key {
        assert TimesOf(requests, key)[1..] == TimesOf(requests[1..], key);
        assert Lookup(windows', key) == Some(Next(Lookup(windows, key), limit, length, requests[0].at));
      } else {
        assert Lookup(windows', key) == Lookup(windows, key) && TimesOf(requests, key) == TimesOf(requests[1..], key);
      }
    }
  }

  // -------------------------------------------------------------------- eviction

  function Evicted<K>(windows: map<K, Window>, now: int): map<K, Window> {
    map k | k in windows && now < windows[k].resetAt :: windows[k]
  }

  /** Intake: opening a window in a crowded map first counts, then drops what has run out. */
  function CountedAndEvicted<K>(windows: map<K, Window>, limit: nat, length: nat, r: Request<K>): map<K, Window> {
    var counted := Counted(windows, limit, length, r);
    if Opens(Lookup(windows, r.key), r.at) && |counted| > EVICTION_THRESHOLD then Evicted(counted, r.at) else counted
  }

  function IntakeDecisions<K>(windows: map<K, Window>, limit: nat, length: nat,
                              requests: seq<Request<K>>): (r: seq<bool>)
    ensures |r| == |requests|
    decreases |requests|
  {
    if requests == [] then []
    else
      [Admits(Lookup(windows, requests[0].key), limit, requests[0].at)]
      + IntakeDecisions(CountedAndEvicted(windows, limit, length, requests[0]), limit, length, requests[1..])
  }

  /** `kept` forgot only windows that had run out by `clock`. */
  predicate ForgotOnlyExpired<K>(windows: map<K, Window>, kept: map<K, Window>, clock: int) {
    && (forall k | k in kept :: k in windows && kept[k] == windows[k])
    && (forall k | k in windows && k !in kept :: windows[k].resetAt <= clock)
  }

  lemma EvictionStepAgrees<K>(windows: map<K, Window>, kept: map<K, Window>, limit: nat, length: nat, r: Request<K>,
                              clock: int)
    requires ForgotOnlyExpired(windows, kept, clock) && clock <= r.at
    ensures Admits(Lookup(windows, r.key), limit, r.at) <==> Admits(Lookup(kept, r.key), limit, r.at)
    ensures ForgotOnlyExpired(Counted(windows, limit, length, r), CountedAndEvicted(kept, limit, length, r), r.at)
  {
  }

  /** Evicting expired windows changes no verdict, for a clock that does not run backwards. */
  lemma {:induction false} EvictionIsInvisible<K>(windows: map<K, Window>, kept: map<K, Window>, limit: nat,
      length: nat, requests: seq<Request<K>>, clock: int)
    requires ForgotOnlyExpired(windows, kept, clock)
    requires forall i | 0 <= i < |requests| :: clock <= requests[i].at
    requires forall i, j | 0 <= i < j < |requests| :: requests[i].at <= requests[j].at
    ensures IntakeDecisions(kept, limit, length, requests) == Decisions(windows, limit, length, requests)
    decreases |requests|
  {
    if requests != [] {
      EvictionStepAgrees(windows, kept, limit, length, requests[0], clock);
      EvictionIsInvisible(Counted(windows, limit, length, requests[0]),
        CountedAndEvicted(kept, limit, length, requests[0]),
                          limit, length, requests[1..], requests[0].at);
    }
  }

  lemma {:induction false} TimesOfInOrder<K>(requests: seq<Request<K>>, key: K)
    requires forall i, j | 0 <= i < j < |requests| :: requests[i].at <= requests[j].at
    ensures NonDecreasing(TimesOf(requests, key))
    ensures requests != [] ==> forall t | t in TimesOf(requests, key) :: requests[0].at <= t
    decreases |requests|
  {
    if requests != [] {
      TimesOfInOrder(requests[1..], key);
      var rest, times := TimesOf(requests[1..], key), TimesOf(requests, key);
      if |requests| > 1 { assert requests[0].at <= requests[1].at; }
      assert times == (if requests[0].key == key then [requests[0].at] else []) + rest;
      forall i, j | 0 <= i < j < |times| ensures times[i] <= times[j] {
        if requests[0].key == key { assert times[j] == rest[j - 1] && rest[j - 1] in rest; }
      }
    }
  }

  /**
   * From a cold start and for a clock that does not run backwards, both limiters pass
   * at most 2 * limit - 1 requests of any one key in any interval of one window length.
   */
  lemma EveryKeyIsBounded<K>(limit: nat, length: nat, requests: seq<Request<K>>, key: K, x: int)
    requires limit > 0 && forall i, j | 0 <= i < j < |requests| :: requests[i].at <= requests[j].at
    ensures IntakeDecisions(map[], limit, length, requests) == Decisions(map[], limit, length, requests)
    ensures
      var verdicts := DecisionsOf(requests, Decisions(map[], limit, length, requests), key);
      |verdicts| == |TimesOf(requests, key)| && Passed(verdicts, TimesOf(requests, key), length, x) <= 2 * limit - 1
  {
    if requests != [] { EvictionIsInvisible(map[], map[], limit, length, requests, requests[0].at); }
    KeysAreIndependent(map[], limit, length, requests, key);
    TimesOfInOrder(requests, key);
    IntervalBound(limit, length, TimesOf(requests, key), x);
  }

  // ---------------------------------------------------------------- the two users

  datatype Key = Key(bucket: string, user: string)

  class RateLimitGuard {
    var windows: map<Key, Window>
    const limits: map<string, int>
    const windowSeconds: nat

    constructor (limits: map<string, int>, windowSeconds: nat)
      ensures windows == map[] && this.limits == limits && this.windowSeconds == windowSeconds
    {
      windows := map[];
      this.limits, this.windowSeconds := limits, windowSeconds;
    }

    /** A route without a bucket, a bucket without a cap and a caller without a principal pass uncounted. */
    predicate Counts(bucket: Option<string>, user: Option<string>) {
      && bucket.Some? && bucket.value != "" && bucket.value in limits && limits[bucket.value] > 0
      && user.Some? && user.value != ""
    }

    method CanActivate(bucket: Option<string>, user: Option<string>, now: int) returns (ok: bool)
      modifies this
      ensures !Counts(bucket, user) ==> ok && windows == old(windows)
      ensures Counts(bucket, user) ==>
        var key, limit := Key(bucket.value, user.value), limits[bucket.value];
        && ok == Admits(Lookup(old(windows), key), limit, now)
        && windows == Counted(old(windows), limit, windowSeconds * 1000, Request(key, now))
    {
      if bucket.None? || bucket.value == "" || bucket.value !in limits || limits[bucket.value] <= 0 { return true; }
      if user.None? || user.value == "" { return true; }
      var key, limit := Key(bucket.value, user.value), limits[bucket.value];
      var windowMs := windowSeconds * 1000;
      if key !in windows || now >= windows[key].resetAt {
        windows := windows[key := Window(1, now + windowMs)];
        return true;
      }
      if windows[key].count >= limit {
        assert windows == windows[key := windows[key]];
        return false;
      }
      windows := windows[key := windows[key].(count := windows[key].count + 1)];
      ok := true;
    }
  }

  class IntakeRate {
    var windows: map<string, Window>
    const max: int
    const windowSeconds: nat

    constructor (max: int, windowSeconds: nat)
      ensures windows == map[] && this.max == max && this.windowSeconds == windowSeconds
    {
      windows := map[];
      this.max, this.windowSeconds := max, windowSeconds;
    }

    method WithinIntakeRate(sender: Option<string>, now: int) returns (ok: bool)
      modifies this
      ensures max <= 0 ==> ok && windows == old(windows)
      ensures max > 0 ==>
        var key := if sender.Some? then sender.value else "<null-sender>";
        && ok == Admits(Lookup(old(windows), key), max, now)
        && windows == CountedAndEvicted(old(windows), max, windowSeconds * 1000, Request(key, now))
      // other senders keep their windows, but for expired ones once there are more than 10,000
      ensures max > 0 ==>
        var key := if sender.Some? then sender.value else "<null-sender>";
        && (forall k | k in windows && k != key :: k in old(windows) && windows[k] == old(windows)[k])
        && (forall k | k in old(windows) && k !in windows ::
             old(windows)[k].resetAt <= now && |old(windows).Keys + {key}| > 10000)
    {
      if max <= 0 { return true; }
      var key := if sender.Some? then sender.value else "<null-sender>";
      var windowMs := windowSeconds * 1000;
      if key !in windows || now >= windows[key].resetAt {
        windows := windows[key := Window(1, now + windowMs)];
        assert windows.Keys == old(windows).Keys + {key} && |windows| == |windows.Keys|;
        if |windows| > EVICTION_THRESHOLD { EvictExpired(now); }
        return true;
      }
      if windows[key].count >= max {
        assert windows == windows[key := windows[key]];
        return false;
      }
      windows := windows[key := windows[key].(count := windows[key].count + 1)];
      ok := true;
    }

    method EvictExpired(now: int)
      modifies this
      ensures windows == Evicted(old(windows), now)
    {
      var todo := windows.Keys;
      while todo != {}
        invariant todo <= windows.Keys <= old(windows).Keys
        invariant forall k | k in windows :: windows[k] == old(windows)[k] && (k in todo || now < windows[k].resetAt)
        invariant forall k | k in old(windows) && k !in windows :: now >= old(windows)[k].resetAt
        decreases todo
      {
        var k :| k in todo;
        if now >= windows[k].resetAt { windows := windows - {k}; }
        todo := todo - {k};
      }
    }
  }
}
