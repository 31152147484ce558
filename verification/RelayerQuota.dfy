/** The fixed-window quota and the circuit breaker of apps/backend/src/utils/relayerQuota.ts, as
    they work in memory. */
module RelayerQuota {
  import opened Wrappers

  datatype Bucket = Bucket(count: nat, resetAt: int)

  /** memTake on the bucket of one key. */
  function Take(b: Option<Bucket>, max: nat, window: nat, now: int): (Option<Bucket>, bool) {
    if b.None? || b.value.resetAt <= now then (Some(Bucket(1, now + window)), true)
    else if b.value.count >= max then (b, false)
    else (Some(b.value.(count := b.value.count + 1)), true)
  }

  class Buckets {
    var buckets: map<string, Bucket>

    constructor ()
      ensures buckets == map[]
    {
      buckets := map[];
    }

    function Of(key: string): Option<Bucket>
      reads this
    {
      if key in buckets then Some(buckets[key]) else None
    }

    method MemTake(key: string, max: nat, window: nat, now: int) returns (granted: bool)
      modifies this
      ensures (Of(key), granted) == Take(old(Of(key)), max, window, now)
      ensures var anew := key !in old(buckets) || old(buckets)[key].resetAt <= now;
        && (granted <==> anew || old(buckets)[key].count < max)
        && buckets == if !granted then old(buckets)
             else if anew then old(buckets)[key := Bucket(1, now + window)]
             else old(buckets)[key := Bucket(old(buckets)[key].count + 1, old(buckets)[key].resetAt)]
    {
      if key !in buckets || buckets[key].resetAt <= now {
        buckets := buckets[key := Bucket(1, now + window)];
        return true;
      }
      if buckets[key].count >= max {
        return false;
      }
      buckets := buckets[key := buckets[key].(count := buckets[key].count + 1)];
      return true;
    }
  }

  // ---- runs of one key -------------------------------------------------------------------------------

  /** The bucket and the times granted, after requests at the given times. */
  datatype Log = Log(bucket: Option<Bucket>, grants: seq<int>)

  function ServeOne(log: Log, max: nat, window: nat, now: int): Log {
    var (b, granted) := Take(log.bucket, max, window, now);
    Log(b, if granted then log.grants + [now] else log.grants)
  }

  function Serve(times: seq<int>, max: nat, window: nat): Log {
    if times == [] then Log(None, [])
    else ServeOne(Serve(times[..|times| - 1], max, window), max, window, times[|times| - 1])
  }

  predicate Rising(times: seq<int>) {
    forall i, j :: 0 <= i < j < |times| ==> times[i] <= times[j]
  }

  /** The grants at or after t. */
  function Since(grants: seq<int>, t: int): nat {
    if grants == [] then 0
    else Since(grants[..|grants| - 1], t) + if grants[|grants| - 1] >= t then 1 else 0
  }

  /** The grants from t to u, both included. */
  function Between(grants: seq<int>, t: int, u: int): nat {
    if grants == [] then 0
    else Between(grants[..|grants| - 1], t, u) + if t <= grants[|grants| - 1] <= u then 1 else 0
  }

  /** With s the start of the current window: exactly `count` grants since s, fewer after s, and at
      most max more in the window's length before it. */
  ghost predicate Ok(log: Log, max: nat, window: nat, now: int) {
    && (forall i :: 0 <= i < |log.grants| ==> log.grants[i] <= now)
    && match log.bucket
       case None => log.grants == []
       case Some(b) =>
         var s := b.resetAt - window;
         && s <= now && 1 <= b.count <= max
         && (forall i :: 0 <= i < |log.grants| ==> log.grants[i] < b.resetAt)
         && (forall t :: t >= s ==> Since(log.grants, t) <= b.count)
         && Since(log.grants, s) == b.count
         && (forall t :: t > s ==> Since(log.grants, t) < b.count)
         && (forall t :: t >= s - window ==> Since(log.grants, t) <= max + b.count)
         && (forall t :: t > s - window ==> Since(log.grants, t) < max + b.count)
  }

  lemma SincePush(grants: seq<int>, now: int, t: int)
    ensures Since(grants + [now], t) == Since(grants, t) + if now >= t then 1 else 0
  {
    assert (grants + [now])[..|grants|] == grants;
  }

  lemma {:induction false} NoneSince(grants: seq<int>, t: int)
    requires forall i :: 0 <= i < |grants| ==> grants[i] < t
    ensures Since(grants, t) == 0
  {
    if grants != [] {
      NoneSince(grants[..|grants| - 1], t);
    }
  }

  lemma SinceOpened(grants: seq<int>, now: int, t: int)
    requires forall i :: 0 <= i < |grants| ==> grants[i] < now
    ensures t > now ==> Since(grants + [now], t) == 0
    ensures t == now ==> Since(grants + [now], t) == 1
    ensures t < now ==> Since(grants + [now], t) == Since(grants, t) + 1
  {
    SincePush(grants, now, t);
    if t >= now {
      NoneSince(grants, t);
    }
  }

  /** A grant that opens a new window. */
  lemma OpenKeepsOk(log: Log, max: nat, window: nat, last: int, now: int)
    requires max >= 1 && window >= 1 && Ok(log, max, window, last) && last <= now
    requires log.bucket.None? || log.bucket.value.resetAt <= now
    ensures Ok(Log(Some(Bucket(1, now + window)), log.grants + [now]), max, window, now)
  {
    var gs := log.grants + [now];
    forall t
      ensures t > now ==> Since(gs, t) == 0
      ensures t == now ==> Since(gs, t) == 1
      ensures t < now ==> Since(gs, t) == Since(log.grants, t) + 1
    {
      SinceOpened(log.grants, now, t);
    }
  }

  /** A grant inside the current window. */
  lemma CountKeepsOk(log: Log, max: nat, window: nat, last: int, now: int)
    requires Ok(log, max, window, last) && last <= now
    requires log.bucket.Some? && now < log.bucket.value.resetAt && log.bucket.value.count < max
    ensures Ok(Log(Some(log.bucket.value.(count := log.bucket.value.count + 1)), log.grants + [now]), max, window, now)
  {
    forall t ensures Since(log.grants + [now], t) == Since(log.grants, t) + if now >= t then 1 else 0 {
      SincePush(log.grants, now, t);
    }
  }

  lemma ServeOneKeepsOk(log: Log, max: nat, window: nat, last: int, now: int)
    requires max >= 1 && window >= 1 && Ok(log, max, window, last) && last <= now
    ensures Ok(ServeOne(log, max, window, now), max, window, now)
  {
    if log.bucket.None? || log.bucket.value.resetAt <= now {
      OpenKeepsOk(log, max, window, last, now);
    } else if log.bucket.value.count < max {
      CountKeepsOk(log, max, window, last, now);
    }
  }

  lemma OkLater(log: Log, max: nat, window: nat, last: int, now: int)
    requires Ok(log, max, window, last) && last <= now
    ensures Ok(log, max, window, now)
  {
  }

  lemma {:induction false} ServeIsOk(times: seq<int>, max: nat, window: nat, now: int)
    requires max >= 1 && window >= 1 && Rising(times) && (times != [] ==> times[|times| - 1] <= now)
    ensures Ok(Serve(times, max, window), max, window, now)
  {
    if times != [] {
      var n := |times| - 1;
      ServeIsOk(times[..n], max, window, times[n]);
      ServeOneKeepsOk(Serve(times[..n], max, window), max, window, times[n], times[n]);
      OkLater(Serve(times, max, window), max, window, times[n], now);
    }
  }

  // ---- the bounds --------------------------------------------------------------------------------------

  lemma {:induction false} BetweenIsSince(grants: seq<int>, t: int, u: int)
    requires forall i :: 0 <= i < |grants| ==> grants[i] <= u
    ensures Between(grants, t, u) == Since(grants, t)
  {
    if grants != [] {
      BetweenIsSince(grants[..|grants| - 1], t, u);
    }
  }

  lemma BetweenPush(grants: seq<int>, now: int, t: int, u: int)
    ensures Between(grants + [now], t, u) == Between(grants, t, u) + if t <= now <= u then 1 else 0
  {
    assert (grants + [now])[..|grants|] == grants;
  }

  /** Requests after u do not count between t and u. */
  lemma LateRequest(times: seq<int>, max: nat, window: nat, t: int, u: int)
    requires times != [] && times[|times| - 1] > u
    ensures Between(Serve(times, max, window).grants, t, u) == Between(Serve(times[..|times| - 1], max, window).grants, t, u)
  {
    BetweenPush(Serve(times[..|times| - 1], max, window).grants, times[|times| - 1], t, u);
  }

  /** At most 2 * max grants in any closed interval as long as a window, and at most 2 * max - 1 in
      a half-open one. */
  lemma {:induction false} QuotaBound(times: seq<int>, max: nat, window: nat, t: int)
    requires max >= 1 && window >= 1 && Rising(times)
    ensures Between(Serve(times, max, window).grants, t, t + window) <= 2 * max
    ensures Between(Serve(times, max, window).grants, t, t + window - 1) <= 2 * max - 1
  {
    QuotaBoundTo(times, max, window, t, t + window);
    QuotaBoundTo(times, max, window, t, t + window - 1);
  }

  lemma {:induction false} QuotaBoundTo(times: seq<int>, max: nat, window: nat, t: int, u: int)
    requires max >= 1 && window >= 1 && Rising(times) && t <= u <= t + window
    ensures Between(Serve(times, max, window).grants, t, u) <= 2 * max
    ensures u < t + window ==> Between(Serve(times, max, window).grants, t, u) < 2 * max
  {
    if times != [] && times[|times| - 1] > u {
      LateRequest(times, max, window, t, u);
      QuotaBoundTo(times[..|times| - 1], max, window, t, u);
    } else {
      ServeIsOk(times, max, window, u);
      BetweenIsSince(Serve(times, max, window).grants, t, u);
    }
  }

  /** At most max grants in the window that starts with a grant. */
  lemma WindowBound(times: seq<int>, max: nat, window: nat, now: int)
    requires max >= 1 && window >= 1 && Rising(times) && times != [] && times[|times| - 1] <= now
    requires Serve(times, max, window).bucket.Some?
    ensures var s := Serve(times, max, window).bucket.value.resetAt - window;
      Between(Serve(times, max, window).grants, s, now) <= Serve(times, max, window).bucket.value.count <= max
  {
    ServeIsOk(times, max, window, now);
    BetweenIsSince(Serve(times, max, window).grants, Serve(times, max, window).bucket.value.resetAt - window, now);
  }

  /** A request is refused only when at least max grants were made less than a window's length ago. */
  lemma RefusedOnlyWhenFull(times: seq<int>, max: nat, window: nat, now: int)
    requires max >= 1 && window >= 1 && Rising(times) && (times != [] ==> times[|times| - 1] <= now)
    requires !Take(Serve(times, max, window).bucket, max, window, now).1
    ensures Between(Serve(times, max, window).grants, now - window + 1, now) >= max
  {
    ServeIsOk(times, max, window, now);
    RefusalMeansFull(Serve(times, max, window), max, window, now);
  }

  lemma RefusalMeansFull(log: Log, max: nat, window: nat, now: int)
    requires Ok(log, max, window, now) && !Take(log.bucket, max, window, now).1
    ensures Between(log.grants, now - window + 1, now) >= max
  {
    SinceMonotone(log.grants, log.bucket.value.resetAt - window, now - window + 1);
    BetweenIsSince(log.grants, now - window + 1, now);
  }

  lemma {:induction false} SinceMonotone(grants: seq<int>, s: int, t: int)
    requires t <= s
    ensures Since(grants, t) >= Since(grants, s)
  {
    if grants != [] {
      SinceMonotone(grants[..|grants| - 1], s, t);
    }
  }

  // ---- the bounds are reached -----------------------------------------------------------------------------

  function Repeat(t: int, n: nat): (ts: seq<int>)
    ensures |ts| == n && forall i :: 0 <= i < n ==> ts[i] == t
  {
    seq(n, _ => t)
  }

  lemma ServePush(times: seq<int>, now: int, max: nat, window: nat)
    ensures Serve(times + [now], max, window) == ServeOne(Serve(times, max, window), max, window, now)
  {
    assert (times + [now])[..|times|] == times;
  }

  lemma RepeatPush(before: seq<int>, t: int, m: nat)
    ensures before + Repeat(t, m + 1) == before + Repeat(t, m) + [t]
  {
  }

  lemma OneMore(gs: seq<int>, m: nat, t: int, max: nat, window: nat)
    requires m < max && window >= 1
    ensures ServeOne(Log(Some(Bucket(m, t + window)), gs), max, window, t) == Log(Some(Bucket(m + 1, t + window)), gs + [t])
  {
  }

  /** n requests at one time. */
  function Again(log: Log, t: int, n: nat, max: nat, window: nat): Log {
    if n == 0 then log else ServeOne(Again(log, t, n - 1, max, window), max, window, t)
  }

  lemma {:induction false} ServeAgain(before: seq<int>, t: int, n: nat, max: nat, window: nat)
    ensures Serve(before + Repeat(t, n), max, window) == Again(Serve(before, max, window), t, n, max, window)
  {
    if n == 0 {
      assert before + Repeat(t, 0) == before;
    } else {
      ServeAgain(before, t, n - 1, max, window);
      RepeatPush(before, t, n - 1);
      ServePush(before + Repeat(t, n - 1), t, max, window);
    }
  }

  lemma {:induction false} AgainGrants(log: Log, t: int, n: nat, max: nat, window: nat)
    requires 1 <= n <= max && window >= 1 && (log.bucket.None? || log.bucket.value.resetAt <= t)
    ensures Again(log, t, n, max, window) == Log(Some(Bucket(n, t + window)), log.grants + Repeat(t, n))
  {
    if n == 1 {
      assert Repeat(t, 1) == [t];
      assert Again(log, t, 0, max, window) == log;
    } else {
      AgainGrants(log, t, n - 1, max, window);
      OneMore(log.grants + Repeat(t, n - 1), n - 1, t, max, window);
      RepeatPush(log.grants, t, n - 1);
    }
  }

  lemma Burst(before: seq<int>, t: int, n: nat, max: nat, window: nat)
    requires 1 <= n <= max && window >= 1
    requires Serve(before, max, window).bucket.None? || Serve(before, max, window).bucket.value.resetAt <= t
    ensures Serve(before + Repeat(t, n), max, window) ==
      Log(Some(Bucket(n, t + window)), Serve(before, max, window).grants + Repeat(t, n))
  {
    ServeAgain(before, t, n, max, window);
    AgainGrants(Serve(before, max, window), t, n, max, window);
  }

  lemma {:induction false} BetweenAll(grants: seq<int>, t: int, u: int)
    requires forall i :: 0 <= i < |grants| ==> t <= grants[i] <= u
    ensures Between(grants, t, u) == |grants|
  {
    if grants != [] {
      BetweenAll(grants[..|grants| - 1], t, u);
    }
  }

  lemma NothingBefore(none: seq<int>, ts: seq<int>)
    requires none == []
    ensures none + ts == ts
  {
  }

  lemma FirstBurst(none: seq<int>, log: Log, t: int, n: nat, max: nat, window: nat)
    requires none == [] && log == Log(None, none) && 1 <= n <= max && window >= 1
    ensures Again(log, t, n, max, window) == Log(Some(Bucket(n, t + window)), Repeat(t, n))
  {
    AgainGrants(log, t, n, max, window);
    NothingBefore(none, Repeat(t, n));
  }

  lemma ServeFirst(none: seq<int>, t: int, n: nat, max: nat, window: nat)
    requires none == []
    ensures Serve(Repeat(t, n), max, window) == Again(Log(None, none), t, n, max, window)
  {
    ServeAgain(none, t, n, max, window);
    NothingBefore(none, Repeat(t, n));
  }

  lemma TwoBursts(max: nat, window: nat)
    requires max >= 1 && window >= 1
    ensures Serve(Repeat(0, max) + Repeat(window, max), max, window).grants == Repeat(0, max) + Repeat(window, max)
  {
    ServeFirst([], 0, max, max, window);
    FirstBurst([], Log(None, []), 0, max, max, window);
    Burst(Repeat(0, max), window, max, max, window);
  }

  /** The closed bound is exact: a full burst at time 0 and another one window later. */
  lemma QuotaBoundIsTight(max: nat, window: nat) returns (times: seq<int>)
    requires max >= 1 && window >= 1
    ensures Rising(times) && Between(Serve(times, max, window).grants, 0, window) == 2 * max
  {
    times := Repeat(0, max) + Repeat(window, max);
    TwoBursts(max, window);
    BetweenAll(times, 0, window);
  }

  /** The first request of a window is granted even when max is 0; so max >= 1 is needed. */
  lemma ZeroMaxStillGrants(window: nat, t: int)
    ensures Serve([t], 0, window).grants == [t]
  {
    assert [t][..0] == [];
  }

  // ---- the circuit breaker ----------------------------------------------------------------------------------

  const CIRCUIT_TRIP_AT: nat := 20
  const CIRCUIT_OPEN_MS: int := 300_000

  datatype Report = Success | Failure(now: int)

  datatype Breaker = Breaker(failures: nat, openUntil: int)

  function Note(b: Breaker, r: Report): Breaker {
    match r
    case Success => b.(failures := 0)
    case Failure(now) =>
      if b.failures + 1 >= CIRCUIT_TRIP_AT then Breaker(0, now + CIRCUIT_OPEN_MS) else b.(failures := b.failures + 1)
  }

  function NoteAll(rs: seq<Report>): Breaker {
    if rs == [] then Breaker(0, 0) else Note(NoteAll(rs[..|rs| - 1]), rs[|rs| - 1])
  }

  /** The failures since the last success. */
  function Streak(rs: seq<Report>): nat {
    if rs == [] || rs[|rs| - 1].Success? then 0 else Streak(rs[..|rs| - 1]) + 1
  }

  class CircuitBreaker {
    var consecutiveFailures: nat
    var circuitOpenUntil: int

    constructor ()
      ensures Breaker(consecutiveFailures, circuitOpenUntil) == NoteAll([])
      ensures consecutiveFailures == 0 && circuitOpenUntil == 0
    {
      consecutiveFailures, circuitOpenUntil := 0, 0;
    }

    method NoteSuccess()
      modifies this
      ensures Breaker(consecutiveFailures, circuitOpenUntil) ==
        Note(old(Breaker(consecutiveFailures, circuitOpenUntil)), Success)
    {
      consecutiveFailures := 0;
    }

    method NoteFailure(now: int)
      modifies this
      ensures Breaker(consecutiveFailures, circuitOpenUntil) ==
        Note(old(Breaker(consecutiveFailures, circuitOpenUntil)), Failure(now))
    {
      consecutiveFailures := consecutiveFailures + 1;
      if consecutiveFailures >= CIRCUIT_TRIP_AT {
        circuitOpenUntil := now + CIRCUIT_OPEN_MS;
        consecutiveFailures := 0;
      }
    }

    method IsOpen(now: int) returns (open: bool)
      ensures open <==> now < circuitOpenUntil
    {
      return now < circuitOpenUntil;
    }
  }

  predicate Trips(rs: seq<Report>) {
    rs != [] && rs[|rs| - 1].Failure? && Streak(rs) % 20 == 0
  }

  /** The circuit (re)opens exactly at every twentieth failure of an unbroken streak. */
  lemma {:induction false} TripsEveryTwenty(rs: seq<Report>)
    ensures NoteAll(rs).failures == Streak(rs) % 20
    ensures Trips(rs) ==> NoteAll(rs).openUntil == rs[|rs| - 1].now + 300_000
    ensures !Trips(rs) && rs != [] ==> NoteAll(rs).openUntil == NoteAll(rs[..|rs| - 1]).openUntil
  {
    if rs != [] {
      TripsEveryTwenty(rs[..|rs| - 1]);
    }
  }

  /** The reports come with a clock that starts at or after zero and does not go back. */
  predicate Clocked(rs: seq<Report>, now: int) {
    && now >= 0
    && (forall i :: 0 <= i < |rs| && rs[i].Failure? ==> 0 <= rs[i].now <= now)
    && (forall i, j :: 0 <= i < j < |rs| && rs[i].Failure? && rs[j].Failure? ==> rs[i].now <= rs[j].now)
  }

  /** The report at position k was a twentieth failure less than five minutes ago. */
  predicate RecentTrip(rs: seq<Report>, k: nat, now: int) {
    k < |rs| && Trips(rs[..k + 1]) && rs[k].Failure? && now < rs[k].now + 300_000
  }

  lemma TripBefore(rs: seq<Report>, n: nat, k: nat, now: int)
    requires n <= |rs|
    ensures RecentTrip(rs[..n], k, now) <==> k < n && RecentTrip(rs, k, now)
  {
    if k < n {
      assert rs[..n][..k + 1] == rs[..k + 1];
    }
  }

  /** The circuit is open exactly while the last five minutes saw a twentieth failure of a streak. */
  lemma {:induction false} OpenIffTripped(rs: seq<Report>, now: int)
    requires Clocked(rs, now)
    ensures now < NoteAll(rs).openUntil <==> exists k: nat :: RecentTrip(rs, k, now)
  {
    if rs != [] {
      var n := |rs| - 1;
      OpenIffTripped(rs[..n], now);
      TripsEveryTwenty(rs);
      assert rs[..n + 1] == rs;
      if k: nat :| RecentTrip(rs[..n], k, now) {
        TripBefore(rs, n, k, now);
        assert RecentTrip(rs, k, now);
      }
      if k: nat :| RecentTrip(rs, k, now) {
        TripBefore(rs, n, k, now);
        assert k < n ==> RecentTrip(rs[..n], k, now);
        assert Trips(rs) ==> rs[k].now <= rs[n].now;
      }
      assert RecentTrip(rs, n, now) <==> Trips(rs) && now < rs[n].now + 300_000;
    }
  }
}
