/** The lease lock of apps/backend/src/lib/redisLock.ts, with Redis up: SET NX PX around a body of
    any length, then a compare-and-delete. */
module RedisLock {
  import opened Wrappers

  /** What one lock key holds. The owner is the caller whose SET stored it; Redis does not know. */
  datatype Lease = Lease(value: string, expiry: int, owner: nat)

  /** Where a caller is. In its body it remembers when it acquired. */
  datatype Point = Starting | InBody(since: int) | Releasing | Gone

  datatype Caller = Caller(value: string, ttl: int, at: Point)

  datatype State = State(clock: int, cell: Option<Lease>, callers: seq<Caller>)

  /** The steps: time passes, a caller arrives, tries to acquire, ends its body, releases. A failed
      Redis call may or may not have reached the server. */
  datatype Label =
    | Tick(d: nat)
    | Arrive(value: string, ttl: int)
    | Acquire(p: nat, reached: bool, answered: bool)
    | EndBody(p: nat)
    | Release(p: nat, reached: bool)

  predicate Live(cell: Option<Lease>, clock: int) {
    cell.Some? && clock < cell.value.expiry
  }

  /** SET key value NX PX ttl. */
  function SetNx(cell: Option<Lease>, clock: int, value: string, ttl: int, p: nat): (Option<Lease>, bool) {
    if Live(cell, clock) then (cell, false) else (Some(Lease(value, clock + ttl, p)), true)
  }

  /** The Lua script: delete if the stored value is ours. */
  function CompareAndDelete(cell: Option<Lease>, clock: int, value: string): Option<Lease> {
    if Live(cell, clock) && cell.value.value == value then None else cell
  }

  function At(s: State, p: nat): Point {
    if p < |s.callers| then s.callers[p].at else Gone
  }

  function Move(s: State, p: nat, at: Point): State
    requires p < |s.callers|
  {
    s.(callers := s.callers[p := s.callers[p].(at := at)])
  }

  /** A caller that did not acquire still runs the release of its finally block. */
  function Step(s: State, l: Label): State {
    match l
    case Tick(d) => s.(clock := s.clock + d)
    case Arrive(value, ttl) =>
      if ttl >= 1 then s.(callers := s.callers + [Caller(value, ttl, Starting)]) else s
    case Acquire(p, reached, answered) =>
      if At(s, p).Starting? then
        var c := s.callers[p];
        var (cell, acquired) := if reached then SetNx(s.cell, s.clock, c.value, c.ttl, p) else (s.cell, false);
        Move(s.(cell := cell), p, if acquired && answered then InBody(s.clock) else Releasing)
      else s
    case EndBody(p) => if At(s, p).InBody? then Move(s, p, Releasing) else s
    case Release(p, reached) =>
      if At(s, p).Releasing? then
        Move(if reached then s.(cell := CompareAndDelete(s.cell, s.clock, s.callers[p].value)) else s, p, Gone)
      else s
  }

  function Run(s: State, ls: seq<Label>): State {
    if ls == [] then s else Step(Run(s, ls[..|ls| - 1]), ls[|ls| - 1])
  }

  const START := State(0, None, [])

  // ---- the invariant -----------------------------------------------------------------------------

  predicate Distinct(s: State) {
    forall p, q :: 0 <= p < q < |s.callers| ==> s.callers[p].value != s.callers[q].value
  }

  function Deadline(c: Caller): int
    requires c.at.InBody?
  {
    c.at.since + c.ttl
  }

  /** A live lease is its owner's. */
  predicate CellOk(s: State) {
    s.cell.Some? ==>
      && s.cell.value.owner < |s.callers|
      && s.cell.value.value == s.callers[s.cell.value.owner].value
      && (s.callers[s.cell.value.owner].at.InBody? ==> s.cell.value.expiry == Deadline(s.callers[s.cell.value.owner]))
  }

  /** A caller whose body is within its time to live holds the lease. */
  predicate CallerOk(s: State, p: nat)
    requires p < |s.callers|
  {
    var c := s.callers[p];
    && c.ttl >= 1
    && (c.at.InBody? ==> c.at.since <= s.clock)
    && (c.at.InBody? && s.clock < Deadline(c) ==> s.cell == Some(Lease(c.value, Deadline(c), p)))
  }

  /** Two bodies that run at the same time have disjoint lease periods. */
  predicate Apart(c: Caller, d: Caller) {
    c.at.InBody? && d.at.InBody? ==> Deadline(c) <= d.at.since || Deadline(d) <= c.at.since
  }

  ghost predicate Ok(s: State) {
    && CellOk(s)
    && (forall p :: 0 <= p < |s.callers| ==> CallerOk(s, p))
    && (forall p, q :: 0 <= p < q < |s.callers| ==> Apart(s.callers[p], s.callers[q]))
  }

  lemma AcquireKeepsOk(s: State, p: nat, reached: bool, answered: bool)
    requires Ok(s)
    ensures Ok(Step(s, Acquire(p, reached, answered)))
  {
    var t := Step(s, Acquire(p, reached, answered));
    if At(s, p).Starting? {
      forall q | 0 <= q < |t.callers| && q != p ensures CallerOk(t, q) && Apart(t.callers[p], t.callers[q]) {
        assert CallerOk(s, q);
      }
      assert CallerOk(s, p);
    }
  }

  lemma ReleaseKeepsOk(s: State, p: nat, reached: bool)
    requires Ok(s) && Distinct(s)
    ensures Ok(Step(s, Release(p, reached)))
  {
    var t := Step(s, Release(p, reached));
    forall q | 0 <= q < |t.callers| ensures CallerOk(t, q) {
      assert CallerOk(s, q);
    }
  }

  lemma StepKeepsOk(s: State, l: Label)
    requires Ok(s) && Distinct(s)
    ensures Ok(Step(s, l))
  {
    var t := Step(s, l);
    match l
    case Acquire(p, reached, answered) => AcquireKeepsOk(s, p, reached, answered);
    case Release(p, reached) => ReleaseKeepsOk(s, p, reached);
    case _ =>
      forall q | 0 <= q < |t.callers| ensures CallerOk(t, q) {
        if q < |s.callers| {
          assert CallerOk(s, q);
        }
      }
  }

  lemma DistinctBefore(s: State, l: Label)
    requires Distinct(Step(s, l))
    ensures Distinct(s)
  {
    var t := Step(s, l);
    forall p, q | 0 <= p < q < |s.callers| ensures s.callers[p].value != s.callers[q].value {
      assert t.callers[p].value == s.callers[p].value && t.callers[q].value == s.callers[q].value;
    }
  }

  lemma {:induction false} RunKeepsOk(ls: seq<Label>)
    requires Distinct(Run(START, ls))
    ensures Ok(Run(START, ls))
  {
    if ls != [] {
      var s := Run(START, ls[..|ls| - 1]);
      DistinctBefore(s, ls[|ls| - 1]);
      RunKeepsOk(ls[..|ls| - 1]);
      StepKeepsOk(s, ls[|ls| - 1]);
    }
  }

  // ---- what the lock promises -----------------------------------------------------------------------

  /** With distinct lock values, two bodies overlap only when the one that acquired first has
      overrun its time to live, and had done so before the other acquired. */
  lemma OverlapMeansOverrun(ls: seq<Label>, p: nat, q: nat)
    requires Distinct(Run(START, ls))
    requires var s := Run(START, ls);
      && p < |s.callers| && q < |s.callers| && p != q
      && At(s, p).InBody? && At(s, q).InBody? && At(s, p).since <= At(s, q).since
    ensures var s := Run(START, ls); Deadline(s.callers[p]) <= At(s, q).since <= s.clock
  {
    RunKeepsOk(ls);
    var s := Run(START, ls);
    assert CallerOk(s, p) && CallerOk(s, q);
    assert Apart(s.callers[p], s.callers[q]) || Apart(s.callers[q], s.callers[p]);
  }

  predicate WithinTtl(s: State, p: nat) {
    At(s, p).InBody? ==> s.clock < Deadline(s.callers[p])
  }

  /** If every body running is within its time to live, at most one is running, and the lease in
      the cell is its own. */
  lemma MutualExclusion(ls: seq<Label>, p: nat, q: nat)
    requires Distinct(Run(START, ls)) && p < |Run(START, ls).callers|
    requires WithinTtl(Run(START, ls), p) && WithinTtl(Run(START, ls), q)
    requires At(Run(START, ls), p).InBody? && At(Run(START, ls), q).InBody?
    ensures p == q && Run(START, ls).cell.Some? && Run(START, ls).cell.value.owner == p
  {
    RunKeepsOk(ls);
    var s := Run(START, ls);
    assert CallerOk(s, p) && CallerOk(s, q);
  }

  /** A lease is stored and its time has not come. */
  predicate Unexpired(s: State) {
    s.cell.Some? && s.clock < s.cell.value.expiry
  }

  /** The step removes a live lease that another caller's SET stored. */
  predicate StealsLease(s: State, l: Label) {
    && l.Release? && Unexpired(s) && s.cell.value.owner != l.p
    && Step(s, l).cell.None?
  }

  lemma StepKeepsCell(s: State, l: Label)
    requires CellOk(s)
    ensures CellOk(Step(s, l))
  {
  }

  /** In every run, whatever the lock values, a lease in the cell carries its owner's value. */
  lemma {:induction false} RunKeepsCell(ls: seq<Label>)
    ensures CellOk(Run(START, ls))
  {
    if ls != [] {
      RunKeepsCell(ls[..|ls| - 1]);
      StepKeepsCell(Run(START, ls[..|ls| - 1]), ls[|ls| - 1]);
    }
  }

  /** Exactly when, in any run, a release removes another's live lease: the call reaches Redis and
      the two callers drew the same random value. */
  lemma SameValueIffStolen(ls: seq<Label>, p: nat, reached: bool)
    requires var s := Run(START, ls); At(s, p).Releasing? && Unexpired(s) && s.cell.value.owner != p
    ensures var s := Run(START, ls);
      && s.cell.value.owner < |s.callers|
      && (StealsLease(s, Release(p, reached)) <==> reached && s.callers[s.cell.value.owner].value == s.callers[p].value)
  {
    RunKeepsCell(ls);
  }

  /** With distinct lock values no release ever removes another caller's lease. */
  lemma NoStolenLease(ls: seq<Label>, l: Label)
    requires Distinct(Run(START, ls))
    ensures !StealsLease(Run(START, ls), l)
  {
    var s := Run(START, ls);
    if StealsLease(s, l) {
      SameValueIffStolen(ls, l.p, l.reached);
      DifferentValues(s, l.p, s.cell.value.owner);
    }
  }

  lemma DifferentValues(s: State, p: nat, q: nat)
    requires Distinct(s) && p < |s.callers| && q < |s.callers| && p != q
    ensures s.callers[p].value != s.callers[q].value
  {
  }

  /** With distinct lock values, a body that ends within its time to live frees the lock. */
  lemma TimelyReleaseFrees(ls: seq<Label>, p: nat)
    requires Distinct(Run(START, ls)) && At(Run(START, ls), p).InBody? && WithinTtl(Run(START, ls), p)
    ensures Step(Step(Run(START, ls), EndBody(p)), Release(p, true)).cell.None?
  {
    RunKeepsOk(ls);
    assert CallerOk(Run(START, ls), p);
  }

  /** Distinct values are needed: a caller that did not even acquire releases the lease of the one
      in its body when both drew the same value, and then a third one enters. */
  lemma EqualValuesBreakExclusion(v: string, w: string)
    ensures var ls := [Arrive(v, 10), Acquire(0, true, true), Arrive(v, 10), Acquire(1, true, true), Release(1, true),
        Arrive(w, 10), Acquire(2, true, true)];
      var s := Run(START, ls);
      && At(s, 0) == InBody(0) && At(s, 2) == InBody(0)
      && WithinTtl(s, 0) && WithinTtl(s, 2)
  {
    var s2 := State(0, Some(Lease(v, 10, 0)), [Caller(v, 10, InBody(0))]);
    var s4 := State(0, Some(Lease(v, 10, 0)), [Caller(v, 10, InBody(0)), Caller(v, 10, Releasing)]);
    var s5 := State(0, None, [Caller(v, 10, InBody(0)), Caller(v, 10, Gone)]);
    var ls := [Arrive(v, 10), Acquire(0, true, true), Arrive(v, 10), Acquire(1, true, true), Release(1, true),
      Arrive(w, 10), Acquire(2, true, true)];
    assert ls[..2] == [Arrive(v, 10)] + [Acquire(0, true, true)];
    RunTwo(START, [], Arrive(v, 10), Acquire(0, true, true));
    assert Run(START, ls[..2]) == s2;
    RunTwo(START, ls[..2], Arrive(v, 10), Acquire(1, true, true));
    assert ls[..4] == ls[..2] + [Arrive(v, 10), Acquire(1, true, true)];
    assert Run(START, ls[..4]) == s4;
    RunTwo(START, ls[..4], Release(1, true), Arrive(w, 10));
    assert ls[..6] == ls[..4] + [Release(1, true), Arrive(w, 10)];
    assert ls[..6] == ls[..|ls| - 1];
  }

  lemma RunTwo(s: State, ls: seq<Label>, l: Label, m: Label)
    ensures Run(s, ls + [l, m]) == Step(Step(Run(s, ls), l), m)
  {
    assert (ls + [l, m])[..|ls| + 1] == ls + [l];
    assert (ls + [l])[..|ls|] == ls;
  }

  /** An overrun does admit another body: once the lease in the cell is no longer live, the next
      caller enters, whoever is still in a body. */
  lemma OverrunAdmitsAnother(s: State, value: string, ttl: int)
    requires Ok(s) && (s.cell.None? || s.cell.value.expiry <= s.clock) && ttl >= 1
    ensures var q := |s.callers|;
      var t := Step(Step(s, Arrive(value, ttl)), Acquire(q, true, true));
      At(t, q) == InBody(s.clock) && forall p :: 0 <= p < q ==> At(t, p) == At(s, p)
  {
  }

  // ---- when a caller enters --------------------------------------------------------------------------

  /** Exactly when a caller enters its body, and what its SET leaves in the cell: it enters when no lease
      is stored, or the stored one's time has come, and the call reaches Redis and is answered. */
  lemma EntersIff(s: State, p: nat, reached: bool, answered: bool)
    requires At(s, p).Starting?
    ensures var t := Step(s, Acquire(p, reached, answered));
      && t.clock == s.clock && |t.callers| == |s.callers|
      && At(t, p) == (if reached && answered && !Unexpired(s) then InBody(s.clock) else Releasing)
      && t.cell == (if reached && !Unexpired(s) then Some(Lease(s.callers[p].value, s.clock + s.callers[p].ttl, p)) else s.cell)
  {
  }

  /** Caller q's SET stores its lease, whether or not the answer arrives. */
  predicate Sets(s: State, l: Label) {
    l.Acquire? && At(s, l.p).Starting? && l.reached && !Unexpired(s)
  }

  ghost predicate NobodySets(s: State, ls: seq<Label>) {
    ls != [] ==> NobodySets(s, ls[..|ls| - 1]) && !Sets(Run(s, ls[..|ls| - 1]), ls[|ls| - 1])
  }

  /** The step is a release of this value that reaches Redis. */
  predicate ReleasesValue(s: State, l: Label, value: string) {
    l.Release? && At(s, l.p).Releasing? && l.reached && s.callers[l.p].value == value
  }

  ghost predicate NobodyReleases(s: State, ls: seq<Label>, value: string) {
    ls != [] ==>
      NobodyReleases(s, ls[..|ls| - 1], value) && !ReleasesValue(Run(s, ls[..|ls| - 1]), ls[|ls| - 1], value)
  }

  lemma {:induction false} LeaseOrNothing(s: State, ls: seq<Label>)
    requires NobodySets(s, ls)
    ensures Run(s, ls).cell == s.cell || Run(s, ls).cell == None
  {
    if ls != [] {
      LeaseOrNothing(s, ls[..|ls| - 1]);
    }
  }

  /** A lease ends: one time to live after a SET, if no other SET succeeded since, the next caller
      enters, whatever the holder and everybody else did or failed to do in between. */
  lemma LeaseEnds(s: State, q: nat, answered: bool, after: seq<Label>, p: nat)
    requires Sets(s, Acquire(q, true, answered))
    requires var t := Step(s, Acquire(q, true, answered));
      NobodySets(t, after) && Run(t, after).clock >= s.clock + s.callers[q].ttl && At(Run(t, after), p).Starting?
    ensures var u := Run(Step(s, Acquire(q, true, answered)), after);
      At(Step(u, Acquire(p, true, true)), p) == InBody(u.clock)
  {
    var t := Step(s, Acquire(q, true, answered));
    assert t.cell == Some(Lease(s.callers[q].value, s.clock + s.callers[q].ttl, q));
    LeaseOrNothing(t, after);
    EntersIff(Run(t, after), p, true, true);
  }

  lemma ClockRises(s: State, l: Label)
    ensures Step(s, l).clock >= s.clock
  {
  }

  lemma {:induction false} LeaseStays(s: State, ls: seq<Label>)
    requires Unexpired(s) && NobodyReleases(s, ls, s.cell.value.value) && Run(s, ls).clock < s.cell.value.expiry
    ensures Run(s, ls).cell == s.cell
  {
    if ls != [] {
      var t, l := Run(s, ls[..|ls| - 1]), ls[|ls| - 1];
      ClockRises(t, l);
      LeaseStays(s, ls[..|ls| - 1]);
    }
  }

  /** And a lease lasts: until its time to live has passed, and unless its value is released, nobody
      else enters, whatever everybody does. */
  lemma LeaseLasts(s: State, q: nat, answered: bool, after: seq<Label>, p: nat, reached: bool, told: bool)
    requires Sets(s, Acquire(q, true, answered)) && s.callers[q].ttl >= 1
    requires var t := Step(s, Acquire(q, true, answered));
      && NobodyReleases(t, after, s.callers[q].value) && Run(t, after).clock < s.clock + s.callers[q].ttl
      && At(Run(t, after), p).Starting?
    ensures var u := Run(Step(s, Acquire(q, true, answered)), after);
      At(Step(u, Acquire(p, reached, told)), p) == Releasing && Step(u, Acquire(p, reached, told)).cell == u.cell
  {
    var t := Step(s, Acquire(q, true, answered));
    assert t.cell == Some(Lease(s.callers[q].value, s.clock + s.callers[q].ttl, q));
    ClockNeverFalls(t, after);
    LeaseStays(t, after);
  }

  lemma {:induction false} ClockNeverFalls(s: State, ls: seq<Label>)
    ensures Run(s, ls).clock >= s.clock
  {
    if ls != [] {
      ClockNeverFalls(s, ls[..|ls| - 1]);
      ClockRises(Run(s, ls[..|ls| - 1]), ls[|ls| - 1]);
    }
  }

  /** How the SET call goes: answered, failed before it reached Redis, or failed after. */
  datatype SetReply = Answered | NotSent | AnswerLost

  /** What withRedisLock gives its caller: null, the body's result, or an exception. */
  datatype LockResult<T> = Skipped | Returned(value: T) | Threw

  // ---- the two Redis calls on a live cell -------------------------------------------------------------

  class LockCell {
    var cell: Option<Lease>

    constructor ()
      ensures cell == START.cell
    {
      cell := None;
    }

    method Acquire(clock: int, value: string, ttl: int, p: nat) returns (acquired: bool)
      requires ttl >= 1
      modifies this
      ensures (cell, acquired) == SetNx(old(cell), clock, value, ttl, p)
      ensures acquired <==> old(cell).None? || old(cell).value.expiry <= clock
      ensures cell == if acquired then Some(Lease(value, clock + ttl, p)) else old(cell)
    {
      if cell.Some? && clock < cell.value.expiry {
        return false;
      }
      cell := Some(Lease(value, clock + ttl, p));
      return true;
    }

    method Release(clock: int, value: string) returns (deleted: bool)
      modifies this
      ensures cell == CompareAndDelete(old(cell), clock, value)
      ensures deleted <==> old(cell).Some? && clock < old(cell).value.expiry && old(cell).value.value == value
      ensures cell == if deleted then None else old(cell)
    {
      deleted := false;
      if cell.Some? && clock < cell.value.expiry {
        if cell.value.value == value {
          cell := None;
          deleted := true;
        }
      }
    }

    /** withRedisLock around a body that ends at time `end` with the given result, or throws; `during`
        is what the cell holds by then, whatever the other callers did. A failed SET throws, with
        or without having stored the lease. */
    method WithLock<T>(start: int, value: string, ttl: int, p: nat, reply: SetReply, end: int, body: Option<T>,
        during: Option<Lease>) returns (r: LockResult<T>)
      requires ttl >= 1 && start <= end
      modifies this
      ensures var (stored, acquired) :=
          if reply == NotSent then (old(cell), false) else SetNx(old(cell), start, value, ttl, p);
        && (reply != Answered ==> r == Threw && cell == CompareAndDelete(stored, start, value))
        && (reply == Answered && !acquired ==> r == Skipped && cell == CompareAndDelete(stored, start, value))
        && (reply == Answered && acquired ==>
             r == (if body.Some? then Returned(body.value) else Threw) && cell == CompareAndDelete(during, end, value))
    {
      var acquired := false;
      if reply != NotSent {
        acquired := Acquire(start, value, ttl, p);
      }
      if reply != Answered || !acquired {
        r := if reply == Answered then Skipped else Threw;
        var _ := Release(start, value);
        return;
      }
      cell := during;
      r := if body.Some? then Returned(body.value) else Threw;
      var _ := Release(end, value);
    }
  }
}
