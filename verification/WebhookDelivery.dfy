/** Webhook delivery: the attempts of one queue job (apps/backend/src/jobs/webhookWorker.ts) and the
    recovery sweep over orphaned outbox rows (apps/backend/src/jobs/webhookQueue.ts). */
module WebhookDelivery {
  import opened Wrappers

  /** Absent: a payload without a delivery id has no row until the last attempt creates one. */
  datatype Status = Absent | Pending | Retrying | Delivered | Failed

  // ---- one job ---------------------------------------------------------------------------------------

  /** The outbox row of a job, and how often a dead letter was asked for. */
  datatype Row = Row(status: Status, retryCount: nat, deadLetters: nat)

  /** What an attempt meets: the merchant lookup throws, there is no URL, the delivery call throws,
      or it reports success or failure. */
  datatype Answer = LookupThrows | NoUrl | DeliveryThrows | Success | Failure

  /** One attempt: its answer, whether the row updates whose errors are swallowed succeed, and
      whether the last write of the row, whose error is not, succeeds. */
  datatype Try = Try(answer: Answer, saved: bool, stored: bool)

  function Save(row: Row, ok: bool, status: Status, retryCount: nat): Row {
    if ok then row.(status := status, retryCount := retryCount) else row
  }

  /** The handler on its attempt number made + 1 of limit; hasId says whether the payload names its
      row; true means the handler throws. */
  function Attempt(row: Row, hasId: bool, made: nat, limit: nat, t: Try): (Row, bool) {
    if t.answer == LookupThrows then (row, true)
    else if t.answer == NoUrl then (Save(row, hasId && t.saved, Failed, made + 1), false)
    else
      var begun := Save(row, hasId && made > 0 && t.saved, Retrying, made);
      if t.answer == DeliveryThrows then (begun, true)
      else if t.answer == Success then (Save(begun, t.stored, Delivered, made + 1), !t.stored)
      else if made + 1 >= limit then
        (Save(begun.(deadLetters := begun.deadLetters + 1), t.stored, Failed, made + 1), true)
      else (Save(begun, hasId && t.saved, Retrying, made + 1), true)
  }

  /** The queue runs the handler again while it throws and attempts are left. */
  function RunFrom(row: Row, hasId: bool, made: nat, limit: nat, tries: seq<Try>): Row
    requires made < limit == |tries|
    decreases limit - made
  {
    var (r, threw) := Attempt(row, hasId, made, limit, tries[made]);
    if threw && made + 1 < limit then RunFrom(r, hasId, made + 1, limit, tries) else r
  }

  /** The attempt ends the job without an exception. */
  predicate Ends(t: Try) {
    t.answer == NoUrl || (t.answer == Success && t.stored)
  }

  /** The first attempt that ends the job early, or the number of attempts. */
  function Decisive(tries: seq<Try>): (n: nat)
    ensures n <= |tries| && forall i :: 0 <= i < n ==> !Ends(tries[i])
    ensures n < |tries| ==> Ends(tries[n])
  {
    if tries == [] || Ends(tries[0]) then 0 else 1 + Decisive(tries[1..])
  }

  /** The row of a job before its first attempt. */
  function Fresh(hasId: bool): Row {
    Row(if hasId then Pending else Absent, 0, 0)
  }

  class Job {
    const hasId: bool
    var status: Status
    var retryCount: nat
    var deadLetters: nat

    constructor (hasId: bool)
      ensures this.hasId == hasId && View() == Row(if hasId then Pending else Absent, 0, 0)
    {
      this.hasId := hasId;
      status, retryCount, deadLetters := if hasId then Pending else Absent, 0, 0;
    }

    function View(): Row
      reads this
    {
      Row(status, retryCount, deadLetters)
    }

    method Handle(made: nat, limit: nat, t: Try) returns (threw: bool)
      modifies this
      ensures (View(), threw) == Attempt(old(View()), hasId, made, limit, t)
    {
      if t.answer == LookupThrows {
        return true;
      }
      if t.answer == NoUrl {
        if hasId && t.saved {
          status, retryCount := Failed, made + 1;
        }
        return false;
      }
      if hasId && made > 0 && t.saved {
        status, retryCount := Retrying, made;
      }
      if t.answer == DeliveryThrows {
        return true;
      }
      var success := t.answer == Success;
      var isFinalAttempt := made + 1 >= limit;
      if success || isFinalAttempt {
        if !success && isFinalAttempt {
          deadLetters := deadLetters + 1;
        }
        if !t.stored {
          return true;
        }
        status := if success then Delivered else Failed;
        retryCount := made + 1;
      } else if hasId && t.saved {
        status, retryCount := Retrying, made + 1;
      }
      return !success;
    }

    method Run(limit: nat, tries: seq<Try>) returns (attempts: nat)
      requires limit == |tries| >= 1
      modifies this
      ensures View() == RunFrom(old(View()), hasId, 0, limit, tries)
      ensures attempts == if Decisive(tries) < limit then Decisive(tries) + 1 else limit
    {
      ghost var goal := RunFrom(View(), hasId, 0, limit, tries);
      attempts := 0;
      var threw := true;
      while threw && attempts < limit
        invariant attempts <= limit
        invariant (threw ==> attempts <= Decisive(tries)) && (!threw ==> attempts == Decisive(tries) + 1)
        invariant
          if threw && attempts < limit then RunFrom(View(), hasId, attempts, limit, tries) == goal else View() == goal
        decreases limit - attempts
      {
        threw := Handle(attempts, limit, tries[attempts]);
        attempts := attempts + 1;
      }
    }
  }

  /** The row is as before the job, or marked retrying. */
  predicate Undecided(row: Row, r: Row) {
    r.status == row.status || r.status == Retrying
  }

  /** What a job makes of its row: the first attempt that ends it decides; without one the last
      attempt asks for the dead letter, if it is a reported failure, and records it, if it can. */
  predicate Decided(row: Row, hasId: bool, limit: nat, tries: seq<Try>, r: Row)
    requires limit == |tries| >= 1
  {
    var n := Decisive(tries);
    if n < limit then
      && r.deadLetters == row.deadLetters
      && if tries[n].answer == Success then r.status == Delivered && r.retryCount == n + 1
         else if hasId && tries[n].saved then r.status == Failed && r.retryCount == n + 1
         else Undecided(row, r)
    else
      && r.deadLetters == row.deadLetters + (if tries[limit - 1].answer == Failure then 1 else 0)
      && if tries[limit - 1].answer == Failure && tries[limit - 1].stored then r.status == Failed && r.retryCount == limit
         else Undecided(row, r)
  }

  lemma {:induction false} RunFromDecides(row: Row, hasId: bool, made: nat, limit: nat, tries: seq<Try>)
    requires made < limit == |tries| && made <= Decisive(tries)
    ensures Decided(row, hasId, limit, tries, RunFrom(row, hasId, made, limit, tries))
    decreases limit - made
  {
    var (r, threw) := Attempt(row, hasId, made, limit, tries[made]);
    if threw && made + 1 < limit {
      RunFromDecides(r, hasId, made + 1, limit, tries);
    }
  }

  /** For any attempt bound and any answers, exceptions and failing row writes included: exactly
      when the row ends delivered, exactly when failed, and exactly when there is a dead letter,
      which there is at most once. */
  lemma JobOutcome(hasId: bool, limit: nat, tries: seq<Try>)
    requires limit == |tries| >= 1
    ensures var (r, n, last) := (RunFrom(Fresh(hasId), hasId, 0, limit, tries), Decisive(tries), tries[limit - 1]);
      && (r.status == Delivered <==> n < limit && tries[n].answer == Success)
      && (r.status == Failed <==>
           if n < limit then tries[n].answer == NoUrl && hasId && tries[n].saved else last.answer == Failure && last.stored)
      && r.deadLetters == (if n == limit && last.answer == Failure then 1 else 0)
  {
    RunFromDecides(Fresh(hasId), hasId, 0, limit, tries);
  }

  /** With a URL present, no exception and working last writes: delivered exactly when some attempt
      succeeded, failed exactly when all failed, and then with exactly one dead letter. */
  lemma DeliveredOrDead(hasId: bool, limit: nat, tries: seq<Try>)
    requires limit == |tries| >= 1
    requires forall i :: 0 <= i < limit ==> tries[i].stored && (tries[i].answer == Success || tries[i].answer == Failure)
    ensures var r := RunFrom(Fresh(hasId), hasId, 0, limit, tries);
      && (r.status == Delivered <==> exists i :: 0 <= i < limit && tries[i].answer == Success)
      && (r.status == Failed <==> forall i :: 0 <= i < limit ==> tries[i].answer == Failure)
      && r.deadLetters == (if r.status == Failed then 1 else 0)
  {
    JobOutcome(hasId, limit, tries);
    var n := Decisive(tries);
    assert n < limit ==> tries[n].answer == Success;
    assert n == limit ==> tries[limit - 1].answer == Failure && !Ends(tries[limit - 1]);
  }

  /** A failed row without a dead letter comes only from a missing URL. */
  lemma FailedWithoutDeadLetter(hasId: bool, limit: nat, tries: seq<Try>)
    requires limit == |tries| >= 1
    ensures var (r, n) := (RunFrom(Fresh(hasId), hasId, 0, limit, tries), Decisive(tries));
      r.status == Failed && r.deadLetters == 0 <==>
      n < limit && tries[n].answer == NoUrl && hasId && tries[n].saved
  {
    JobOutcome(hasId, limit, tries);
  }

  /** A job can use up its attempts and leave neither a final status nor a dead letter: exactly when
      no attempt ends it and the last one throws before a failure is reported, or reports a success
      it cannot record; or when the URL is missing and that is not recorded. */
  lemma ForgottenIff(hasId: bool, limit: nat, tries: seq<Try>)
    requires limit == |tries| >= 1
    ensures var (r, n) := (RunFrom(Fresh(hasId), hasId, 0, limit, tries), Decisive(tries));
      r.status != Delivered && r.status != Failed && r.deadLetters == 0 <==>
      if n < limit then tries[n].answer == NoUrl && !(hasId && tries[n].saved) else tries[limit - 1].answer != Failure
  {
    JobOutcome(hasId, limit, tries);
  }

  /** An attempt throws, so that the queue repeats it, unless there is no URL or a success was recorded. */
  lemma ThrowsIff(row: Row, hasId: bool, made: nat, limit: nat, t: Try)
    ensures Attempt(row, hasId, made, limit, t).1 <==> t.answer != NoUrl && !(t.answer == Success && t.stored)
  {
  }

  /** The row of a job that has used up some of its attempts, none of them the last. */
  function Midway(row: Row, hasId: bool, limit: nat, tries: seq<Try>): Row
    requires |tries| < limit
  {
    if tries == [] then row
    else
      var n := |tries| - 1;
      Attempt(Midway(row, hasId, limit, tries[..n]), hasId, n, limit, tries[n]).0
  }

  /** What such a job shows, when its writes succeed: after failures its row is marked retrying, with
      their number; after an exception it shows the failures before it, if any; and a payload without a
      delivery id still has no row. */
  lemma {:induction false} MidwayShows(hasId: bool, limit: nat, tries: seq<Try>)
    requires 0 < |tries| < limit
    requires forall i :: 0 <= i < |tries| ==>
      tries[i].saved && (tries[i].answer == Failure || tries[i].answer == DeliveryThrows)
    ensures var (r, n) := (Midway(Fresh(hasId), hasId, limit, tries), |tries|);
      && r.deadLetters == 0
      && (!hasId ==> r.status == Absent && r.retryCount == 0)
      && (hasId && tries[n - 1].answer == Failure ==> r.status == Retrying && r.retryCount == n)
      && (hasId && tries[n - 1].answer == DeliveryThrows && n > 1 ==> r.status == Retrying && r.retryCount == n - 1)
      && (hasId && tries[n - 1].answer == DeliveryThrows && n == 1 ==> r.status == Pending && r.retryCount == 0)
  {
    var n := |tries| - 1;
    if n > 0 {
      MidwayShows(hasId, limit, tries[..n]);
    }
  }

  /** A run that is not ended goes on from there. */
  lemma {:induction false} RunGoesOn(row: Row, hasId: bool, limit: nat, tries: seq<Try>, k: nat)
    requires k < limit == |tries| && k <= Decisive(tries)
    ensures RunFrom(row, hasId, 0, limit, tries) == RunFrom(Midway(row, hasId, limit, tries[..k]), hasId, k, limit, tries)
  {
    if k > 0 {
      RunGoesOn(row, hasId, limit, tries, k - 1);
      assert tries[..k][..k - 1] == tries[..k - 1];
      ThrowsIff(Midway(row, hasId, limit, tries[..k - 1]), hasId, k - 1, limit, tries[k - 1]);
      assert !Ends(tries[k - 1]);
    }
  }

  // ---- the producer ---------------------------------------------------------------------------------------

  datatype AddResult = Added | AlreadyExists | AddFailed

  /** Which calls of one enqueueWebhook succeed: creating the outbox row, the queue being there,
      the add, finding the existing job of a manual retry, marking the row failed, and the fallback
      record when there is no row. */
  datatype Fate = Fate(create: bool, queueUp: bool, add: AddResult, found: bool, mark: bool, fallback: bool)

  /** What an enqueueWebhook call leaves: the status of its row, if there is one, whether it added a
      job, and whether it returns one. */
  datatype Trace = Trace(row: Option<Status>, job: bool, returned: bool)

  class Producer {
    var row: Option<Status>
    var job: bool

    constructor (row: Option<Status>)
      ensures this.row == row && !job
    {
      this.row, job := row, false;
    }

    /** enqueueWebhook for a payload that has a delivery id, and so a row, or not; a manual retry
        passes an attempt number. */
    method Enqueue(hasId: bool, retry: bool, f: Fate) returns (returned: bool)
      requires !job && (hasId <==> row.Some?)
      modifies this
      ensures Trace(row, job, returned) == TraceOf(old(row), retry, f)
    {
      var deliveryId := hasId;
      if !hasId && f.create {
        row := Some(Pending);
        deliveryId := true;
      }
      if !f.queueUp {
        if deliveryId {
          if f.mark {
            row := Some(Failed);
          }
        } else if f.fallback {
          row := Some(Failed);
        }
        return false;
      }
      if f.add == Added {
        job := true;
        return true;
      }
      if deliveryId && f.add == AlreadyExists {
        return retry && f.found;
      }
      if deliveryId && f.mark {
        row := Some(Failed);
      }
      return false;
    }
  }

  function TraceOf(row: Option<Status>, retry: bool, f: Fate): Trace {
    var own := if row.None? && f.create then Some(Pending) else row;
    var marked := if own.Some? && f.mark then Some(Failed) else own;
    if !f.queueUp then Trace(if own.None? && f.fallback then Some(Failed) else marked, false, false)
    else match f.add
      case Added => Trace(own, true, true)
      case AlreadyExists => if own.Some? then Trace(own, false, retry && f.found) else Trace(own, false, false)
      case AddFailed => Trace(marked, false, false)
  }

  /** An event leaves nothing behind exactly when its outbox row could not be created and neither
      the queue nor, with the queue down, the fallback record took it. */
  lemma LostIff(f: Fate)
    ensures TraceOf(None, false, f) == Trace(None, false, false) <==>
      !f.create && (if f.queueUp then f.add != Added else !f.fallback)
  {
  }

  /** A row stays pending without a job of this call, for the recovery sweep to find, exactly when
      the queue refused a duplicate or the row could not be marked failed. */
  lemma LeftForRecoveryIff(f: Fate)
    ensures TraceOf(None, false, f) == Trace(Some(Pending), false, false) <==>
      f.create && !(f.queueUp && f.add == Added) && ((f.queueUp && f.add == AlreadyExists) || !f.mark)
  {
  }

  /** A manual retry of a row: it reports success only for a job that is there, its own or one already
      queued for this attempt, and it touches the row only to record that no job could be added. */
  lemma RetryReportsTruly(status: Status, f: Fate)
    ensures var t := TraceOf(Some(status), true, f);
      && (t.job <==> f.queueUp && f.add == Added)
      && (t.returned <==> f.queueUp && (f.add == Added || (f.add == AlreadyExists && f.found)))
      && t.row == (if f.mark && (!f.queueUp || f.add == AddFailed) then Some(Failed) else Some(status))
  {
  }

  // ---- the recovery sweep ------------------------------------------------------------------------------

  /** An outbox row as the sweep sees it; claimed is the column nextRetryAt. */
  datatype Outbox = Outbox(status: Status, createdAt: int, claimed: Option<int>)

  /** The outbox table and the ids of the jobs in the queue. */
  datatype Store = Store(rows: map<string, Outbox>, jobs: set<string>)

  /** A row as read at the start of the sweep. */
  datatype Item = Item(id: string, hasPayload: bool)

  /** Which of the calls made for one row succeed, and the time. */
  datatype Luck = Luck(lookup: bool, claim: bool, add: AddResult, mark: bool, revert: bool, now: int)

  function JobId(id: string): string {
    "wh-" + id
  }

  lemma JobIdIsInjective(a: string, b: string)
    ensures JobId(a) == JobId(b) <==> a == b
    ensures JobId(a)[..3] == "wh-" && JobId(a)[3..] == a
  {
    assert JobId(a)[3..] == a && JobId(b)[3..] == b;
  }

  function SetClaim(rows: map<string, Outbox>, id: string, claimed: Option<int>, ok: bool): map<string, Outbox> {
    if ok && id in rows then rows[id := rows[id].(claimed := claimed)] else rows
  }

  function MarkFailed(rows: map<string, Outbox>, id: string, ok: bool): map<string, Outbox> {
    if ok && id in rows then rows[id := rows[id].(status := Failed)] else rows
  }

  /** enqueueWebhook for a row that has its delivery id, with the queue up: true means a job. */
  function Enqueue(s: Store, id: string, l: Luck): (Store, bool) {
    match l.add
    case Added => (s.(jobs := s.jobs + {JobId(id)}), true)
    case AlreadyExists => (s, false)
    case AddFailed => (s.(rows := MarkFailed(s.rows, id, l.mark)), false)
  }

  /** It is the producer's call on that row, without an attempt number and with the queue up. */
  lemma EnqueueIsProducer(s: Store, id: string, l: Luck)
    requires id in s.rows
    ensures var (t, added) := Enqueue(s, id, l);
      var trace := TraceOf(Some(s.rows[id].status), false, Fate(false, true, l.add, false, l.mark, false));
      && id in t.rows && trace == Trace(Some(t.rows[id].status), added, added)
      && t.jobs == (if trace.job then s.jobs + {JobId(id)} else s.jobs)
  {
  }

  datatype Turn = Skipped | Recovered | Reverted | Aborted

  /** What the sweep does with one row. */
  function RecoverOne(s: Store, item: Item, l: Luck): (Store, Turn) {
    if !item.hasPayload then (s, Skipped)
    else if !l.lookup then (s, Aborted)
    else if JobId(item.id) in s.jobs then (s, Skipped)
    else if !l.claim || item.id !in s.rows then (s, Skipped)
    else
      var claimed := s.(rows := SetClaim(s.rows, item.id, Some(l.now), true));
      var (t, added) := Enqueue(claimed, item.id, l);
      if added then (t, Recovered)
      else (t.(rows := SetClaim(t.rows, item.id, None, l.revert)), Reverted)
  }

  /** The sweep: the store after it, and the number it reports, which is 0 after an abort. */
  function RecoverAll(s: Store, items: seq<Item>, ls: seq<Luck>, n: nat): (Store, nat)
    requires |ls| == |items|
    decreases |items|
  {
    if items == [] then (s, n)
    else
      var (t, turn) := RecoverOne(s, items[0], ls[0]);
      if turn == Aborted then (t, 0)
      else RecoverAll(t, items[1..], ls[1..], if turn == Recovered then n + 1 else n)
  }

  class Sweeper {
    var rows: map<string, Outbox>
    var jobs: set<string>

    constructor (rows: map<string, Outbox>, jobs: set<string>)
      ensures View() == Store(rows, jobs)
    {
      this.rows, this.jobs := rows, jobs;
    }

    function View(): Store
      reads this
    {
      Store(rows, jobs)
    }

    method RecoverRow(item: Item, l: Luck) returns (turn: Turn)
      modifies this
      ensures (View(), turn) == RecoverOne(old(View()), item, l)
    {
      if !item.hasPayload {
        return Skipped;
      }
      if !l.lookup {
        return Aborted;
      }
      if JobId(item.id) in jobs || !l.claim || item.id !in rows {
        return Skipped;
      }
      rows := rows[item.id := rows[item.id].(claimed := Some(l.now))];
      if l.add == Added {
        jobs := jobs + {JobId(item.id)};
        return Recovered;
      }
      if l.add == AddFailed && l.mark {
        rows := rows[item.id := rows[item.id].(status := Failed)];
      }
      if l.revert {
        rows := rows[item.id := rows[item.id].(claimed := None)];
      }
      return Reverted;
    }

    /** The loop of recoverOrphanedPendingDeliveries over the rows read at its start. */
    method Recover(items: seq<Item>, ls: seq<Luck>) returns (reenqueued: nat)
      requires |ls| == |items|
      modifies this
      ensures (View(), reenqueued) == RecoverAll(old(View()), items, ls, 0)
    {
      ghost var goal := RecoverAll(View(), items, ls, 0);
      reenqueued := 0;
      var k := 0;
      assert items[0..] == items && ls[0..] == ls;
      while k < |items|
        invariant k <= |items| && RecoverAll(View(), items[k..], ls[k..], reenqueued) == goal
      {
        assert items[k..][1..] == items[k + 1..] && ls[k..][1..] == ls[k + 1..];
        var turn := RecoverRow(items[k], ls[k]);
        if turn == Aborted {
          return 0;
        }
        if turn == Recovered {
          reenqueued := reenqueued + 1;
        }
        k := k + 1;
      }
    }
  }

  /** A row the sweep left claimed, although it was not. */
  predicate NewlyClaimed(s: Store, t: Store, id: string) {
    id in s.rows && id in t.rows && s.rows[id].claimed.None? && t.rows[id].claimed.Some?
  }

  /** Every write that undoes a claim succeeds. */
  predicate RevertsSucceed(ls: seq<Luck>) {
    forall i :: 0 <= i < |ls| ==> ls[i].revert
  }

  lemma OneKeepsOthers(s: Store, item: Item, l: Luck, id: string)
    requires id != item.id
    ensures var t := RecoverOne(s, item, l).0;
      && (id in t.rows <==> id in s.rows) && (id in s.rows ==> t.rows[id] == s.rows[id])
      && (JobId(id) in t.jobs <==> JobId(id) in s.jobs) && s.jobs <= t.jobs
  {
    if JobId(id) == JobId(item.id) {
      JobIdIsInjective(id, item.id);
    }
  }

  /** What one turn does to its own row, exactly. */
  lemma OneDecides(s: Store, item: Item, l: Luck)
    requires item.id in s.rows && s.rows[item.id].claimed.None?
    ensures var (t, turn) := RecoverOne(s, item, l);
      && t.rows.Keys == s.rows.Keys
      && (NewlyClaimed(s, t, item.id) <==> turn == Recovered || (turn == Reverted && !l.revert))
      && (turn == Recovered <==> JobId(item.id) in t.jobs && JobId(item.id) !in s.jobs)
  {
  }

  /** Exactly when a turn ends how, and that a skipped row and an abort change nothing. */
  lemma RecoverMeaning(s: Store, item: Item, l: Luck)
    ensures var (t, turn) := RecoverOne(s, item, l);
      && (turn == Aborted <==> item.hasPayload && !l.lookup)
      && (turn == Recovered <==>
           item.hasPayload && l.lookup && JobId(item.id) !in s.jobs && l.claim && item.id in s.rows && l.add == Added)
      && (turn == Reverted <==>
           item.hasPayload && l.lookup && JobId(item.id) !in s.jobs && l.claim && item.id in s.rows && l.add != Added)
      && (turn == Skipped || turn == Aborted ==> t == s)
      && (turn == Recovered ==>
           t == Store(s.rows[item.id := s.rows[item.id].(claimed := Some(l.now))], s.jobs + {JobId(item.id)}))
  {
  }

  predicate DistinctItems(items: seq<Item>) {
    forall i, j :: 0 <= i < j < |items| ==> items[i].id != items[j].id
  }

  /** A sweep whose reverts succeed leaves no row claimed without having added its job, even when it
      aborts half-way. */
  lemma {:induction false} NoStrandedClaim(s: Store, items: seq<Item>, ls: seq<Luck>, n: nat, id: string)
    requires |ls| == |items| && DistinctItems(items) && RevertsSucceed(ls)
    ensures var t := RecoverAll(s, items, ls, n).0;
      && s.jobs <= t.jobs
      && (NewlyClaimed(s, t, id) ==> JobId(id) in t.jobs && JobId(id) !in s.jobs)
    decreases |items|
  {
    if items != [] {
      var (t, turn) := RecoverOne(s, items[0], ls[0]);
      var u := RecoverAll(s, items, ls, n).0;
      NoStrandedClaim(t, items[1..], ls[1..], if turn == Recovered then n + 1 else n, id);
      if id != items[0].id {
        OneKeepsOthers(s, items[0], ls[0], id);
      } else {
        if id in s.rows && s.rows[id].claimed.None? {
          OneDecides(s, items[0], ls[0]);
        }
        if turn != Aborted {
          RestKeeps(t, items[1..], ls[1..], if turn == Recovered then n + 1 else n, id);
        }
      }
    }
  }

  lemma {:induction false} RestKeeps(s: Store, items: seq<Item>, ls: seq<Luck>, n: nat, id: string)
    requires |ls| == |items| && forall i :: 0 <= i < |items| ==> items[i].id != id
    ensures var t := RecoverAll(s, items, ls, n).0;
      && (id in t.rows <==> id in s.rows) && (id in s.rows ==> t.rows[id] == s.rows[id])
      && (JobId(id) in t.jobs <==> JobId(id) in s.jobs)
    decreases |items|
  {
    if items != [] {
      var (t, turn) := RecoverOne(s, items[0], ls[0]);
      OneKeepsOthers(s, items[0], ls[0], id);
      if turn != Aborted {
        RestKeeps(t, items[1..], ls[1..], if turn == Recovered then n + 1 else n, id);
      }
    }
  }

  /** A failed revert does strand a claim: the row is then left claimed and without a job, and no
      later sweep selects it. */
  lemma FailedRevertStrands(s: Store, item: Item, l: Luck)
    requires item.hasPayload && l.lookup && l.claim && l.add != Added && item.id in s.rows && JobId(item.id) !in s.jobs
    requires s.rows[item.id].claimed.None?
    ensures var t := RecoverOne(s, item, l).0;
      (t.rows[item.id].claimed.Some? <==> !l.revert) && JobId(item.id) !in t.jobs
  {
  }

  /** The rows a sweep selects. */
  predicate Stale(row: Outbox, cutoff: int) {
    row.status == Pending && row.createdAt < cutoff && row.claimed.None?
  }

  /** A row whose add failed is selected again by the next sweep only if, besides the revert, the
      update that marks it failed did not succeed: that update takes it out of state pending. */
  lemma RetriedNextTimeIff(s: Store, item: Item, l: Luck, cutoff: int)
    requires item.hasPayload && l.lookup && l.claim && l.add == AddFailed
    requires item.id in s.rows && JobId(item.id) !in s.jobs && Stale(s.rows[item.id], cutoff)
    ensures var t := RecoverOne(s, item, l).0;
      Stale(t.rows[item.id], cutoff) <==> l.revert && !l.mark
  {
  }

  /** One such row: its add failed, its claim was reverted, and it was marked failed, so the next
      sweep does not select it. */
  lemma MarkedRowIsNotRetried()
    ensures var s := Store(map["x" := Outbox(Pending, 0, None)], {});
      var t := RecoverOne(s, Item("x", true), Luck(true, true, AddFailed, true, true, 7)).0;
      && Stale(s.rows["x"], 5) && "x" in t.rows && t.rows["x"] == Outbox(Failed, 0, None) && !Stale(t.rows["x"], 5)
      && JobId("x") !in t.jobs
  {
  }

  /** One sweep over a single row, with its calls working. */
  function SweepOne(s: Store, item: Item, l: Luck, cutoff: int): Store {
    if item.id in s.rows && Stale(s.rows[item.id], cutoff) then RecoverOne(s, item, l).0 else s
  }

  /** The store holds what a first producer call left for an event of its own, by now old enough for
      the sweep. */
  predicate Holds(s: Store, item: Item, f: Fate, cutoff: int) {
    var trace := TraceOf(None, false, f);
    && item.hasPayload && (item.id in s.rows <==> trace.row.Some?)
    && (trace.row.Some? ==> var row := s.rows[item.id];
         row.status == trace.row.value && row.claimed.None? && row.createdAt < cutoff)
    && (f.create && trace.job ==> JobId(item.id) in s.jobs)
  }

  /** Producer and sweep together: whichever calls of the producer failed, after one sweep whose calls
      work an event is lost exactly when nothing of it was ever written; it is recorded as failed
      exactly when that mark or record was written; and a row that is not failed has its job. */
  lemma EventOutcome(s: Store, item: Item, f: Fate, l: Luck, cutoff: int)
    requires Holds(s, item, f, cutoff) && l.lookup && l.claim && l.add == Added
    ensures var (t, direct) := (SweepOne(s, item, l, cutoff), TraceOf(None, false, f).job);
      && (item.id !in t.rows && !direct <==> !f.create && (if f.queueUp then f.add != Added else !f.fallback))
      && (item.id in t.rows && t.rows[item.id].status == Failed <==>
           if f.create then f.mark && (!f.queueUp || f.add == AddFailed) else !f.queueUp && f.fallback)
      && (item.id in t.rows && t.rows[item.id].status != Failed ==> JobId(item.id) in t.jobs)
  {
    LostIff(f);
    LeftForRecoveryIff(f);
    if item.id in s.rows && s.rows[item.id].status != Failed {
      assert Stale(s.rows[item.id], cutoff);
    }
  }

  /** The rows listed for a sweep: pending, created before the cutoff, and not claimed. */
  ghost predicate Selected(rows: map<string, Outbox>, items: seq<Item>, cutoff: int) {
    && DistinctItems(items)
    && forall i :: 0 <= i < |items| ==> items[i].id in rows && Stale(rows[items[i].id], cutoff)
  }

  /** A sweep leaves alone every row that is not pending, is claimed, or is too young. */
  lemma SweepSpares(s: Store, items: seq<Item>, ls: seq<Luck>, cutoff: int, id: string)
    requires |ls| == |items| && Selected(s.rows, items, cutoff) && id in s.rows
    requires s.rows[id].status != Pending || s.rows[id].claimed.Some? || s.rows[id].createdAt >= cutoff
    ensures var t := RecoverAll(s, items, ls, 0).0;
      id in t.rows && t.rows[id] == s.rows[id] && (JobId(id) in t.jobs <==> JobId(id) in s.jobs)
  {
    RestKeeps(s, items, ls, 0, id);
  }

  predicate Works(l: Luck) {
    l.lookup && l.claim && l.add == Added
  }

  /** And it brings every row it lists, as long as that row has a payload and the calls work, into the
      queue, if it is not there already. */
  lemma {:induction false} SweepReaches(s: Store, items: seq<Item>, ls: seq<Luck>, n: nat, k: nat)
    requires |ls| == |items| && k < |items| && items[k].hasPayload && items[k].id in s.rows
    requires forall i :: 0 <= i <= k ==> Works(ls[i])
    ensures JobId(items[k].id) in RecoverAll(s, items, ls, n).0.jobs
    decreases |items|
  {
    var (t, turn) := RecoverOne(s, items[0], ls[0]);
    assert Works(ls[0]);
    if k > 0 {
      SweepReaches(t, items[1..], ls[1..], if turn == Recovered then n + 1 else n, k - 1);
    } else {
      JobsStay(t, items[1..], ls[1..], if turn == Recovered then n + 1 else n);
    }
  }

  lemma {:induction false} JobsStay(s: Store, items: seq<Item>, ls: seq<Luck>, n: nat)
    requires |ls| == |items|
    ensures s.jobs <= RecoverAll(s, items, ls, n).0.jobs
    decreases |items|
  {
    if items != [] {
      var (t, turn) := RecoverOne(s, items[0], ls[0]);
      if turn != Aborted {
        JobsStay(t, items[1..], ls[1..], if turn == Recovered then n + 1 else n);
      }
    }
  }

  /** An abort is reported as zero. */
  lemma {:induction false} AbortReportsNone(s: Store, items: seq<Item>, ls: seq<Luck>, n: nat, k: nat)
    requires |ls| == |items| && k < |items| && items[k].hasPayload && !ls[k].lookup
    requires forall i :: 0 <= i < k ==> ls[i].lookup
    ensures RecoverAll(s, items, ls, n).1 == 0
    decreases |items|
  {
    if k > 0 {
      var (t, turn) := RecoverOne(s, items[0], ls[0]);
      AbortReportsNone(t, items[1..], ls[1..], if turn == Recovered then n + 1 else n, k - 1);
    }
  }

  /** The number reported is the number of jobs added, unless the sweep aborts. */
  lemma {:induction false} CountIsJobsAdded(s: Store, items: seq<Item>, ls: seq<Luck>, n: nat)
    requires |ls| == |items| && forall i :: 0 <= i < |ls| ==> ls[i].lookup
    ensures var (t, k) := RecoverAll(s, items, ls, n); k == n + |t.jobs| - |s.jobs|
    decreases |items|
  {
    if items != [] {
      var (t, turn) := RecoverOne(s, items[0], ls[0]);
      CountIsJobsAdded(t, items[1..], ls[1..], if turn == Recovered then n + 1 else n);
    }
  }
}
