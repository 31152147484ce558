/** The fiat order status machine of apps/backend/src/services/onrampOrderStatus.ts: webhook and
    poller handlers that each read an order, and later write it under a precondition. */
module OnrampOrders {
  import opened Text
  import opened Wrappers

  datatype Status = Pending | Processing | Completed | Refunded | Failed | Cancelled

  datatype Row = Row(status: Status, txHash: Option<string>, cryptoAmount: Option<string>)
  datatype Fields = Fields(txHash: Option<string>, cryptoAmount: Option<string>)
  datatype Result = Applied | Ignored

  predicate Terminal(s: Status) {
    s == Completed || s == Cancelled || s == Failed || s == Refunded
  }

  // ---- provider vocabularies -------------------------------------------------------------------

  /** Anything that is not a string reads as the empty string. */
  function Normalized(raw: Option<string>): string {
    if raw.Some? then Trim(JsSpace, Lower(raw.value)) else ""
  }

  function MapWebhook(raw: Option<string>): Status {
    var n := Normalized(raw);
    if n == "completed" || n == "success" then Completed
    else if n == "processing" then Processing
    else if n == "pending" then Pending
    else if n == "cancelled" then Cancelled
    else if Contains(n, "refund") then Refunded
    else Failed
  }

  function MapPolling(raw: Option<string>): Option<Status> {
    var n := Normalized(raw);
    if n == "" then None
    else if n == "completed" || n == "success" then Some(Completed)
    else if n == "processing" then Some(Processing)
    else if n == "pending" then Some(Pending)
    else if n == "cancelled" then Some(Cancelled)
    else if n == "failed" then Some(Failed)
    else if Contains(n, "refund") then Some(Refunded)
    else None
  }

  /** The poller never contradicts the webhook; what it does not understand it leaves alone, and
      there the webhook, and only there, reads a failure that was not spelled "failed". */
  lemma PollingAgreesWithWebhook(raw: Option<string>)
    ensures MapPolling(raw).Some? ==> MapPolling(raw).value == MapWebhook(raw)
    ensures MapPolling(raw).None? <==> MapWebhook(raw) == Failed && Normalized(raw) != "failed"
  {
    assert "failed"[..6][0] == 'f' && "refund"[0] == 'r';
    assert !Contains("failed", "refund");
  }

  predicate KnownWord(s: string) {
    s == "completed" || s == "success" || s == "processing" || s == "pending" || s == "cancelled"
  }

  lemma KnownWordsHaveNoF(s: string)
    requires KnownWord(s)
    ensures 'f' !in s
  {
  }

  /** A signed webhook event is a refund exactly when its status contains that word, and a failure
      exactly when it neither does nor is a known word. */
  lemma WebhookStatusIff(raw: Option<string>)
    ensures MapWebhook(raw) == Refunded <==> Contains(Normalized(raw), "refund")
    ensures MapWebhook(raw) == Failed <==> !Contains(Normalized(raw), "refund") && !KnownWord(Normalized(raw))
  {
    if KnownWord(Normalized(raw)) {
      KnownWordsHaveNoF(Normalized(raw));
      KnownWordsAreNoRefunds(Normalized(raw));
    }
  }

  lemma {:induction false} KnownWordsAreNoRefunds(s: string)
    requires 'f' !in s
    ensures !Contains(s, "refund")
  {
    if |s| >= 6 {
      assert "refund"[2] == 'f';
      assert s[..6] != "refund" by {
        assert s[..6][2] == s[2];
      }
      KnownWordsAreNoRefunds(s[1..]);
    }
  }

  // ---- the vocabularies, on the provider's own text -----------------------------------------------

  /** The text is this word, up to case and outer white space. */
  ghost predicate Says(raw: Option<string>, word: string) {
    raw.Some? && Alike(raw.value, word)
  }

  /** The text contains this word, in any case. */
  ghost predicate SpeaksOf(raw: Option<string>, word: string) {
    raw.Some? && Mentions(raw.value, word)
  }

  lemma SaysIff(raw: Option<string>, word: string)
    requires word != "" && forall i :: 0 <= i < |word| ==> 'a' <= word[i] <= 'z'
    ensures Normalized(raw) == word <==> Says(raw, word)
  {
    assert Lower(word) == word && Trim(JsSpace, word) == word;
    if raw.Some? {
      LowerAlike(raw.value, word);
    }
  }

  lemma SpeaksOfIff(raw: Option<string>)
    ensures Contains(Normalized(raw), "refund") <==> SpeaksOf(raw, "refund")
  {
    if raw.Some? {
      assert Lower("refund") == "refund";
      TrimContains(Lower(raw.value), "refund");
      LowerContains(raw.value, "refund");
    }
  }

  lemma WordsSaid(raw: Option<string>)
    ensures Normalized(raw) == "completed" <==> Says(raw, "completed")
    ensures Normalized(raw) == "success" <==> Says(raw, "success")
    ensures Normalized(raw) == "processing" <==> Says(raw, "processing")
    ensures Normalized(raw) == "pending" <==> Says(raw, "pending")
    ensures Normalized(raw) == "cancelled" <==> Says(raw, "cancelled")
    ensures Normalized(raw) == "failed" <==> Says(raw, "failed")
  {
    SaysIff(raw, "completed");
    SaysIff(raw, "success");
    SaysIff(raw, "processing");
    SaysIff(raw, "pending");
    SaysIff(raw, "cancelled");
    SaysIff(raw, "failed");
  }

  /** Exactly which texts mean what to the webhook; anything else is a failure. */
  lemma WebhookMeaning(raw: Option<string>)
    ensures MapWebhook(raw) == Completed <==> Says(raw, "completed") || Says(raw, "success")
    ensures MapWebhook(raw) == Processing <==> Says(raw, "processing")
    ensures MapWebhook(raw) == Pending <==> Says(raw, "pending")
    ensures MapWebhook(raw) == Cancelled <==> Says(raw, "cancelled")
    ensures MapWebhook(raw) == Refunded <==> SpeaksOf(raw, "refund")
  {
    WordsSaid(raw);
    SpeaksOfIff(raw);
    WebhookStatusIff(raw);
  }

  /** Exactly which texts mean what to the poller; anything else means nothing. */
  lemma PollingMeaning(raw: Option<string>)
    ensures MapPolling(raw) == Some(Completed) <==> Says(raw, "completed") || Says(raw, "success")
    ensures MapPolling(raw) == Some(Processing) <==> Says(raw, "processing")
    ensures MapPolling(raw) == Some(Pending) <==> Says(raw, "pending")
    ensures MapPolling(raw) == Some(Cancelled) <==> Says(raw, "cancelled")
    ensures MapPolling(raw) == Some(Failed) <==> Says(raw, "failed")
    ensures MapPolling(raw) == Some(Refunded) <==> SpeaksOf(raw, "refund")
  {
    PollingAgreesWithWebhook(raw);
    WebhookMeaning(raw);
    WordsSaid(raw);
  }

  /** Two texts that differ only in case and outer white space are answered alike. */
  lemma AlikeAreAnsweredAlike(a: string, b: string)
    requires Alike(a, b)
    ensures MapWebhook(Some(a)) == MapWebhook(Some(b)) && MapPolling(Some(a)) == MapPolling(Some(b))
  {
    LowerAlike(a, b);
  }

  // ---- the writes --------------------------------------------------------------------------------

  function Over(field: Option<string>, stored: Option<string>): Option<string> {
    if field.Some? then field else stored
  }

  /** The update whose WHERE clause excludes the terminal states. */
  function WriteOpen(row: Row, next: Status, f: Fields): (Row, bool) {
    if Terminal(row.status) then (row, false)
    else (Row(next, Over(f.txHash, row.txHash), Over(f.cryptoAmount, row.cryptoAmount)), true)
  }

  /** casCompletedToRefunded. */
  function WriteRefund(row: Row, f: Fields): (Row, bool) {
    if row.status != Completed then (row, false)
    else (row.(status := Refunded, txHash := Over(f.txHash, row.txHash)), true)
  }

  // ---- handlers ----------------------------------------------------------------------------------

  /** A handler named by what it does next. The webhook falls back on the fields it read. */
  datatype Handler =
    | Webhook(next: Status, txHash: Option<string>, cryptoAmount: Option<string>)
    | Poll
    | Fetching(seen: Status)
    | Writing(next: Status, fields: Fields)
    | Refunding(fields: Fields)
    | Finished(next: Status, result: Result)
    | Skipped

  function Read(row: Row, next: Status, f: Fields): Handler {
    if Terminal(row.status) then
      if row.status == Completed && next == Refunded then Refunding(f) else Finished(next, Ignored)
    else Writing(next, f)
  }

  function ResultOf(applied: bool): Result {
    if applied then Applied else Ignored
  }

  /** One turn; answer is what the provider's status call returns to a poller, None for an error. */
  function Turn(row: Row, h: Handler, answer: Option<string>): (Row, Handler) {
    match h
    case Webhook(next, txHash, cryptoAmount) =>
      (row, Read(row, next, Fields(Over(txHash, row.txHash), Over(cryptoAmount, row.cryptoAmount))))
    case Poll => (row, if Terminal(row.status) then Skipped else Fetching(row.status))
    case Fetching(seen) =>
      var next := MapPolling(answer);
      (row, if answer.None? || next.None? || next.value == seen then Skipped
            else Writing(next.value, Fields(None, None)))
    case Writing(next, f) =>
      var (r, applied) := WriteOpen(row, next, f);
      (r, if applied then Finished(next, Applied) else if next == Refunded then Refunding(f) else Finished(next, Ignored))
    case Refunding(f) =>
      var (r, applied) := WriteRefund(row, f);
      (r, Finished(Refunded, ResultOf(applied)))
    case _ => (row, h)
  }

  datatype State = State(row: Row, handlers: seq<Handler>)

  datatype Label = Arrive(handler: Handler) | Act(p: nat, answer: Option<string>)

  function Step(s: State, l: Label): State {
    match l
    case Arrive(h) => if h.Webhook? || h.Poll? then s.(handlers := s.handlers + [h]) else s
    case Act(p, answer) =>
      if p < |s.handlers| then
        var (r, h) := Turn(s.row, s.handlers[p], answer);
        State(r, s.handlers[p := h])
      else s
  }

  function Run(s: State, ls: seq<Label>): State {
    if ls == [] then s else Step(Run(s, ls[..|ls| - 1]), ls[|ls| - 1])
  }

  // ---- terminal orders -----------------------------------------------------------------------------

  /** What may have become of a row. */
  predicate Later(a: Row, b: Row) {
    Terminal(a.status) ==>
      && b.cryptoAmount == a.cryptoAmount
      && (b.status == a.status || (a.status == Completed && b.status == Refunded))
      && (b.status == a.status ==> b == a)
  }

  /** Over every run a terminal order changes only from completed to refunded, and its crypto
      amount is frozen: completed never becomes failed or cancelled. */
  lemma {:induction false} TerminalIsFrozen(s: State, ls: seq<Label>)
    ensures Later(s.row, Run(s, ls).row)
  {
    if ls != [] {
      TerminalIsFrozen(s, ls[..|ls| - 1]);
      var t := Run(s, ls[..|ls| - 1]);
      assert Later(t.row, Step(t, ls[|ls| - 1]).row);
    }
  }

  /** Over every run a hash or an amount, once stored, may be replaced while the order is open but
      is never erased. */
  lemma {:induction false} FieldsAreNeverErased(s: State, ls: seq<Label>)
    ensures s.row.txHash.Some? ==> Run(s, ls).row.txHash.Some?
    ensures s.row.cryptoAmount.Some? ==> Run(s, ls).row.cryptoAmount.Some?
  {
    if ls != [] {
      FieldsAreNeverErased(s, ls[..|ls| - 1]);
    }
  }

  // ---- nothing is made up ----------------------------------------------------------------------------

  /** Some webhook event of the run came with this state, or some polled answer means it. */
  ghost predicate Asked(ls: seq<Label>, t: Status) {
    exists n :: 0 <= n < |ls| && AsksFor(ls[n], t)
  }

  predicate AsksFor(l: Label, t: Status) {
    match l
    case Arrive(h) => h.Webhook? && h.next == t
    case Act(_, answer) => MapPolling(answer) == Some(t)
  }

  /** The hash was there at the start, or some webhook event of the run carried it. */
  ghost predicate KnownHash(row: Row, ls: seq<Label>, v: Option<string>) {
    v == row.txHash || exists n :: 0 <= n < |ls| && CarriesHash(ls[n], v)
  }

  predicate CarriesHash(l: Label, v: Option<string>) {
    l.Arrive? && l.handler.Webhook? && l.handler.txHash == v
  }

  ghost predicate KnownAmount(row: Row, ls: seq<Label>, v: Option<string>) {
    v == row.cryptoAmount || exists n :: 0 <= n < |ls| && CarriesAmount(ls[n], v)
  }

  predicate CarriesAmount(l: Label, v: Option<string>) {
    l.Arrive? && l.handler.Webhook? && l.handler.cryptoAmount == v
  }

  ghost predicate KnownFields(row: Row, ls: seq<Label>, f: Fields) {
    (f.txHash.Some? ==> KnownHash(row, ls, f.txHash)) && (f.cryptoAmount.Some? ==> KnownAmount(row, ls, f.cryptoAmount))
  }

  ghost predicate HandlerKnown(row: Row, ls: seq<Label>, h: Handler) {
    && (Wants(h).Some? ==> Asked(ls, Wants(h).value))
    && (h.Webhook? ==> KnownFields(row, ls, Fields(h.txHash, h.cryptoAmount)))
    && (h.Writing? || h.Refunding? ==> KnownFields(row, ls, h.fields))
  }

  ghost predicate RowKnown(row: Row, ls: seq<Label>, r: Row) {
    && (r.status == row.status || Asked(ls, r.status))
    && KnownHash(row, ls, r.txHash) && KnownAmount(row, ls, r.cryptoAmount)
  }

  lemma StillKnown(row: Row, ls: seq<Label>, l: Label)
    ensures forall t :: Asked(ls, t) ==> Asked(ls + [l], t)
    ensures forall v :: KnownHash(row, ls, v) ==> KnownHash(row, ls + [l], v)
    ensures forall v :: KnownAmount(row, ls, v) ==> KnownAmount(row, ls + [l], v)
  {
    assert forall n :: 0 <= n < |ls| ==> (ls + [l])[n] == ls[n];
    forall t | Asked(ls, t) ensures Asked(ls + [l], t) {
      var n :| 0 <= n < |ls| && AsksFor(ls[n], t);
      assert AsksFor((ls + [l])[n], t);
    }
    forall v | KnownHash(row, ls, v) && v != row.txHash ensures KnownHash(row, ls + [l], v) {
      var n :| 0 <= n < |ls| && CarriesHash(ls[n], v);
      assert CarriesHash((ls + [l])[n], v);
    }
    forall v | KnownAmount(row, ls, v) && v != row.cryptoAmount ensures KnownAmount(row, ls + [l], v) {
      var n :| 0 <= n < |ls| && CarriesAmount(ls[n], v);
      assert CarriesAmount((ls + [l])[n], v);
    }
  }

  lemma NowKnown(row: Row, ls: seq<Label>, l: Label)
    ensures forall t :: AsksFor(l, t) ==> Asked(ls + [l], t)
    ensures forall v :: CarriesHash(l, v) ==> KnownHash(row, ls + [l], v)
    ensures forall v :: CarriesAmount(l, v) ==> KnownAmount(row, ls + [l], v)
  {
    assert (ls + [l])[|ls|] == l;
  }

  lemma TurnIsKnown(row: Row, ls: seq<Label>, r: Row, h: Handler, l: Label)
    requires l.Act? && RowKnown(row, ls, r) && HandlerKnown(row, ls, h)
    ensures RowKnown(row, ls + [l], Turn(r, h, l.answer).0) && HandlerKnown(row, ls + [l], Turn(r, h, l.answer).1)
  {
    StillKnown(row, ls, l);
    NowKnown(row, ls, l);
  }

  /** Over every run: a state the order comes to be in was asked for, and a hash or an amount it comes to
      carry was carried, by an event of the run; and every handler goes back to such events. */
  lemma {:induction false} NothingIsMadeUp(row: Row, ls: seq<Label>)
    ensures var s := Run(State(row, []), ls);
      RowKnown(row, ls, s.row) && forall p :: 0 <= p < |s.handlers| ==> HandlerKnown(row, ls, s.handlers[p])
  {
    if ls != [] {
      var before, l := ls[..|ls| - 1], ls[|ls| - 1];
      var s, t := Run(State(row, []), before), Run(State(row, []), ls);
      NothingIsMadeUp(row, before);
      assert ls == before + [l];
      StillKnown(row, before, l);
      NowKnown(row, before, l);
      if l.Act? && l.p < |s.handlers| {
        TurnIsKnown(row, before, s.row, s.handlers[l.p], l);
      }
      forall p | 0 <= p < |t.handlers| ensures HandlerKnown(row, ls, t.handlers[p]) {
        assert p < |s.handlers| && !(l.Act? && l.p == p) ==> t.handlers[p] == s.handlers[p];
      }
    }
  }

  // ---- who is behind a terminal state ------------------------------------------------------------------

  predicate HandlerOk(row: Row, h: Handler) {
    match h
    case Refunding(_) => Terminal(row.status)
    case Finished(next, result) =>
      && (next == Refunded ==> row.status == Refunded || row.status == Failed || row.status == Cancelled)
      && (next == Completed ==> Terminal(row.status))
      && (result == Applied && Terminal(next) ==>
           row.status == next || (next == Completed && row.status == Refunded))
    case _ => true
  }

  predicate Ended(h: Handler, t: Status) {
    h == Finished(t, Applied)
  }

  /** A terminal state was brought about by exactly one handler. */
  ghost predicate Ok(s: State) {
    && (forall p :: 0 <= p < |s.handlers| ==> HandlerOk(s.row, s.handlers[p]))
    && (Terminal(s.row.status) ==> exists p :: 0 <= p < |s.handlers| && Ended(s.handlers[p], s.row.status))
    && (forall p, q, t :: 0 <= p < q < |s.handlers| && Terminal(t) ==> !(Ended(s.handlers[p], t) && Ended(s.handlers[q], t)))
  }

  lemma HandlerStays(a: Row, b: Row, h: Handler)
    requires HandlerOk(a, h) && Later(a, b)
    ensures HandlerOk(b, h)
  {
  }

  lemma TurnIsGood(row: Row, h: Handler, answer: Option<string>)
    requires HandlerOk(row, h)
    ensures var (r, h2) := Turn(row, h, answer);
      && HandlerOk(r, h2) && Later(row, r)
      && (r.status != row.status && Terminal(r.status) ==> h2 == Finished(r.status, Applied))
      && (h2.Finished? && h2 != h && h2.result == Applied && Terminal(h2.next) ==>
           h2.next == r.status && (row.status == Completed || !Terminal(row.status)) && r.status != row.status)
      && (h.Finished? ==> h2 == h)
  {
  }

  lemma ActKeepsOk(s: State, p: nat, answer: Option<string>)
    requires Ok(s) && p < |s.handlers|
    ensures Ok(Step(s, Act(p, answer)))
  {
    var t := Step(s, Act(p, answer));
    TurnIsGood(s.row, s.handlers[p], answer);
    forall q | 0 <= q < |t.handlers| ensures HandlerOk(t.row, t.handlers[q]) {
      if q != p {
        HandlerStays(s.row, t.row, s.handlers[q]);
      }
    }
    if Terminal(t.row.status) && t.row.status != s.row.status {
      assert Ended(t.handlers[p], t.row.status);
    } else if Terminal(t.row.status) {
      var q :| 0 <= q < |s.handlers| && Ended(s.handlers[q], s.row.status);
      assert Ended(t.handlers[q], t.row.status);
    }
    forall q, u | 0 <= q < |t.handlers| && q != p && Terminal(u) && Ended(t.handlers[q], u)
      ensures !Ended(t.handlers[p], u)
    {
      var (h, k) := (s.handlers[p], s.handlers[q]);
      assert HandlerOk(s.row, k);
      assert !(Ended(h, u) && Ended(k, u));
    }
  }

  lemma StepKeepsOk(s: State, l: Label)
    requires Ok(s)
    ensures Ok(Step(s, l))
  {
    if l.Act? && l.p < |s.handlers| {
      ActKeepsOk(s, l.p, l.answer);
    } else if l.Arrive? {
      var t := Step(s, l);
      if Terminal(t.row.status) {
        var q :| 0 <= q < |s.handlers| && Ended(s.handlers[q], s.row.status);
        assert Ended(t.handlers[q], t.row.status);
      }
    }
  }

  lemma {:induction false} RunKeepsOk(row: Row, ls: seq<Label>)
    requires !Terminal(row.status)
    ensures Ok(Run(State(row, []), ls))
  {
    if ls != [] {
      RunKeepsOk(row, ls[..|ls| - 1]);
      StepKeepsOk(Run(State(row, []), ls[..|ls| - 1]), ls[|ls| - 1]);
    }
  }

  /** Over every run from an open order: each terminal state was applied by at most one handler,
      the current one by exactly one, and two different ones only as completed, then refunded. */
  lemma AppliedOnce(row: Row, ls: seq<Label>, p: nat, q: nat)
    requires !Terminal(row.status)
    requires p < q < |Run(State(row, []), ls).handlers|
    ensures var s := Run(State(row, []), ls);
      var (h, k) := (s.handlers[p], s.handlers[q]);
      && (Terminal(s.row.status) ==> exists i :: 0 <= i < |s.handlers| && Ended(s.handlers[i], s.row.status))
      && (h.Finished? && k.Finished? && h.result == k.result == Applied && Terminal(h.next) && Terminal(k.next) ==>
           s.row.status == Refunded && (h.next, k.next) in {(Completed, Refunded), (Refunded, Completed)})
  {
    RunKeepsOk(row, ls);
    var s := Run(State(row, []), ls);
    assert HandlerOk(s.row, s.handlers[p]) && HandlerOk(s.row, s.handlers[q]);
    if s.handlers[p].Finished? {
      var t := s.handlers[p].next;
      assert !(Ended(s.handlers[p], t) && Ended(s.handlers[q], t) && Terminal(t));
    }
  }

  // ---- confluence --------------------------------------------------------------------------------------

  /** What a handler asks for, once known. */
  function Wants(h: Handler): Option<Status> {
    match h
    case Webhook(next, _, _) => Some(next)
    case Writing(next, _) => Some(next)
    case Refunding(_) => Some(Refunded)
    case Finished(next, _) => Some(next)
    case _ => None
  }

  /** No handler asks for a failure or a cancellation. */
  predicate NobodyFails(hs: seq<Handler>) {
    forall p :: 0 <= p < |hs| ==> Wants(hs[p]) != Some(Failed) && Wants(hs[p]) != Some(Cancelled)
  }

  predicate RanToTheEnd(s: State, t: Status) {
    exists p :: 0 <= p < |s.handlers| && s.handlers[p].Finished? && s.handlers[p].next == t
  }

  /** However stale the snapshots and however the writes interleave: an open order ends refunded
      as soon as one refund handler has run to the end, unless some handler failed or cancelled it. */
  lemma RefundWins(row: Row, ls: seq<Label>)
    requires !Terminal(row.status) && RanToTheEnd(Run(State(row, []), ls), Refunded)
    ensures var s := Run(State(row, []), ls);
      && (s.row.status == Refunded || s.row.status == Failed || s.row.status == Cancelled)
      && (NobodyFails(s.handlers) ==> s.row.status == Refunded)
  {
    RunKeepsOk(row, ls);
    var s := Run(State(row, []), ls);
    var p :| 0 <= p < |s.handlers| && s.handlers[p].Finished? && s.handlers[p].next == Refunded;
    assert HandlerOk(s.row, s.handlers[p]);
  }

  /** Without refunds, failures and cancellations, one completion handler run to the end completes
      the order, whatever pending and processing handlers come late. */
  lemma CompletionWins(row: Row, ls: seq<Label>)
    requires !Terminal(row.status) && RanToTheEnd(Run(State(row, []), ls), Completed)
    requires NobodyFails(Run(State(row, []), ls).handlers)
    requires forall p :: 0 <= p < |Run(State(row, []), ls).handlers| ==>
      Wants(Run(State(row, []), ls).handlers[p]) != Some(Refunded)
    ensures Run(State(row, []), ls).row.status == Completed
  {
    RunKeepsOk(row, ls);
    var s := Run(State(row, []), ls);
    var p :| 0 <= p < |s.handlers| && s.handlers[p].Finished? && s.handlers[p].next == Completed;
    assert HandlerOk(s.row, s.handlers[p]);
  }

  predicate AllDone(s: State) {
    forall p :: 0 <= p < |s.handlers| ==> s.handlers[p].Finished? || s.handlers[p].Skipped?
  }

  /** Confluence: two complete runs, in which the same terminal states were asked for and nobody
      failed or cancelled, leave an order in the same terminal state, or both leave it open. */
  lemma OrderDoesNotMatter(row: Row, ls: seq<Label>, ms: seq<Label>)
    requires !Terminal(row.status)
    requires var (s, t) := (Run(State(row, []), ls), Run(State(row, []), ms));
      && AllDone(s) && AllDone(t) && NobodyFails(s.handlers) && NobodyFails(t.handlers)
      && (RanToTheEnd(s, Refunded) <==> RanToTheEnd(t, Refunded))
      && (RanToTheEnd(s, Completed) <==> RanToTheEnd(t, Completed))
    ensures var (s, t) := (Run(State(row, []), ls), Run(State(row, []), ms));
      if Terminal(s.row.status) then t.row.status == s.row.status else !Terminal(t.row.status)
  {
    EndState(row, ls);
    EndState(row, ms);
  }

  /** The terminal state of a complete run without failures. */
  lemma EndState(row: Row, ls: seq<Label>)
    requires !Terminal(row.status) && AllDone(Run(State(row, []), ls)) && NobodyFails(Run(State(row, []), ls).handlers)
    ensures var s := Run(State(row, []), ls);
      if RanToTheEnd(s, Refunded) then s.row.status == Refunded
      else if RanToTheEnd(s, Completed) then s.row.status == Completed
      else !Terminal(s.row.status)
  {
    RunKeepsOk(row, ls);
    var s := Run(State(row, []), ls);
    if RanToTheEnd(s, Refunded) {
      RefundWins(row, ls);
    } else if RanToTheEnd(s, Completed) {
      var p :| 0 <= p < |s.handlers| && s.handlers[p].Finished? && s.handlers[p].next == Completed;
      assert HandlerOk(s.row, s.handlers[p]);
    }
  }

  // ---- the calls, run alone ------------------------------------------------------------------------------

  /** The order as the caller read it, possibly long ago. */
  datatype Snapshot = Snapshot(id: string, moonpay: bool, status: Status)

  /** The turns of one applyOnrampStatusTransition call with nobody in between. */
  function Transition(row: Row, seen: Status, next: Status, f: Fields): (Row, Result) {
    if Terminal(seen) && !(seen == Completed && next == Refunded) then (row, Ignored)
    else
      var (r, h) := Turn(row, if Terminal(seen) then Refunding(f) else Writing(next, f), None);
      if h.Finished? then (r, h.result)
      else
        var (r2, applied) := WriteRefund(r, f);
        (r2, ResultOf(applied))
  }

  /** Exactly when a call moves the order, and to what, however stale the caller's snapshot. */
  lemma TransitionMeaning(row: Row, seen: Status, next: Status, f: Fields)
    ensures var (r, result) := Transition(row, seen, next, f);
      && (result == Applied <==>
           || (!Terminal(seen) && !Terminal(row.status))
           || (next == Refunded && row.status == Completed && (seen == Completed || !Terminal(seen))))
      && (result == Ignored ==> r == row)
      && (result == Applied ==> r.status == next && r.txHash == Over(f.txHash, row.txHash))
      && (r.cryptoAmount != row.cryptoAmount ==> !Terminal(row.status) && f.cryptoAmount == r.cryptoAmount)
      && Later(row, r)
  {
  }

  /** A refund event does write the crypto amount when it finds the order open: the documented
      "never written on refund transitions" holds exactly when the order is not open at the write
      or the event carries no other amount. */
  lemma RefundKeepsAmountIff(row: Row, f: Fields, seen: Status)
    requires !Terminal(seen)
    ensures Transition(row, seen, Refunded, f).0.cryptoAmount == row.cryptoAmount <==>
      Terminal(row.status) || f.cryptoAmount.None? || f.cryptoAmount == row.cryptoAmount
  {
  }

  /** An open order on which a refund event does write the amount. */
  lemma RefundCanWriteAmount()
    ensures Transition(Row(Pending, None, Some("5")), Pending, Refunded, Fields(None, Some("7"))) ==
      (Row(Refunded, None, Some("7")), Applied)
  {
  }

  /** A webhook event handled with nobody in between: the call on the state just read, with the event's
      fields and, where the event has none, the stored ones. */
  lemma WebhookAlone(row: Row, next: Status, txHash: Option<string>, cryptoAmount: Option<string>)
    ensures var arrived := Step(State(row, []), Arrive(Webhook(next, txHash, cryptoAmount)));
      var done := Step(Step(Step(arrived, Act(0, None)), Act(0, None)), Act(0, None));
      var f := Fields(if txHash.Some? then txHash else row.txHash,
                      if cryptoAmount.Some? then cryptoAmount else row.cryptoAmount);
      var (r, result) := Transition(row, row.status, next, f);
      done == State(r, [Finished(next, result)])
  {
  }

  /** A polled order handled with nobody in between: the call on the state just read, without fields. */
  lemma PollAlone(row: Row, answer: Option<string>)
    ensures var arrived := Step(State(row, []), Arrive(Poll));
      var done := Step(Step(Step(Step(arrived, Act(0, None)), Act(0, answer)), Act(0, None)), Act(0, None));
      var next := MapPolling(answer);
      if row.status == Pending || row.status == Processing then
        if answer.Some? && next.Some? && next.value != row.status then
          var (r, result) := Transition(row, row.status, next.value, Fields(None, None));
          done == State(r, [Finished(next.value, result)])
        else done == State(row, [Handler.Skipped])
      else done == State(row, [Handler.Skipped])
  {
  }

  /** What a poller does with the provider's answer, whatever happened to the order since it was read:
      it writes the state the answer means, and no fields, or it writes nothing. */
  lemma FetchingDecides(row: Row, seen: Status, answer: Option<string>)
    ensures var (r, h) := Turn(row, Fetching(seen), answer);
      r == row && h == if answer.Some? && MapPolling(answer).Some? && MapPolling(answer) != Some(seen)
        then Writing(MapPolling(answer).value, Fields(None, None))
        else Handler.Skipped
  {
  }

  /** What a webhook event does that arrives when the order is already terminal, whatever happened to the
      order meanwhile: nothing, unless it is a refund and the order was completed. */
  lemma LateEventIsIgnored(row: Row, next: Status, txHash: Option<string>, cryptoAmount: Option<string>, answer: Option<string>)
    requires row.status != Pending && row.status != Processing
    ensures var h := Turn(row, Webhook(next, txHash, cryptoAmount), answer).1;
      && (h == Finished(next, Ignored) <==> row.status != Completed || next != Refunded)
      && (h.Refunding? <==> row.status == Completed && next == Refunded)
  {
  }

  /** MoonPayService.normalizeStatus. */
  function MoonpayStatus(raw: string): string {
    if raw == "waitingPayment" || raw == "waitingAuthorization" || raw == "pending" then "processing" else raw
  }

  /** What a poll of one order asks for, if anything. */
  function PolledStatus(o: Snapshot, answer: Option<string>): Option<Status> {
    if answer.None? then None
    else
      var next := MapPolling(Some(if o.moonpay then MoonpayStatus(answer.value) else answer.value));
      if next.Some? && next.value == o.status then None else next
  }

  lemma ProcessingIsProcessing()
    ensures MapPolling(Some("processing")) == Some(Processing)
  {
    assert Lower("processing") == "processing";
  }

  /** What a poll asks for, on the provider's own text: an error asks for nothing; MoonPay's three words
      for an order in progress, spelled exactly so, mean processing; anything else means what the
      polling vocabulary says; and a state the order has already is not asked for. */
  lemma PolledMeaning(o: Snapshot, a: string, t: Status)
    ensures PolledStatus(o, None).None?
    ensures PolledStatus(o, Some(a)) == Some(t) <==>
      && t != o.status
      && if o.moonpay && a in {"waitingPayment", "waitingAuthorization", "pending"} then t == Processing
         else MapPolling(Some(a)) == Some(t)
  {
    ProcessingIsProcessing();
  }

  function PollOne(orders: map<string, Row>, o: Snapshot, answer: Option<string>): (map<string, Row>, nat) {
    var next := PolledStatus(o, answer);
    if next.None? || o.id !in orders then (orders, 0)
    else
      var (r, result) := Transition(orders[o.id], o.status, next.value, Fields(None, None));
      (orders[o.id := r], if result == Applied then 1 else 0)
  }

  function PollAll(orders: map<string, Row>, os: seq<Snapshot>, answers: seq<Option<string>>): (map<string, Row>, nat)
    requires |answers| == |os|
  {
    if os == [] then (orders, 0)
    else
      var n := |os| - 1;
      var (m, k) := PollAll(orders, os[..n], answers[..n]);
      var (m2, k2) := PollOne(m, os[n], answers[n]);
      (m2, k + k2)
  }

  /** What the sweep has made of the orders after its first k candidates. */
  function PollSome(orders: map<string, Row>, os: seq<Snapshot>, answers: seq<Option<string>>, k: nat): (map<string, Row>, nat)
    requires |answers| == |os| && k <= |os|
  {
    PollAll(orders, os[..k], answers[..k])
  }

  lemma PollSomeNext(orders: map<string, Row>, os: seq<Snapshot>, answers: seq<Option<string>>, k: nat,
      m: map<string, Row>, n: nat, next: map<string, Row>, moved: nat)
    requires |answers| == |os| && k < |os| && PollSome(orders, os, answers, k) == (m, n)
    requires PollOne(m, os[k], answers[k]) == (next, moved)
    ensures PollSome(orders, os, answers, k + 1) == (next, n + moved)
  {
    assert os[..k + 1][..k] == os[..k] && answers[..k + 1][..k] == answers[..k];
  }

  lemma PollSomeEnds(orders: map<string, Row>, os: seq<Snapshot>, answers: seq<Option<string>>)
    requires |answers| == |os|
    ensures PollSome(orders, os, answers, 0) == (orders, 0)
    ensures PollSome(orders, os, answers, |os|) == PollAll(orders, os, answers)
  {
    assert os[..|os|] == os && answers[..|os|] == answers;
  }

  class OrderTable {
    var orders: map<string, Row>

    constructor (rows: map<string, Row>)
      ensures orders == rows
    {
      orders := rows;
    }

    /** updateMany on one id with the terminal states excluded. */
    method UpdateOpen(id: string, next: Status, f: Fields) returns (count: nat)
      modifies this
      ensures id !in old(orders) ==> orders == old(orders) && count == 0
      ensures id in old(orders) ==>
        var (r, applied) := WriteOpen(old(orders)[id], next, f);
        orders == old(orders)[id := r] && count == if applied then 1 else 0
    {
      count := 0;
      if id in orders && !Terminal(orders[id].status) {
        var row := orders[id];
        var txHash, cryptoAmount := row.txHash, row.cryptoAmount;
        if f.txHash.Some? {
          txHash := f.txHash;
        }
        if f.cryptoAmount.Some? {
          cryptoAmount := f.cryptoAmount;
        }
        orders := orders[id := Row(next, txHash, cryptoAmount)];
        count := 1;
      }
    }

    method CasCompletedToRefunded(id: string, f: Fields) returns (result: Result)
      modifies this
      ensures id !in old(orders) ==> orders == old(orders) && result == Ignored
      ensures id in old(orders) ==>
        var (r, applied) := WriteRefund(old(orders)[id], f); orders == old(orders)[id := r] && result == ResultOf(applied)
    {
      result := Ignored;
      if id in orders && orders[id].status == Completed {
        var row := orders[id];
        orders := orders[id := row.(status := Refunded, txHash := Over(f.txHash, row.txHash))];
        result := Applied;
      }
    }

    /** applyOnrampStatusTransition. */
    method ApplyTransition(id: string, seen: Status, next: Status, f: Fields) returns (result: Result)
      modifies this
      ensures id !in old(orders) ==> orders == old(orders) && result == Ignored
      ensures id in old(orders) ==>
        var (r, res) := Transition(old(orders)[id], seen, next, f); orders == old(orders)[id := r] && result == res
    {
      if Terminal(seen) {
        if seen == Completed && next == Refunded {
          result := CasCompletedToRefunded(id, f);
          return;
        }
        return Ignored;
      }
      var count := UpdateOpen(id, next, f);
      if count > 0 {
        return Applied;
      }
      if next == Refunded {
        result := CasCompletedToRefunded(id, f);
        return;
      }
      return Ignored;
    }

    /** One candidate of the sweep; the number of orders moved. */
    method PollOrder(o: Snapshot, answer: Option<string>) returns (moved: nat)
      modifies this
      ensures (orders, moved) == PollOne(old(orders), o, answer)
    {
      if answer.None? {
        return 0;
      }
      var next := MapPolling(Some(if o.moonpay then MoonpayStatus(answer.value) else answer.value));
      if next.None? || next.value == o.status {
        return 0;
      }
      var result := ApplyTransition(o.id, o.status, next.value, Fields(None, None));
      return if result == Applied then 1 else 0;
    }

    /** The loop of pollStaleOnrampOrders over orders read earlier. */
    method PollSweep(candidates: seq<Snapshot>, answers: seq<Option<string>>) returns (reconciled: nat)
      requires |answers| == |candidates|
      modifies this
      ensures (orders, reconciled) == PollAll(old(orders), candidates, answers)
    {
      PollSomeEnds(orders, candidates, answers);
      reconciled := 0;
      var k := 0;
      while k < |candidates|
        invariant k <= |candidates|
        invariant PollSome(old(orders), candidates, answers, k) == (orders, reconciled)
      {
        ghost var before := orders;
        var moved := PollOrder(candidates[k], answers[k]);
        PollSomeNext(old(orders), candidates, answers, k, before, reconciled, orders, moved);
        reconciled := reconciled + moved;
        k := k + 1;
      }
    }
  }

  predicate PolledLater(a: Row, b: Row) {
    Later(a, b) && b.txHash == a.txHash && b.cryptoAmount == a.cryptoAmount
  }

  /** A sweep never touches an amount or a hash, never reopens or re-decides a terminal order, and
      when it counts nothing it has changed nothing. */
  lemma {:induction false} PollAllIsSafe(orders: map<string, Row>, os: seq<Snapshot>, answers: seq<Option<string>>)
    requires |answers| == |os|
    ensures var (m, n) := PollAll(orders, os, answers);
      && m.Keys == orders.Keys
      && (forall id :: id in orders ==> PolledLater(orders[id], m[id]))
      && n <= |os|
      && (n == 0 ==> m == orders)
  {
    if os != [] {
      var k := |os| - 1;
      PollAllIsSafe(orders, os[..k], answers[..k]);
      var m := PollAll(orders, os[..k], answers[..k]).0;
      PollOneIsSafe(m, os[k], answers[k]);
    }
  }

  lemma PollOneIsSafe(orders: map<string, Row>, o: Snapshot, answer: Option<string>)
    ensures var (m, n) := PollOne(orders, o, answer);
      && m.Keys == orders.Keys
      && (forall id :: id in orders ==> PolledLater(orders[id], m[id]))
      && n <= 1 && (n == 0 ==> m == orders)
  {
    var next := PolledStatus(o, answer);
    if next.Some? && o.id in orders {
      TransitionMeaning(orders[o.id], o.status, next.value, Fields(None, None));
    }
  }

  /** The order moves: its answer asks for another state, and the write finds it open, or finds it
      completed and is a refund. */
  predicate Moves(row: Row, o: Snapshot, answer: Option<string>) {
    var next := PolledStatus(o, answer);
    && next.Some?
    && if Terminal(row.status) then
         row.status == Completed && next.value == Refunded && (o.status == Completed || !Terminal(o.status))
       else !Terminal(o.status)
  }

  /** What a poll makes of its order. */
  function Polled(row: Row, o: Snapshot, answer: Option<string>): Row {
    if Moves(row, o, answer) then row.(status := PolledStatus(o, answer).value) else row
  }

  predicate DistinctIds(os: seq<Snapshot>) {
    forall j, k :: 0 <= j < k < |os| ==> os[j].id != os[k].id
  }

  /** How many orders a sweep moves. */
  function MovedCount(orders: map<string, Row>, os: seq<Snapshot>, answers: seq<Option<string>>): nat
    requires |answers| == |os|
  {
    if os == [] then 0
    else
      var n := |os| - 1;
      var last := os[n].id in orders && Moves(orders[os[n].id], os[n], answers[n]);
      MovedCount(orders, os[..n], answers[..n]) + if last then 1 else 0
  }

  lemma PollOneMoves(orders: map<string, Row>, o: Snapshot, answer: Option<string>)
    ensures PollOne(orders, o, answer) ==
      if o.id in orders then (orders[o.id := Polled(orders[o.id], o, answer)], if Moves(orders[o.id], o, answer) then 1 else 0)
      else (orders, 0)
  {
    if o.id in orders {
      var next := PolledStatus(o, answer);
      if next.Some? {
        TransitionMeaning(orders[o.id], o.status, next.value, Fields(None, None));
      }
      assert orders[o.id := orders[o.id]] == orders;
    }
  }

  /** Every order of the sweep is as its poll left it, and every other order as it was. */
  ghost predicate Swept(orders: map<string, Row>, os: seq<Snapshot>, answers: seq<Option<string>>, m: map<string, Row>)
    requires |answers| == |os|
  {
    && m.Keys == orders.Keys
    && (forall k :: 0 <= k < |os| && os[k].id in orders ==> m[os[k].id] == Polled(orders[os[k].id], os[k], answers[k]))
    && (forall id :: id in orders && (forall k :: 0 <= k < |os| ==> os[k].id != id) ==> m[id] == orders[id])
  }

  lemma SweptSnoc(orders: map<string, Row>, os: seq<Snapshot>, answers: seq<Option<string>>, m: map<string, Row>)
    requires |answers| == |os| && os != [] && DistinctIds(os)
    requires Swept(orders, os[..|os| - 1], answers[..|os| - 1], m)
    ensures var o := os[|os| - 1];
      && (o.id in orders ==> m[o.id] == orders[o.id])
      && Swept(orders, os, answers, if o.id in m then m[o.id := Polled(m[o.id], o, answers[|os| - 1])] else m)
  {
    var n := |os| - 1;
    var o := os[n];
    assert forall k :: 0 <= k < n ==> os[..n][k] == os[k] && os[k].id != o.id;
    var t := if o.id in m then m[o.id := Polled(m[o.id], o, answers[n])] else m;
    forall k | 0 <= k < |os| && os[k].id in orders ensures t[os[k].id] == Polled(orders[os[k].id], os[k], answers[k]) {
      if k < n {
        assert os[..n][k].id in orders && answers[..n][k] == answers[k];
      }
    }
  }

  /** Exactly what a sweep over different orders does: each order whose answer asks for another state,
      and that is still open, or completed and refunded, gets that state and keeps its fields; no other
      order changes; and the number reported is the number of orders moved. */
  lemma {:induction false} SweepMoves(orders: map<string, Row>, os: seq<Snapshot>, answers: seq<Option<string>>)
    requires |answers| == |os| && DistinctIds(os)
    ensures Swept(orders, os, answers, PollAll(orders, os, answers).0)
    ensures PollAll(orders, os, answers).1 == MovedCount(orders, os, answers)
  {
    if os != [] {
      var n := |os| - 1;
      SweepMoves(orders, os[..n], answers[..n]);
      var m := PollAll(orders, os[..n], answers[..n]).0;
      PollOneMoves(m, os[n], answers[n]);
      SweptSnoc(orders, os, answers, m);
    }
  }
}
