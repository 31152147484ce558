/** Invoice settlement: the payment transaction of paymentProcessor.ts, the expiry sweep of
    invoiceExpiry.ts and the pay and cancel requests of invoiceController.ts, as handlers that
    take turns on one database. */
module Settlement {
  import opened Wrappers

  datatype Status = Pending | Paid | Expired | Cancelled

  /** Invoices and payments are named by their positions in their tables. */
  datatype Invoice = Invoice(
    merchantId: string,
    chainKey: string,
    expiresAt: int,
    status: Status,
    paidAt: Option<int>,
    paymentTxHash: Option<string>)

  datatype Key = Key(chainKey: string, txHash: string)
  datatype Payment = Payment(key: Key, invoice: nat)

  datatype Event = PaymentReceived(invoice: nat) | InvoiceExpired(invoice: nat)

  datatype Db = Db(invoices: seq<Invoice>, payments: seq<Payment>, events: seq<Event>)

  datatype Outcome =
    | Created(payment: nat, at: int)
    | Idempotent(payment: nat, paidAt: Option<int>)
    | NotPayable(status: Status)
    | Failed

  datatype Reply = NotFound | Forbidden | Conflict | Rejected | Swept(count: nat) | CancelledNow

  /** How a pay request is answered: turned down, or with the outcome of its confirmation. */
  datatype PayAnswer = TurnedDown(reply: Reply) | Confirmation(outcome: Outcome)

  /** A request in progress, named by what it does next. */
  datatype Handler =
    | PayAsked(requester: string, invoice: nat, txHash: string)
    | Confirming(invoice: nat, key: Key)
    | Created(invoice: nat, key: Key, payment: nat, at: int)
    | Duplicate(invoice: nat, key: Key)
    | DuplicateFound(invoice: nat, key: Key, payment: nat)
    | Raced(invoice: nat, key: Key)
    | WinnerFound(invoice: nat, key: Key, payment: nat)
    | NoWinner(invoice: nat, key: Key)
    | Confirmed(invoice: nat, key: Key, outcome: Outcome)
    | SweepAsked
    | Sweeping(rest: seq<nat>, count: nat)
    | Notifying(invoice: nat, rest: seq<nat>, count: nat)
    | CancelAsked(requester: string, invoice: nat)
    | CancelWriting(requester: string, invoice: nat)
    | Done(reply: Reply)

  // ---- lookups ---------------------------------------------------------------------------------

  function FindByKey(payments: seq<Payment>, key: Key): (r: Option<nat>)
    ensures r.Some? ==> r.value < |payments| && payments[r.value].key == key
    ensures r.None? ==> forall k :: 0 <= k < |payments| ==> payments[k].key != key
  {
    if payments == [] then None
    else if payments[|payments| - 1].key == key then Some(|payments| - 1)
    else FindByKey(payments[..|payments| - 1], key)
  }

  /** The latest payment of an invoice. */
  function FindByInvoice(payments: seq<Payment>, invoice: nat): (r: Option<nat>)
    ensures r.Some? ==> r.value < |payments| && payments[r.value].invoice == invoice
    ensures r.None? ==> forall k :: 0 <= k < |payments| ==> payments[k].invoice != invoice
  {
    if payments == [] then None
    else if payments[|payments| - 1].invoice == invoice then Some(|payments| - 1)
    else FindByInvoice(payments[..|payments| - 1], invoice)
  }

  predicate IsPending(db: Db, i: nat) {
    i < |db.invoices| && db.invoices[i].status == Pending
  }

  // ---- atomic database steps -------------------------------------------------------------------

  datatype TxResult = Inserted(payment: nat) | UniqueViolation | UnknownInvoice | LostRace

  function MarkPaid(row: Invoice, txHash: string, now: int): Invoice {
    row.(status := Paid, paidAt := Some(now), paymentTxHash := Some(txHash))
  }

  /** The whole transaction: insert the payment, claim the pending invoice, or change nothing. */
  function Transaction(db: Db, invoice: nat, key: Key, now: int): (Db, TxResult) {
    if FindByKey(db.payments, key).Some? then (db, UniqueViolation)
    else if invoice >= |db.invoices| then (db, UnknownInvoice)
    else if db.invoices[invoice].status != Pending then (db, LostRace)
    else
      (db.(payments := db.payments + [Payment(key, invoice)],
           invoices := db.invoices[invoice := MarkPaid(db.invoices[invoice], key.txHash, now)]),
       Inserted(|db.payments|))
  }

  function SetStatus(db: Db, i: nat, status: Status): Db
    requires i < |db.invoices|
  {
    db.(invoices := db.invoices[i := db.invoices[i].(status := status)])
  }

  function Emit(db: Db, e: Event, ok: bool): Db {
    if ok then db.(events := db.events + [e]) else db
  }

  /** Any listing of the pending invoices whose time is up. */
  ghost predicate ListsStale(order: seq<nat>, db: Db, now: int) {
    && (forall i :: 0 <= i < |order| ==> order[i] < |db.invoices|)
    && (forall i, j :: 0 <= i < j < |order| ==> order[i] != order[j])
    && (forall i :: 0 <= i < |db.invoices| ==>
         (i in order <==> db.invoices[i].status == Pending && db.invoices[i].expiresAt < now))
  }

  // ---- one turn of one handler -----------------------------------------------------------------

  /** What the environment decides: the clock, whether the on-chain check or the enqueue call
      succeeds, and the order in which a query lists its rows. */
  datatype Choice = Choice(now: int, ok: bool, order: seq<nat>)

  function PaidAt(db: Db, i: nat): Option<int> {
    if i < |db.invoices| then db.invoices[i].paidAt else None
  }

  function PayTurn(db: Db, h: Handler, c: Choice): (Db, Handler) {
    match h
    case PayAsked(requester, i, txHash) =>
      if i >= |db.invoices| then (db, Done(NotFound))
      else if db.invoices[i].merchantId != requester then (db, Done(Forbidden))
      else if db.invoices[i].status != Pending then (db, Done(Conflict))
      else if !c.ok then (db, Done(Rejected))
      else (db, Confirming(i, Key(db.invoices[i].chainKey, txHash)))
    case Confirming(i, key) =>
      var (d, r) := Transaction(db, i, key, c.now);
      (match r
       case Inserted(k) => (d, Handler.Created(i, key, k, c.now))
       case UniqueViolation => (d, Duplicate(i, key))
       case UnknownInvoice => (d, Confirmed(i, key, Failed))
       case LostRace => (d, Raced(i, key)))
    case Created(i, key, k, at) =>
      (Emit(db, PaymentReceived(i), c.ok), Confirmed(i, key, if c.ok then Outcome.Created(k, at) else Failed))
    case Duplicate(i, key) =>
      (match FindByKey(db.payments, key)
       case Some(k) => (db, DuplicateFound(i, key, k))
       case None => (db, Confirmed(i, key, Failed)))
    case DuplicateFound(i, key, k) => (db, Confirmed(i, key, Idempotent(k, PaidAt(db, i))))
    case Raced(i, key) =>
      (match FindByInvoice(db.payments, i)
       case Some(k) => (db, WinnerFound(i, key, k))
       case None => (db, NoWinner(i, key)))
    case WinnerFound(i, key, k) => (db, Confirmed(i, key, Idempotent(k, PaidAt(db, i))))
    case NoWinner(i, key) =>
      (db, Confirmed(i, key, if i < |db.invoices| then NotPayable(db.invoices[i].status) else Failed))
    case _ => (db, h)
  }

  ghost function SweepTurn(db: Db, h: Handler, c: Choice): (Db, Handler) {
    match h
    case SweepAsked => if ListsStale(c.order, db, c.now) then (db, Sweeping(c.order, 0)) else (db, h)
    case Sweeping(rest, n) =>
      if rest == [] then (db, Done(Swept(n)))
      else if IsPending(db, rest[0]) then (SetStatus(db, rest[0], Expired), Notifying(rest[0], rest[1..], n + 1))
      else (db, Sweeping(rest[1..], n))
    case Notifying(i, rest, n) => (Emit(db, InvoiceExpired(i), c.ok), Sweeping(rest, n))
    case _ => (db, h)
  }

  ghost function CancelTurn(db: Db, h: Handler): (Db, Handler) {
    match h
    case CancelAsked(requester, i) =>
      if i >= |db.invoices| then (db, Done(NotFound))
      else if db.invoices[i].merchantId != requester then (db, Done(Forbidden))
      else if db.invoices[i].status != Pending then (db, Done(Conflict))
      else (db, CancelWriting(requester, i))
    case CancelWriting(_, i) =>
      if i < |db.invoices| then (SetStatus(db, i, Cancelled), Done(CancelledNow)) else (db, Done(NotFound))
    case _ => (db, h)
  }

  ghost function Turn(db: Db, h: Handler, c: Choice): (Db, Handler) {
    if h.SweepAsked? || h.Sweeping? || h.Notifying? then SweepTurn(db, h, c)
    else if h.CancelAsked? || h.CancelWriting? then CancelTurn(db, h)
    else PayTurn(db, h, c)
  }

  // ---- the whole system ------------------------------------------------------------------------

  datatype State = State(db: Db, handlers: seq<Handler>)

  datatype Label =
    | Open(merchantId: string, chainKey: string, expiresAt: int)
    | Arrive(handler: Handler)
    | Act(p: nat, choice: Choice)

  /** The key is on the invoice's own chain. */
  predicate KeyFits(db: Db, i: nat, key: Key) {
    i < |db.invoices| && db.invoices[i].chainKey == key.chainKey
  }

  /** Where a request can enter: the HTTP endpoints, the sweep timer, and the indexer's call of
      confirmInvoicePayment with an invoice it read at any earlier time, and that invoice's chain. */
  predicate Initial(db: Db, h: Handler) {
    h.PayAsked? || h.SweepAsked? || h.CancelAsked? || (h.Confirming? && KeyFits(db, h.invoice, h.key))
  }

  ghost function Step(s: State, l: Label): State {
    match l
    case Open(m, chain, exp) => s.(db := s.db.(invoices := s.db.invoices + [Invoice(m, chain, exp, Pending, None, None)]))
    case Arrive(h) => if Initial(s.db, h) then s.(handlers := s.handlers + [h]) else s
    case Act(p, c) =>
      if p < |s.handlers| then
        var (d, h) := Turn(s.db, s.handlers[p], c);
        State(d, s.handlers[p := h])
      else s
  }

  ghost function Run(s: State, ls: seq<Label>): State {
    if ls == [] then s else Step(Run(s, ls[..|ls| - 1]), ls[|ls| - 1])
  }

  const START := State(Db([], [], []), [])

  // ---- the invariant ---------------------------------------------------------------------------

  ghost predicate HasPayment(db: Db, i: nat) {
    exists k :: 0 <= k < |db.payments| && db.payments[k].invoice == i
  }

  predicate Closed(status: Status) {
    status == Expired || status == Cancelled
  }

  /** The payment's invoice is on its chain and carries its hash; only the cancel write can have
      changed its status. */
  predicate Backs(db: Db, p: Payment) {
    && p.invoice < |db.invoices|
    && (db.invoices[p.invoice].status == Paid || db.invoices[p.invoice].status == Cancelled)
    && db.invoices[p.invoice].chainKey == p.key.chainKey
    && db.invoices[p.invoice].paymentTxHash == Some(p.key.txHash)
    && db.invoices[p.invoice].paidAt.Some?
  }

  /** What must be true once an event may be sent. */
  ghost predicate Earned(db: Db, e: Event) {
    && e.invoice < |db.invoices|
    && db.invoices[e.invoice].status != Pending
    && match e
       case PaymentReceived(i) => HasPayment(db, i)
       case InvoiceExpired(i) => Closed(db.invoices[i].status) && !HasPayment(db, i)
  }

  ghost predicate PaymentsOk(db: Db) {
    && (forall j, k :: 0 <= j < k < |db.payments| ==> db.payments[j].key != db.payments[k].key)
    && (forall j, k :: 0 <= j < k < |db.payments| ==> db.payments[j].invoice != db.payments[k].invoice)
    && (forall k :: 0 <= k < |db.payments| ==> Backs(db, db.payments[k]))
  }

  ghost predicate InvoicesOk(db: Db) {
    forall i :: 0 <= i < |db.invoices| ==>
      && (db.invoices[i].status == Paid ==> db.invoices[i].paymentTxHash.Some?)
      && (db.invoices[i].paidAt.Some? <==> db.invoices[i].paymentTxHash.Some?)
      && (db.invoices[i].paymentTxHash.Some? ==> HasPayment(db, i))
  }

  ghost predicate EventsOk(db: Db) {
    && (forall j, k :: 0 <= j < k < |db.events| ==> db.events[j].invoice != db.events[k].invoice)
    && (forall k :: 0 <= k < |db.events| ==> Earned(db, db.events[k]))
  }

  ghost predicate DbOk(db: Db) {
    PaymentsOk(db) && InvoicesOk(db) && EventsOk(db)
  }

  /** The event a handler has earned and not yet sent. */
  function Owed(h: Handler): Option<Event> {
    if h.Created? then Some(PaymentReceived(h.invoice))
    else if h.Notifying? then Some(InvoiceExpired(h.invoice))
    else None
  }

  ghost predicate OutcomeOk(db: Db, i: nat, key: Key, o: Outcome) {
    match o
    case Created(k, at) =>
      k < |db.payments| && db.payments[k] == Payment(key, i) && PaidAt(db, i) == Some(at)
    case Idempotent(k, _) => k < |db.payments| && (db.payments[k].key == key || db.payments[k].invoice == i)
    case NotPayable(status) => Closed(status)
    case Failed => true
  }

  ghost predicate HandlerOk(db: Db, h: Handler) {
    match h
    case Confirming(i, key) => KeyFits(db, i, key)
    case Created(i, key, k, at) => k < |db.payments| && db.payments[k] == Payment(key, i) && PaidAt(db, i) == Some(at)
    case DuplicateFound(i, key, k) => k < |db.payments| && db.payments[k].key == key
    case Raced(i, key) => i < |db.invoices| && db.invoices[i].status != Pending
    case WinnerFound(i, key, k) => k < |db.payments| && db.payments[k].invoice == i
    case NoWinner(i, key) => i < |db.invoices| && Closed(db.invoices[i].status)
    case Confirmed(i, key, o) => OutcomeOk(db, i, key, o)
    case CancelWriting(requester, i) => i < |db.invoices| && db.invoices[i].merchantId == requester
    case _ => true
  }

  /** An owed event is earned, and no event about its invoice has been sent. */
  ghost predicate OwedOk(db: Db, h: Handler) {
    Owed(h).Some? ==>
      && Earned(db, Owed(h).value)
      && forall k :: 0 <= k < |db.events| ==> db.events[k].invoice != Owed(h).value.invoice
  }

  ghost predicate Ok(s: State) {
    && DbOk(s.db)
    && (forall p :: 0 <= p < |s.handlers| ==> HandlerOk(s.db, s.handlers[p]) && OwedOk(s.db, s.handlers[p]))
    && (forall p, q :: 0 <= p < q < |s.handlers| && Owed(s.handlers[p]).Some? && Owed(s.handlers[q]).Some? ==>
         Owed(s.handlers[p]).value.invoice != Owed(s.handlers[q]).value.invoice)
  }

  // ---- what a later database keeps -------------------------------------------------------------

  predicate RowLater(a: Invoice, b: Invoice) {
    && b.merchantId == a.merchantId && b.chainKey == a.chainKey && b.expiresAt == a.expiresAt
    && (a.status != Pending ==> b.status != Pending)
    && (Closed(a.status) ==> Closed(b.status))
    && (a.status == Paid ==> b.status == Paid || b.status == Cancelled)
    && (a.status == Cancelled ==> b.status == Cancelled)
    && (a.paidAt.Some? ==> b.paidAt == a.paidAt)
    && (a.paymentTxHash.Some? ==> b.paymentTxHash == a.paymentTxHash)
  }

  /** Rows only move forward, payments are only added, and only to pending invoices. */
  ghost predicate Later(a: Db, b: Db) {
    && |a.invoices| <= |b.invoices|
    && (forall i :: 0 <= i < |a.invoices| ==> RowLater(a.invoices[i], b.invoices[i]))
    && |a.payments| <= |b.payments|
    && (forall k :: 0 <= k < |a.payments| ==> b.payments[k] == a.payments[k])
    && (forall k :: |a.payments| <= k < |b.payments| && b.payments[k].invoice < |a.invoices| ==>
         a.invoices[b.payments[k].invoice].status == Pending)
  }

  lemma HandlerStays(a: Db, b: Db, h: Handler)
    requires Later(a, b) && HandlerOk(a, h)
    ensures HandlerOk(b, h)
  {
  }

  lemma EarnedStays(a: Db, b: Db, e: Event)
    requires Later(a, b) && Earned(a, e)
    ensures Earned(b, e)
  {
    if e.PaymentReceived? {
      var k :| 0 <= k < |a.payments| && a.payments[k].invoice == e.invoice;
      assert b.payments[k].invoice == e.invoice;
    }
  }

  // ---- every database step keeps the invariant ---------------------------------------------------

  lemma PendingHasNoPayment(db: Db, i: nat)
    requires DbOk(db) && IsPending(db, i)
    ensures !HasPayment(db, i) && db.invoices[i].paidAt.None? && db.invoices[i].paymentTxHash.None?
    ensures forall k :: 0 <= k < |db.events| ==> db.events[k].invoice != i
  {
    forall k | 0 <= k < |db.payments| ensures db.payments[k].invoice != i {
      assert Backs(db, db.payments[k]);
    }
    forall k | 0 <= k < |db.events| ensures db.events[k].invoice != i {
      assert Earned(db, db.events[k]);
    }
  }

  lemma EventsStay(a: Db, b: Db)
    requires EventsOk(a) && Later(a, b) && b.events == a.events
    ensures EventsOk(b)
  {
    forall k | 0 <= k < |b.events| ensures Earned(b, b.events[k]) {
      EarnedStays(a, b, a.events[k]);
    }
  }

  lemma SamePayments(a: Db, b: Db, i: nat)
    requires b.payments == a.payments
    ensures HasPayment(a, i) <==> HasPayment(b, i)
  {
  }

  /** Changing only the status of a row whose payment allows it. */
  lemma StatusKeeps(db: Db, i: nat, status: Status)
    requires DbOk(db) && i < |db.invoices|
    requires status == Cancelled || (status == Expired && db.invoices[i].status == Pending)
    ensures DbOk(SetStatus(db, i, status)) && Later(db, SetStatus(db, i, status))
    ensures IsPending(db, i) ==> Earned(SetStatus(db, i, status), InvoiceExpired(i))
  {
    var d := SetStatus(db, i, status);
    if IsPending(db, i) {
      PendingHasNoPayment(db, i);
    }
    forall k | 0 <= k < |d.payments| ensures Backs(d, d.payments[k]) {
      assert Backs(db, db.payments[k]);
    }
    forall j | 0 <= j < |d.invoices| && d.invoices[j].paymentTxHash.Some? ensures HasPayment(d, j) {
      SamePayments(db, d, j);
    }
    EventsStay(db, d);
  }

  lemma PaidDb(db: Db, d: Db, i: nat, key: Key, now: int)
    requires DbOk(db) && IsPending(db, i) && FindByKey(db.payments, key).None? && KeyFits(db, i, key)
    requires d == Transaction(db, i, key, now).0
    ensures d.payments[|db.payments|] == Payment(key, i) && HasPayment(d, i) && PaidAt(d, i) == Some(now)
    ensures Later(db, d) && PaymentsOk(d)
  {
    PendingHasNoPayment(db, i);
    assert d.payments[|db.payments|].invoice == i;
    forall k | 0 <= k < |d.payments| ensures Backs(d, d.payments[k]) {
      if k < |db.payments| {
        assert Backs(db, db.payments[k]);
      }
    }
  }

  /** The transaction keeps the database consistent, whatever it does. */
  lemma TransactionKeeps(db: Db, i: nat, key: Key, now: int)
    requires DbOk(db) && KeyFits(db, i, key)
    ensures var (d, r) := Transaction(db, i, key, now);
      && DbOk(d) && Later(db, d) && d.events == db.events
      && (r.Inserted? ==>
           IsPending(db, i) && r.payment == |db.payments| && d.payments == db.payments + [Payment(key, i)]
           && Earned(d, PaymentReceived(i)) && PaidAt(d, i) == Some(now))
  {
    var (d, r) := Transaction(db, i, key, now);
    if r.Inserted? {
      PaidDb(db, d, i, key, now);
      forall j | 0 <= j < |d.invoices| && d.invoices[j].paymentTxHash.Some? ensures HasPayment(d, j) {
        if j != i {
          PaymentKept(db, d, j);
        }
      }
      EventsStay(db, d);
    }
  }

  lemma PaymentKept(a: Db, b: Db, i: nat)
    requires Later(a, b) && HasPayment(a, i)
    ensures HasPayment(b, i)
  {
    var k :| 0 <= k < |a.payments| && a.payments[k].invoice == i;
    assert b.payments[k].invoice == i;
  }

  lemma EmitKeeps(db: Db, e: Event, ok: bool)
    requires DbOk(db) && Earned(db, e)
    requires forall k :: 0 <= k < |db.events| ==> db.events[k].invoice != e.invoice
    ensures DbOk(Emit(db, e, ok)) && Later(db, Emit(db, e, ok))
  {
    var d := Emit(db, e, ok);
    forall i | 0 <= i < |d.invoices| && HasPayment(db, i) ensures HasPayment(d, i) {
      SamePayments(db, d, i);
    }
    forall k | 0 <= k < |d.events| ensures Earned(d, d.events[k]) {
      EarnedStays(db, d, d.events[k]);
    }
  }

  // ---- one turn keeps the invariant ----------------------------------------------------------------

  /** A turn of handler h, which becomes h2: what it did to the database, what it sent and what
      it now owes. */
  ghost predicate GoodTurn(db: Db, h: Handler, d: Db, h2: Handler) {
    && DbOk(d) && Later(db, d) && HandlerOk(d, h2) && OwedOk(d, h2)
    && (Owed(h2).Some? ==> Owed(h2) == Owed(h) || IsPending(db, Owed(h2).value.invoice))
    && (d.events == db.events || (Owed(h).Some? && d.events == db.events + [Owed(h).value]))
  }

  lemma ConfirmingIsGood(db: Db, i: nat, key: Key, c: Choice)
    requires DbOk(db) && KeyFits(db, i, key)
    ensures var (d, h2) := PayTurn(db, Confirming(i, key), c); GoodTurn(db, Confirming(i, key), d, h2)
  {
    TransactionKeeps(db, i, key, c.now);
    if IsPending(db, i) {
      PendingHasNoPayment(db, i);
    }
  }

  lemma CreatedIsGood(db: Db, h: Handler, c: Choice)
    requires h.Created? && DbOk(db) && HandlerOk(db, h) && OwedOk(db, h)
    ensures GoodTurn(db, h, PayTurn(db, h, c).0, PayTurn(db, h, c).1)
  {
    EmitKeeps(db, PaymentReceived(h.invoice), c.ok);
  }

  /** A turn that only reads. */
  lemma ReadIsGood(db: Db, h: Handler, h2: Handler)
    requires DbOk(db) && HandlerOk(db, h2) && Owed(h2).None?
    ensures GoodTurn(db, h, db, h2)
  {
  }

  lemma PayTurnIsGood(db: Db, h: Handler, c: Choice)
    requires DbOk(db) && HandlerOk(db, h) && OwedOk(db, h) && !h.Notifying?
    ensures GoodTurn(db, h, PayTurn(db, h, c).0, PayTurn(db, h, c).1)
  {
    if h.Confirming? {
      ConfirmingIsGood(db, h.invoice, h.key, c);
    } else if h.Created? {
      CreatedIsGood(db, h, c);
    } else {
      if h.Raced? {
        RacedWithoutPayment(db, h.invoice);
      }
      ReadIsGood(db, h, PayTurn(db, h, c).1);
    }
  }

  /** An invoice that is no longer pending and has no payment was expired or cancelled. */
  lemma RacedWithoutPayment(db: Db, i: nat)
    requires DbOk(db) && i < |db.invoices| && db.invoices[i].status != Pending
    ensures FindByInvoice(db.payments, i).None? ==> Closed(db.invoices[i].status)
  {
  }

  lemma ExpireIsGood(db: Db, i: nat, h: Handler, rest: seq<nat>, n: nat)
    requires DbOk(db) && IsPending(db, i)
    ensures GoodTurn(db, h, SetStatus(db, i, Expired), Notifying(i, rest, n))
  {
    PendingHasNoPayment(db, i);
    StatusKeeps(db, i, Expired);
  }

  lemma NotifyingIsGood(db: Db, h: Handler, h2: Handler, ok: bool)
    requires h.Notifying? && DbOk(db) && OwedOk(db, h) && h2.Sweeping?
    ensures GoodTurn(db, h, Emit(db, InvoiceExpired(h.invoice), ok), h2)
  {
    EmitKeeps(db, InvoiceExpired(h.invoice), ok);
  }

  lemma SweepTurnIsGood(db: Db, h: Handler, c: Choice)
    requires DbOk(db) && HandlerOk(db, h) && OwedOk(db, h) && !h.Created?
    ensures GoodTurn(db, h, SweepTurn(db, h, c).0, SweepTurn(db, h, c).1)
  {
    if h.Sweeping? && h.rest != [] && IsPending(db, h.rest[0]) {
      ExpireIsGood(db, h.rest[0], h, h.rest[1..], h.count + 1);
    } else if h.Notifying? {
      NotifyingIsGood(db, h, Sweeping(h.rest, h.count), c.ok);
    } else {
      ReadIsGood(db, h, SweepTurn(db, h, c).1);
    }
  }

  lemma CancelTurnIsGood(db: Db, h: Handler)
    requires DbOk(db) && HandlerOk(db, h) && Owed(h).None?
    ensures GoodTurn(db, h, CancelTurn(db, h).0, CancelTurn(db, h).1)
  {
    if h.CancelWriting? {
      StatusKeeps(db, h.invoice, Cancelled);
    } else {
      ReadIsGood(db, h, CancelTurn(db, h).1);
    }
  }

  lemma TurnIsGood(db: Db, h: Handler, c: Choice)
    requires DbOk(db) && HandlerOk(db, h) && OwedOk(db, h)
    ensures GoodTurn(db, h, Turn(db, h, c).0, Turn(db, h, c).1)
  {
    if h.SweepAsked? || h.Sweeping? || h.Notifying? {
      SweepTurnIsGood(db, h, c);
    } else if h.CancelAsked? || h.CancelWriting? {
      CancelTurnIsGood(db, h);
    } else {
      PayTurnIsGood(db, h, c);
    }
  }

  // ---- every step and every run keeps the invariant ----------------------------------------------------

  /** The other handlers are not disturbed by a turn. */
  lemma OtherHandlerStays(a: Db, b: Db, h: Handler, h2: Handler, other: Handler)
    requires GoodTurn(a, h, b, h2) && HandlerOk(a, other) && OwedOk(a, other)
    requires Owed(h).Some? && Owed(other).Some? ==> Owed(h).value.invoice != Owed(other).value.invoice
    ensures HandlerOk(b, other) && OwedOk(b, other)
    ensures Owed(h2).Some? && Owed(other).Some? ==> Owed(h2).value.invoice != Owed(other).value.invoice
  {
    HandlerStays(a, b, other);
    if Owed(other).Some? {
      EarnedStays(a, b, Owed(other).value);
    }
  }

  lemma TurnKeepsOk(s: State, p: nat, d: Db, h2: Handler)
    requires Ok(s) && p < |s.handlers| && GoodTurn(s.db, s.handlers[p], d, h2)
    ensures Ok(State(d, s.handlers[p := h2]))
  {
    var hs := s.handlers[p := h2];
    forall q | 0 <= q < |hs| && q != p
      ensures HandlerOk(d, hs[q]) && OwedOk(d, hs[q])
      ensures Owed(h2).Some? && Owed(hs[q]).Some? ==> Owed(h2).value.invoice != Owed(hs[q]).value.invoice
    {
      OtherHandlerStays(s.db, d, s.handlers[p], h2, s.handlers[q]);
    }
  }

  lemma OpenKeepsOk(s: State, l: Label)
    requires Ok(s) && l.Open?
    ensures Ok(Step(s, l)) && Later(s.db, Step(s, l).db)
  {
    var d := Step(s, l).db;
    assert Later(s.db, d);
    forall k | 0 <= k < |d.payments| ensures Backs(d, d.payments[k]) {
      assert Backs(s.db, d.payments[k]);
    }
    forall i | 0 <= i < |d.invoices| && d.invoices[i].paymentTxHash.Some? ensures HasPayment(d, i) {
      PaymentKept(s.db, d, i);
    }
    EventsStay(s.db, d);
    forall p | 0 <= p < |s.handlers| ensures HandlerOk(d, s.handlers[p]) && OwedOk(d, s.handlers[p]) {
      HandlerStays(s.db, d, s.handlers[p]);
      if Owed(s.handlers[p]).Some? {
        EarnedStays(s.db, d, Owed(s.handlers[p]).value);
      }
    }
  }

  lemma StepKeepsOk(s: State, l: Label)
    requires Ok(s)
    ensures Ok(Step(s, l)) && Later(s.db, Step(s, l).db)
  {
    if l.Open? {
      OpenKeepsOk(s, l);
    } else if l.Act? && l.p < |s.handlers| {
      TurnIsGood(s.db, s.handlers[l.p], l.choice);
      var (d, h2) := Turn(s.db, s.handlers[l.p], l.choice);
      TurnKeepsOk(s, l.p, d, h2);
    }
  }

  /** Every reachable state is consistent. */
  lemma {:induction false} RunKeepsOk(s: State, ls: seq<Label>)
    requires Ok(s)
    ensures Ok(Run(s, ls))
  {
    if ls != [] {
      RunKeepsOk(s, ls[..|ls| - 1]);
      StepKeepsOk(Run(s, ls[..|ls| - 1]), ls[|ls| - 1]);
    }
  }

  // ---- what holds in every reachable state -----------------------------------------------------------

  ghost predicate OnlyPayment(db: Db, i: nat, k: nat) {
    && k < |db.payments| && db.payments[k].invoice == i
    && forall j :: 0 <= j < |db.payments| && db.payments[j].invoice == i ==> j == k
  }

  predicate Received(db: Db, i: nat) {
    PaymentReceived(i) in db.events
  }

  predicate ToldExpired(db: Db, i: nat) {
    InvoiceExpired(i) in db.events
  }

  /** Over every interleaving: chain key and hash are unique, an invoice has at most one payment,
      which is on its chain, a paid invoice has exactly one and carries its hash, an expired or
      pending one has none. */
  lemma PaymentsAndInvoicesAgree(ls: seq<Label>, i: nat)
    requires i < |Run(START, ls).db.invoices|
    ensures var db := Run(START, ls).db;
      && (forall j, k :: 0 <= j < k < |db.payments| ==> db.payments[j].key != db.payments[k].key)
      && (forall j, k :: 0 <= j < k < |db.payments| ==> db.payments[j].invoice != db.payments[k].invoice)
      && (db.invoices[i].status == Paid ==>
           exists k: nat :: OnlyPayment(db, i, k) && db.invoices[i].paymentTxHash == Some(db.payments[k].key.txHash))
      && (HasPayment(db, i) ==> db.invoices[i].status == Paid || db.invoices[i].status == Cancelled)
      && (forall k :: 0 <= k < |db.payments| && db.payments[k].invoice == i ==>
           db.payments[k].key.chainKey == db.invoices[i].chainKey)
  {
    RunKeepsOk(START, ls);
    var db := Run(START, ls).db;
    assert forall k :: 0 <= k < |db.payments| ==> Backs(db, db.payments[k]);
    if HasPayment(db, i) {
      var k :| 0 <= k < |db.payments| && db.payments[k].invoice == i;
      assert Backs(db, db.payments[k]) && OnlyPayment(db, i, k);
    }
  }

  /** Over every interleaving: at most one event of either kind is sent about an invoice, at most
      once, and it tells the truth. */
  lemma EventsAreSound(ls: seq<Label>, i: nat)
    ensures var db := Run(START, ls).db;
      && (forall j, k :: 0 <= j < k < |db.events| ==> db.events[j].invoice != db.events[k].invoice)
      && (Received(db, i) ==> HasPayment(db, i) && !ToldExpired(db, i))
      && (ToldExpired(db, i) ==> !HasPayment(db, i) && i < |db.invoices| && Closed(db.invoices[i].status))
  {
    RunKeepsOk(START, ls);
    var db := Run(START, ls).db;
    assert forall k :: 0 <= k < |db.events| ==> Earned(db, db.events[k]);
  }

  /** Over every interleaving: an idempotent answer names a payment of this key or of this
      invoice, a created one names its own, and "not payable" never means paid. */
  lemma OutcomesAreSound(ls: seq<Label>, p: nat)
    requires p < |Run(START, ls).handlers| && Run(START, ls).handlers[p].Confirmed?
    ensures var (db, h) := (Run(START, ls).db, Run(START, ls).handlers[p]);
      match h.outcome
      case Created(k, at) =>
        OnlyPayment(db, h.invoice, k) && db.payments[k].key == h.key && PaidAt(db, h.invoice) == Some(at)
      case Idempotent(k, _) => k < |db.payments| && (db.payments[k].key == h.key || OnlyPayment(db, h.invoice, k))
      case NotPayable(status) => status == Expired || status == Cancelled
      case Failed => true
  {
    RunKeepsOk(START, ls);
    var s := Run(START, ls);
    assert HandlerOk(s.db, s.handlers[p]);
  }

  // ---- when an answer names another invoice's payment ----------------------------------------------------

  /** A payment with this key was recorded for another invoice. */
  ghost predicate TakenElsewhere(db: Db, i: nat, key: Key) {
    exists k :: 0 <= k < |db.payments| && db.payments[k].key == key && db.payments[k].invoice != i
  }

  /** The answer names another invoice's payment. */
  predicate NamesAnother(db: Db, i: nat, o: Outcome) {
    o.Idempotent? && o.payment < |db.payments| && db.payments[o.payment].invoice != i
  }

  /** Where a confirmation can be after its transaction: if the key was known, on the way to the
      payment with the key; otherwise on the way to one of its own invoice, or to none. */
  predicate OnTrack(db: Db, h: Handler, i: nat, key: Key, known: bool) {
    match h
    case Created(j, k, _, _) => !known && j == i && k == key
    case Raced(j, k) => !known && j == i && k == key
    case NoWinner(j, k) => !known && j == i && k == key
    case WinnerFound(j, k, n) => !known && j == i && k == key && n < |db.payments| && db.payments[n].invoice == i
    case Duplicate(j, k) => known && j == i && k == key
    case DuplicateFound(j, k, n) => known && j == i && k == key && n < |db.payments| && db.payments[n].key == key
    case Confirmed(j, k, o) =>
      && j == i && k == key
      && (o.Idempotent? ==> o.payment < |db.payments|)
      && (o.Idempotent? && known ==> db.payments[o.payment].key == key)
      && (o.Idempotent? && !known ==> db.payments[o.payment].invoice == i)
    case _ => false
  }

  lemma TransactionEntersTrack(db: Db, i: nat, key: Key, c: Choice)
    ensures var (d, h) := PayTurn(db, Confirming(i, key), c); OnTrack(d, h, i, key, FindByKey(db.payments, key).Some?)
  {
  }

  lemma TurnStaysOnTrack(db: Db, h: Handler, c: Choice, i: nat, key: Key, known: bool)
    requires OnTrack(db, h, i, key, known)
    ensures OnTrack(Turn(db, h, c).0, Turn(db, h, c).1, i, key, known)
  {
  }

  lemma OnTrackLater(a: Db, b: Db, h: Handler, i: nat, key: Key, known: bool)
    requires Later(a, b) && OnTrack(a, h, i, key, known)
    ensures OnTrack(b, h, i, key, known)
  {
  }

  lemma StepStaysOnTrack(s: State, l: Label, p: nat, i: nat, key: Key, known: bool)
    requires Later(s.db, Step(s, l).db) && p < |s.handlers| && OnTrack(s.db, s.handlers[p], i, key, known)
    ensures p < |Step(s, l).handlers| && OnTrack(Step(s, l).db, Step(s, l).handlers[p], i, key, known)
  {
    if l.Act? && l.p == p {
      TurnStaysOnTrack(s.db, s.handlers[p], l.choice, i, key, known);
    } else {
      assert Step(s, l).handlers[p] == s.handlers[p];
      OnTrackLater(s.db, Step(s, l).db, s.handlers[p], i, key, known);
    }
  }

  lemma {:induction false} RunStaysOnTrack(s: State, ls: seq<Label>, p: nat, i: nat, key: Key, known: bool)
    requires Ok(s) && p < |s.handlers| && OnTrack(s.db, s.handlers[p], i, key, known)
    ensures Ok(Run(s, ls)) && Later(s.db, Run(s, ls).db)
    ensures p < |Run(s, ls).handlers| && OnTrack(Run(s, ls).db, Run(s, ls).handlers[p], i, key, known)
  {
    if ls != [] {
      var t, l := Run(s, ls[..|ls| - 1]), ls[|ls| - 1];
      RunStaysOnTrack(s, ls[..|ls| - 1], p, i, key, known);
      StepKeepsOk(t, l);
      LaterTwice(s.db, t.db, Step(t, l).db);
      StepStaysOnTrack(t, l, p, i, key, known);
    }
  }

  lemma LaterTwice(a: Db, b: Db, c: Db)
    requires Later(a, b) && Later(b, c)
    ensures Later(a, c)
  {
    forall i | 0 <= i < |a.invoices| ensures RowLater(a.invoices[i], c.invoices[i]) {
      assert RowLater(a.invoices[i], b.invoices[i]) && RowLater(b.invoices[i], c.invoices[i]);
    }
    forall k | |a.payments| <= k < |c.payments| && c.payments[k].invoice < |a.invoices|
      ensures a.invoices[c.payments[k].invoice].status == Pending
    {
      assert k < |b.payments| ==> c.payments[k] == b.payments[k];
      assert RowLater(a.invoices[c.payments[k].invoice], b.invoices[c.payments[k].invoice]);
    }
  }

  /** Handler p takes its turn, then anything happens. */
  ghost function Onward(s: State, p: nat, c: Choice, after: seq<Label>): State {
    Run(Step(s, Act(p, c)), after)
  }

  ghost predicate AnsweredIdempotently(s: State, p: nat) {
    p < |s.handlers| && s.handlers[p].Confirmed? && s.handlers[p].outcome.Idempotent?
  }

  lemma TransactionDecides(s: State, p: nat, c: Choice, after: seq<Label>, i: nat, key: Key)
    requires Ok(s) && p < |s.handlers| && s.handlers[p] == Confirming(i, key)
    ensures var t := Onward(s, p, c, after);
      && Ok(t) && Later(s.db, t.db) && p < |t.handlers|
      && OnTrack(t.db, t.handlers[p], i, key, FindByKey(s.db.payments, key).Some?)
  {
    var u := Step(s, Act(p, c));
    StepKeepsOk(s, Act(p, c));
    TransactionEntersTrack(s.db, i, key, c);
    RunStaysOnTrack(u, after, p, i, key, FindByKey(s.db.payments, key).Some?);
    LaterTwice(s.db, u.db, Run(u, after).db);
  }

  /** Over every interleaving: take a confirmation that is about to run its transaction in a
      reachable state, let it, and let anything happen until it is answered idempotently. The answer
      names another invoice's payment exactly when, at the transaction, the key was taken for another
      invoice. */
  lemma RunNamesAnotherIff(before: seq<Label>, p: nat, c: Choice, after: seq<Label>)
    requires p < |Run(START, before).handlers| && Run(START, before).handlers[p].Confirming?
    requires AnsweredIdempotently(Onward(Run(START, before), p, c, after), p)
    ensures var (s, t) := (Run(START, before), Onward(Run(START, before), p, c, after));
      NamesAnother(t.db, s.handlers[p].invoice, t.handlers[p].outcome) <==>
      TakenElsewhere(s.db, s.handlers[p].invoice, s.handlers[p].key)
  {
    var s, t := Run(START, before), Onward(Run(START, before), p, c, after);
    RunKeepsOk(START, before);
    TransactionDecides(s, p, c, after, s.handlers[p].invoice, s.handlers[p].key);
    AnswerDecided(s.db, t.db, s.handlers[p].invoice, s.handlers[p].key, t.handlers[p].outcome);
  }

  lemma AnswerDecided(a: Db, b: Db, i: nat, key: Key, o: Outcome)
    requires PaymentsOk(a) && PaymentsOk(b) && Later(a, b) && o.Idempotent?
    requires OnTrack(b, Confirmed(i, key, o), i, key, FindByKey(a.payments, key).Some?)
    ensures NamesAnother(b, i, o) <==> TakenElsewhere(a, i, key)
  {
    var known := FindByKey(a.payments, key);
    if known.Some? {
      assert b.payments[known.value].key == key;
      assert o.payment == known.value;
    }
  }

  // ---- what a payment takes and what it does -------------------------------------------------------------

  /** The only step that records a payment: a confirmation with a new key finds its invoice pending.
      That step leaves the invoice paid, with the hash and the time, and every other row as it was. */
  lemma NewPaymentPays(s: State, l: Label)
    requires Step(s, l).db.payments != s.db.payments
    ensures l.Act? && l.p < |s.handlers| && s.handlers[l.p].Confirming?
    ensures var (d, i, key, now) := (Step(s, l).db, s.handlers[l.p].invoice, s.handlers[l.p].key, l.choice.now);
      && i < |s.db.invoices| && s.db.invoices[i].status == Pending
      && (forall k :: 0 <= k < |s.db.payments| ==> s.db.payments[k].key != key)
      && d.payments == s.db.payments + [Payment(key, i)] && d.events == s.db.events
      && d.invoices == s.db.invoices[i :=
           s.db.invoices[i].(status := Paid, paidAt := Some(now), paymentTxHash := Some(key.txHash))]
      && Step(s, l).handlers[l.p] == Handler.Created(i, key, |s.db.payments|, now)
  {
    assert l.Act? && l.p < |s.handlers|;
    TurnPromises(s.db, s.handlers[l.p], l.choice);
  }

  /** And it always does, then: a confirmation whose turn finds its key new and its invoice pending. */
  lemma ConfirmingPaysIff(s: State, p: nat, c: Choice)
    requires p < |s.handlers| && s.handlers[p].Confirming?
    ensures var (i, key) := (s.handlers[p].invoice, s.handlers[p].key);
      Step(s, Act(p, c)).db.payments == s.db.payments + [Payment(key, i)] <==>
      && i < |s.db.invoices| && s.db.invoices[i].status == Pending
      && forall k :: 0 <= k < |s.db.payments| ==> s.db.payments[k].key != key
  {
    if FindByKey(s.db.payments, s.handlers[p].key).None? && IsPending(s.db, s.handlers[p].invoice) {
      assert Step(s, Act(p, c)).db.payments == s.db.payments + [Payment(s.handlers[p].key, s.handlers[p].invoice)];
    } else {
      assert Step(s, Act(p, c)).db == s.db;
    }
  }

  /** What a pay request becomes: a confirmation of the invoice's chain and its own hash, exactly when
      it asks for its own pending invoice and the on-chain check succeeds; otherwise the answer of the
      first check that failed. Nothing is written. */
  lemma PayAskedBecomes(s: State, p: nat, c: Choice)
    requires p < |s.handlers| && s.handlers[p].PayAsked?
    ensures var (h, t, n) := (s.handlers[p], Step(s, Act(p, c)), |s.db.invoices|);
      && t.db == s.db && |t.handlers| == |s.handlers|
      && (t.handlers[p] == Done(NotFound) <==> h.invoice >= n)
      && (t.handlers[p] == Done(Forbidden) <==> h.invoice < n && s.db.invoices[h.invoice].merchantId != h.requester)
      && (t.handlers[p] == Done(Conflict) <==>
           && h.invoice < n && s.db.invoices[h.invoice].merchantId == h.requester
           && s.db.invoices[h.invoice].status != Pending)
      && (t.handlers[p] == Done(Rejected) <==>
           && h.invoice < n && s.db.invoices[h.invoice].merchantId == h.requester
           && s.db.invoices[h.invoice].status == Pending && !c.ok)
      && (t.handlers[p].Confirming? <==>
           && h.invoice < n && s.db.invoices[h.invoice].merchantId == h.requester
           && s.db.invoices[h.invoice].status == Pending && c.ok)
      && (t.handlers[p].Confirming? ==>
           t.handlers[p] == Confirming(h.invoice, Key(s.db.invoices[h.invoice].chainKey, h.txHash)))
  {
  }

  /** The step lets a confirmation of invoice i with this key begin: the indexer brings it in, or the
      owner's pay request for the pending invoice, with this hash, passes its on-chain check. */
  predicate Approves(s: State, l: Label, i: nat, key: Key) {
    match l
    case Arrive(h) => h == Confirming(i, key)
    case Act(p, c) =>
      && p < |s.handlers| && c.ok && i < |s.db.invoices|
      && s.handlers[p] == PayAsked(s.db.invoices[i].merchantId, i, key.txHash)
      && s.db.invoices[i].status == Pending && s.db.invoices[i].chainKey == key.chainKey
    case _ => false
  }

  ghost predicate Approved(ls: seq<Label>, i: nat, key: Key) {
    exists n :: 0 <= n < |ls| && Approves(Run(START, ls[..n]), ls[n], i, key)
  }

  lemma ApprovedStays(ls: seq<Label>, l: Label, i: nat, key: Key)
    requires Approved(ls, i, key)
    ensures Approved(ls + [l], i, key)
  {
    var n :| 0 <= n < |ls| && Approves(Run(START, ls[..n]), ls[n], i, key);
    assert (ls + [l])[..n] == ls[..n] && (ls + [l])[n] == ls[n];
  }

  lemma ApprovedNow(ls: seq<Label>, l: Label, i: nat, key: Key)
    requires Approves(Run(START, ls), l, i, key)
    ensures Approved(ls + [l], i, key)
  {
    assert (ls + [l])[..|ls|] == ls && (ls + [l])[|ls|] == l;
  }

  /** Every payment, and every confirmation about to run, goes back to an approval. */
  ghost predicate AllApproved(s: State, ls: seq<Label>) {
    && (forall k :: 0 <= k < |s.db.payments| ==> Approved(ls, s.db.payments[k].invoice, s.db.payments[k].key))
    && (forall p :: 0 <= p < |s.handlers| && s.handlers[p].Confirming? ==>
         Approved(ls, s.handlers[p].invoice, s.handlers[p].key))
  }

  lemma PaymentStaysApproved(ls: seq<Label>, l: Label, k: nat)
    requires AllApproved(Run(START, ls), ls) && k < |Step(Run(START, ls), l).db.payments|
    ensures var p := Step(Run(START, ls), l).db.payments[k]; Approved(ls + [l], p.invoice, p.key)
  {
    var s, t := Run(START, ls), Step(Run(START, ls), l);
    if t.db.payments != s.db.payments {
      NewPaymentPays(s, l);
    }
    assert Approved(ls, t.db.payments[k].invoice, t.db.payments[k].key);
    ApprovedStays(ls, l, t.db.payments[k].invoice, t.db.payments[k].key);
  }

  lemma ConfirmingIsApproved(s: State, l: Label, p: nat)
    requires p < |Step(s, l).handlers| && Step(s, l).handlers[p].Confirming?
    ensures var h := Step(s, l).handlers[p]; (p < |s.handlers| && h == s.handlers[p]) || Approves(s, l, h.invoice, h.key)
  {
  }

  lemma ConfirmingStaysApproved(ls: seq<Label>, l: Label, p: nat)
    requires AllApproved(Run(START, ls), ls)
    requires p < |Step(Run(START, ls), l).handlers| && Step(Run(START, ls), l).handlers[p].Confirming?
    ensures var h := Step(Run(START, ls), l).handlers[p]; Approved(ls + [l], h.invoice, h.key)
  {
    var s, h := Run(START, ls), Step(Run(START, ls), l).handlers[p];
    ConfirmingIsApproved(s, l, p);
    if p < |s.handlers| && h == s.handlers[p] {
      ApprovedStays(ls, l, h.invoice, h.key);
    } else {
      ApprovedNow(ls, l, h.invoice, h.key);
    }
  }

  lemma StepKeepsApproved(ls: seq<Label>, l: Label)
    requires AllApproved(Run(START, ls), ls)
    ensures AllApproved(Step(Run(START, ls), l), ls + [l])
  {
    var t := Step(Run(START, ls), l);
    forall k | 0 <= k < |t.db.payments| ensures Approved(ls + [l], t.db.payments[k].invoice, t.db.payments[k].key) {
      PaymentStaysApproved(ls, l, k);
    }
    forall p | 0 <= p < |t.handlers| && t.handlers[p].Confirming?
      ensures Approved(ls + [l], t.handlers[p].invoice, t.handlers[p].key)
    {
      ConfirmingStaysApproved(ls, l, p);
    }
  }

  lemma {:induction false} RunKeepsApproved(ls: seq<Label>)
    ensures AllApproved(Run(START, ls), ls)
  {
    if ls != [] {
      RunKeepsApproved(ls[..|ls| - 1]);
      StepKeepsApproved(ls[..|ls| - 1], ls[|ls| - 1]);
      assert ls == ls[..|ls| - 1] + [ls[|ls| - 1]];
    }
  }

  /** Over every interleaving: behind every payment there is an earlier step in which its owner's
      request, with the payment's own hash, passed the on-chain check while the invoice was pending,
      or in which the indexer brought it in. */
  lemma PaymentsAreApproved(ls: seq<Label>, k: nat)
    requires k < |Run(START, ls).db.payments|
    ensures var p := Run(START, ls).db.payments[k]; Approved(ls, p.invoice, p.key)
  {
    RunKeepsApproved(ls);
  }

  // ---- when a settled invoice changes ------------------------------------------------------------------

  predicate WritesCancel(s: State, l: Label, i: nat) {
    l.Act? && l.p < |s.handlers| && s.handlers[l.p].CancelWriting? && s.handlers[l.p].invoice == i
  }

  lemma PayTurnLeavesRow(db: Db, h: Handler, c: Choice, i: nat)
    requires i < |db.invoices| && db.invoices[i].status != Pending
    ensures i < |PayTurn(db, h, c).0.invoices| && PayTurn(db, h, c).0.invoices[i] == db.invoices[i]
  {
    if h.Confirming? {
      assert Transaction(db, h.invoice, h.key, c.now).0.invoices[i] == db.invoices[i];
    }
  }

  lemma SweepTurnLeavesRow(db: Db, h: Handler, c: Choice, i: nat)
    requires i < |db.invoices| && db.invoices[i].status != Pending
    ensures i < |SweepTurn(db, h, c).0.invoices| && SweepTurn(db, h, c).0.invoices[i] == db.invoices[i]
  {
  }

  /** The exact step that takes a closed or paid invoice to another status: the cancel write,
      which does not look at the row again. */
  lemma OnlyCancelRewrites(s: State, l: Label, i: nat)
    requires i < |s.db.invoices| && s.db.invoices[i].status != Pending
    ensures i < |Step(s, l).db.invoices|
    ensures Step(s, l).db.invoices[i] ==
      if WritesCancel(s, l, i) then s.db.invoices[i].(status := Cancelled) else s.db.invoices[i]
  {
    if l.Act? && l.p < |s.handlers| {
      var h := s.handlers[l.p];
      if h.SweepAsked? || h.Sweeping? || h.Notifying? {
        SweepTurnLeavesRow(s.db, h, l.choice, i);
      } else if !h.CancelAsked? && !h.CancelWriting? {
        PayTurnLeavesRow(s.db, h, l.choice, i);
      }
    }
  }

  /** A cancel write is only ever about an invoice of the merchant who asked. */
  lemma OnlyOwnersCancel(ls: seq<Label>, l: Label, i: nat)
    requires WritesCancel(Run(START, ls), l, i)
    ensures var s := Run(START, ls);
      i < |s.db.invoices| && s.db.invoices[i].merchantId == s.handlers[l.p].requester
  {
    RunKeepsOk(START, ls);
    assert HandlerOk(Run(START, ls).db, Run(START, ls).handlers[l.p]);
  }

  ghost predicate SomeCancelWrite(s: State, ls: seq<Label>, i: nat) {
    ls != [] && (SomeCancelWrite(s, ls[..|ls| - 1], i) || WritesCancel(Run(s, ls[..|ls| - 1]), ls[|ls| - 1], i))
  }

  /** A paid invoice stays paid as long as no cancel write hits it. */
  lemma {:induction false} PaidUntilCancelWrite(s: State, ls: seq<Label>, i: nat)
    requires i < |s.db.invoices| && s.db.invoices[i].status == Paid
    ensures i < |Run(s, ls).db.invoices|
    ensures Run(s, ls).db.invoices[i] ==
      s.db.invoices[i].(status := if SomeCancelWrite(s, ls, i) then Cancelled else Paid)
  {
    if ls != [] {
      PaidUntilCancelWrite(s, ls[..|ls| - 1], i);
      OnlyCancelRewrites(Run(s, ls[..|ls| - 1]), ls[|ls| - 1], i);
    }
  }

  /** Over every interleaving: an invoice with a payment is paid, unless a cancel write hit it. */
  lemma {:induction false} PaidUnlessCancelled(ls: seq<Label>, i: nat)
    requires HasPayment(Run(START, ls).db, i)
    ensures i < |Run(START, ls).db.invoices|
    ensures Run(START, ls).db.invoices[i].status == if SomeCancelWrite(START, ls, i) then Cancelled else Paid
  {
    var before, l := ls[..|ls| - 1], ls[|ls| - 1];
    var s := Run(START, before);
    RunKeepsOk(START, before);
    if HasPayment(s.db, i) {
      PaidUnlessCancelled(before, i);
      OnlyCancelRewrites(s, l, i);
    } else {
      NewPaymentPays(s, l);
      NotYetCancelled(before, i);
    }
  }

  /** A pending invoice was hit by no cancel write. */
  lemma {:induction false} NotYetCancelled(ls: seq<Label>, i: nat)
    requires IsPending(Run(START, ls).db, i)
    ensures !SomeCancelWrite(START, ls, i)
  {
    if ls != [] {
      var before, l := ls[..|ls| - 1], ls[|ls| - 1];
      var s := Run(START, before);
      RunKeepsOk(START, before);
      if i < |s.db.invoices| {
        StepKeepsOk(s, l);
        NotYetCancelled(before, i);
      } else {
        NotYetThere(before, i);
        NoRowNoCancel(before, l, i);
      }
    }
  }

  lemma NoRowNoCancel(ls: seq<Label>, l: Label, i: nat)
    requires i >= |Run(START, ls).db.invoices|
    ensures !WritesCancel(Run(START, ls), l, i)
  {
    if WritesCancel(Run(START, ls), l, i) {
      OnlyOwnersCancel(ls, l, i);
    }
  }

  lemma {:induction false} NotYetThere(ls: seq<Label>, i: nat)
    requires i >= |Run(START, ls).db.invoices|
    ensures !SomeCancelWrite(START, ls, i)
  {
    if ls != [] {
      var s, l := Run(START, ls[..|ls| - 1]), ls[|ls| - 1];
      RunKeepsOk(START, ls[..|ls| - 1]);
      StepKeepsOk(s, l);
      NotYetThere(ls[..|ls| - 1], i);
      NoRowNoCancel(ls[..|ls| - 1], l, i);
    }
  }

  /** A cancel request has passed its read of the invoice and has yet to write. */
  ghost predicate Armed(s: State, i: nat) {
    exists p :: 0 <= p < |s.handlers| && s.handlers[p].CancelWriting? && s.handlers[p].invoice == i
  }

  /** The only step that arms a cancel: the owner's request reads the invoice as pending. */
  lemma ArmedByReading(s: State, l: Label, i: nat)
    requires !Armed(s, i) && Armed(Step(s, l), i)
    ensures l.Act? && l.p < |s.handlers| && IsPending(s.db, i)
    ensures s.handlers[l.p] == CancelAsked(s.db.invoices[i].merchantId, i)
  {
    var p :| 0 <= p < |Step(s, l).handlers| && Step(s, l).handlers[p].CancelWriting? && Step(s, l).handlers[p].invoice == i;
    assert p < |s.handlers| && l.Act? && l.p == p;
  }

  lemma {:induction false} UnarmedIsNotWritten(s: State, ls: seq<Label>, i: nat)
    requires i < |s.db.invoices| && s.db.invoices[i].status == Paid && !Armed(s, i)
    ensures !Armed(Run(s, ls), i) && !SomeCancelWrite(s, ls, i)
  {
    if ls != [] {
      var t, l := Run(s, ls[..|ls| - 1]), ls[|ls| - 1];
      UnarmedIsNotWritten(s, ls[..|ls| - 1], i);
      PaidUntilCancelWrite(s, ls[..|ls| - 1], i);
      if Armed(Step(t, l), i) {
        ArmedByReading(t, l, i);
      }
    }
  }

  ghost predicate IsCancelled(s: State, i: nat) {
    i < |s.db.invoices| && s.db.invoices[i].status == Cancelled
  }

  /** A paid invoice can still be cancelled exactly when, at that moment, some cancel request that
      read it as pending has yet to write; otherwise every run leaves it paid. */
  lemma PaidCanBeCancelledIff(s: State, i: nat)
    requires i < |s.db.invoices| && s.db.invoices[i].status == Paid
    ensures Armed(s, i) <==> exists ls :: IsCancelled(Run(s, ls), i)
    ensures !Armed(s, i) ==> forall ls :: i < |Run(s, ls).db.invoices| && Run(s, ls).db.invoices[i] == s.db.invoices[i]
  {
    if Armed(s, i) {
      var p :| 0 <= p < |s.handlers| && s.handlers[p].CancelWriting? && s.handlers[p].invoice == i;
      RunOne(s, Act(p, Choice(0, true, [])));
      assert IsCancelled(Run(s, [Act(p, Choice(0, true, []))]), i);
    } else {
      forall ls ensures i < |Run(s, ls).db.invoices| && Run(s, ls).db.invoices[i] == s.db.invoices[i] {
        UnarmedIsNotWritten(s, ls, i);
        PaidUntilCancelWrite(s, ls, i);
      }
    }
  }

  lemma RunOneMore(s: State, ls: seq<Label>, l: Label)
    ensures Run(s, ls + [l]) == Step(Run(s, ls), l)
  {
    assert (ls + [l])[..|ls|] == ls;
  }

  lemma RunOne(s: State, l: Label)
    ensures Run(s, [l]) == Step(s, l)
  {
    assert [l][..0] == [];
  }

  lemma {:induction false} RunAppend(s: State, ls: seq<Label>, ms: seq<Label>)
    ensures Run(s, ls + ms) == Run(Run(s, ls), ms)
  {
    if ms == [] {
      assert ls + ms == ls;
    } else {
      RunAppend(s, ls, ms[..|ms| - 1]);
      assert (ls + ms)[..|ls + ms| - 1] == ls + ms[..|ms| - 1];
    }
  }

  /** Invoice 0 is open, a cancel request has read it as pending, a pay request is about to run
      its transaction. */
  const EVE := State(Db([Invoice("m", "chain", 10, Pending, None, None)], [], []),
                     [CancelWriting("m", 0), Confirming(0, Key("chain", "h"))])

  lemma EveIsReachable() returns (ls: seq<Label>)
    ensures Run(START, ls) == EVE
  {
    var c := Choice(0, true, []);
    var l1 := [Open("m", "chain", 10)] + [Arrive(CancelAsked("m", 0))];
    RunOne(START, Open("m", "chain", 10));
    RunOneMore(START, [Open("m", "chain", 10)], Arrive(CancelAsked("m", 0)));
    RunOneMore(START, l1, Act(0, c));
    var l2 := l1 + [Act(0, c)];
    assert Run(START, l2).handlers == [CancelWriting("m", 0)];
    ls := l2 + [Arrive(Confirming(0, Key("chain", "h")))];
    RunOneMore(START, l2, Arrive(Confirming(0, Key("chain", "h"))));
  }

  lemma AfterEve(c: Choice) returns (ls: seq<Label>)
    requires c.ok
    ensures var s := Run(EVE, ls);
      && s.db.invoices == [Invoice("m", "chain", 10, Cancelled, Some(c.now), Some("h"))]
      && s.db.payments == [Payment(Key("chain", "h"), 0)] && s.db.events == [PaymentReceived(0)]
      && |s.handlers| == 2 && s.handlers[0] == Done(CancelledNow)
  {
    RunOne(EVE, Act(1, c));
    RunOneMore(EVE, [Act(1, c)], Act(1, c));
    ls := [Act(1, c)] + [Act(1, c)] + [Act(0, c)];
    RunOneMore(EVE, [Act(1, c)] + [Act(1, c)], Act(0, c));
  }

  /** The cancel write can hit a paid invoice: one run ends with a recorded payment, a sent
      payment.received event, a cancelled invoice and a cancel request that was answered yes. */
  lemma CancelCanOverwritePaid() returns (ls: seq<Label>)
    ensures var s := Run(START, ls);
      && |s.db.invoices| == 1 && s.db.invoices[0].status == Cancelled && s.db.invoices[0].paymentTxHash == Some("h")
      && s.db.payments == [Payment(Key("chain", "h"), 0)] && s.db.events == [PaymentReceived(0)]
      && |s.handlers| == 2 && s.handlers[0] == Done(CancelledNow)
  {
    var before := EveIsReachable();
    var after := AfterEve(Choice(0, true, []));
    RunAppend(START, before, after);
    ls := before + after;
  }

  /** Two open invoices on one chain, and a confirmation of each with the same hash. */
  const TWINS := State(Db([Invoice("m", "chain", 10, Pending, None, None), Invoice("m", "chain", 10, Pending, None, None)],
                          [], []),
                       [Confirming(0, Key("chain", "h")), Confirming(1, Key("chain", "h"))])

  lemma TwinsAreReachable() returns (ls: seq<Label>)
    ensures Run(START, ls) == TWINS
  {
    var open, key := Open("m", "chain", 10), Key("chain", "h");
    RunOne(START, open);
    RunOneMore(START, [open], open);
    RunOneMore(START, [open] + [open], Arrive(Confirming(0, key)));
    RunOneMore(START, [open] + [open] + [Arrive(Confirming(0, key))], Arrive(Confirming(1, key)));
    ls := [open] + [open] + [Arrive(Confirming(0, key))] + [Arrive(Confirming(1, key))];
  }

  lemma TwinsPayOnce(c: Choice)
    ensures var s := Step(Step(TWINS, Act(0, c)), Act(1, c));
      && s.db.payments == [Payment(Key("chain", "h"), 0)] && IsPending(s.db, 1) && PaidAt(s.db, 1) == None
      && |s.handlers| == 2 && s.handlers[1] == Duplicate(1, Key("chain", "h"))
  {
    assert FindByKey([], Key("chain", "h")).None?;
    var s := Step(TWINS, Act(0, c));
    assert s.db.payments[0] == Payment(Key("chain", "h"), 0);
  }

  lemma TwinsAnswer(s: State, c: Choice)
    requires s.db.payments == [Payment(Key("chain", "h"), 0)] && PaidAt(s.db, 1) == None
    requires |s.handlers| == 2 && s.handlers[1] == Duplicate(1, Key("chain", "h"))
    ensures var t := Step(Step(s, Act(1, c)), Act(1, c));
      t.db == s.db && |t.handlers| == 2 && t.handlers[1] == Confirmed(1, Key("chain", "h"), Idempotent(0, None))
  {
    assert Step(s, Act(1, c)).handlers[1] == DuplicateFound(1, Key("chain", "h"), 0);
  }

  /** An idempotent answer can name another invoice's payment while the invoice asked about stays
      pending: a run that ends so. */
  lemma IdempotentCanNameAnother() returns (ls: seq<Label>)
    ensures var s := Run(START, ls);
      && s.db.payments == [Payment(Key("chain", "h"), 0)] && IsPending(s.db, 1)
      && |s.handlers| == 2 && s.handlers[1] == Confirmed(1, Key("chain", "h"), Idempotent(0, None))
  {
    var c := Choice(0, true, []);
    var before := TwinsAreReachable();
    var paid := before + [Act(0, c)] + [Act(1, c)];
    RunOneMore(START, before, Act(0, c));
    RunOneMore(START, before + [Act(0, c)], Act(1, c));
    RunOneMore(START, paid, Act(1, c));
    RunOneMore(START, paid + [Act(1, c)], Act(1, c));
    TwinsPayOnce(c);
    TwinsAnswer(Run(START, paid), c);
    ls := paid + [Act(1, c)] + [Act(1, c)];
  }

  // ---- nothing is forgotten ----------------------------------------------------------------------------

  /** The event is sent, or some handler is about to send it. */
  ghost predicate Promised(s: State, e: Event) {
    e in s.db.events || exists p :: 0 <= p < |s.handlers| && Owed(s.handlers[p]) == Some(e)
  }

  ghost predicate Told(s: State) {
    && (forall k :: 0 <= k < |s.db.payments| ==> Promised(s, PaymentReceived(s.db.payments[k].invoice)))
    && (forall i :: 0 <= i < |s.db.invoices| && s.db.invoices[i].status == Expired ==> Promised(s, InvoiceExpired(i)))
  }

  /** If the acting handler owes an event, its enqueue succeeds. */
  predicate Enqueues(s: State, l: Label) {
    l.Act? && l.p < |s.handlers| && Owed(s.handlers[l.p]).Some? ==> l.choice.ok
  }

  /** Every enqueue of the run succeeds; on-chain checks may fail. */
  ghost predicate AllEnqueue(s: State, ls: seq<Label>) {
    ls != [] ==> AllEnqueue(s, ls[..|ls| - 1]) && Enqueues(Run(s, ls[..|ls| - 1]), ls[|ls| - 1])
  }

  lemma TurnPaysDebt(db: Db, h: Handler, c: Choice)
    requires Owed(h).Some? ==> c.ok
    ensures forall e :: e in db.events ==> e in Turn(db, h, c).0.events
    ensures Owed(h).Some? ==> Owed(h).value in Turn(db, h, c).0.events
  {
  }

  lemma PromiseStays(s: State, l: Label, e: Event)
    requires Promised(s, e) && Enqueues(s, l)
    ensures Promised(Step(s, l), e)
  {
    var t := Step(s, l);
    if l.Act? && l.p < |s.handlers| {
      TurnPaysDebt(s.db, s.handlers[l.p], l.choice);
    }
    if e !in s.db.events {
      var p :| 0 <= p < |s.handlers| && Owed(s.handlers[p]) == Some(e);
      if !(l.Act? && l.p == p) {
        assert t.handlers[p] == s.handlers[p];
      }
    }
  }

  /** A new payment or a new expiry leaves the handler owing the event. */
  lemma TurnPromises(db: Db, h: Handler, c: Choice)
    ensures var (d, h2) := Turn(db, h, c);
      && (d.payments == db.payments || (|d.payments| == |db.payments| + 1 && d.payments[..|db.payments|] == db.payments
           && Owed(h2) == Some(PaymentReceived(d.payments[|db.payments|].invoice))))
      && |d.invoices| == |db.invoices|
      && (forall i :: 0 <= i < |d.invoices| && d.invoices[i].status == Expired && db.invoices[i].status != Expired ==>
           Owed(h2) == Some(InvoiceExpired(i)))
  {
  }

  lemma ActKeepsTold(s: State, p: nat, c: Choice)
    requires Told(s) && p < |s.handlers| && Enqueues(s, Act(p, c))
    ensures Told(Step(s, Act(p, c)))
  {
    var t := Step(s, Act(p, c));
    TurnPromises(s.db, s.handlers[p], c);
    forall k | 0 <= k < |t.db.payments| ensures Promised(t, PaymentReceived(t.db.payments[k].invoice)) {
      if k < |s.db.payments| {
        assert t.db.payments[k] == s.db.payments[k];
        PromiseStays(s, Act(p, c), PaymentReceived(s.db.payments[k].invoice));
      } else {
        assert Owed(t.handlers[p]) == Some(PaymentReceived(t.db.payments[k].invoice));
      }
    }
    forall i | 0 <= i < |t.db.invoices| && t.db.invoices[i].status == Expired ensures Promised(t, InvoiceExpired(i)) {
      if s.db.invoices[i].status == Expired {
        PromiseStays(s, Act(p, c), InvoiceExpired(i));
      } else {
        assert Owed(t.handlers[p]) == Some(InvoiceExpired(i));
      }
    }
  }

  lemma StepKeepsTold(s: State, l: Label)
    requires Told(s) && Enqueues(s, l)
    ensures Told(Step(s, l))
  {
    if l.Act? && l.p < |s.handlers| {
      ActKeepsTold(s, l.p, l.choice);
    } else {
      var t := Step(s, l);
      forall k | 0 <= k < |t.db.payments| ensures Promised(t, PaymentReceived(t.db.payments[k].invoice)) {
        PromiseStays(s, l, PaymentReceived(s.db.payments[k].invoice));
      }
      forall i | 0 <= i < |t.db.invoices| && t.db.invoices[i].status == Expired ensures Promised(t, InvoiceExpired(i)) {
        PromiseStays(s, l, InvoiceExpired(i));
      }
    }
  }

  lemma {:induction false} RunKeepsTold(s: State, ls: seq<Label>)
    requires Told(s) && AllEnqueue(s, ls)
    ensures Told(Run(s, ls))
  {
    if ls != [] {
      RunKeepsTold(s, ls[..|ls| - 1]);
      StepKeepsTold(Run(s, ls[..|ls| - 1]), ls[|ls| - 1]);
    }
  }

  /** When every enqueue succeeds, whatever on-chain checks say, and no handler is between its commit
      and its event, exactly the invoices with a payment have had payment.received, and every expired
      one invoice.expired. */
  lemma EventsAreComplete(ls: seq<Label>, i: nat)
    requires AllEnqueue(START, ls)
    requires forall p :: 0 <= p < |Run(START, ls).handlers| ==> Owed(Run(START, ls).handlers[p]).None?
    requires i < |Run(START, ls).db.invoices|
    ensures var db := Run(START, ls).db;
      && (HasPayment(db, i) <==> Received(db, i))
      && (db.invoices[i].status == Expired ==> ToldExpired(db, i))
  {
    RunKeepsTold(START, ls);
    EventsAreSound(ls, i);
    var s := Run(START, ls);
    if HasPayment(s.db, i) {
      var k :| 0 <= k < |s.db.payments| && s.db.payments[k].invoice == i;
      assert Promised(s, PaymentReceived(s.db.payments[k].invoice));
    }
    if s.db.invoices[i].status == Expired {
      assert Promised(s, InvoiceExpired(i));
    }
  }

  // ---- only stale invoices expire ------------------------------------------------------------------------

  predicate Stale(db: Db, i: nat, t: int) {
    i < |db.invoices| && db.invoices[i].expiresAt < t
  }

  function Listed(h: Handler): seq<nat> {
    if h.Sweeping? || h.Notifying? then h.rest else []
  }

  ghost predicate Timely(s: State, t: int) {
    && (forall i :: 0 <= i < |s.db.invoices| && s.db.invoices[i].status == Expired ==> Stale(s.db, i, t))
    && (forall p, k :: 0 <= p < |s.handlers| && 0 <= k < |Listed(s.handlers[p])| ==> Stale(s.db, Listed(s.handlers[p])[k], t))
  }

  lemma TurnIsTimely(db: Db, h: Handler, c: Choice, t: int)
    requires c.now <= t && forall k :: 0 <= k < |Listed(h)| ==> Stale(db, Listed(h)[k], t)
    ensures var (d, h2) := Turn(db, h, c);
      && |d.invoices| == |db.invoices|
      && (forall i :: 0 <= i < |d.invoices| ==> d.invoices[i].expiresAt == db.invoices[i].expiresAt)
      && (forall i :: 0 <= i < |d.invoices| && d.invoices[i].status == Expired && db.invoices[i].status != Expired ==>
           Stale(db, i, t))
      && (forall k :: 0 <= k < |Listed(h2)| ==> Stale(d, Listed(h2)[k], t))
  {
    if h.Sweeping? && h.rest != [] {
      assert Stale(db, Listed(h)[0], t);
      forall k | 0 <= k < |h.rest[1..]| ensures Stale(db, h.rest[1..][k], t) {
        assert Stale(db, Listed(h)[k + 1], t);
      }
    } else if h.SweepAsked? {
      forall k | 0 <= k < |c.order| && ListsStale(c.order, db, c.now) ensures Stale(db, c.order[k], t) {
        assert c.order[k] in c.order;
      }
    } else if h.Notifying? {
      var (d, h2) := Turn(db, h, c);
      assert Listed(h2) == Listed(h) && d.invoices == db.invoices;
      forall k | 0 <= k < |Listed(h2)| ensures Stale(d, Listed(h2)[k], t) {
        assert Stale(db, Listed(h)[k], t);
      }
    }
  }

  lemma StepIsTimely(s: State, l: Label, t: int)
    requires Timely(s, t) && (l.Act? ==> l.choice.now <= t)
    ensures Timely(Step(s, l), t)
  {
    if l.Act? && l.p < |s.handlers| {
      TurnIsTimely(s.db, s.handlers[l.p], l.choice, t);
    }
  }

  /** Over every interleaving, an invoice in state expired is past its deadline. */
  lemma {:induction false} OnlyStaleExpire(ls: seq<Label>, t: int)
    requires forall k :: 0 <= k < |ls| && ls[k].Act? ==> ls[k].choice.now <= t
    ensures Timely(Run(START, ls), t)
  {
    if ls != [] {
      OnlyStaleExpire(ls[..|ls| - 1], t);
      StepIsTimely(Run(START, ls[..|ls| - 1]), ls[|ls| - 1], t);
    }
  }

  // ---- every stale invoice is swept ------------------------------------------------------------------------

  /** Invoice i was open and past its deadline when the sweep asked. */
  predicate Due(db: Db, i: nat, now: int) {
    i < |db.invoices| && db.invoices[i].status == Pending && db.invoices[i].expiresAt < now
  }

  /** The sweep has dealt with invoice i, or still has it ahead. */
  ghost predicate InSweep(s: State, p: nat, i: nat) {
    && p < |s.handlers| && i < |s.db.invoices|
    && (s.db.invoices[i].status != Pending || (s.handlers[p].Sweeping? && i in s.handlers[p].rest)
        || (s.handlers[p].Notifying? && i in s.handlers[p].rest))
  }

  lemma StepStaysInSweep(s: State, l: Label, p: nat, i: nat)
    requires InSweep(s, p, i)
    ensures InSweep(Step(s, l), p, i)
  {
    if s.db.invoices[i].status != Pending {
      OnlyCancelRewrites(s, l, i);
    } else if l.Act? && l.p == p {
      var rest := s.handlers[p].rest;
      assert s.handlers[p].Sweeping? ==> rest == [rest[0]] + rest[1..];
    } else {
      assert Step(s, l).handlers[p] == s.handlers[p];
      RowsStay(s, l);
    }
  }

  lemma RowsStay(s: State, l: Label)
    ensures |Step(s, l).db.invoices| >= |s.db.invoices|
  {
  }

  lemma {:induction false} RunStaysInSweep(s: State, ls: seq<Label>, p: nat, i: nat)
    requires InSweep(s, p, i)
    ensures InSweep(Run(s, ls), p, i)
  {
    if ls != [] {
      RunStaysInSweep(s, ls[..|ls| - 1], p, i);
      StepStaysInSweep(Run(s, ls[..|ls| - 1]), ls[|ls| - 1], p, i);
    }
  }

  /** A sweep asks exactly for the invoices that are due, and for each once. */
  lemma SweepListsDue(s: State, p: nat, c: Choice, i: nat)
    requires p < |s.handlers| && s.handlers[p] == SweepAsked && Step(s, Act(p, c)).handlers[p] != SweepAsked
    ensures var t := Step(s, Act(p, c));
      && t.db == s.db && t.handlers[p].Sweeping? && t.handlers[p].count == 0
      && (i in t.handlers[p].rest <==> Due(s.db, i, c.now))
      && forall j, k :: 0 <= j < k < |t.handlers[p].rest| ==> t.handlers[p].rest[j] != t.handlers[p].rest[k]
  {
  }

  predicate Replied(s: State, p: nat) {
    p < |s.handlers| && s.handlers[p].Done?
  }

  /** Whatever else happens meanwhile, once the sweep has ended no invoice that was due when it asked
      is pending any more. */
  lemma SweepLeavesNoneDue(s: State, p: nat, c: Choice, after: seq<Label>, i: nat)
    requires p < |s.handlers| && s.handlers[p] == SweepAsked && Step(s, Act(p, c)).handlers[p] != SweepAsked
    requires Due(s.db, i, c.now) && Replied(Onward(s, p, c, after), p)
    ensures !IsPending(Onward(s, p, c, after).db, i)
  {
    SweepListsDue(s, p, c, i);
    RunStaysInSweep(Step(s, Act(p, c)), after, p, i);
  }

  // ---- the operations on a live database -------------------------------------------------------------------

  /** The turns left to a payment confirmation. */
  function Rank(h: Handler): nat {
    match h
    case Confirming(_, _) => 4
    case Raced(_, _) => 3
    case Duplicate(_, _) => 2
    case Created(_, _, _, _) => 1
    case DuplicateFound(_, _, _) => 1
    case WinnerFound(_, _, _) => 1
    case NoWinner(_, _) => 1
    case _ => 0
  }

  predicate InConfirmation(h: Handler) {
    Rank(h) > 0 || h.Confirmed?
  }

  /** The turns of one confirmation with nobody in between. */
  function FinishPay(db: Db, h: Handler, c: Choice): (Db, Outcome)
    requires InConfirmation(h)
    decreases Rank(h)
  {
    if h.Confirmed? then (db, h.outcome)
    else
      var (d, h2) := PayTurn(db, h, c);
      FinishPay(d, h2, c)
  }

  /** The turns of one sweep with nobody in between; oks says which enqueue calls succeed. */
  ghost function FinishSweep(db: Db, h: Handler, oks: seq<bool>): (Db, nat)
    requires h.Sweeping? && |oks| == |h.rest|
    decreases h.rest
  {
    if h.rest == [] then (db, h.count)
    else
      var c := Choice(0, oks[0], []);
      var (d, h2) := SweepTurn(db, h, c);
      if h2.Notifying? then
        var (d3, h3) := SweepTurn(d, h2, c);
        FinishSweep(d3, h3, oks[1..])
      else FinishSweep(d, h2, oks[1..])
  }

  lemma FinishFound(db: Db, h: Handler, c: Choice)
    requires h.DuplicateFound? || h.WinnerFound?
    ensures FinishPay(db, h, c) == (db, Idempotent(h.payment, PaidAt(db, h.invoice)))
  {
    assert PayTurn(db, h, c) == (db, Confirmed(h.invoice, h.key, Idempotent(h.payment, PaidAt(db, h.invoice))));
  }

  lemma FinishDuplicate(db: Db, i: nat, key: Key, c: Choice)
    ensures FinishPay(db, Duplicate(i, key), c) == match FindByKey(db.payments, key)
      case Some(k) => (db, Idempotent(k, PaidAt(db, i)))
      case None => (db, Failed)
  {
    if FindByKey(db.payments, key).Some? {
      var k := FindByKey(db.payments, key).value;
      assert PayTurn(db, Duplicate(i, key), c) == (db, DuplicateFound(i, key, k));
      FinishFound(db, DuplicateFound(i, key, k), c);
    }
  }

  lemma FinishRaced(db: Db, i: nat, key: Key, c: Choice)
    requires i < |db.invoices|
    ensures FinishPay(db, Raced(i, key), c) == match FindByInvoice(db.payments, i)
      case Some(k) => (db, Idempotent(k, PaidAt(db, i)))
      case None => (db, NotPayable(db.invoices[i].status))
  {
    if FindByInvoice(db.payments, i).Some? {
      var k := FindByInvoice(db.payments, i).value;
      assert PayTurn(db, Raced(i, key), c) == (db, WinnerFound(i, key, k));
      FinishFound(db, WinnerFound(i, key, k), c);
    } else {
      assert PayTurn(db, Raced(i, key), c) == (db, NoWinner(i, key));
      assert FinishPay(db, NoWinner(i, key), c) == FinishPay(db, Confirmed(i, key, NotPayable(db.invoices[i].status)), c);
    }
  }

  lemma FinishConfirming(db: Db, i: nat, key: Key, c: Choice)
    ensures FinishPay(db, Confirming(i, key), c) == match Transaction(db, i, key, c.now).1
      case Inserted(k) =>
        (Emit(Transaction(db, i, key, c.now).0, PaymentReceived(i), c.ok),
         if c.ok then Outcome.Created(k, c.now) else Failed)
      case UniqueViolation => FinishPay(db, Duplicate(i, key), c)
      case UnknownInvoice => (db, Failed)
      case LostRace => FinishPay(db, Raced(i, key), c)
  {
    var (d, r) := Transaction(db, i, key, c.now);
    if r.Inserted? {
      var h := Handler.Created(i, key, r.payment, c.now);
      assert PayTurn(db, Confirming(i, key), c) == (d, h);
      assert FinishPay(d, h, c) == FinishPay(PayTurn(d, h, c).0, PayTurn(d, h, c).1, c);
    }
  }

  lemma SweepUnroll(db: Db, rest: seq<nat>, n: nat, oks: seq<bool>)
    requires |oks| == |rest| > 0
    ensures FinishSweep(db, Sweeping(rest, n), oks) ==
      if IsPending(db, rest[0]) then
        FinishSweep(Emit(SetStatus(db, rest[0], Expired), InvoiceExpired(rest[0]), oks[0]), Sweeping(rest[1..], n + 1), oks[1..])
      else FinishSweep(db, Sweeping(rest[1..], n), oks[1..])
  {
  }

  /** What is left of a sweep from candidate k on. */
  ghost function Onwards(db: Db, candidates: seq<nat>, oks: seq<bool>, k: nat, n: nat): (Db, nat)
    requires |oks| == |candidates| && k <= |candidates|
  {
    FinishSweep(db, Sweeping(candidates[k..], n), oks[k..])
  }

  lemma OnwardsFromStart(db: Db, candidates: seq<nat>, oks: seq<bool>)
    requires |oks| == |candidates|
    ensures Onwards(db, candidates, oks, 0, 0) == FinishSweep(db, Sweeping(candidates, 0), oks)
  {
    assert candidates[0..] == candidates && oks[0..] == oks;
  }

  lemma OnwardsStep(db: Db, candidates: seq<nat>, oks: seq<bool>, k: nat, n: nat)
    requires |oks| == |candidates| && k < |candidates|
    ensures Onwards(db, candidates, oks, k, n) ==
      if IsPending(db, candidates[k]) then
        Onwards(Emit(SetStatus(db, candidates[k], Expired), InvoiceExpired(candidates[k]), oks[k]), candidates, oks, k + 1, n + 1)
      else Onwards(db, candidates, oks, k + 1, n)
  {
    assert candidates[k..][1..] == candidates[k + 1..] && oks[k..][1..] == oks[k + 1..];
    SweepUnroll(db, candidates[k..], n, oks[k..]);
  }

  class Database {
    var invoices: seq<Invoice>
    var payments: seq<Payment>
    var events: seq<Event>

    ghost function View(): Db
      reads this
    {
      Db(invoices, payments, events)
    }

    constructor ()
      ensures View() == START.db
    {
      invoices, payments, events := [], [], [];
    }

    /** updateMany where the id matches and the status is pending; the number of rows changed. */
    method ClaimPending(i: nat, row: Invoice) returns (count: nat)
      modifies this`invoices
      ensures count == if old(IsPending(View(), i)) then 1 else 0
      ensures invoices == if count == 1 then old(invoices)[i := row] else old(invoices)
    {
      count := 0;
      if i < |invoices| && invoices[i].status == Pending {
        invoices := invoices[i := row];
        count := 1;
      }
    }

    /** The $transaction block: create, claim, and roll the create back when the claim fails. */
    method PayTransaction(i: nat, key: Key, now: int) returns (r: TxResult)
      modifies this
      ensures (View(), r) == Transaction(old(View()), i, key, now)
    {
      if FindByKey(payments, key).Some? {
        return UniqueViolation;
      }
      if i >= |invoices| {
        return UnknownInvoice;
      }
      var before := payments;
      payments := payments + [Payment(key, i)];
      var count := ClaimPending(i, MarkPaid(invoices[i], key.txHash, now));
      if count == 0 {
        payments := before;
        return LostRace;
      }
      return Inserted(|payments| - 1);
    }

    method Enqueue(e: Event, ok: bool) returns (sent: bool)
      modifies this`events
      ensures sent == ok && View() == Emit(old(View()), e, ok)
    {
      sent := ok;
      if ok {
        events := events + [e];
      }
    }

    /** confirmInvoicePayment. */
    method ConfirmInvoicePayment(i: nat, key: Key, c: Choice) returns (o: Outcome)
      modifies this
      ensures (View(), o) == FinishPay(old(View()), Confirming(i, key), c)
    {
      FinishConfirming(View(), i, key, c);
      var r := PayTransaction(i, key, c.now);
      match r {
        case Inserted(k) =>
          var sent := Enqueue(PaymentReceived(i), c.ok);
          o := if sent then Outcome.Created(k, c.now) else Failed;
        case UniqueViolation =>
          FinishDuplicate(View(), i, key, c);
          var found := FindByKey(payments, key);
          o := if found.Some? then Idempotent(found.value, PaidAtOf(i)) else Failed;
        case UnknownInvoice =>
          o := Failed;
        case LostRace =>
          FinishRaced(View(), i, key, c);
          var winner := FindByInvoice(payments, i);
          o := if winner.Some? then Idempotent(winner.value, PaidAtOf(i)) else NotPayable(invoices[i].status);
      }
    }

    function PaidAtOf(i: nat): Option<int>
      reads this
    {
      if i < |invoices| then invoices[i].paidAt else None
    }

    /** One candidate: claim it, and tell only if this sweep is the one that expired it. */
    method ExpireOne(i: nat, ok: bool) returns (updated: nat)
      modifies this
      ensures updated == if old(IsPending(View(), i)) then 1 else 0
      ensures View() ==
        if updated == 1 then Emit(SetStatus(old(View()), i, Expired), InvoiceExpired(i), ok) else old(View())
    {
      updated := 0;
      if i < |invoices| {
        updated := ClaimPending(i, invoices[i].(status := Expired));
        if updated != 0 {
          var _ := Enqueue(InvoiceExpired(i), ok);
        }
      }
    }

    /** The loop of expirePendingInvoices over candidates read earlier. */
    method ExpireCandidates(candidates: seq<nat>, oks: seq<bool>) returns (expiredCount: nat)
      requires |oks| == |candidates|
      modifies this
      ensures (View(), expiredCount) == FinishSweep(old(View()), Sweeping(candidates, 0), oks)
    {
      ghost var goal := Onwards(View(), candidates, oks, 0, 0);
      OnwardsFromStart(View(), candidates, oks);
      expiredCount := 0;
      var k := 0;
      while k < |candidates|
        invariant k <= |candidates|
        invariant Onwards(View(), candidates, oks, k, expiredCount) == goal
      {
        OnwardsStep(View(), candidates, oks, k, expiredCount);
        var updated := ExpireOne(candidates[k], oks[k]);
        expiredCount := expiredCount + updated;
        k := k + 1;
      }
    }

    /** payInvoice, with the verdict of the on-chain check. */
    method PayInvoice(requester: string, i: nat, txHash: string, verified: bool, c: Choice) returns (a: PayAnswer)
      modifies this
      ensures
        if i >= |old(invoices)| then a == TurnedDown(NotFound) && View() == old(View())
        else if old(invoices[i]).merchantId != requester then a == TurnedDown(Forbidden) && View() == old(View())
        else if old(invoices[i]).status != Pending then a == TurnedDown(Conflict) && View() == old(View())
        else if !verified then a == TurnedDown(Rejected) && View() == old(View())
        else
          a.Confirmation? &&
          (View(), a.outcome) == FinishPay(old(View()), Confirming(i, Key(old(invoices[i]).chainKey, txHash)), c)
    {
      if i >= |invoices| {
        return TurnedDown(NotFound);
      }
      if invoices[i].merchantId != requester {
        return TurnedDown(Forbidden);
      }
      if invoices[i].status != Pending {
        return TurnedDown(Conflict);
      }
      if !verified {
        return TurnedDown(Rejected);
      }
      var o := ConfirmInvoicePayment(i, Key(invoices[i].chainKey, txHash), c);
      return Confirmation(o);
    }

    /** cancelInvoice: a read, then a write that does not look again. */
    method CancelInvoice(requester: string, i: nat) returns (reply: Reply)
      modifies this`invoices
      ensures reply ==
        if i >= |old(invoices)| then NotFound
        else if old(invoices[i]).merchantId != requester then Forbidden
        else if old(invoices[i]).status != Pending then Conflict
        else CancelledNow
      ensures View() == if reply == CancelledNow then SetStatus(old(View()), i, Cancelled) else old(View())
      ensures var (d, h) := CancelTurn(old(View()), CancelAsked(requester, i));
        if h.Done? then (View(), Done(reply)) == (d, h) else (View(), Done(reply)) == CancelTurn(d, h)
    {
      if i >= |invoices| {
        return NotFound;
      }
      if invoices[i].merchantId != requester {
        return Forbidden;
      }
      if invoices[i].status != Pending {
        return Conflict;
      }
      invoices := invoices[i := invoices[i].(status := Cancelled)];
      return CancelledNow;
    }
  }

  // ---- what the operations achieve -------------------------------------------------------------------------

  /** A confirmation that runs alone: a new key on a pending invoice pays it, even when the answer is
      a failure because the event could not be enqueued; a known key, or an invoice with a payment, is
      answered with that payment; otherwise it is refused. */
  lemma ConfirmAlone(db: Db, i: nat, key: Key, c: Choice)
    requires DbOk(db) && i < |db.invoices|
    ensures var (d, o) := FinishPay(db, Confirming(i, key), c);
      if FindByKey(db.payments, key).Some? then
        && d == db && o.Idempotent? && o.paidAt == db.invoices[i].paidAt
        && o.payment < |db.payments| && db.payments[o.payment].key == key
      else if db.invoices[i].status == Pending then
        && d.invoices == db.invoices[i :=
             db.invoices[i].(status := Paid, paidAt := Some(c.now), paymentTxHash := Some(key.txHash))]
        && d.payments == db.payments + [Payment(key, i)]
        && d.events == db.events + (if c.ok then [PaymentReceived(i)] else [])
        && o == (if c.ok then Outcome.Created(|db.payments|, c.now) else Failed)
      else
        && d == db
        && (if HasPayment(db, i) then o.Idempotent? && OnlyPayment(db, i, o.payment) && o.paidAt.Some?
            else o == NotPayable(db.invoices[i].status) && Closed(db.invoices[i].status))
  {
    FinishConfirming(db, i, key, c);
    if FindByKey(db.payments, key).Some? {
      FinishDuplicate(db, i, key, c);
    } else if db.invoices[i].status != Pending {
      FinishRaced(db, i, key, c);
      RacedWithoutPayment(db, i);
      var w := FindByInvoice(db.payments, i);
      if w.Some? {
        assert Backs(db, db.payments[w.value]);
      }
    }
  }

  /** Run alone, a confirmation is answered with another invoice's payment exactly when its key was
      taken for another invoice before the call. */
  lemma NamesAnotherIff(db: Db, i: nat, key: Key, c: Choice)
    requires DbOk(db) && i < |db.invoices|
    ensures var (d, o) := FinishPay(db, Confirming(i, key), c); NamesAnother(d, i, o) <==> TakenElsewhere(db, i, key)
  {
    ConfirmAlone(db, i, key, c);
    FinishConfirming(db, i, key, c);
  }

  /** The rows a sweep over `rest` would still expire. */
  ghost function StillPending(db: Db, rest: seq<nat>): set<nat> {
    set i | i in rest && IsPending(db, i)
  }

  ghost predicate SweptExactly(db: Db, rest: seq<nat>, d: Db) {
    && d.payments == db.payments && |d.invoices| == |db.invoices|
    && forall i :: 0 <= i < |d.invoices| ==>
         d.invoices[i] == if i in StillPending(db, rest) then db.invoices[i].(status := Expired) else db.invoices[i]
  }

  ghost predicate ToldAll(db: Db, rest: seq<nat>, d: Db) {
    && db.events <= d.events && |d.events| == |db.events| + |StillPending(db, rest)|
    && forall i :: i in StillPending(db, rest) ==> InvoiceExpired(i) in d.events
  }

  lemma StillPendingStep(db: Db, d: Db, rest: seq<nat>)
    requires rest != [] && IsPending(db, rest[0]) && d.invoices == SetStatus(db, rest[0], Expired).invoices
    ensures StillPending(db, rest) == StillPending(d, rest[1..]) + {rest[0]}
    ensures |StillPending(db, rest)| == |StillPending(d, rest[1..])| + 1
  {
    assert rest == [rest[0]] + rest[1..];
    assert rest[0] !in StillPending(d, rest[1..]);
  }

  lemma StillPendingSkip(db: Db, rest: seq<nat>)
    requires rest != [] && !IsPending(db, rest[0])
    ensures StillPending(db, rest) == StillPending(db, rest[1..])
  {
    assert rest == [rest[0]] + rest[1..];
  }

  lemma SweptStep(db: Db, rest: seq<nat>, told: seq<Event>, d: Db)
    requires rest != [] && IsPending(db, rest[0])
    requires SweptExactly(SetStatus(db, rest[0], Expired).(events := told), rest[1..], d)
    ensures SweptExactly(db, rest, d)
  {
    var d1 := SetStatus(db, rest[0], Expired).(events := told);
    StillPendingStep(db, d1, rest);
    forall i | 0 <= i < |d.invoices|
      ensures d.invoices[i] == if i in StillPending(db, rest) then db.invoices[i].(status := Expired) else db.invoices[i]
    {
      assert i in StillPending(db, rest) <==> i in StillPending(d1, rest[1..]) || i == rest[0];
    }
  }

  lemma ToldStep(db: Db, rest: seq<nat>, d: Db)
    requires rest != [] && IsPending(db, rest[0])
    requires ToldAll(Emit(SetStatus(db, rest[0], Expired), InvoiceExpired(rest[0]), true), rest[1..], d)
    ensures ToldAll(db, rest, d)
  {
    var d1 := Emit(SetStatus(db, rest[0], Expired), InvoiceExpired(rest[0]), true);
    StillPendingStep(db, d1, rest);
    assert d1.events[|db.events|] == InvoiceExpired(rest[0]) && d.events[|db.events|] == d1.events[|db.events|];
  }

  /** The sweep expired exactly the candidates that were still pending, counted them, told of
      each once when the enqueues succeed, and touched nothing else. */
  ghost predicate SweepResult(db: Db, rest: seq<nat>, n: nat, oks: seq<bool>, d: Db, count: nat) {
    && SweptExactly(db, rest, d)
    && count == n + |StillPending(db, rest)|
    && ((forall k :: 0 <= k < |oks| ==> oks[k]) ==> ToldAll(db, rest, d))
  }

  lemma SweepResultStep(db: Db, rest: seq<nat>, n: nat, oks: seq<bool>, d: Db, count: nat)
    requires |oks| == |rest| > 0 && IsPending(db, rest[0])
    requires var next := Emit(SetStatus(db, rest[0], Expired), InvoiceExpired(rest[0]), oks[0]);
      SweepResult(next, rest[1..], n + 1, oks[1..], d, count)
    ensures SweepResult(db, rest, n, oks, d, count)
  {
    var d1 := Emit(SetStatus(db, rest[0], Expired), InvoiceExpired(rest[0]), oks[0]);
    StillPendingStep(db, d1, rest);
    SweptStep(db, rest, d1.events, d);
    if forall k :: 0 <= k < |oks| ==> oks[k] {
      assert oks[0];
      ToldStep(db, rest, d);
    }
  }

  lemma SweepResultSkip(db: Db, rest: seq<nat>, n: nat, oks: seq<bool>, d: Db, count: nat)
    requires |oks| == |rest| > 0 && !IsPending(db, rest[0])
    requires SweepResult(db, rest[1..], n, oks[1..], d, count)
    ensures SweepResult(db, rest, n, oks, d, count)
  {
    StillPendingSkip(db, rest);
  }

  lemma {:induction false} SweepAlone(db: Db, rest: seq<nat>, n: nat, oks: seq<bool>)
    requires |oks| == |rest|
    ensures var (d, count) := FinishSweep(db, Sweeping(rest, n), oks); SweepResult(db, rest, n, oks, d, count)
    decreases |rest|
  {
    var (d, count) := FinishSweep(db, Sweeping(rest, n), oks);
    if rest == [] {
      assert StillPending(db, rest) == {};
    } else {
      SweepUnroll(db, rest, n, oks);
      if IsPending(db, rest[0]) {
        SweepAlone(Emit(SetStatus(db, rest[0], Expired), InvoiceExpired(rest[0]), oks[0]), rest[1..], n + 1, oks[1..]);
        SweepResultStep(db, rest, n, oks, d, count);
      } else {
        SweepAlone(db, rest[1..], n, oks[1..]);
        SweepResultSkip(db, rest, n, oks, d, count);
      }
    }
  }
}