/** The chain indexer's sweep (apps/backend/src/jobs/chainIndexer.ts): a pool of workers that share
    one index, the grouping of invoices by address, and the choice of the matching transfer. */
module IndexerSweep {
  import opened Amounts
  import opened Text
  import opened Wrappers

  // ---- mapPool ------------------------------------------------------------------------------------------

  /** A worker between two awaits, waiting for the call on one index, or ended. */
  datatype Worker = Ready | Busy(index: nat) | Ended

  datatype Pool<R> = Pool(next: nat, results: seq<Option<R>>, workers: seq<Worker>)

  /** The pool as mapPool starts it on n items. */
  function Start<R>(n: nat, concurrency: int): Pool<R> {
    var most := if n > 1 then n else 1;
    var width := if concurrency < most then concurrency else most;
    Pool(0, seq(n, _ => None), seq(if width < 0 then 0 else width, _ => Ready))
  }

  /** One turn of worker w: claim the next index or end; or store the result of its call. */
  function Turn<T, R>(p: Pool<R>, items: seq<T>, f: T -> R, w: nat): Pool<R>
    requires |p.results| == |items|
  {
    if w >= |p.workers| then p
    else match p.workers[w]
      case Ready =>
        if p.next < |items| then p.(next := p.next + 1, workers := p.workers[w := Busy(p.next)])
        else p.(workers := p.workers[w := Ended])
      case Busy(i) =>
        if i < |items| then p.(results := p.results[i := Some(f(items[i]))], workers := p.workers[w := Ready]) else p
      case Ended => p
  }

  /** The pool after the given workers took turns. */
  function Turns<T, R>(p: Pool<R>, items: seq<T>, f: T -> R, ws: seq<nat>): (q: Pool<R>)
    requires |p.results| == |items|
    ensures |q.results| == |items|
  {
    if ws == [] then p else Turn(Turns(p, items, f, ws[..|ws| - 1]), items, f, ws[|ws| - 1])
  }

  ghost predicate SomeoneOn<R>(p: Pool<R>, i: nat) {
    exists w :: 0 <= w < |p.workers| && p.workers[w] == Busy(i)
  }

  /** Every claimed index is either in one worker's hands or done, and done right. */
  ghost predicate PoolOk<T(!new), R(!new)>(p: Pool<R>, items: seq<T>, f: T -> R) {
    && |p.results| == |items| && p.next <= |items|
    && (forall w :: 0 <= w < |p.workers| && p.workers[w].Busy? ==> p.workers[w].index < p.next)
    && (forall v, w :: 0 <= v < w < |p.workers| && p.workers[v].Busy? ==> p.workers[v] != p.workers[w])
    && (forall w :: 0 <= w < |p.workers| && p.workers[w].Ended? ==> p.next == |items|)
    && (forall i :: 0 <= i < |items| && p.results[i].Some? ==>
         i < p.next && p.results[i].value == f(items[i]) && !SomeoneOn(p, i))
    && (forall i :: 0 <= i < p.next ==> p.results[i].Some? || SomeoneOn(p, i))
  }

  lemma SomeoneStays<R>(p: Pool<R>, q: Pool<R>, w: nat, i: nat)
    requires w < |p.workers| == |q.workers| && q.workers == p.workers[w := q.workers[w]]
    requires SomeoneOn(p, i) && p.workers[w] != Busy(i)
    ensures SomeoneOn(q, i)
  {
    var v :| 0 <= v < |p.workers| && p.workers[v] == Busy(i);
    assert q.workers[v] == Busy(i);
  }

  lemma ClaimKeepsOk<T(!new), R(!new)>(p: Pool<R>, items: seq<T>, f: T -> R, w: nat)
    requires PoolOk(p, items, f) && w < |p.workers| && p.workers[w].Ready?
    ensures PoolOk(Turn(p, items, f, w), items, f)
  {
    var q := Turn(p, items, f, w);
    forall i | 0 <= i < q.next ensures q.results[i].Some? || SomeoneOn(q, i) {
      if i == p.next {
        assert q.workers[w] == Busy(i);
      } else if p.results[i].None? {
        SomeoneStays(p, q, w, i);
      }
    }
    forall i | 0 <= i < |items| && q.results[i].Some? ensures !SomeoneOn(q, i) {
      assert !SomeoneOn(p, i);
    }
  }

  lemma StoreKeepsOk<T(!new), R(!new)>(p: Pool<R>, items: seq<T>, f: T -> R, w: nat)
    requires PoolOk(p, items, f) && w < |p.workers| && p.workers[w].Busy?
    ensures PoolOk(Turn(p, items, f, w), items, f)
  {
    var q, k := Turn(p, items, f, w), p.workers[w].index;
    forall i | 0 <= i < q.next ensures q.results[i].Some? || SomeoneOn(q, i) {
      if i != k && p.results[i].None? {
        SomeoneStays(p, q, w, i);
      }
    }
    forall i | 0 <= i < |items| && q.results[i].Some? ensures !SomeoneOn(q, i) {
      if i != k {
        assert !SomeoneOn(p, i);
      }
    }
  }

  lemma {:induction false} TurnsKeepOk<T(!new), R(!new)>(items: seq<T>, concurrency: int, f: T -> R, ws: seq<nat>)
    ensures PoolOk(Turns(Start(|items|, concurrency), items, f, ws), items, f)
  {
    if ws != [] {
      TurnsKeepOk(items, concurrency, f, ws[..|ws| - 1]);
      var p, w := Turns(Start(|items|, concurrency), items, f, ws[..|ws| - 1]), ws[|ws| - 1];
      if w < |p.workers| && p.workers[w].Ready? {
        ClaimKeepsOk(p, items, f, w);
      } else if w < |p.workers| && p.workers[w].Busy? {
        StoreKeepsOk(p, items, f, w);
      }
    }
  }

  lemma {:induction false} SameWidth<T, R>(p: Pool<R>, items: seq<T>, f: T -> R, ws: seq<nat>)
    requires |p.results| == |items|
    ensures |Turns(p, items, f, ws).workers| == |p.workers|
  {
    if ws != [] {
      SameWidth(p, items, f, ws[..|ws| - 1]);
    }
  }

  /** The workers with a call under way. */
  function InFlight<R>(p: Pool<R>): set<nat> {
    set w: nat | w < |p.workers| && p.workers[w].Busy?
  }

  lemma {:induction false} AtMost(keys: set<nat>, n: nat)
    requires forall k :: k in keys ==> k < n
    ensures |keys| <= n
  {
    if n > 0 {
      AtMost(keys - {n - 1}, n - 1);
    }
  }

  /** The pool starts with one worker for each item, but no more than the concurrency, and at least one
      unless the concurrency is below one; and so no more calls than that are ever under way. */
  lemma CallsAreBounded<T, R>(items: seq<T>, concurrency: int, f: T -> R, ws: seq<nat>)
    ensures var (p, q) := (Start<R>(|items|, concurrency), Turns(Start<R>(|items|, concurrency), items, f, ws));
      && |p.workers| == (if concurrency < 1 then 0
                         else if concurrency < |items| then concurrency
                         else if |items| == 0 then 1
                         else |items|)
      && |InFlight(q)| <= |p.workers|
  {
    SameWidth(Start<R>(|items|, concurrency), items, f, ws);
    var q := Turns(Start<R>(|items|, concurrency), items, f, ws);
    AtMost(InFlight(q), |q.workers|);
  }

  predicate AllEnded<R>(p: Pool<R>) {
    forall w :: 0 <= w < |p.workers| ==> p.workers[w].Ended?
  }

  /** The worker still has something to do. */
  predicate Active<R>(p: Pool<R>, w: nat) {
    w < |p.workers| && !p.workers[w].Ended?
  }

  function Weight(w: Worker): nat {
    match w
    case Ready => 1
    case Busy(_) => 2
    case Ended => 0
  }

  function Weights(ws: seq<Worker>): nat {
    if ws == [] then 0 else Weights(ws[..|ws| - 1]) + Weight(ws[|ws| - 1])
  }

  /** The turns the pool has left. */
  function TurnsLeft<R>(p: Pool<R>, n: nat): int {
    2 * (n - p.next) + Weights(p.workers)
  }

  lemma {:induction false} WeightsUpdate(ws: seq<Worker>, i: nat, w: Worker)
    requires i < |ws|
    ensures Weights(ws[i := w]) == Weights(ws) - Weight(ws[i]) + Weight(w)
  {
    var n := |ws| - 1;
    if i < n {
      WeightsUpdate(ws[..n], i, w);
      assert ws[i := w][..n] == ws[..n][i := w];
    } else {
      assert ws[i := w][..n] == ws[..n];
    }
  }

  lemma {:induction false} NoWeightIffEnded(ws: seq<Worker>)
    ensures Weights(ws) == 0 <==> forall w :: 0 <= w < |ws| ==> ws[w].Ended?
  {
    if ws != [] {
      var n := |ws| - 1;
      NoWeightIffEnded(ws[..n]);
      assert ws == ws[..n] + [ws[n]];
    }
  }

  lemma {:induction false} WeightsOfReady(n: nat)
    ensures Weights(seq(n, _ => Ready)) == n
  {
    if n > 0 {
      WeightsOfReady(n - 1);
      assert seq(n, _ => Ready)[..n - 1] == seq(n - 1, _ => Ready);
    }
  }

  /** Every turn of an active worker leaves exactly one turn fewer. */
  lemma ActiveTurnCounts<T(!new), R(!new)>(p: Pool<R>, items: seq<T>, f: T -> R, w: nat)
    requires PoolOk(p, items, f)
    ensures TurnsLeft(Turn(p, items, f, w), |items|) == TurnsLeft(p, |items|) - if Active(p, w) then 1 else 0
  {
    if Active(p, w) {
      WeightsUpdate(p.workers, w, Turn(p, items, f, w).workers[w]);
    }
  }

  /** How many turns were taken by active workers. */
  function ActiveTurns<T, R>(p: Pool<R>, items: seq<T>, f: T -> R, ws: seq<nat>): nat
    requires |p.results| == |items|
  {
    if ws == [] then 0
    else
      var rest := ws[..|ws| - 1];
      ActiveTurns(p, items, f, rest) + if Active(Turns(p, items, f, rest), ws[|ws| - 1]) then 1 else 0
  }

  lemma {:induction false} TurnsAddUp<T(!new), R(!new)>(items: seq<T>, concurrency: int, f: T -> R, ws: seq<nat>)
    ensures var p := Start<R>(|items|, concurrency);
      TurnsLeft(Turns(p, items, f, ws), |items|) + ActiveTurns(p, items, f, ws) == TurnsLeft(p, |items|)
  {
    if ws != [] {
      TurnsAddUp(items, concurrency, f, ws[..|ws| - 1]);
      TurnsKeepOk(items, concurrency, f, ws[..|ws| - 1]);
      ActiveTurnCounts(Turns(Start<R>(|items|, concurrency), items, f, ws[..|ws| - 1]), items, f, ws[|ws| - 1]);
    }
  }

  /** However the workers interleave, the pool ends after exactly twice the number of items plus the
      number of workers active turns, and not before. */
  lemma PoolEnds<T(!new), R(!new)>(items: seq<T>, concurrency: int, f: T -> R, ws: seq<nat>)
    requires concurrency >= 1
    ensures var p := Start<R>(|items|, concurrency);
      && ActiveTurns(p, items, f, ws) <= 2 * |items| + |p.workers|
      && (ActiveTurns(p, items, f, ws) == 2 * |items| + |p.workers| <==> AllEnded(Turns(p, items, f, ws)))
  {
    var p := Start<R>(|items|, concurrency);
    TurnsAddUp(items, concurrency, f, ws);
    TurnsKeepOk(items, concurrency, f, ws);
    SameWidth(p, items, f, ws);
    WeightsOfReady(|p.workers|);
    assert p.workers == seq(|p.workers|, _ => Ready);
    NoWeightIffEnded(Turns(p, items, f, ws).workers);
    assert AllEnded(Turns(p, items, f, ws)) ==> Turns(p, items, f, ws).workers[0].Ended?;
  }

  /** However the workers interleave, once the pool has had that many active turns every item has
      its own result. */
  lemma PoolMapsAll<T(!new), R(!new)>(items: seq<T>, concurrency: int, f: T -> R, ws: seq<nat>)
    requires concurrency >= 1
    requires var p := Start<R>(|items|, concurrency); ActiveTurns(p, items, f, ws) >= 2 * |items| + |p.workers|
    ensures var p := Turns(Start<R>(|items|, concurrency), items, f, ws);
      AllEnded(p) && forall i :: 0 <= i < |items| ==> p.results[i] == Some(f(items[i]))
  {
    PoolEnds(items, concurrency, f, ws);
    TurnsKeepOk(items, concurrency, f, ws);
    SameWidth(Start<R>(|items|, concurrency), items, f, ws);
    var p := Turns(Start<R>(|items|, concurrency), items, f, ws);
    assert p.workers[0].Ended?;
    forall i | 0 <= i < |items| ensures p.results[i].Some? {
      assert p.results[i].Some? || SomeoneOn(p, i);
    }
  }

  /** With a concurrency below one no item is ever processed. */
  lemma {:induction false} EmptyPoolMapsNothing<T, R>(items: seq<T>, concurrency: int, f: T -> R, ws: seq<nat>)
    requires concurrency < 1
    ensures Turns(Start(|items|, concurrency), items, f, ws) == Start(|items|, concurrency)
  {
    if ws != [] {
      EmptyPoolMapsNothing(items, concurrency, f, ws[..|ws| - 1]);
    }
  }

  // ---- grouping -------------------------------------------------------------------------------------------

  datatype Invoice = Invoice(id: string, chainKey: string, paymentAddress: string, amount: string, tokenSymbol: string)

  /** The Map of groups, in the order of first insertion. */
  datatype Group = Group(key: string, invoices: seq<Invoice>)

  function GroupKey(i: Invoice): string {
    i.chainKey + "::" + Lower(i.paymentAddress)
  }

  lemma SameSplit(a: string, r: string, b: string, s: string)
    requires ':' !in a && ':' !in b && a + "::" + r == b + "::" + s
    ensures a == b && r == s
  {
    var t, u := a + "::" + r, b + "::" + s;
    assert t[|a|] == ':' && u[|b|] == ':';
    assert forall i :: 0 <= i < |a| ==> t[i] != ':';
    assert forall i :: 0 <= i < |b| ==> u[i] != ':';
    assert a == t[..|a|] && b == u[..|b|] && r == t[|a| + 2..] && s == u[|b| + 2..];
  }

  /** Two invoices are in one group exactly when they are on one chain and their addresses are equal up
      to case, as long as names of chains have no colon. */
  lemma SameGroupIff(i: Invoice, j: Invoice)
    requires ':' !in i.chainKey && ':' !in j.chainKey
    ensures GroupKey(i) == GroupKey(j) <==> i.chainKey == j.chainKey && SameUpToCase(i.paymentAddress, j.paymentAddress)
  {
    LowerIff(i.paymentAddress, j.paymentAddress);
    if GroupKey(i) == GroupKey(j) {
      SameSplit(i.chainKey, Lower(i.paymentAddress), j.chainKey, Lower(j.paymentAddress));
    }
  }

  /** The invoices of one key, in their order; those without an address are skipped. */
  function OfKey(invoices: seq<Invoice>, key: string): seq<Invoice> {
    if invoices == [] then []
    else
      var n := |invoices| - 1;
      OfKey(invoices[..n], key) +
      if invoices[n].paymentAddress != "" && GroupKey(invoices[n]) == key then [invoices[n]] else []
  }

  predicate DistinctGroups(gs: seq<Group>) {
    forall i, j :: 0 <= i < j < |gs| ==> gs[i].key != gs[j].key
  }

  function FindGroup(gs: seq<Group>, key: string): (r: Option<nat>)
    ensures r.Some? ==> r.value < |gs| && gs[r.value].key == key
    ensures r.None? ==> forall i :: 0 <= i < |gs| ==> gs[i].key != key
  {
    if gs == [] then None
    else if gs[|gs| - 1].key == key then Some(|gs| - 1)
    else FindGroup(gs[..|gs| - 1], key)
  }

  /** Each group holds exactly the invoices of its key, and every other key has none. */
  ghost predicate Grouped(gs: seq<Group>, invoices: seq<Invoice>) {
    && DistinctGroups(gs)
    && (forall i :: 0 <= i < |gs| ==> gs[i].invoices == OfKey(invoices, gs[i].key))
    && (forall key :: OfKey(invoices, key) != [] ==> FindGroup(gs, key).Some?)
  }

  lemma OfKeyPush(invoices: seq<Invoice>, x: Invoice, key: string)
    ensures OfKey(invoices + [x], key) ==
      OfKey(invoices, key) + if x.paymentAddress != "" && GroupKey(x) == key then [x] else []
  {
    assert (invoices + [x])[..|invoices|] == invoices;
  }

  lemma FindGroupPush(gs: seq<Group>, g: Group, key: string)
    ensures FindGroup(gs + [g], key) == if g.key == key then Some(|gs|) else FindGroup(gs, key)
  {
    assert (gs + [g])[..|gs|] == gs;
  }

  lemma FindGroupUpdate(gs: seq<Group>, at: nat, g: Group, key: string)
    requires at < |gs| && gs[at].key == g.key
    ensures FindGroup(gs[at := g], key).Some? == FindGroup(gs, key).Some?
  {
    var hs := gs[at := g];
    if FindGroup(gs, key).Some? {
      assert hs[FindGroup(gs, key).value].key == key;
    } else {
      assert forall i :: 0 <= i < |gs| ==> hs[i].key == gs[i].key;
    }
  }

  lemma AddNewGroup(gs: seq<Group>, invoices: seq<Invoice>, x: Invoice)
    requires Grouped(gs, invoices) && x.paymentAddress != "" && FindGroup(gs, GroupKey(x)).None?
    ensures Grouped(gs + [Group(GroupKey(x), [x])], invoices + [x])
  {
    var hs := gs + [Group(GroupKey(x), [x])];
    forall i | 0 <= i < |hs| ensures hs[i].invoices == OfKey(invoices + [x], hs[i].key) {
      OfKeyPush(invoices, x, hs[i].key);
    }
    forall key | OfKey(invoices + [x], key) != [] ensures FindGroup(hs, key).Some? {
      OfKeyPush(invoices, x, key);
      FindGroupPush(gs, Group(GroupKey(x), [x]), key);
    }
  }

  lemma AddToGroup(gs: seq<Group>, invoices: seq<Invoice>, x: Invoice, at: nat)
    requires Grouped(gs, invoices) && x.paymentAddress != "" && FindGroup(gs, GroupKey(x)) == Some(at)
    ensures Grouped(gs[at := Group(GroupKey(x), gs[at].invoices + [x])], invoices + [x])
  {
    var g := Group(GroupKey(x), gs[at].invoices + [x]);
    var hs := gs[at := g];
    forall i | 0 <= i < |hs| ensures hs[i].invoices == OfKey(invoices + [x], hs[i].key) {
      OfKeyPush(invoices, x, hs[i].key);
    }
    forall key | OfKey(invoices + [x], key) != [] ensures FindGroup(hs, key).Some? {
      OfKeyPush(invoices, x, key);
      FindGroupUpdate(gs, at, g, key);
    }
  }

  lemma SkipInvoice(gs: seq<Group>, invoices: seq<Invoice>, x: Invoice)
    requires Grouped(gs, invoices) && x.paymentAddress == ""
    ensures Grouped(gs, invoices + [x])
  {
    forall key ensures OfKey(invoices + [x], key) == OfKey(invoices, key) {
      OfKeyPush(invoices, x, key);
    }
  }

  method GroupByAddress(invoices: seq<Invoice>) returns (groups: seq<Group>)
    ensures Grouped(groups, invoices)
  {
    groups := [];
    for i := 0 to |invoices|
      invariant Grouped(groups, invoices[..i])
    {
      var x := invoices[i];
      assert invoices[..i + 1] == invoices[..i] + [x];
      if x.paymentAddress == "" {
        SkipInvoice(groups, invoices[..i], x);
        continue;
      }
      var at := FindGroup(groups, GroupKey(x));
      if at.Some? {
        AddToGroup(groups, invoices[..i], x, at.value);
        groups := groups[at.value := Group(GroupKey(x), groups[at.value].invoices + [x])];
      } else {
        AddNewGroup(groups, invoices[..i], x);
        groups := groups + [Group(GroupKey(x), [x])];
      }
    }
    assert invoices[..|invoices|] == invoices;
  }

  // ---- matching ---------------------------------------------------------------------------------------------

  datatype Transfer = Transfer(txHash: string, toAddress: string, amount: string, tokenSymbol: string)

  predicate AddressesMatch(a: string, b: string) {
    Lower(Trim(JsSpace, a)) == Lower(Trim(JsSpace, b))
  }

  /** The transfer pays the invoice: same recipient, same amount, same symbol. */
  predicate Pays(tx: Transfer, i: Invoice) {
    && AddressesMatch(tx.toAddress, i.paymentAddress)
    && AmountsMatch(Some(tx.amount), Some(i.amount))
    && SymbolsMatch(tx.tokenSymbol, i.tokenSymbol)
  }

  /** A transfer pays an invoice exactly when recipient and token symbol are equal up to case and outer
      white space, and the amounts mean the same. */
  lemma PaysIff(tx: Transfer, i: Invoice)
    ensures Pays(tx, i) <==>
      && Alike(tx.toAddress, i.paymentAddress) && Alike(tx.tokenSymbol, i.tokenSymbol)
      && MeaningOf(Some(tx.amount)) == MeaningOf(Some(i.amount))
  {
    LowerAlike(tx.toAddress, i.paymentAddress);
    SymbolsMatchIff(tx.tokenSymbol, i.tokenSymbol);
    AmountsMatchIff(Some(tx.amount), Some(i.amount));
  }

  /** The transfer chosen for an invoice: the first that pays it, and none only if none does; its
      amount says exactly what the invoice's amount says. */
  method ChooseTransfer(i: Invoice, txs: seq<Transfer>) returns (chosen: Option<nat>)
    ensures chosen.Some? ==> chosen.value < |txs| && Pays(txs[chosen.value], i)
    ensures chosen.Some? ==> forall k :: 0 <= k < chosen.value ==> !Pays(txs[k], i)
    ensures chosen.Some? ==> MeaningOf(Some(txs[chosen.value].amount)) == MeaningOf(Some(i.amount))
    ensures chosen.None? ==> forall k :: 0 <= k < |txs| ==> !Pays(txs[k], i)
  {
    for k := 0 to |txs|
      invariant forall j :: 0 <= j < k ==> !Pays(txs[j], i)
    {
      if !AddressesMatch(txs[k].toAddress, i.paymentAddress) {
        continue;
      }
      if AmountsMatch(Some(txs[k].amount), Some(i.amount)) && SymbolsMatch(txs[k].tokenSymbol, i.tokenSymbol) {
        AmountsMatchIff(Some(txs[k].amount), Some(i.amount));
        return Some(k);
      }
    }
    return None;
  }
}
