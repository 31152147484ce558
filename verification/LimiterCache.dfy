/** MerchantLimiterCache of apps/backend/src/middleware/rateLimiter.ts: an LRU cache with a time to
    live that uses the insertion order of a Map as its recency list. */
module LimiterCache {
  import opened Wrappers

  /** One Map entry; a Map is the sequence of its entries in insertion order. */
  datatype Entry<L> = Entry(key: string, limiter: L, expiresAt: int)

  predicate Distinct<L>(es: seq<Entry<L>>) {
    forall i, j :: 0 <= i < j < |es| ==> es[i].key != es[j].key
  }

  function Find<L>(es: seq<Entry<L>>, key: string): (r: Option<nat>)
    ensures r.Some? ==> r.value < |es| && es[r.value].key == key
    ensures r.None? ==> forall i :: 0 <= i < |es| ==> es[i].key != key
  {
    if es == [] then None
    else if es[|es| - 1].key == key then Some(|es| - 1)
    else Find(es[..|es| - 1], key)
  }

  /** Map.delete. */
  function Without<L>(es: seq<Entry<L>>, key: string): (r: seq<Entry<L>>)
    ensures Distinct(es) ==> Distinct(r) && forall i :: 0 <= i < |r| ==> r[i].key != key
  {
    var at := Find(es, key);
    if at.Some? then es[..at.value] + es[at.value + 1..] else es
  }

  /** The newest `max` entries. */
  function Newest<L>(es: seq<Entry<L>>, max: nat): seq<Entry<L>> {
    if |es| > max then es[|es| - max..] else es
  }

  /** The key is present and its time has not passed. */
  predicate Hits<L>(es: seq<Entry<L>>, key: string, now: int) {
    Find(es, key).Some? && now <= es[Find(es, key).value].expiresAt
  }

  function GetResult<L>(es: seq<Entry<L>>, key: string, now: int): Option<L> {
    if Hits(es, key, now) then Some(es[Find(es, key).value].limiter) else None
  }

  datatype Op<L> =
    | Get(key: string, now: int)
    | Set(key: string, limiter: L, now: int)
    | Delete(key: string)

  /** The cache after one operation. */
  function Apply<L>(es: seq<Entry<L>>, op: Op<L>, max: nat, ttl: int): seq<Entry<L>> {
    match op
    case Get(key, now) =>
      if Hits(es, key, now) then Without(es, key) + [es[Find(es, key).value]] else Without(es, key)
    case Set(key, limiter, now) => Newest(Without(es, key) + [Entry(key, limiter, now + ttl)], max)
    case Delete(key) => Without(es, key)
  }

  lemma PushDistinct<L>(es: seq<Entry<L>>, x: Entry<L>)
    requires Distinct(es) && forall i :: 0 <= i < |es| ==> es[i].key != x.key
    ensures Distinct(es + [x])
  {
  }

  // ---- the cache object ----------------------------------------------------------------------------

  class MerchantLimiterCache<L> {
    const maxSize: nat
    const ttlMs: int
    var entries: seq<Entry<L>>

    ghost predicate Valid()
      reads this
    {
      Distinct(entries) && |entries| <= maxSize
    }

    constructor (maxSize: nat, ttlMs: int)
      ensures Valid() && this.maxSize == maxSize && this.ttlMs == ttlMs && entries == []
    {
      this.maxSize, this.ttlMs, entries := maxSize, ttlMs, [];
    }

    method MapDelete(key: string)
      requires Distinct(entries)
      modifies this
      ensures entries == Without(old(entries), key)
    {
      var at := Find(entries, key);
      if at.Some? {
        entries := entries[..at.value] + entries[at.value + 1..];
      }
    }

    method Get(key: string, now: int) returns (r: Option<L>)
      requires Valid()
      modifies this
      ensures Valid() && entries == Apply(old(entries), Op.Get(key, now), maxSize, ttlMs)
      ensures r == GetResult(old(entries), key, now)
    {
      var at := Find(entries, key);
      if at.None? {
        return None;
      }
      var entry := entries[at.value];
      MapDelete(key);
      if now > entry.expiresAt {
        return None;
      }
      entries := entries + [entry];
      return Some(entry.limiter);
    }

    method Set(key: string, limiter: L, now: int)
      requires Valid()
      modifies this
      ensures Valid() && entries == Apply(old(entries), Op.Set(key, limiter, now), maxSize, ttlMs)
    {
      MapDelete(key);
      PushDistinct(entries, Entry(key, limiter, now + ttlMs));
      entries := entries + [Entry(key, limiter, now + ttlMs)];
      EvictOldest();
    }

    /** The eviction loop of set. */
    method EvictOldest()
      requires Distinct(entries)
      modifies this`entries
      ensures Valid() && entries == Newest(old(entries), maxSize)
    {
      ghost var all := entries;
      ghost var gone := 0;
      while |entries| > maxSize
        invariant gone <= |all| && entries == all[gone..] && (gone > 0 ==> |entries| >= maxSize)
      {
        entries := entries[1..];
        gone := gone + 1;
      }
    }

    method Delete(key: string)
      requires Valid()
      modifies this
      ensures Valid() && entries == Apply(old(entries), Op.Delete(key), maxSize, ttlMs)
    {
      MapDelete(key);
    }
  }

  // ---- what an operation does to each key ------------------------------------------------------------

  /** What the cache holds for a key. */
  function Lookup<L>(es: seq<Entry<L>>, key: string): Option<Entry<L>> {
    var at := Find(es, key);
    if at.Some? then Some(es[at.value]) else None
  }

  lemma LookupIff<L>(es: seq<Entry<L>>, key: string, e: Entry<L>)
    requires Distinct(es)
    ensures Lookup(es, key) == Some(e) <==> e.key == key && e in es
    ensures Lookup(es, key) == None <==> forall x :: x in es ==> x.key != key
  {
    if e in es && e.key == key {
      var i :| 0 <= i < |es| && es[i] == e;
      FindDistinct(es, i);
    }
  }

  lemma LookupWithout<L>(es: seq<Entry<L>>, key: string, k: string)
    requires Distinct(es)
    ensures Lookup(Without(es, key), k) == if k == key then None else Lookup(es, k)
  {
    FindWithout(es, key, k);
  }

  lemma LookupMoved<L>(es: seq<Entry<L>>, x: Entry<L>, k: string)
    requires Distinct(es)
    ensures Lookup(Without(es, x.key) + [x], k) == if k == x.key then Some(x) else Lookup(es, k)
  {
    FindMoved(es, x, k);
    LookupWithout(es, x.key, k);
  }

  /** A deleted key is gone, and no other key is affected. */
  lemma DeleteMeaning<L>(es: seq<Entry<L>>, key: string, max: nat, ttl: int, k: string)
    requires Distinct(es)
    ensures Lookup(Apply(es, Op.Delete(key), max, ttl), k) == if k == key then None else Lookup(es, k)
  {
    LookupWithout(es, key, k);
  }

  /** A get answers the limiter of an entry whose time has not passed, and keeps that entry as it is; it
      drops an entry whose time has passed; and it affects no other key. */
  lemma GetMeaning<L>(es: seq<Entry<L>>, key: string, now: int, max: nat, ttl: int, k: string)
    requires Distinct(es)
    ensures var e := Lookup(es, key);
      && GetResult(es, key, now) == (if e.Some? && now <= e.value.expiresAt then Some(e.value.limiter) else None)
      && Lookup(Apply(es, Op.Get(key, now), max, ttl), k) ==
           if k != key then Lookup(es, k) else if e.Some? && now <= e.value.expiresAt then e else None
  {
    if Hits(es, key, now) {
      LookupMoved(es, es[Find(es, key).value], k);
    } else {
      LookupWithout(es, key, k);
    }
  }

  lemma PushedStores<L>(es: seq<Entry<L>>, x: Entry<L>, max: nat)
    requires Distinct(es) && 1 <= max
    ensures Lookup(Newest(Without(es, x.key) + [x], max), x.key) == Some(x)
  {
    FindMoved(es, x, x.key);
    LookupLast(Without(es, x.key), x);
    NewestKeepsKey(Without(es, x.key) + [x], max, x.key);
  }

  /** The key has the entry it had, or none any more, and then the cache was full and is. */
  predicate Spared<L(==)>(es: seq<Entry<L>>, after: seq<Entry<L>>, max: nat, k: string) {
    Lookup(after, k) == Lookup(es, k) || (Lookup(after, k) == None && |es| == |after| == max)
  }

  lemma PushedSpares<L>(es: seq<Entry<L>>, x: Entry<L>, staged: seq<Entry<L>>, max: nat, k: string)
    requires Distinct(es) && 1 <= max && |es| <= max && k != x.key && staged == Without(es, x.key) + [x]
    ensures Spared(es, Newest(staged, max), max, k)
  {
    FindMoved(es, x, k);
    LookupMoved(es, x, k);
    StagedSize(es, x.key);
    if Find(staged, k).Some? && Find(staged, k).value >= |staged| - max {
      NewestKeepsKey(staged, max, k);
    } else if |staged| > max {
      NewestDropsKey(staged, max, k);
    }
  }

  /** A set stores the limiter with a full time to live. */
  lemma SetStores<L>(es: seq<Entry<L>>, op: Op<L>, max: nat, ttl: int)
    requires op.Set? && Distinct(es) && 1 <= max
    ensures Lookup(Apply(es, op, max, ttl), op.key) == Some(Entry(op.key, op.limiter, op.now + ttl))
  {
    ApplyStages(es, op, max, ttl);
    PushedStores(es, Entry(op.key, op.limiter, op.now + ttl), max);
  }

  /** And every other key keeps its entry, or is gone because the cache was full. */
  lemma SetSpares<L>(es: seq<Entry<L>>, op: Op<L>, max: nat, ttl: int, k: string)
    requires op.Set? && Distinct(es) && 1 <= max && |es| <= max && k != op.key
    ensures Spared(es, Apply(es, op, max, ttl), max, k)
  {
    ApplyStages(es, op, max, ttl);
    PushedSpares(es, Entry(op.key, op.limiter, op.now + ttl), Staged(es, op, ttl), max, k);
  }

  lemma ApplyStages<L>(es: seq<Entry<L>>, op: Op<L>, max: nat, ttl: int)
    requires op.Set?
    ensures Apply(es, op, max, ttl) == Newest(Staged(es, op, ttl), max)
  {
  }

  lemma StagedSize<L>(es: seq<Entry<L>>, key: string)
    ensures |Without(es, key)| <= |es|
  {
  }

  lemma LookupLast<L>(es: seq<Entry<L>>, x: Entry<L>)
    ensures Find(es + [x], x.key) == Some(|es|)
  {
    LastOrBefore(es, x, x.key);
  }

  lemma NewestKeepsKey<L>(es: seq<Entry<L>>, max: nat, k: string)
    requires Distinct(es) && Find(es, k).Some? && Find(es, k).value >= |es| - max
    ensures Lookup(Newest(es, max), k) == Some(es[Find(es, k).value])
  {
    if |es| > max {
      FindNewest(es, max, k);
      NewestAt(es, max, Find(es, k).value);
    }
  }

  lemma NewestDropsKey<L>(es: seq<Entry<L>>, max: nat, k: string)
    requires Distinct(es) && |es| > max && (Find(es, k).None? || Find(es, k).value < |es| - max)
    ensures Lookup(Newest(es, max), k) == None && |Newest(es, max)| == max
  {
    FindNewest(es, max, k);
  }

  lemma NewestAt<L>(es: seq<Entry<L>>, max: nat, i: nat)
    requires |es| > max && |es| - max <= i < |es|
    ensures |Newest(es, max)| == max && Newest(es, max)[i - (|es| - max)] == es[i]
  {
  }

  lemma NewestLast<L>(es: seq<Entry<L>>, max: nat)
    requires Distinct(es) && es != [] && max >= 1
    ensures var r := Newest(es, max); Distinct(r) && r != [] && r[|r| - 1] == es[|es| - 1]
  {
  }

  // ---- the recency list is the touch order -----------------------------------------------------------

  /** A Set touches its key; a Get touches it when it finds it alive. */
  predicate Touches<L>(es: seq<Entry<L>>, op: Op<L>) {
    op.Set? || (op.Get? && Hits(es, op.key, op.now))
  }

  /** The cache together with the reference: after how many operations each key was last touched. */
  datatype Log<L> = Log(entries: seq<Entry<L>>, stamps: map<string, nat>, count: nat)

  function Record<L>(log: Log<L>, op: Op<L>, max: nat, ttl: int): Log<L> {
    Log(Apply(log.entries, op, max, ttl),
        if Touches(log.entries, op) then log.stamps[op.key := log.count] else log.stamps,
        log.count + 1)
  }

  function History<L>(ops: seq<Op<L>>, max: nat, ttl: int): Log<L> {
    if ops == [] then Log([], map[], 0)
    else Record(History(ops[..|ops| - 1], max, ttl), ops[|ops| - 1], max, ttl)
  }

  predicate Stamped<L>(es: seq<Entry<L>>, stamps: map<string, nat>) {
    forall i :: 0 <= i < |es| ==> es[i].key in stamps
  }

  predicate InTouchOrder<L>(es: seq<Entry<L>>, stamps: map<string, nat>) {
    && Stamped(es, stamps)
    && forall i, j :: 0 <= i < j < |es| ==> stamps[es[i].key] < stamps[es[j].key]
  }

  predicate LogOk<L>(log: Log<L>, max: nat) {
    && |log.entries| <= max && InTouchOrder(log.entries, log.stamps)
    && forall k :: k in log.stamps ==> log.stamps[k] < log.count
  }

  lemma OrderedIsDistinct<L>(es: seq<Entry<L>>, stamps: map<string, nat>)
    requires InTouchOrder(es, stamps)
    ensures Distinct(es)
  {
  }

  lemma WithoutKeepsOrder<L>(es: seq<Entry<L>>, stamps: map<string, nat>, key: string)
    requires InTouchOrder(es, stamps)
    ensures InTouchOrder(Without(es, key), stamps) && |Without(es, key)| <= |es|
    ensures forall i :: 0 <= i < |Without(es, key)| ==> Without(es, key)[i].key != key
  {
    OrderedIsDistinct(es, stamps);
  }

  lemma PushNewest<L>(es: seq<Entry<L>>, stamps: map<string, nat>, e: Entry<L>, n: nat)
    requires InTouchOrder(es, stamps) && forall k :: k in stamps ==> stamps[k] < n
    requires forall i :: 0 <= i < |es| ==> es[i].key != e.key
    ensures InTouchOrder(es + [e], stamps[e.key := n])
  {
  }

  lemma NewestKeepsOrder<L>(es: seq<Entry<L>>, stamps: map<string, nat>, max: nat)
    requires InTouchOrder(es, stamps)
    ensures InTouchOrder(Newest(es, max), stamps) && |Newest(es, max)| <= max
  {
  }

  lemma DropKeepsOk<L>(log: Log<L>, key: string, max: nat)
    requires LogOk(log, max)
    ensures LogOk(Log(Without(log.entries, key), log.stamps, log.count + 1), max)
  {
    WithoutKeepsOrder(log.entries, log.stamps, key);
  }

  lemma HitShrinks<L>(es: seq<Entry<L>>, key: string)
    requires Find(es, key).Some?
    ensures |Without(es, key)| == |es| - 1
  {
  }

  lemma TouchKeepsOk<L>(log: Log<L>, e: Entry<L>, max: nat)
    requires LogOk(log, max)
    ensures var es := Newest(Without(log.entries, e.key) + [e], max);
      LogOk(Log(es, log.stamps[e.key := log.count], log.count + 1), max)
  {
    WithoutKeepsOrder(log.entries, log.stamps, e.key);
    PushNewest(Without(log.entries, e.key), log.stamps, e, log.count);
    NewestKeepsOrder(Without(log.entries, e.key) + [e], log.stamps[e.key := log.count], max);
  }

  lemma RecordKeepsOk<L>(log: Log<L>, op: Op<L>, max: nat, ttl: int)
    requires LogOk(log, max)
    ensures LogOk(Record(log, op, max, ttl), max)
  {
    if op.Get? && Hits(log.entries, op.key, op.now) {
      HitShrinks(log.entries, op.key);
      TouchKeepsOk(log, log.entries[Find(log.entries, op.key).value], max);
    } else if op.Set? {
      TouchKeepsOk(log, Entry(op.key, op.limiter, op.now + ttl), max);
    } else {
      DropKeepsOk(log, op.key, max);
    }
  }

  /** After every run of operations the iteration order is the order of last touches, and the size
      is within the bound. */
  lemma {:induction false} OrderIsTouchOrder<L>(ops: seq<Op<L>>, max: nat, ttl: int)
    ensures LogOk(History(ops, max, ttl), max)
  {
    if ops != [] {
      OrderIsTouchOrder(ops[..|ops| - 1], max, ttl);
      RecordKeepsOk(History(ops[..|ops| - 1], max, ttl), ops[|ops| - 1], max, ttl);
    }
  }

  /** The contents a Set has before it evicts. */
  function Staged<L>(es: seq<Entry<L>>, op: Op<L>, ttl: int): seq<Entry<L>>
    requires op.Set?
  {
    Without(es, op.key) + [Entry(op.key, op.limiter, op.now + ttl)]
  }

  lemma StagedInOrder<L>(log: Log<L>, op: Op<L>, max: nat, ttl: int)
    requires LogOk(log, max) && op.Set?
    ensures InTouchOrder(Staged(log.entries, op, ttl), Record(log, op, max, ttl).stamps)
    ensures Record(log, op, max, ttl).entries == Newest(Staged(log.entries, op, ttl), max)
  {
    WithoutKeepsOrder(log.entries, log.stamps, op.key);
    PushNewest(Without(log.entries, op.key), log.stamps, Entry(op.key, op.limiter, op.now + ttl), log.count);
  }

  lemma OrderedSplit<L>(es: seq<Entry<L>>, stamps: map<string, nat>, max: nat, gone: nat, kept: nat)
    requires InTouchOrder(es, stamps) && gone < |es| - max <= kept < |es|
    ensures es[kept] in Newest(es, max) && es[gone] !in Newest(es, max)
    ensures es[gone].key in stamps && es[kept].key in stamps && stamps[es[gone].key] < stamps[es[kept].key]
  {
    OrderedIsDistinct(es, stamps);
    assert Newest(es, max)[kept - (|es| - max)] == es[kept];
    forall i | 0 <= i < |Newest(es, max)| ensures Newest(es, max)[i] != es[gone] {
      assert Newest(es, max)[i] == es[|es| - max + i];
    }
  }

  /** What a Set evicts, the entries in front of the newest `max`, was touched less recently than
      everything it keeps. */
  lemma EvictsLeastRecent<L>(ops: seq<Op<L>>, op: Op<L>, max: nat, ttl: int, gone: nat, kept: nat)
    requires op.Set?
    requires var es := Staged(History(ops, max, ttl).entries, op, ttl); gone < |es| - max <= kept < |es|
    ensures var es := Staged(History(ops, max, ttl).entries, op, ttl);
      var after := Record(History(ops, max, ttl), op, max, ttl);
      && es[kept] in after.entries && es[gone] !in after.entries
      && es[gone].key in after.stamps && es[kept].key in after.stamps
      && after.stamps[es[gone].key] < after.stamps[es[kept].key]
  {
    OrderIsTouchOrder(ops, max, ttl);
    var log := History(ops, max, ttl);
    StagedInOrder(log, op, max, ttl);
    OrderedSplit(Staged(log.entries, op, ttl), Record(log, op, max, ttl).stamps, max, gone, kept);
  }

  // ---- how long a key survives --------------------------------------------------------------------------

  function Run<L>(es: seq<Entry<L>>, ops: seq<Op<L>>, max: nat, ttl: int): seq<Entry<L>> {
    if ops == [] then es else Apply(Run(es, ops[..|ops| - 1], max, ttl), ops[|ops| - 1], max, ttl)
  }

  /** The keys touched on the way. */
  function Touched<L>(es: seq<Entry<L>>, ops: seq<Op<L>>, max: nat, ttl: int): set<string> {
    if ops == [] then {}
    else
      var n := |ops| - 1;
      Touched(es, ops[..n], max, ttl) +
      if Touches(Run(es, ops[..n], max, ttl), ops[n]) then {ops[n].key} else {}
  }

  /** No operation mentions the key. */
  predicate Spares<L>(ops: seq<Op<L>>, key: string) {
    forall i :: 0 <= i < |ops| ==> ops[i].key != key
  }

  /** Entry e is present, and only keys of `since` come after it. */
  ghost predicate Ahead<L>(es: seq<Entry<L>>, e: Entry<L>, at: nat, since: set<string>) {
    && Distinct(es) && at < |es| && es[at] == e
    && forall j :: at < j < |es| ==> es[j].key in since
  }

  lemma {:induction false} DistinctFit<L>(es: seq<Entry<L>>, at: nat, keys: set<string>)
    requires Distinct(es) && at <= |es| && forall j :: at <= j < |es| ==> es[j].key in keys
    ensures |es| - at <= |keys|
    decreases |es| - at
  {
    if at < |es| {
      DistinctFit(es, at + 1, keys - {es[at].key});
    }
  }

  lemma WithoutOther<L>(es: seq<Entry<L>>, e: Entry<L>, at: nat, since: set<string>, key: string) returns (p: nat)
    requires Ahead(es, e, at, since) && key != e.key
    ensures Ahead(Without(es, key), e, p, since) && p <= at
    ensures forall i :: 0 <= i < |Without(es, key)| ==> Without(es, key)[i].key != key
  {
    var f := Find(es, key);
    p := if f.Some? && f.value < at then at - 1 else at;
  }

  lemma PushOther<L>(es: seq<Entry<L>>, e: Entry<L>, at: nat, since: set<string>, x: Entry<L>)
    requires Ahead(es, e, at, since) && forall i :: 0 <= i < |es| ==> es[i].key != x.key
    ensures Ahead(es + [x], e, at, since + {x.key})
  {
  }

  lemma NewestKeeps<L>(es: seq<Entry<L>>, e: Entry<L>, at: nat, since: set<string>, max: nat) returns (p: nat)
    requires Ahead(es, e, at, since) && |since| < max
    ensures Ahead(Newest(es, max), e, p, since)
  {
    DistinctFit(es, at + 1, since);
    p := if |es| > max then at - (|es| - max) else at;
  }

  lemma ApplyKeepsAhead<L>(es: seq<Entry<L>>, e: Entry<L>, at: nat, since: set<string>, op: Op<L>, max: nat, ttl: int)
    returns (p: nat)
    requires Ahead(es, e, at, since) && op.key != e.key
    requires |since + if Touches(es, op) then {op.key} else {}| < max
    ensures Ahead(Apply(es, op, max, ttl), e, p, since + if Touches(es, op) then {op.key} else {})
  {
    p := WithoutOther(es, e, at, since, op.key);
    if op.Get? && Hits(es, op.key, op.now) {
      PushOther(Without(es, op.key), e, p, since, es[Find(es, op.key).value]);
    } else if op.Set? {
      var x := Entry(op.key, op.limiter, op.now + ttl);
      PushOther(Without(es, op.key), e, p, since, x);
      p := NewestKeeps(Without(es, op.key) + [x], e, p, since + {op.key}, max);
    }
  }

  lemma TouchedGrows<L>(es: seq<Entry<L>>, ops: seq<Op<L>>, max: nat, ttl: int)
    requires ops != []
    ensures |Touched(es, ops[..|ops| - 1], max, ttl)| <= |Touched(es, ops, max, ttl)|
  {
    SubsetSize(Touched(es, ops[..|ops| - 1], max, ttl), Touched(es, ops, max, ttl));
  }

  lemma SubsetSize<T>(a: set<T>, b: set<T>)
    requires a <= b
    ensures |a| <= |b|
  {
    assert b == a + (b - a);
  }

  lemma {:induction false} RunKeepsAhead<L>(es: seq<Entry<L>>, e: Entry<L>, ops: seq<Op<L>>, max: nat, ttl: int) returns (p: nat)
    requires Distinct(es) && es != [] && es[|es| - 1] == e && Spares(ops, e.key)
    requires |Touched(es, ops, max, ttl)| < max
    ensures Ahead(Run(es, ops, max, ttl), e, p, Touched(es, ops, max, ttl))
  {
    if ops == [] {
      p := |es| - 1;
    } else {
      var n := |ops| - 1;
      TouchedGrows(es, ops, max, ttl);
      p := RunKeepsAhead(es, e, ops[..n], max, ttl);
      p := ApplyKeepsAhead(Run(es, ops[..n], max, ttl), e, p, Touched(es, ops[..n], max, ttl), ops[n], max, ttl);
    }
  }

  lemma FindDistinct<L>(es: seq<Entry<L>>, at: nat)
    requires Distinct(es) && at < |es|
    ensures Find(es, es[at].key) == Some(at)
  {
  }

  /** A key just touched is still found, with its limiter, while its time has not passed and fewer
      than maxSize distinct other keys have been touched since. */
  lemma Survival<L>(es: seq<Entry<L>>, e: Entry<L>, ops: seq<Op<L>>, max: nat, ttl: int, now: int)
    requires Distinct(es) && es != [] && es[|es| - 1] == e && Spares(ops, e.key)
    requires |Touched(es, ops, max, ttl)| < max
    ensures GetResult(Run(es, ops, max, ttl), e.key, now) == if now <= e.expiresAt then Some(e.limiter) else None
  {
    var p := RunKeepsAhead(es, e, ops, max, ttl);
    FindDistinct(Run(es, ops, max, ttl), p);
  }

  /** A touch, by Set or by a Get that finds the key, makes the key the newest. */
  lemma TouchMakesNewest<L>(es: seq<Entry<L>>, op: Op<L>, max: nat, ttl: int)
    requires Distinct(es) && Touches(es, op) && max >= 1
    ensures var after := Apply(es, op, max, ttl);
      Distinct(after) && after != [] && after[|after| - 1].key == op.key
      && (op.Set? ==> after[|after| - 1] == Entry(op.key, op.limiter, op.now + ttl))
  {
    if op.Set? {
      var x := Entry(op.key, op.limiter, op.now + ttl);
      FindMoved(es, x, op.key);
      NewestLast(Without(es, op.key) + [x], max);
    } else {
      FindMoved(es, es[Find(es, op.key).value], op.key);
    }
  }

  // ---- and that it survives no longer ----------------------------------------------------------------------

  /** The operation drops no entry before its turn. */
  predicate DropsNothing<L>(es: seq<Entry<L>>, op: Op<L>) {
    match op
    case Get(key, now) => Find(es, key).Some? ==> Hits(es, key, now)
    case Set(_, _, _) => true
    case Delete(key) => Find(es, key).None?
  }

  predicate DropNothing<L>(es: seq<Entry<L>>, ops: seq<Op<L>>, max: nat, ttl: int) {
    ops != [] ==>
      && DropNothing(es, ops[..|ops| - 1], max, ttl)
      && DropsNothing(Run(es, ops[..|ops| - 1], max, ttl), ops[|ops| - 1])
  }

  /** Every key of `since` comes after position `at`. */
  predicate AllAfter<L>(es: seq<Entry<L>>, at: nat, since: set<string>) {
    forall k :: k in since ==> Find(es, k).Some? && Find(es, k).value > at
  }

  /** Either the key is present with exactly `since` after it, or it is gone and `since` is large. */
  predicate Exact<L>(es: seq<Entry<L>>, key: string, since: set<string>, max: nat) {
    && Distinct(es) && |es| <= max
    && match Find(es, key)
       case Some(at) => AllAfter(es, at, since) && forall j :: at < j < |es| ==> es[j].key in since
       case None => |since| >= max
  }

  lemma WithoutAt<L>(es: seq<Entry<L>>, at: nat, i: nat)
    requires at < |es| && i < |es| && i != at
    ensures var r := es[..at] + es[at + 1..]; r[if at < i then i - 1 else i] == es[i]
  {
  }

  lemma FindKept<L>(es: seq<Entry<L>>, key: string, i: nat)
    requires Distinct(es) && i < |es| && es[i].key != key
    ensures Find(Without(es, key), es[i].key) ==
      Some(if Find(es, key).Some? && Find(es, key).value < i then i - 1 else i)
  {
    var at := Find(es, key);
    if at.Some? {
      WithoutAt(es, at.value, i);
      FindDistinct(Without(es, key), if at.value < i then i - 1 else i);
    } else {
      FindDistinct(es, i);
    }
  }

  lemma FindWithout<L>(es: seq<Entry<L>>, key: string, k: string)
    requires Distinct(es)
    ensures Find(Without(es, key), k) ==
      if k == key || Find(es, k).None? then None
      else if Find(es, key).Some? && Find(es, key).value < Find(es, k).value then Some(Find(es, k).value - 1)
      else Find(es, k)
  {
    if k != key && Find(es, k).Some? {
      FindKept(es, key, Find(es, k).value);
    } else if k != key {
      assert forall i :: 0 <= i < |Without(es, key)| ==> Without(es, key)[i].key != k;
    }
  }

  lemma FindPush<L>(es: seq<Entry<L>>, x: Entry<L>, k: string)
    requires Distinct(es) && Find(es, x.key).None?
    ensures Distinct(es + [x]) && Find(es + [x], k) == if k == x.key then Some(|es|) else Find(es, k)
  {
    LastOrBefore(es, x, k);
  }

  lemma LastOrBefore<L>(es: seq<Entry<L>>, x: Entry<L>, k: string)
    ensures Find(es + [x], k) == if k == x.key then Some(|es|) else Find(es, k)
  {
    assert (es + [x])[..|es|] == es;
  }

  lemma FindMoved<L>(es: seq<Entry<L>>, x: Entry<L>, k: string)
    requires Distinct(es)
    ensures var r := Without(es, x.key) + [x];
      Distinct(r) && Find(r, k) == if k == x.key then Some(|r| - 1) else Find(Without(es, x.key), k)
  {
    FindWithout(es, x.key, x.key);
    FindPush(Without(es, x.key), x, k);
  }

  lemma MovedAfter<L>(es: seq<Entry<L>>, key: string, since: set<string>, max: nat, x: Entry<L>, k: string)
    requires Exact(es, key, since, max) && x.key != key && Find(es, key).Some? && k in since + {x.key}
    ensures var r := Without(es, x.key) + [x];
      Find(r, key).Some? && Find(r, k).Some? && Find(r, k).value > Find(r, key).value
  {
    FindMoved(es, x, key);
    FindMoved(es, x, k);
    FindWithout(es, x.key, key);
    FindWithout(es, x.key, k);
  }

  lemma MovedSince<L>(es: seq<Entry<L>>, key: string, since: set<string>, max: nat, x: Entry<L>, j: nat)
    requires Exact(es, key, since, max) && x.key != key && Find(es, key).Some?
    requires Find(Without(es, x.key) + [x], key).Some? && Find(Without(es, x.key) + [x], key).value < j <= |Without(es, x.key)|
    ensures (Without(es, x.key) + [x])[j].key in since + {x.key}
  {
    FindMoved(es, x, key);
    FindWithout(es, x.key, key);
  }

  /** Moving another key to the end, or putting it there. */
  lemma PushExact<L>(es: seq<Entry<L>>, key: string, since: set<string>, max: nat, x: Entry<L>)
    requires Exact(es, key, since, max) && x.key != key && Find(es, key).Some?
    ensures var r := Without(es, x.key) + [x];
      && Distinct(r) && Find(r, key).Some? && AllAfter(r, Find(r, key).value, since + {x.key})
      && forall j :: Find(r, key).value < j < |r| ==> r[j].key in since + {x.key}
  {
    var r := Without(es, x.key) + [x];
    FindMoved(es, x, key);
    MovedAfter(es, key, since, max, x, x.key);
    forall k | k in since + {x.key} ensures Find(r, k).Some? && Find(r, k).value > Find(r, key).value {
      MovedAfter(es, key, since, max, x, k);
    }
    forall j | Find(r, key).value < j < |r| ensures r[j].key in since + {x.key} {
      MovedSince(es, key, since, max, x, j);
    }
  }

  lemma FindNewest<L>(es: seq<Entry<L>>, max: nat, k: string)
    requires Distinct(es) && |es| > max
    ensures Distinct(Newest(es, max))
    ensures Find(Newest(es, max), k) ==
      if Find(es, k).Some? && Find(es, k).value >= |es| - max then Some(Find(es, k).value - (|es| - max)) else None
  {
    var r := Newest(es, max);
    if Find(es, k).Some? && Find(es, k).value >= |es| - max {
      FindDistinct(r, Find(es, k).value - (|es| - max));
    } else {
      assert forall i :: 0 <= i < |r| ==> r[i] == es[|es| - max + i] && r[i].key != k;
    }
  }

  lemma EvictExact<L>(es: seq<Entry<L>>, key: string, since: set<string>, max: nat)
    requires Distinct(es) && Find(es, key).Some? && AllAfter(es, Find(es, key).value, since)
    requires forall j :: Find(es, key).value < j < |es| ==> es[j].key in since
    ensures Exact(Newest(es, max), key, since, max)
  {
    if |es| > max {
      var at := Find(es, key).value;
      FindNewest(es, max, key);
      if at < |es| - max {
        DistinctFit(es, at + 1, since);
      } else {
        forall k | k in since
          ensures Find(Newest(es, max), k).Some? && Find(Newest(es, max), k).value > at - (|es| - max)
        {
          FindNewest(es, max, k);
        }
      }
    }
  }

  lemma GoneAfterPush<L>(es: seq<Entry<L>>, key: string, x: Entry<L>)
    requires Distinct(es) && Find(es, key).None? && x.key != key
    ensures var r := Without(es, x.key) + [x]; Distinct(r) && Find(r, key).None?
  {
    FindMoved(es, x, key);
    FindWithout(es, x.key, key);
  }

  lemma GoneStaysGone<L>(es: seq<Entry<L>>, key: string, op: Op<L>, max: nat, ttl: int)
    requires Distinct(es) && |es| <= max && Find(es, key).None? && op.key != key
    ensures var r := Apply(es, op, max, ttl); Distinct(r) && |r| <= max && Find(r, key).None?
  {
    FindWithout(es, op.key, key);
    if op.Get? && Hits(es, op.key, op.now) {
      GoneAfterPush(es, key, es[Find(es, op.key).value]);
    } else if op.Set? {
      var x := Entry(op.key, op.limiter, op.now + ttl);
      GoneAfterPush(es, key, x);
      if |Without(es, op.key) + [x]| > max {
        FindNewest(Without(es, op.key) + [x], max, key);
      }
    }
  }

  lemma ApplyKeepsExact<L>(es: seq<Entry<L>>, key: string, since: set<string>, op: Op<L>, max: nat, ttl: int)
    requires Exact(es, key, since, max) && op.key != key && DropsNothing(es, op)
    ensures Exact(Apply(es, op, max, ttl), key, since + if Touches(es, op) then {op.key} else {}, max)
  {
    if Find(es, key).None? {
      GoneStaysGone(es, key, op, max, ttl);
      SubsetSize(since, since + {op.key});
    } else if op.Set? {
      var x := Entry(op.key, op.limiter, op.now + ttl);
      PushExact(es, key, since, max, x);
      EvictExact(Without(es, op.key) + [x], key, since + {op.key}, max);
    } else if op.Get? && Hits(es, op.key, op.now) {
      PushExact(es, key, since, max, es[Find(es, op.key).value]);
    }
  }

  lemma {:induction false} RunKeepsExact<L>(es: seq<Entry<L>>, key: string, ops: seq<Op<L>>, max: nat, ttl: int)
    requires Distinct(es) && es != [] && es[|es| - 1].key == key && |es| <= max
    requires Spares(ops, key) && DropNothing(es, ops, max, ttl)
    ensures Exact(Run(es, ops, max, ttl), key, Touched(es, ops, max, ttl), max)
  {
    if ops == [] {
      FindDistinct(es, |es| - 1);
    } else {
      var n := |ops| - 1;
      RunKeepsExact(es, key, ops[..n], max, ttl);
      ApplyKeepsExact(Run(es, ops[..n], max, ttl), key, Touched(es, ops[..n], max, ttl), ops[n], max, ttl);
    }
  }

  function KeysFrom<L>(es: seq<Entry<L>>, at: nat): (keys: set<string>)
    requires at <= |es|
    ensures |keys| <= |es| - at && forall j :: at <= j < |es| ==> es[j].key in keys
    decreases |es| - at
  {
    if at == |es| then {} else {es[at].key} + KeysFrom(es, at + 1)
  }

  /** When no entry was deleted or found expired, a key just touched is present exactly as long as
      fewer than maxSize distinct other keys have been touched since. */
  lemma SurvivalIff<L>(es: seq<Entry<L>>, key: string, ops: seq<Op<L>>, max: nat, ttl: int)
    requires Distinct(es) && es != [] && es[|es| - 1].key == key && |es| <= max
    requires Spares(ops, key) && DropNothing(es, ops, max, ttl)
    ensures Find(Run(es, ops, max, ttl), key).Some? <==> |Touched(es, ops, max, ttl)| < max
  {
    RunKeepsExact(es, key, ops, max, ttl);
    var r, since := Run(es, ops, max, ttl), Touched(es, ops, max, ttl);
    var at := Find(r, key);
    if at.Some? {
      forall k | k in since ensures k in KeysFrom(r, at.value + 1) {
        assert r[Find(r, k).value].key == k;
      }
      SubsetSize(since, KeysFrom(r, at.value + 1));
    }
  }
}