/** sortDeep of apps/consumer-app/scripts/verify-zkey-provenance.js: a canonical form of JSON values
    for a comparison that key order must not break. */
module SortDeep {
  import opened Decimal

  /** A JSON value; an object is the sequence of its own properties in enumeration order. */
  datatype Json = Leaf(value: Scalar) | Arr(items: seq<Json>) | Obj(props: seq<Prop>)
  datatype Prop = Prop(key: string, value: Json)

  /** A number is the text JavaScript prints for it. */
  datatype Scalar = Null | Bool(flag: bool) | Number(text: string) | Text(chars: string)

  /** Assigning to this key of a plain object sets its prototype and makes no own property. */
  const PROTO := "__proto__"

  // ---- objects ------------------------------------------------------------------------------------------

  predicate DistinctKeys(ps: seq<Prop>) {
    forall i, j :: 0 <= i < j < |ps| ==> ps[i].key != ps[j].key
  }

  predicate Has(ps: seq<Prop>, k: string) {
    exists i :: 0 <= i < |ps| && ps[i].key == k
  }

  function Get(ps: seq<Prop>, k: string): (v: Json)
    requires Has(ps, k)
    ensures exists i :: 0 <= i < |ps| && ps[i] == Prop(k, v)
  {
    if ps[|ps| - 1].key == k then ps[|ps| - 1].value else Get(ps[..|ps| - 1], k)
  }

  function Keys(ps: seq<Prop>): (ks: seq<string>)
    ensures |ks| == |ps| && forall i :: 0 <= i < |ps| ==> ks[i] == ps[i].key
  {
    seq(|ps|, i requires 0 <= i < |ps| => ps[i].key)
  }

  /** The keys that enumerate before all others, in numeric order. */
  predicate IsIndex(k: string) {
    FrontStripped(k) && Worth(k) < 0xffff_ffff
  }

  /** Where a new index key goes: behind the smaller index keys. */
  function IndexSlot(ps: seq<Prop>, k: string): (n: nat)
    requires IsIndex(k)
    ensures n <= |ps|
  {
    if ps != [] && IsIndex(ps[0].key) && Worth(ps[0].key) < Worth(k) then 1 + IndexSlot(ps[1..], k) else 0
  }

  function Replace(ps: seq<Prop>, k: string, v: Json): (r: seq<Prop>)
    ensures |r| == |ps|
  {
    seq(|ps|, i requires 0 <= i < |ps| => if ps[i].key == k then Prop(k, v) else ps[i])
  }

  /** out[k] = v on a plain object. */
  function SetProp(ps: seq<Prop>, k: string, v: Json): seq<Prop> {
    if k == PROTO then ps
    else if Has(ps, k) then Replace(ps, k, v)
    else if IsIndex(k) then ps[..IndexSlot(ps, k)] + [Prop(k, v)] + ps[IndexSlot(ps, k)..]
    else ps + [Prop(k, v)]
  }

  // ---- sorting keys ---------------------------------------------------------------------------------------

  /** Dictionary order by code units. */
  predicate Less(a: string, b: string) {
    b != "" && (a == "" || a[0] < b[0] || (a[0] == b[0] && Less(a[1..], b[1..])))
  }

  lemma {:induction false} LessTrans(a: string, b: string, c: string)
    requires Less(a, b) && Less(b, c)
    ensures Less(a, c)
  {
    if a != "" && a[0] == b[0] == c[0] {
      LessTrans(a[1..], b[1..], c[1..]);
    }
  }

  lemma {:induction false} LessTotal(a: string, b: string)
    ensures Less(a, b) || Less(b, a) || a == b
    ensures !(Less(a, b) && Less(b, a)) && !Less(a, a)
  {
    if a != "" && b != "" {
      LessTotal(a[1..], b[1..]);
      LessTotal(a[1..], a[1..]);
      assert a == [a[0]] + a[1..] && b == [b[0]] + b[1..];
    } else if a != "" {
      LessTotal(a[1..], a[1..]);
    }
  }

  predicate Ascending(ks: seq<string>) {
    forall i, j :: 0 <= i < j < |ks| ==> Less(ks[i], ks[j])
  }

  function Insert(ks: seq<string>, k: string): seq<string> {
    if ks == [] || Less(k, ks[0]) then [k] + ks else [ks[0]] + Insert(ks[1..], k)
  }

  /** Array.prototype.sort on distinct strings. */
  function SortKeys(ks: seq<string>): seq<string> {
    if ks == [] then [] else Insert(SortKeys(ks[1..]), ks[0])
  }

  lemma {:induction false} InsertSorts(ks: seq<string>, k: string)
    requires Ascending(ks) && k !in ks
    ensures Ascending(Insert(ks, k))
    ensures forall x :: x in Insert(ks, k) <==> x in ks || x == k
  {
    if ks == [] {
    } else if Less(k, ks[0]) {
      forall i | 0 <= i < |ks| ensures Less(k, ks[i]) {
        if i > 0 {
          LessTrans(k, ks[0], ks[i]);
        }
      }
    } else {
      InsertSorts(ks[1..], k);
      LessTotal(k, ks[0]);
      var r := Insert(ks[1..], k);
      forall i | 0 <= i < |r| ensures Less(ks[0], r[i]) {
        assert r[i] in r;
        assert r[i] == k || r[i] in ks[1..];
      }
      assert ks == [ks[0]] + ks[1..];
    }
  }

  predicate DistinctStrings(ks: seq<string>) {
    forall i, j :: 0 <= i < j < |ks| ==> ks[i] != ks[j]
  }

  lemma {:induction false} SortKeysSorts(ks: seq<string>)
    requires DistinctStrings(ks)
    ensures Ascending(SortKeys(ks))
    ensures forall x :: x in SortKeys(ks) <==> x in ks
  {
    if ks != [] {
      SortKeysSorts(ks[1..]);
      assert ks == [ks[0]] + ks[1..];
      assert ks[0] !in ks[1..] by {
        forall i | 0 <= i < |ks[1..]| ensures ks[1..][i] != ks[0] {
          assert ks[1..][i] == ks[i + 1];
        }
      }
      InsertSorts(SortKeys(ks[1..]), ks[0]);
    }
  }

  /** A set of keys has one ascending listing. */
  lemma {:induction false} AscendingUnique(a: seq<string>, b: seq<string>)
    requires Ascending(a) && Ascending(b) && forall x :: x in a <==> x in b
    ensures a == b
  {
    assert (a != [] ==> a[0] in a) && (b != [] ==> b[0] in b);
    if a != [] && b != [] {
      SameFirst(a, b);
      forall x ensures x in a[1..] <==> x in b[1..] {
        RestWithout(a, x);
        RestWithout(b, x);
      }
      AscendingUnique(a[1..], b[1..]);
      assert a == [a[0]] + a[1..] && b == [b[0]] + b[1..];
    }
  }

  lemma RestWithout(a: seq<string>, x: string)
    requires Ascending(a) && a != []
    ensures x in a[1..] <==> x in a && x != a[0]
  {
    assert a == [a[0]] + a[1..];
    if x in a[1..] {
      LessTotal(a[0], x);
      var i :| 0 <= i < |a[1..]| && a[1..][i] == x;
      assert Less(a[0], a[i + 1]);
    }
  }

  lemma SameFirst(a: seq<string>, b: seq<string>)
    requires Ascending(a) && Ascending(b) && a != [] && b != [] && forall x :: x in a <==> x in b
    ensures a[0] == b[0]
  {
    assert a[0] in b && b[0] in a;
    var i :| 0 <= i < |b| && b[i] == a[0];
    var j :| 0 <= j < |a| && a[j] == b[0];
    LessTotal(a[0], b[0]);
  }

  // ---- one object -------------------------------------------------------------------------------------------

  /** Assigning the listed keys in turn to a fresh object. */
  function Build(ks: seq<string>, ps: seq<Prop>): seq<Prop>
    requires forall i :: 0 <= i < |ks| ==> Has(ps, ks[i])
  {
    if ks == [] then []
    else SetProp(Build(ks[..|ks| - 1], ps), ks[|ks| - 1], Get(ps, ks[|ks| - 1]))
  }

  lemma KeysHave(ps: seq<Prop>)
    requires DistinctKeys(ps)
    ensures forall x :: x in SortKeys(Keys(ps)) <==> Has(ps, x)
    ensures Ascending(SortKeys(Keys(ps)))
  {
    SortKeysSorts(Keys(ps));
    forall x ensures x in Keys(ps) <==> Has(ps, x) {
      if Has(ps, x) {
        var i :| 0 <= i < |ps| && ps[i].key == x;
        assert Keys(ps)[i] == x;
      }
    }
  }

  // ---- the order of the keys --------------------------------------------------------------------------------

  /** Assigning to a key that is there changes its value and nothing else. */
  lemma SetPropOverwrites(ps: seq<Prop>, k: string, v: Json)
    requires Has(ps, k) && k != PROTO
    ensures var r := SetProp(ps, k, v);
      |r| == |ps| && forall i :: 0 <= i < |ps| ==> r[i] == if ps[i].key == k then Prop(k, v) else ps[i]
  {
  }

  /** An array index in the sense of ECMAScript, section 6.1.7: a decimal numeral without leading zeros,
      at most 2^32 - 2. */
  predicate ArrayIndex(k: string) {
    && k != "" && AllDigits(k) && (k == "0" || k[0] != '0')
    && Worth(k) <= 4294967294
  }

  lemma ArrayIndexIff(k: string)
    ensures IsIndex(k) <==> ArrayIndex(k)
  {
  }

  /** Key a is enumerated before key b when both were assigned in ascending order: array indices first,
      by number, then the other keys, by code units. */
  predicate Before(a: string, b: string) {
    if ArrayIndex(b) then ArrayIndex(a) && Worth(a) < Worth(b) else ArrayIndex(a) || Less(a, b)
  }

  predicate InKeyOrder(ps: seq<Prop>) {
    forall i, j :: 0 <= i < j < |ps| ==> Before(ps[i].key, ps[j].key)
  }

  lemma {:induction false} SlotSplits(ps: seq<Prop>, k: string)
    requires InKeyOrder(ps) && ArrayIndex(k) && !Has(ps, k)
    ensures IndexSlot(ps, k) <= |ps|
    ensures forall i :: 0 <= i < IndexSlot(ps, k) ==> Before(ps[i].key, k)
    ensures forall i :: IndexSlot(ps, k) <= i < |ps| ==> Before(k, ps[i].key)
  {
    if ps != [] {
      ArrayIndexIff(ps[0].key);
      HasAt(ps, ps[0].key, 0);
      if ArrayIndex(ps[0].key) && Worth(ps[0].key) < Worth(k) {
        NotInRest(ps, k);
        SlotSplits(ps[1..], k);
        assert forall i :: 1 <= i < |ps| ==> ps[i] == ps[1..][i - 1];
      } else {
        FirstIsAhead(ps, k);
      }
    }
  }

  lemma NotInRest(ps: seq<Prop>, k: string)
    requires ps != [] && !Has(ps, k)
    ensures !Has(ps[1..], k)
  {
    assert forall i :: 0 <= i < |ps[1..]| ==> ps[1..][i] == ps[i + 1];
  }

  lemma FirstIsAhead(ps: seq<Prop>, k: string)
    requires InKeyOrder(ps) && ps != [] && ArrayIndex(k) && ps[0].key != k
    requires !(ArrayIndex(ps[0].key) && Worth(ps[0].key) < Worth(k))
    ensures forall i :: 0 <= i < |ps| ==> Before(k, ps[i].key)
  {
    if ArrayIndex(ps[0].key) && Worth(ps[0].key) == Worth(k) {
      FrontUnique(ps[0].key, k);
    }
    forall i | 0 <= i < |ps| ensures Before(k, ps[i].key) {
      if i > 0 {
        assert Before(ps[0].key, ps[i].key);
      }
    }
  }

  lemma InsertedInOrder(ps: seq<Prop>, n: nat, p: Prop)
    requires InKeyOrder(ps) && n <= |ps|
    requires forall i :: 0 <= i < n ==> Before(ps[i].key, p.key)
    requires forall i :: n <= i < |ps| ==> Before(p.key, ps[i].key)
    ensures InKeyOrder(ps[..n] + [p] + ps[n..])
  {
    var r := ps[..n] + [p] + ps[n..];
    assert forall i :: 0 <= i < |r| ==> r[i] == if i < n then ps[i] else if i == n then p else ps[i - 1];
  }

  lemma SetPropInOrder(ps: seq<Prop>, k: string, v: Json)
    requires InKeyOrder(ps) && !Has(ps, k) && k != PROTO
    requires forall i :: 0 <= i < |ps| ==> Less(ps[i].key, k)
    ensures InKeyOrder(SetProp(ps, k, v))
  {
    ArrayIndexIff(k);
    if ArrayIndex(k) {
      SlotSplits(ps, k);
      InsertedInOrder(ps, IndexSlot(ps, k), Prop(k, v));
    } else {
      InsertedInOrder(ps, |ps|, Prop(k, v));
      assert ps[..|ps|] == ps && ps[|ps|..] == [];
    }
  }

  lemma BuiltAreListed(ks: seq<string>, ps: seq<Prop>, i: nat)
    requires Ascending(ks) && (forall j :: 0 <= j < |ks| ==> Has(ps, ks[j])) && i < |Build(ks, ps)|
    ensures Build(ks, ps)[i].key in ks
  {
    var k := Build(ks, ps)[i].key;
    HasAt(Build(ks, ps), k, i);
    BuildView(ks, ps, k);
  }

  lemma {:induction false} BuildInOrder(ks: seq<string>, ps: seq<Prop>)
    requires Ascending(ks) && forall i :: 0 <= i < |ks| ==> Has(ps, ks[i])
    ensures InKeyOrder(Build(ks, ps))
  {
    if ks != [] {
      var n := |ks| - 1;
      BuildInOrder(ks[..n], ps);
      if ks[n] != PROTO {
        BuildView(ks[..n], ps, ks[n]);
        LastIsNew(ks);
        forall i | 0 <= i < |Build(ks[..n], ps)| ensures Less(Build(ks[..n], ps)[i].key, ks[n]) {
          BuiltAreListed(ks[..n], ps, i);
          var j :| 0 <= j < n && ks[..n][j] == Build(ks[..n], ps)[i].key;
          assert Less(ks[j], ks[n]);
        }
        SetPropInOrder(Build(ks[..n], ps), ks[n], Get(ps, ks[n]));
      }
    }
  }

  /** The keys of a sorted object: array indices first, by number, then the others, by code units. */
  lemma SortedInKeyOrder(v: Json)
    requires Proper(v) && v.Obj?
    ensures Sorted(v).Obj? && InKeyOrder(Sorted(v).props)
  {
    var ps := SortedProps(v.props);
    KeysHave(ps);
    BuildInOrder(SortKeys(Keys(ps)), ps);
  }

  /** The object that sortDeep makes of an object whose values are sorted already. */
  function Arrange(ps: seq<Prop>): seq<Prop>
    requires DistinctKeys(ps)
  {
    KeysHave(ps);
    Build(SortKeys(Keys(ps)), ps)
  }

  /** The properties as a set of pairs, without the prototype key. */
  ghost predicate SameProps(ps: seq<Prop>, qs: seq<Prop>) {
    forall k :: k != PROTO ==>
      (Has(ps, k) <==> Has(qs, k)) && (Has(ps, k) ==> Get(ps, k) == Get(qs, k))
  }

  lemma GetDistinct(ps: seq<Prop>, i: nat)
    requires DistinctKeys(ps) && i < |ps|
    ensures Has(ps, ps[i].key) && Get(ps, ps[i].key) == ps[i].value
  {
    var j :| 0 <= j < |ps| && ps[j] == Prop(ps[i].key, Get(ps, ps[i].key));
    assert ps[j].key == ps[i].key;
  }

  lemma HasAt(ps: seq<Prop>, k: string, i: nat)
    requires i < |ps| && ps[i].key == k
    ensures Has(ps, k)
  {
  }

  lemma InsertedDistinct(ps: seq<Prop>, n: nat, p: Prop)
    requires DistinctKeys(ps) && !Has(ps, p.key) && n <= |ps|
    ensures DistinctKeys(ps[..n] + [p] + ps[n..])
  {
    forall i | 0 <= i < |ps| ensures Has(ps, ps[i].key) {
      HasAt(ps, ps[i].key, i);
    }
  }

  lemma InsertedOther(ps: seq<Prop>, n: nat, p: Prop, x: string)
    requires DistinctKeys(ps) && !Has(ps, p.key) && n <= |ps| && x != p.key
    ensures var r := ps[..n] + [p] + ps[n..]; (Has(r, x) <==> Has(ps, x)) && (Has(r, x) ==> Get(r, x) == Get(ps, x))
  {
    var r := ps[..n] + [p] + ps[n..];
    InsertedDistinct(ps, n, p);
    if Has(ps, x) {
      var i :| 0 <= i < |ps| && ps[i].key == x;
      var j := if i < n then i else i + 1;
      assert r[j] == ps[i];
      GetDistinct(ps, i);
      GetDistinct(r, j);
    }
    InsertedOnly(ps, n, p, x);
  }

  lemma InsertedOnly(ps: seq<Prop>, n: nat, p: Prop, x: string)
    requires n <= |ps| && x != p.key
    ensures Has(ps[..n] + [p] + ps[n..], x) ==> Has(ps, x)
  {
    var r := ps[..n] + [p] + ps[n..];
    forall j | 0 <= j < |r| && j != n ensures Has(ps, r[j].key) {
      HasAt(ps, r[j].key, if j < n then j else j - 1);
    }
  }

  lemma SetPropInserts(ps: seq<Prop>, k: string, v: Json) returns (n: nat)
    requires !Has(ps, k) && k != PROTO
    ensures n <= |ps| && SetProp(ps, k, v) == ps[..n] + [Prop(k, v)] + ps[n..]
  {
    n := if IsIndex(k) then IndexSlot(ps, k) else |ps|;
    assert ps[..|ps|] == ps && ps[|ps|..] == [];
  }

  /** What a new property changes. */
  lemma SetPropView(ps: seq<Prop>, k: string, v: Json, x: string)
    requires DistinctKeys(ps) && !Has(ps, k) && k != PROTO
    ensures var r := SetProp(ps, k, v);
      && DistinctKeys(r) && (Has(r, x) <==> Has(ps, x) || x == k)
      && (Has(r, x) ==> Get(r, x) == if x == k then v else Get(ps, x))
  {
    var n := SetPropInserts(ps, k, v);
    InsertedDistinct(ps, n, Prop(k, v));
    if x == k {
      assert SetProp(ps, k, v)[n] == Prop(k, v);
      GetDistinct(SetProp(ps, k, v), n);
    } else {
      InsertedOther(ps, n, Prop(k, v), x);
    }
  }

  lemma LastIsNew(ks: seq<string>)
    requires Ascending(ks) && ks != []
    ensures ks[|ks| - 1] !in ks[..|ks| - 1]
  {
    LessTotal(ks[|ks| - 1], ks[|ks| - 1]);
    var init := ks[..|ks| - 1];
    forall i | 0 <= i < |init| ensures init[i] != ks[|ks| - 1] {
      assert Less(ks[i], ks[|ks| - 1]);
    }
  }

  /** After assigning a list of keys, exactly those but the prototype key are there. */
  lemma {:induction false} BuildView(ks: seq<string>, ps: seq<Prop>, x: string)
    requires Ascending(ks) && forall i :: 0 <= i < |ks| ==> Has(ps, ks[i])
    ensures var r := Build(ks, ps);
      && DistinctKeys(r) && (Has(r, x) <==> x in ks && x != PROTO)
      && (Has(r, x) ==> Get(r, x) == Get(ps, x))
  {
    if ks != [] {
      var n := |ks| - 1;
      var k := ks[n];
      BuildView(ks[..n], ps, x);
      BuildView(ks[..n], ps, k);
      assert ks == ks[..n] + [k];
      LastIsNew(ks);
      if k != PROTO {
        SetPropView(Build(ks[..n], ps), k, Get(ps, k), x);
      }
    }
  }

  lemma ArrangeView(ps: seq<Prop>, x: string)
    requires DistinctKeys(ps)
    ensures var r := Arrange(ps);
      && DistinctKeys(r) && (Has(r, x) <==> Has(ps, x) && x != PROTO)
      && (Has(r, x) ==> Get(r, x) == Get(ps, x))
  {
    KeysHave(ps);
    BuildView(SortKeys(Keys(ps)), ps, x);
  }

  function Plain(ks: seq<string>): seq<string> {
    if ks == [] then []
    else if ks[|ks| - 1] == PROTO then Plain(ks[..|ks| - 1])
    else Plain(ks[..|ks| - 1]) + [ks[|ks| - 1]]
  }

  lemma {:induction false} PlainKeys(ks: seq<string>)
    requires Ascending(ks)
    ensures forall x :: x in Plain(ks) <==> x in ks && x != PROTO
    ensures Ascending(Plain(ks))
  {
    if ks != [] {
      var n := |ks| - 1;
      PlainKeys(ks[..n]);
      assert ks == ks[..n] + [ks[n]];
      var p := Plain(ks[..n]);
      forall i | 0 <= i < |p| ensures Less(p[i], ks[n]) {
        assert p[i] in p;
        var j :| 0 <= j < n && ks[j] == p[i];
      }
    }
  }

  predicate AllHave(ps: seq<Prop>, ks: seq<string>) {
    forall i :: 0 <= i < |ks| ==> Has(ps, ks[i])
  }

  /** Assigning the prototype key adds nothing. */
  lemma {:induction false} BuildPlain(ks: seq<string>, ps: seq<Prop>)
    requires AllHave(ps, ks)
    ensures AllHave(ps, Plain(ks)) && Build(ks, ps) == Build(Plain(ks), ps)
  {
    if ks != [] {
      var n := |ks| - 1;
      BuildPlain(ks[..n], ps);
      if ks[n] != PROTO {
        assert Plain(ks)[..|Plain(ks)| - 1] == Plain(ks[..n]);
      }
    }
  }

  lemma {:induction false} BuildSame(ks: seq<string>, ps: seq<Prop>, qs: seq<Prop>)
    requires AllHave(ps, ks) && AllHave(qs, ks) && PROTO !in ks && SameProps(ps, qs)
    ensures Build(ks, ps) == Build(ks, qs)
  {
    if ks != [] {
      var n := |ks| - 1;
      BuildSame(ks[..n], ps, qs);
      assert Has(ps, ks[n]) && ks[n] in ks;
    }
  }

  /** The arranged object depends on the properties alone, not on their order. */
  lemma ArrangeSame(ps: seq<Prop>, qs: seq<Prop>)
    requires DistinctKeys(ps) && DistinctKeys(qs) && SameProps(ps, qs)
    ensures Arrange(ps) == Arrange(qs)
  {
    KeysHave(ps);
    KeysHave(qs);
    var a, b := SortKeys(Keys(ps)), SortKeys(Keys(qs));
    PlainKeys(a);
    PlainKeys(b);
    forall x ensures x in Plain(a) <==> x in Plain(b) {
      assert x != PROTO ==> (Has(ps, x) <==> Has(qs, x));
    }
    AscendingUnique(Plain(a), Plain(b));
    BuildPlain(a, ps);
    BuildPlain(b, qs);
    BuildSame(Plain(a), ps, qs);
  }

  lemma ArrangeDiffers(ps: seq<Prop>, qs: seq<Prop>)
    requires DistinctKeys(ps) && DistinctKeys(qs) && Arrange(ps) == Arrange(qs)
    ensures SameProps(ps, qs)
  {
    forall k | k != PROTO
      ensures (Has(ps, k) <==> Has(qs, k)) && (Has(ps, k) ==> Get(ps, k) == Get(qs, k))
    {
      ArrangeView(ps, k);
      ArrangeView(qs, k);
    }
  }

  // ---- whole values -------------------------------------------------------------------------------------------

  /** No object has a key twice, as in every JavaScript value. */
  predicate Proper(v: Json) {
    match v
    case Leaf(_) => true
    case Arr(items) => forall i :: 0 <= i < |items| ==> Proper(items[i])
    case Obj(props) => DistinctKeys(props) && forall i :: 0 <= i < |props| ==> Proper(props[i].value)
  }

  /** sortDeep. */
  function Sorted(v: Json): Json
    requires Proper(v)
  {
    match v
    case Leaf(_) => v
    case Arr(items) => Arr(SortedItems(items))
    case Obj(props) => Obj(Arrange(SortedProps(props)))
  }

  function SortedItems(items: seq<Json>): (r: seq<Json>)
    requires forall i :: 0 <= i < |items| ==> Proper(items[i])
    ensures |r| == |items| && forall i :: 0 <= i < |items| ==> r[i] == Sorted(items[i])
  {
    seq(|items|, i requires 0 <= i < |items| => Sorted(items[i]))
  }

  function SortedProps(props: seq<Prop>): (r: seq<Prop>)
    requires DistinctKeys(props) && forall i :: 0 <= i < |props| ==> Proper(props[i].value)
    ensures |r| == |props| && DistinctKeys(r)
    ensures forall i :: 0 <= i < |props| ==> r[i] == Prop(props[i].key, Sorted(props[i].value))
  {
    seq(|props|, i requires 0 <= i < |props| => Prop(props[i].key, Sorted(props[i].value)))
  }

  /** Equal up to the order of keys, at every depth; `all` says whether the prototype key counts. */
  ghost predicate Alike(a: Json, b: Json, all: bool)
    requires Proper(a) && Proper(b)
    decreases a, 0
  {
    match a
    case Leaf(_) => b == a
    case Arr(items) =>
      b.Arr? && |b.items| == |items| && forall i :: 0 <= i < |items| ==> Alike(items[i], b.items[i], all)
    case Obj(props) =>
      && b.Obj?
      && (forall i :: 0 <= i < |props| && (all || props[i].key != PROTO) ==>
           Has(b.props, props[i].key) && AlikeAt(props[i].value, b.props, props[i].key, all))
      && (forall j :: 0 <= j < |b.props| && (all || b.props[j].key != PROTO) ==> Has(props, b.props[j].key))
  }

  ghost predicate AlikeAt(v: Json, ps: seq<Prop>, k: string, all: bool)
    requires Proper(v) && Has(ps, k) && forall i :: 0 <= i < |ps| ==> Proper(ps[i].value)
    decreases v, 1
  {
    Alike(v, Get(ps, k), all)
  }

  lemma SortedView(props: seq<Prop>, k: string)
    requires Proper(Obj(props))
    ensures Has(SortedProps(props), k) <==> Has(props, k)
    ensures Has(props, k) ==> Proper(Get(props, k)) && Get(SortedProps(props), k) == Sorted(Get(props, k))
  {
    assert forall i :: 0 <= i < |props| ==> SortedProps(props)[i].key == props[i].key;
    if Has(props, k) {
      var i :| 0 <= i < |props| && props[i].key == k;
      assert SortedProps(props)[i].key == k;
      GetDistinct(props, i);
      GetDistinct(SortedProps(props), i);
    }
  }

  /** sortDeep is a canonical form: two values have the same one exactly when they are equal up to
      the order of keys at every depth, with the prototype key left out of account. */
  lemma {:induction false} SortedIff(a: Json, b: Json)
    requires Proper(a) && Proper(b)
    ensures Sorted(a) == Sorted(b) <==> Alike(a, b, false)
    decreases a
  {
    if a.Arr? && b.Arr? {
      ItemsIff(a, b);
    } else if a.Obj? && b.Obj? {
      ObjectsIff(a, b);
    }
  }

  lemma {:induction false} ItemsIff(a: Json, b: Json)
    requires Proper(a) && Proper(b) && a.Arr? && b.Arr?
    ensures Sorted(a) == Sorted(b) <==> Alike(a, b, false)
    decreases a, 0
  {
    if |a.items| == |b.items| {
      forall i | 0 <= i < |a.items|
        ensures Sorted(a.items[i]) == Sorted(b.items[i]) <==> Alike(a.items[i], b.items[i], false)
      {
        SortedIff(a.items[i], b.items[i]);
      }
      if Sorted(a) == Sorted(b) {
        assert forall i :: 0 <= i < |a.items| ==> SortedItems(a.items)[i] == SortedItems(b.items)[i];
      }
    }
  }

  lemma {:induction false} ObjectsIff(a: Json, b: Json)
    requires Proper(a) && Proper(b) && a.Obj? && b.Obj?
    ensures Sorted(a) == Sorted(b) <==> Alike(a, b, false)
    decreases a, 0
  {
    var ps, qs := SortedProps(a.props), SortedProps(b.props);
    forall i | 0 <= i < |a.props| && Has(b.props, a.props[i].key)
      ensures Proper(Get(b.props, a.props[i].key))
      ensures Sorted(a.props[i].value) == Sorted(Get(b.props, a.props[i].key)) <==>
        Alike(a.props[i].value, Get(b.props, a.props[i].key), false)
    {
      SortedView(b.props, a.props[i].key);
      SortedIff(a.props[i].value, Get(b.props, a.props[i].key));
    }
    if SameProps(ps, qs) {
      ArrangeSame(ps, qs);
      SameIsAlike(a, b);
    } else if Arrange(ps) == Arrange(qs) {
      ArrangeDiffers(ps, qs);
    }
    if Alike(a, b, false) {
      AlikeIsSame(a, b);
      ArrangeSame(ps, qs);
    }
  }

  lemma SameIsAlike(a: Json, b: Json)
    requires Proper(a) && Proper(b) && a.Obj? && b.Obj? && SameProps(SortedProps(a.props), SortedProps(b.props))
    requires forall i :: 0 <= i < |a.props| && Has(b.props, a.props[i].key) ==>
      Proper(Get(b.props, a.props[i].key)) &&
      (Sorted(a.props[i].value) == Sorted(Get(b.props, a.props[i].key)) ==>
        Alike(a.props[i].value, Get(b.props, a.props[i].key), false))
    ensures Alike(a, b, false)
  {
    forall i | 0 <= i < |a.props| && a.props[i].key != PROTO
      ensures Has(b.props, a.props[i].key) && AlikeAt(a.props[i].value, b.props, a.props[i].key, false)
    {
      var k := a.props[i].key;
      GetDistinct(a.props, i);
      SortedView(a.props, k);
      SortedView(b.props, k);
    }
    forall j | 0 <= j < |b.props| && b.props[j].key != PROTO ensures Has(a.props, b.props[j].key) {
      HasAt(b.props, b.props[j].key, j);
      SortedView(a.props, b.props[j].key);
      SortedView(b.props, b.props[j].key);
    }
  }

  lemma AlikeIsSame(a: Json, b: Json)
    requires Proper(a) && Proper(b) && a.Obj? && b.Obj? && Alike(a, b, false)
    requires forall i :: 0 <= i < |a.props| && Has(b.props, a.props[i].key) ==>
      Proper(Get(b.props, a.props[i].key)) &&
      (Alike(a.props[i].value, Get(b.props, a.props[i].key), false) ==>
        Sorted(a.props[i].value) == Sorted(Get(b.props, a.props[i].key)))
    ensures SameProps(SortedProps(a.props), SortedProps(b.props))
  {
    var ps, qs := SortedProps(a.props), SortedProps(b.props);
    forall k | k != PROTO
      ensures (Has(ps, k) <==> Has(qs, k)) && (Has(ps, k) ==> Get(ps, k) == Get(qs, k))
    {
      SortedView(a.props, k);
      SortedView(b.props, k);
      if Has(a.props, k) {
        var i :| 0 <= i < |a.props| && a.props[i].key == k;
        GetDistinct(a.props, i);
        assert AlikeAt(a.props[i].value, b.props, k, false);
      }
    }
  }

  /** Sorting changes nothing but the order of keys and the prototype key. */
  lemma {:induction false} SortedIsAlike(v: Json)
    requires Proper(v)
    ensures Proper(Sorted(v)) && Alike(Sorted(v), v, false)
  {
    match v
    case Leaf(_) =>
    case Arr(items) =>
      forall i | 0 <= i < |items| ensures Proper(Sorted(items[i])) && Alike(Sorted(items[i]), items[i], false) {
        SortedIsAlike(items[i]);
      }
    case Obj(props) =>
      forall i | 0 <= i < |props|
        ensures Proper(Sorted(props[i].value)) && Alike(Sorted(props[i].value), props[i].value, false)
      {
        SortedIsAlike(props[i].value);
      }
      ArrangedIsProper(v);
      ArrangedIsAlike(v);
  }

  lemma ArrangedAt(v: Json, i: nat)
    requires Proper(v) && v.Obj? && i < |Sorted(v).props|
    ensures var k := Sorted(v).props[i].key;
      && Has(v.props, k) && Proper(Get(v.props, k)) && Sorted(v).props[i].value == Sorted(Get(v.props, k))
    ensures exists j :: 0 <= j < |v.props| && v.props[j].value == Get(v.props, Sorted(v).props[i].key)
  {
    var r, k := Sorted(v).props, Sorted(v).props[i].key;
    ArrangeView(SortedProps(v.props), k);
    GetDistinct(r, i);
    SortedView(v.props, k);
  }

  lemma ArrangedIsProper(v: Json)
    requires Proper(v) && v.Obj?
    requires forall i :: 0 <= i < |v.props| ==> Proper(Sorted(v.props[i].value))
    ensures Proper(Sorted(v))
  {
    var r := Sorted(v).props;
    ArrangeView(SortedProps(v.props), PROTO);
    forall i | 0 <= i < |r| ensures Proper(r[i].value) {
      ArrangedAt(v, i);
      var j :| 0 <= j < |v.props| && v.props[j].value == Get(v.props, r[i].key);
    }
  }

  lemma ArrangedIsAlike(v: Json)
    requires Proper(v) && v.Obj? && Proper(Sorted(v))
    requires forall i :: 0 <= i < |v.props| ==>
      Proper(Sorted(v.props[i].value)) && Alike(Sorted(v.props[i].value), v.props[i].value, false)
    ensures Alike(Sorted(v), v, false)
  {
    var r := Sorted(v).props;
    forall i | 0 <= i < |r| ensures Has(v.props, r[i].key) && AlikeAt(r[i].value, v.props, r[i].key, false) {
      ArrangedAt(v, i);
      var j :| 0 <= j < |v.props| && v.props[j].value == Get(v.props, r[i].key);
    }
    forall j | 0 <= j < |v.props| && v.props[j].key != PROTO ensures Has(r, v.props[j].key) {
      HasAt(v.props, v.props[j].key, j);
      SortedView(v.props, v.props[j].key);
      ArrangeView(SortedProps(v.props), v.props[j].key);
    }
  }

  /** sortDeep is idempotent. */
  lemma SortedTwice(v: Json)
    requires Proper(v)
    ensures Proper(Sorted(v)) && Sorted(Sorted(v)) == Sorted(v)
  {
    SortedIsAlike(v);
    SortedIff(Sorted(v), v);
  }

  // ---- the prototype key ----------------------------------------------------------------------------------------

  predicate NoProto(v: Json) {
    match v
    case Leaf(_) => true
    case Arr(items) => forall i :: 0 <= i < |items| ==> NoProto(items[i])
    case Obj(props) => forall i :: 0 <= i < |props| ==> props[i].key != PROTO && NoProto(props[i].value)
  }

  lemma {:induction false} AlikeWithoutProto(a: Json, b: Json)
    requires Proper(a) && Proper(b) && NoProto(a) && NoProto(b)
    ensures Alike(a, b, true) <==> Alike(a, b, false)
    decreases a
  {
    if a.Arr? && b.Arr? && |a.items| == |b.items| {
      forall i | 0 <= i < |a.items| ensures Alike(a.items[i], b.items[i], true) <==> Alike(a.items[i], b.items[i], false) {
        AlikeWithoutProto(a.items[i], b.items[i]);
      }
    } else if a.Obj? && b.Obj? {
      forall i | 0 <= i < |a.props| && Has(b.props, a.props[i].key)
        ensures AlikeAt(a.props[i].value, b.props, a.props[i].key, true) <==>
          AlikeAt(a.props[i].value, b.props, a.props[i].key, false)
      {
        var j :| 0 <= j < |b.props| && b.props[j] == Prop(a.props[i].key, Get(b.props, a.props[i].key));
        AlikeWithoutProto(a.props[i].value, b.props[j].value);
      }
    }
  }

  /** On values without that key the comparison is exactly equality up to key order. */
  lemma SortedIffAlike(a: Json, b: Json)
    requires Proper(a) && Proper(b) && NoProto(a) && NoProto(b)
    ensures Sorted(a) == Sorted(b) <==> Alike(a, b, true)
  {
    SortedIff(a, b);
    AlikeWithoutProto(a, b);
  }

  /** With it, two values that differ can compare equal. */
  lemma ProtoIsLost(value: Scalar)
    ensures var a, b := Obj([Prop("__proto__", Leaf(value))]), Obj([]);
      Proper(a) && Proper(b) && Sorted(a) == Sorted(b) && !Alike(a, b, true)
  {
    var a, b := Obj([Prop(PROTO, Leaf(value))]), Obj([]);
    assert a.props[0].key == PROTO;
    SortedIff(a, b);
  }

  // ---- the code ----------------------------------------------------------------------------------------------------

  method Sort(v: Json) returns (r: Json)
    requires Proper(v)
    ensures r == Sorted(v)
    decreases v, 1
  {
    match v {
      case Leaf(_) => r := v;
      case Arr(_) => r := SortArray(v);
      case Obj(_) => r := SortObject(v);
    }
  }

  method SortArray(v: Json) returns (r: Json)
    requires Proper(v) && v.Arr?
    ensures r == Sorted(v)
    decreases v, 0
  {
    var mapped: seq<Json> := [];
    for i := 0 to |v.items|
      invariant mapped == SortedItems(v.items)[..i]
    {
      var item := Sort(v.items[i]);
      mapped := mapped + [item];
    }
    r := Arr(mapped);
  }

  method SortObject(v: Json) returns (r: Json)
    requires Proper(v) && v.Obj?
    ensures r == Sorted(v)
    decreases v, 0
  {
    ghost var ps := SortedProps(v.props);
    assert Keys(ps) == Keys(v.props);
    KeysHave(ps);
    var ks := SortKeys(Keys(v.props));
    var out: seq<Prop> := [];
    for i := 0 to |ks|
      invariant AllHave(ps, ks) && out == Build(ks[..i], ps)
    {
      SortedView(v.props, ks[i]);
      GetInside(v.props, ks[i]);
      BuildPush(ks, ps, i);
      var value := Sort(Get(v.props, ks[i]));
      out := SetProp(out, ks[i], value);
    }
    assert ks[..|ks|] == ks;
    r := Obj(out);
  }

  lemma BuildPush(ks: seq<string>, ps: seq<Prop>, i: nat)
    requires AllHave(ps, ks) && i < |ks|
    ensures Has(ps, ks[i]) && Build(ks[..i + 1], ps) == SetProp(Build(ks[..i], ps), ks[i], Get(ps, ks[i]))
  {
    assert ks[..i + 1][..i] == ks[..i];
  }

  lemma GetInside(props: seq<Prop>, k: string)
    requires Has(props, k)
    ensures Get(props, k) < Obj(props)
  {
    var i :| 0 <= i < |props| && props[i] == Prop(k, Get(props, k));
    assert props[i].value < props[i] < Obj(props);
  }
}
