/** What JSON.stringify prints, and that it prints different values differently; with it, the text
    comparison of apps/consumer-app/scripts/verify-zkey-provenance.js. */
module JsonText {
  import opened SortDeep
  import opened Wrappers

  // ---- strings ------------------------------------------------------------------------------------------

  /** The letter of a two-character escape. */
  function Short(c: char): Option<char> {
    if c == '"' then Some('"')
    else if c == '\\' then Some('\\')
    else if c == '\U{0008}' then Some('b')
    else if c == '\t' then Some('t')
    else if c == '\n' then Some('n')
    else if c == '\U{000C}' then Some('f')
    else if c == '\r' then Some('r')
    else None
  }

  function Hex(n: nat): char
    requires n < 16
  {
    if n < 10 then '0' + n as char else 'a' + (n - 10) as char
  }

  function EscapeChar(c: char): (e: string)
    ensures e != ""
  {
    if Short(c).Some? then ['\\', Short(c).value]
    else if c < ' ' then ['\\', 'u', '0', '0', Hex(c as nat / 16), Hex(c as nat % 16)]
    else [c]
  }

  function Escape(s: string): string {
    if s == "" then "" else EscapeChar(s[0]) + Escape(s[1..])
  }

  function Quote(s: string): string {
    ['"'] + Escape(s) + ['"']
  }

  /** The escapes of JSON, section 7 of RFC 8259, as JSON.stringify chooses them: seven characters by
      letter, the other control characters by their number in four lower-case hexadecimal digits. */
  lemma EscapeTable(n: nat)
    ensures EscapeChar('"') == "\\\"" && EscapeChar('\\') == "\\\\"
    ensures EscapeChar('\U{08}') == "\\b" && EscapeChar('\U{0C}') == "\\f"
    ensures EscapeChar('\U{0A}') == "\\n" && EscapeChar('\U{0D}') == "\\r" && EscapeChar('\U{09}') == "\\t"
    ensures n < 8 ==> EscapeChar(n as char) == "\\u000" + ["01234567"[n]]
    ensures 14 <= n < 16 ==> EscapeChar(n as char) == "\\u000" + ["ef"[n - 14]]
    ensures 16 <= n < 32 ==> EscapeChar(n as char) == "\\u001" + ["0123456789abcdef"[n - 16]]
    ensures n == 11 ==> EscapeChar(n as char) == "\\u000b"
    ensures 32 <= n < 0xd800 && n != 34 && n != 92 ==> EscapeChar(n as char) == [n as char]
  {
  }

  lemma ShortIsInjective(c: char, d: char)
    requires Short(c).Some? && Short(c) == Short(d)
    ensures c == d
  {
  }

  lemma ShortIsNoU(c: char)
    ensures Short(c) != Some('u')
  {
  }

  lemma HexIsInjective(m: nat, n: nat)
    requires m < 16 && n < 16 && Hex(m) == Hex(n)
    ensures m == n
  {
  }

  lemma ControlFromDigits(c: char, d: char)
    requires c < ' ' && d < ' '
    requires Hex(c as nat / 16) == Hex(d as nat / 16) && Hex(c as nat % 16) == Hex(d as nat % 16)
    ensures c == d
  {
    HexIsInjective(c as nat / 16, d as nat / 16);
    HexIsInjective(c as nat % 16, d as nat % 16);
  }

  /** Equal sums with parts of one length have equal parts. */
  lemma SameParts(a: string, r: string, b: string, s: string)
    requires a + r == b + s && |a| == |b|
    ensures a == b && r == s
  {
    assert (a + r)[..|a|] == a && (b + s)[..|b|] == b;
    assert (a + r)[|a|..] == r && (b + s)[|b|..] == s;
  }

  lemma SameHead(a: string, r: string, b: string, s: string)
    requires a + r == b + s && a != "" && b != ""
    ensures a[0] == b[0]
    ensures |a| > 1 && |b| > 1 ==> a[1] == b[1]
  {
    assert (a + r)[0] == a[0] && (b + s)[0] == b[0];
    if |a| > 1 && |b| > 1 {
      assert (a + r)[1] == a[1] && (b + s)[1] == b[1];
    }
  }

  lemma EscapeSize(c: char)
    ensures |EscapeChar(c)| == if Short(c).Some? then 2 else if c < ' ' then 6 else 1
    ensures |EscapeChar(c)| == 1 <==> EscapeChar(c)[0] != '\\'
    ensures |EscapeChar(c)| == 6 ==> EscapeChar(c)[1] == 'u'
    ensures |EscapeChar(c)| == 2 ==> EscapeChar(c)[1] != 'u'
  {
    ShortIsNoU(c);
  }

  /** An escape ends where it ends: nothing that follows can be read into it. */
  lemma EscapeCharReads(c: char, d: char, r: string, s: string)
    requires EscapeChar(c) + r == EscapeChar(d) + s
    ensures c == d && r == s
  {
    SameHead(EscapeChar(c), r, EscapeChar(d), s);
    EscapeSize(c);
    EscapeSize(d);
    SameParts(EscapeChar(c), r, EscapeChar(d), s);
    EscapeCharIsInjective(c, d);
  }

  lemma EscapeCharIsInjective(c: char, d: char)
    requires EscapeChar(c) == EscapeChar(d)
    ensures c == d
  {
    var e, f := EscapeChar(c), EscapeChar(d);
    EscapeSize(c);
    EscapeSize(d);
    if |e| == 2 {
      assert e[1] == f[1];
      ShortIsInjective(c, d);
    } else if |e| == 6 {
      assert e[4] == f[4] && e[5] == f[5];
      ControlFromDigits(c, d);
    } else {
      assert e[0] == f[0];
    }
  }

  lemma EscapeIsNoQuote(c: char)
    ensures EscapeChar(c)[0] != '"'
  {
  }

  lemma EscapeUnfold(x: string, r: string)
    requires x != ""
    ensures Escape(x) + r == EscapeChar(x[0]) + (Escape(x[1..]) + r)
  {
  }

  lemma EndOrEscape(x: string, y: string, r: string, s: string)
    requires Escape(x) + (['"'] + r) == Escape(y) + (['"'] + s) && x == ""
    ensures y == ""
  {
    if y != "" {
      EscapeUnfold(y, ['"'] + s);
      EscapeIsNoQuote(y[0]);
      SameHead(['"'], r, EscapeChar(y[0]), Escape(y[1..]) + (['"'] + s));
    }
  }

  lemma {:induction false} EscapeReads(x: string, y: string, r: string, s: string)
    requires Escape(x) + (['"'] + r) == Escape(y) + (['"'] + s)
    ensures x == y && r == s
  {
    if x == "" {
      EndOrEscape(x, y, r, s);
      assert "" + (['"'] + r) == ['"'] + r && "" + (['"'] + s) == ['"'] + s;
      SameParts(['"'], r, ['"'], s);
    } else if y == "" {
      EndOrEscape(y, x, s, r);
    } else {
      EscapeUnfold(x, ['"'] + r);
      EscapeUnfold(y, ['"'] + s);
      EscapeCharReads(x[0], y[0], Escape(x[1..]) + (['"'] + r), Escape(y[1..]) + (['"'] + s));
      EscapeReads(x[1..], y[1..], r, s);
      assert x == [x[0]] + x[1..] && y == [y[0]] + y[1..];
    }
  }

  /** A printed string ends at its closing quote. */
  lemma QuoteReads(x: string, y: string, r: string, s: string)
    requires Quote(x) + r == Quote(y) + s
    ensures x == y && r == s
  {
    assert Quote(x) + r == ['"'] + (Escape(x) + (['"'] + r));
    assert Quote(y) + s == ['"'] + (Escape(y) + (['"'] + s));
    SameParts(['"'], Escape(x) + (['"'] + r), ['"'], Escape(y) + (['"'] + s));
    EscapeReads(x, y, r, s);
  }

  // ---- values -------------------------------------------------------------------------------------------

  predicate InNumber(c: char) {
    '0' <= c <= '9' || c == '-' || c == '+' || c == '.' || c == 'e'
  }

  predicate IsNumber(text: string) {
    text != "" && forall i :: 0 <= i < |text| ==> InNumber(text[i])
  }

  /** Every number is printed as a number. */
  predicate Finite(v: Json) {
    match v
    case Leaf(value) => value.Number? ==> IsNumber(value.text)
    case Arr(items) => forall i :: 0 <= i < |items| ==> Finite(items[i])
    case Obj(props) => forall i :: 0 <= i < |props| ==> Finite(props[i].value)
  }

  function PrintScalar(v: Scalar): string {
    match v
    case Null => "null"
    case Bool(flag) => if flag then "true" else "false"
    case Number(text) => text
    case Text(chars) => Quote(chars)
  }

  /** JSON.stringify without indentation. */
  function Print(v: Json): string
    decreases v, 1
  {
    match v
    case Leaf(value) => PrintScalar(value)
    case Arr(items) => "[" + (if items == [] then "]" else Print(items[0]) + PrintItems(items[1..]))
    case Obj(props) => "{" + (if props == [] then "}" else PrintProp(props[0]) + PrintProps(props[1..]))
  }

  function PrintItems(items: seq<Json>): string
    decreases items, 0
  {
    if items == [] then "]" else "," + (Print(items[0]) + PrintItems(items[1..]))
  }

  function PrintProp(p: Prop): string
    decreases p, 0
  {
    Quote(p.key) + (":" + Print(p.value))
  }

  function PrintProps(props: seq<Prop>): string
    decreases props, 0
  {
    if props == [] then "}" else "," + (PrintProp(props[0]) + PrintProps(props[1..]))
  }

  lemma PrintWords()
    ensures Print(Leaf(Null)) == "null" && Print(Leaf(Bool(true))) == "true" && Print(Leaf(Bool(false))) == "false"
  {
  }

  /** The texts with commas between them. */
  function Join(ts: seq<string>): string {
    if ts == [] then "" else if |ts| == 1 then ts[0] else ts[0] + "," + Join(ts[1..])
  }

  function Printed(items: seq<Json>): seq<string> {
    seq(|items|, i requires 0 <= i < |items| => Print(items[i]))
  }

  function PrintedProps(props: seq<Prop>): seq<string> {
    seq(|props|, i requires 0 <= i < |props| => Quote(props[i].key) + ":" + Print(props[i].value))
  }

  lemma JoinCons(t: string, ts: seq<string>)
    ensures Join([t] + ts) == if ts == [] then t else t + "," + Join(ts)
  {
    assert ([t] + ts)[1..] == ts;
  }

  lemma {:induction false} ItemsAreJoined(items: seq<Json>)
    ensures PrintItems(items) == if items == [] then "]" else "," + Join(Printed(items)) + "]"
  {
    if items != [] {
      ItemsAreJoined(items[1..]);
      assert Printed(items) == [Print(items[0])] + Printed(items[1..]);
      JoinCons(Print(items[0]), Printed(items[1..]));
    }
  }

  lemma FirstPropJoined(props: seq<Prop>)
    requires props != []
    ensures var rest := PrintedProps(props[1..]);
      Join(PrintedProps(props)) == if rest == [] then PrintProp(props[0]) else PrintProp(props[0]) + "," + Join(rest)
  {
    var t := Quote(props[0].key) + ":" + Print(props[0].value);
    assert PrintProp(props[0]) == t;
    assert PrintedProps(props) == [t] + PrintedProps(props[1..]);
    JoinCons(t, PrintedProps(props[1..]));
  }

  lemma {:induction false} PropsAreJoined(props: seq<Prop>)
    ensures PrintProps(props) == if props == [] then "}" else "," + Join(PrintedProps(props)) + "}"
  {
    if props != [] {
      PropsAreJoined(props[1..]);
      FirstPropJoined(props);
      Commas(PrintProp(props[0]), Join(PrintedProps(props[1..])), "}");
    }
  }

  lemma Commas(t: string, rest: string, end: string)
    ensures "," + (t + end) == "," + t + end
    ensures "," + (t + ("," + rest + end)) == "," + (t + "," + rest) + end
  {
  }

  /** An array is printed as its items between brackets, an object as its keys and values between
      braces, with commas between and nowhere else. */
  lemma PrintIsJoined(items: seq<Json>, props: seq<Prop>)
    ensures Print(Arr(items)) == "[" + Join(Printed(items)) + "]"
    ensures Print(Obj(props)) == "{" + Join(PrintedProps(props)) + "}"
  {
    ArrayIsJoined(items);
    ObjectIsJoined(props);
  }

  lemma ArrayIsJoined(items: seq<Json>)
    ensures Print(Arr(items)) == "[" + Join(Printed(items)) + "]"
  {
    if items != [] {
      ItemsAreJoined(items[1..]);
      assert Printed(items) == [Print(items[0])] + Printed(items[1..]);
      JoinCons(Print(items[0]), Printed(items[1..]));
    }
  }

  lemma ObjectIsJoined(props: seq<Prop>)
    ensures Print(Obj(props)) == "{" + Join(PrintedProps(props)) + "}"
  {
    if props != [] {
      PropsAreJoined(props[1..]);
      FirstPropJoined(props);
    }
  }

  // ---- printing is unambiguous -----------------------------------------------------------------------------

  /** What can follow a printed value. */
  predicate Follows(r: string) {
    r == "" || r[0] == ',' || r[0] == ']' || r[0] == '}'
  }

  /** The first character of a printed value. */
  function Head(v: Json): char
    requires Finite(v)
  {
    match v
    case Leaf(Null) => 'n'
    case Leaf(Bool(flag)) => if flag then 't' else 'f'
    case Leaf(Number(text)) => text[0]
    case Leaf(Text(_)) => '"'
    case Arr(_) => '['
    case Obj(_) => '{'
  }

  lemma HeadIsFirst(v: Json)
    requires Finite(v)
    ensures Print(v) != "" && Print(v)[0] == Head(v) && Head(v) != ']'
  {
  }

  lemma SameHeads(a: Json, b: Json, r: string, s: string)
    requires Finite(a) && Finite(b) && Print(a) + r == Print(b) + s
    ensures Head(a) == Head(b)
  {
    HeadIsFirst(a);
    HeadIsFirst(b);
    SameHead(Print(a), r, Print(b), s);
  }

  lemma NumberReads(x: string, y: string, r: string, s: string)
    requires IsNumber(x) && IsNumber(y) && Follows(r) && Follows(s) && x + r == y + s
    ensures x == y && r == s
  {
    NoLonger(x, y, r, s);
    NoLonger(y, x, s, r);
    SameParts(x, r, y, s);
  }

  lemma NoLonger(x: string, y: string, r: string, s: string)
    requires IsNumber(x) && Follows(s) && x + r == y + s
    ensures |x| <= |y|
  {
    assert s != "" ==> (y + s)[|y|] == s[0];
    assert forall i :: 0 <= i < |x| ==> (x + r)[i] == x[i];
  }

  lemma ScalarReads(a: Scalar, b: Scalar, r: string, s: string)
    requires Finite(Leaf(a)) && Finite(Leaf(b)) && Follows(r) && Follows(s)
    requires PrintScalar(a) + r == PrintScalar(b) + s
    ensures a == b && r == s
  {
    SameHeads(Leaf(a), Leaf(b), r, s);
    if a.Number? {
      NumberReads(a.text, b.text, r, s);
    } else if a.Text? {
      QuoteReads(a.chars, b.chars, r, s);
    } else {
      SameParts(PrintScalar(a), r, PrintScalar(b), s);
    }
  }

  lemma ItemsFollow(items: seq<Json>, props: seq<Prop>, r: string)
    ensures Follows(PrintItems(items) + r) && Follows(PrintProps(props) + r)
  {
  }

  lemma FirstItem(v: Json, r: string)
    requires v.Arr? && v.items != []
    ensures Print(v) + r == "[" + (Print(v.items[0]) + (PrintItems(v.items[1..]) + r))
  {
  }

  lemma FirstProp(v: Json, r: string)
    requires v.Obj? && v.props != []
    ensures Print(v) + r == "{" + (Quote(v.props[0].key) + (":" + (Print(v.props[0].value) + (PrintProps(v.props[1..]) + r))))
  {
    var k, t, u := Quote(v.props[0].key), Print(v.props[0].value), PrintProps(v.props[1..]);
    assert ("{" + ((k + (":" + t)) + u)) + r == "{" + (k + (":" + (t + (u + r))));
  }

  lemma NextItem(items: seq<Json>, r: string)
    requires items != []
    ensures PrintItems(items) + r == "," + (Print(items[0]) + (PrintItems(items[1..]) + r))
  {
  }

  lemma NextProp(props: seq<Prop>, r: string)
    requires props != []
    ensures PrintProps(props) + r ==
      "," + (Quote(props[0].key) + (":" + (Print(props[0].value) + (PrintProps(props[1..]) + r))))
  {
    var k, t, u := Quote(props[0].key), Print(props[0].value), PrintProps(props[1..]);
    assert ("," + ((k + (":" + t)) + u)) + r == "," + (k + (":" + (t + (u + r))));
  }

  /** A printed value ends where it ends: two values whose texts begin two equal strings are equal. */
  lemma {:induction false} PrintReads(a: Json, b: Json, r: string, s: string)
    requires Finite(a) && Finite(b) && Follows(r) && Follows(s) && Print(a) + r == Print(b) + s
    ensures a == b && r == s
    decreases a, 2
  {
    SameHeads(a, b, r, s);
    if a.Leaf? {
      ScalarReads(a.value, b.value, r, s);
    } else if a.Arr? {
      ArrayReads(a, b, r, s);
    } else {
      ObjectReads(a, b, r, s);
    }
  }

  lemma {:induction false} ArrayReads(a: Json, b: Json, r: string, s: string)
    requires Finite(a) && Finite(b) && a.Arr? && b.Arr? && Print(a) + r == Print(b) + s
    ensures a == b && r == s
    decreases a, 1
  {
    if a.items == [] || b.items == [] {
      EmptyArrays(a, b, r, s);
      SameParts("[]", r, "[]", s);
    } else {
      FirstItem(a, r);
      FirstItem(b, s);
      var t, u := PrintItems(a.items[1..]) + r, PrintItems(b.items[1..]) + s;
      SameParts("[", Print(a.items[0]) + t, "[", Print(b.items[0]) + u);
      ItemsFollow(a.items[1..], [], r);
      ItemsFollow(b.items[1..], [], s);
      PrintReads(a.items[0], b.items[0], t, u);
      ItemsRead(a.items[1..], b.items[1..], r, s);
      assert a.items == [a.items[0]] + a.items[1..] && b.items == [b.items[0]] + b.items[1..];
    }
  }

  lemma EmptyArrays(a: Json, b: Json, r: string, s: string)
    requires Finite(a) && Finite(b) && a.Arr? && b.Arr? && Print(a) + r == Print(b) + s
    requires a.items == [] || b.items == []
    ensures a.items == b.items && Print(a) == "[]"
  {
    SecondOfArray(a);
    SecondOfArray(b);
    SameHead(Print(a), r, Print(b), s);
  }

  lemma SecondOfArray(v: Json)
    requires Finite(v) && v.Arr?
    ensures |Print(v)| > 1 && (Print(v)[1] == ']' <==> v.items == [])
  {
    if v.items != [] {
      HeadIsFirst(v.items[0]);
      assert Print(v)[1] == Print(v.items[0])[0];
    }
  }

  lemma {:induction false} ItemsRead(x: seq<Json>, y: seq<Json>, r: string, s: string)
    requires (forall i :: 0 <= i < |x| ==> Finite(x[i])) && forall i :: 0 <= i < |y| ==> Finite(y[i])
    requires PrintItems(x) + r == PrintItems(y) + s
    ensures x == y && r == s
    decreases x, 0
  {
    SameHead(PrintItems(x), r, PrintItems(y), s);
    if x == [] {
      SameParts("]", r, "]", s);
    } else {
      NextItem(x, r);
      NextItem(y, s);
      var t, u := PrintItems(x[1..]) + r, PrintItems(y[1..]) + s;
      SameParts(",", Print(x[0]) + t, ",", Print(y[0]) + u);
      ItemsFollow(x[1..], [], r);
      ItemsFollow(y[1..], [], s);
      PrintReads(x[0], y[0], t, u);
      ItemsRead(x[1..], y[1..], r, s);
      assert x == [x[0]] + x[1..] && y == [y[0]] + y[1..];
    }
  }

  /** One property and what follows it. */
  lemma {:induction false} PropReads(p: Prop, q: Prop, t: string, u: string)
    requires Finite(p.value) && Finite(q.value) && Follows(t) && Follows(u)
    requires Quote(p.key) + (":" + (Print(p.value) + t)) == Quote(q.key) + (":" + (Print(q.value) + u))
    ensures p == q && t == u
    decreases p, 0
  {
    QuoteReads(p.key, q.key, ":" + (Print(p.value) + t), ":" + (Print(q.value) + u));
    SameParts(":", Print(p.value) + t, ":", Print(q.value) + u);
    PrintReads(p.value, q.value, t, u);
  }

  lemma {:induction false} ObjectReads(a: Json, b: Json, r: string, s: string)
    requires Finite(a) && Finite(b) && a.Obj? && b.Obj? && Print(a) + r == Print(b) + s
    ensures a == b && r == s
    decreases a, 1
  {
    if a.props == [] || b.props == [] {
      EmptyObjects(a, b, r, s);
      SameParts("{}", r, "{}", s);
    } else {
      FirstProp(a, r);
      FirstProp(b, s);
      var t, u := PrintProps(a.props[1..]) + r, PrintProps(b.props[1..]) + s;
      SameParts("{", Quote(a.props[0].key) + (":" + (Print(a.props[0].value) + t)),
                "{", Quote(b.props[0].key) + (":" + (Print(b.props[0].value) + u)));
      ItemsFollow([], a.props[1..], r);
      ItemsFollow([], b.props[1..], s);
      PropReads(a.props[0], b.props[0], t, u);
      PropsRead(a.props[1..], b.props[1..], r, s);
      assert a.props == [a.props[0]] + a.props[1..] && b.props == [b.props[0]] + b.props[1..];
    }
  }

  lemma EmptyObjects(a: Json, b: Json, r: string, s: string)
    requires a.Obj? && b.Obj? && Print(a) + r == Print(b) + s
    requires a.props == [] || b.props == []
    ensures a.props == b.props && Print(a) == "{}"
  {
    SecondOfObject(a);
    SecondOfObject(b);
    SameHead(Print(a), r, Print(b), s);
  }

  lemma SecondOfObject(v: Json)
    requires v.Obj?
    ensures |Print(v)| > 1 && (Print(v)[1] == '}' <==> v.props == [])
  {
    if v.props != [] {
      assert Print(v)[1] == Quote(v.props[0].key)[0];
    }
  }

  lemma {:induction false} PropsRead(x: seq<Prop>, y: seq<Prop>, r: string, s: string)
    requires (forall i :: 0 <= i < |x| ==> Finite(x[i].value)) && forall i :: 0 <= i < |y| ==> Finite(y[i].value)
    requires PrintProps(x) + r == PrintProps(y) + s
    ensures x == y && r == s
    decreases x, 0
  {
    SameHead(PrintProps(x), r, PrintProps(y), s);
    if x == [] {
      SameParts("}", r, "}", s);
    } else {
      NextProp(x, r);
      NextProp(y, s);
      var t, u := PrintProps(x[1..]) + r, PrintProps(y[1..]) + s;
      SameParts(",", Quote(x[0].key) + (":" + (Print(x[0].value) + t)), ",", Quote(y[0].key) + (":" + (Print(y[0].value) + u)));
      ItemsFollow([], x[1..], r);
      ItemsFollow([], y[1..], s);
      PropReads(x[0], y[0], t, u);
      PropsRead(x[1..], y[1..], r, s);
      assert x == [x[0]] + x[1..] && y == [y[0]] + y[1..];
    }
  }

  /** Different values are printed differently. */
  lemma PrintIsInjective(a: Json, b: Json)
    requires Finite(a) && Finite(b) && Print(a) == Print(b)
    ensures a == b
  {
    assert Print(a) + "" == Print(b) + "";
    PrintReads(a, b, "", "");
  }

  // ---- the comparison ------------------------------------------------------------------------------------------

  lemma {:induction false} SortedIsFinite(v: Json)
    requires Proper(v) && Finite(v)
    ensures Finite(Sorted(v))
  {
    match v
    case Leaf(_) =>
    case Arr(items) =>
      forall i | 0 <= i < |items| ensures Finite(Sorted(items[i])) {
        SortedIsFinite(items[i]);
      }
    case Obj(props) =>
      forall i | 0 <= i < |props| ensures Finite(Sorted(props[i].value)) {
        SortedIsFinite(props[i].value);
      }
      ArrangedIsFinite(v);
  }

  lemma ArrangedIsFinite(v: Json)
    requires Proper(v) && v.Obj?
    requires forall i :: 0 <= i < |v.props| ==> Finite(Sorted(v.props[i].value))
    ensures Finite(Sorted(v))
  {
    var r := Sorted(v).props;
    forall i | 0 <= i < |r| ensures Finite(r[i].value) {
      ArrangedAt(v, i);
      var j :| 0 <= j < |v.props| && v.props[j].value == Get(v.props, r[i].key);
    }
  }

  /** The script's comparison of the printed sorted values holds exactly when the values are equal up
      to the order of keys at every depth, with the prototype key left out of account; without that
      key it is exactly equality up to key order. */
  lemma ComparisonIff(a: Json, b: Json)
    requires Proper(a) && Proper(b) && Finite(a) && Finite(b)
    ensures Print(Sorted(a)) == Print(Sorted(b)) <==> Alike(a, b, false)
    ensures NoProto(a) && NoProto(b) ==> (Print(Sorted(a)) == Print(Sorted(b)) <==> Alike(a, b, true))
  {
    SortedIsFinite(a);
    SortedIsFinite(b);
    SortedIff(a, b);
    if Print(Sorted(a)) == Print(Sorted(b)) {
      PrintIsInjective(Sorted(a), Sorted(b));
    }
    if NoProto(a) && NoProto(b) {
      AlikeWithoutProto(a, b);
    }
  }
}
