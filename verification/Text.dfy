/** The string operations of JavaScript and Rust that the modelled code relies on. */
module Text {
  /** What String.prototype.trim removes. */
  predicate JsSpace(c: char) {
    '\t' <= c <= '\r' || c == ' ' || c == '\U{00A0}' || c == '\U{1680}' || '\U{2000}' <= c <= '\U{200A}'
    || c == '\U{2028}' || c == '\U{2029}' || c == '\U{202F}' || c == '\U{205F}' || c == '\U{3000}' || c == '\U{FEFF}'
  }

  /** What str::trim removes: the characters with the Unicode property White_Space. */
  predicate RustSpace(c: char) {
    '\t' <= c <= '\r' || c == ' ' || c == '\U{0085}' || c == '\U{00A0}' || c == '\U{1680}' || '\U{2000}' <= c <= '\U{200A}'
    || c == '\U{2028}' || c == '\U{2029}' || c == '\U{202F}' || c == '\U{205F}' || c == '\U{3000}'
  }

  function TrimStart(white: char -> bool, s: string): string {
    if s != [] && white(s[0]) then TrimStart(white, s[1..]) else s
  }

  function TrimEnd(white: char -> bool, s: string): string {
    if s != [] && white(s[|s| - 1]) then TrimEnd(white, s[..|s| - 1]) else s
  }

  function Trim(white: char -> bool, s: string): string {
    TrimEnd(white, TrimStart(white, s))
  }

  function LowerChar(c: char): char {
    if 'A' <= c <= 'Z' then 'a' + (c - 'A') else c
  }

  /** toLowerCase on ASCII letters. */
  function Lower(s: string): (r: string)
    ensures |r| == |s|
  {
    seq(|s|, i requires 0 <= i < |s| => LowerChar(s[i]))
  }

  function UpperChar(c: char): char {
    if 'a' <= c <= 'z' then 'A' + (c - 'a') else c
  }

  /** toUpperCase on ASCII letters. */
  function Upper(s: string): (r: string)
    ensures |r| == |s|
  {
    seq(|s|, i requires 0 <= i < |s| => UpperChar(s[i]))
  }

  /** Equal after trimming and upper-casing, as token symbols are compared. */
  predicate SymbolsMatch(a: string, b: string) {
    Upper(Trim(JsSpace, a)) == Upper(Trim(JsSpace, b))
  }

  /** s.includes(t). */
  predicate Contains(s: string, t: string) {
    |t| <= |s| && (s[..|t|] == t || (s != [] && Contains(s[1..], t)))
  }

  // ---- what these operations leave out of account ------------------------------------------------------

  /** The white space and the line terminators of ECMAScript, sections 12.2 and 12.3. */
  const WHITE_SPACE := "\U{0009}\U{000B}\U{000C}\U{FEFF} \U{00A0}\U{1680}\U{2000}\U{2001}\U{2002}\U{2003}\U{2004}\U{2005}" +
    "\U{2006}\U{2007}\U{2008}\U{2009}\U{200A}\U{202F}\U{205F}\U{3000}"
  const LINE_TERMINATORS := "\U{000A}\U{000D}\U{2028}\U{2029}"

  lemma SpaceIff(c: char)
    ensures JsSpace(c) <==> c in WHITE_SPACE || c in LINE_TERMINATORS
    ensures RustSpace(c) <==> (JsSpace(c) && c != '\U{FEFF}') || c == '\U{0085}'
  {
  }

  /** The same letter, in capitals or not. */
  predicate SameLetter(c: char, d: char) {
    || c == d
    || ('A' <= c <= 'Z' && d as int == c as int + 32)
    || ('A' <= d <= 'Z' && c as int == d as int + 32)
  }

  predicate SameUpToCase(s: string, t: string) {
    |s| == |t| && forall i :: 0 <= i < |s| ==> SameLetter(s[i], t[i])
  }

  predicate Blank(s: string) {
    forall i :: 0 <= i < |s| ==> JsSpace(s[i])
  }

  /** The text is the core with white space around it. */
  ghost predicate Around(s: string, core: string) {
    exists before, after :: Blank(before) && Blank(after) && s == before + core + after
  }

  /** Equal up to case and outer white space. */
  ghost predicate Alike(s: string, t: string) {
    exists c, d :: Around(s, c) && Around(t, d) && SameUpToCase(c, d)
  }

  predicate OccursAt(s: string, t: string, i: nat) {
    i + |t| <= |s| && s[i..i + |t|] == t
  }

  predicate MentionedAt(s: string, word: string, i: nat) {
    i + |word| <= |s| && SameUpToCase(s[i..i + |word|], word)
  }

  /** The word occurs in the text, in any case. */
  ghost predicate Mentions(s: string, word: string) {
    exists i: nat :: MentionedAt(s, word, i)
  }

  lemma LowerIff(s: string, t: string)
    ensures Lower(s) == Lower(t) <==> SameUpToCase(s, t)
  {
    if Lower(s) == Lower(t) {
      forall i | 0 <= i < |s| ensures SameLetter(s[i], t[i]) {
        assert Lower(s)[i] == Lower(t)[i];
      }
    }
  }

  lemma UpperIff(s: string, t: string)
    ensures Upper(s) == Upper(t) <==> SameUpToCase(s, t)
  {
    if Upper(s) == Upper(t) {
      forall i | 0 <= i < |s| ensures SameLetter(s[i], t[i]) {
        assert Upper(s)[i] == Upper(t)[i];
      }
    }
  }

  lemma {:induction false} TrimStartSplits(s: string) returns (before: string)
    ensures Blank(before) && s == before + TrimStart(JsSpace, s)
    ensures TrimStart(JsSpace, s) != "" ==> !JsSpace(TrimStart(JsSpace, s)[0])
  {
    if s != "" && JsSpace(s[0]) {
      before := TrimStartSplits(s[1..]);
      before := [s[0]] + before;
    } else {
      before := "";
    }
  }

  lemma {:induction false} TrimEndSplits(s: string) returns (after: string)
    ensures Blank(after) && s == TrimEnd(JsSpace, s) + after
    ensures TrimEnd(JsSpace, s) != "" ==> !JsSpace(TrimEnd(JsSpace, s)[|TrimEnd(JsSpace, s)| - 1])
  {
    if s != "" && JsSpace(s[|s| - 1]) {
      after := TrimEndSplits(s[..|s| - 1]);
      after := after + [s[|s| - 1]];
    } else {
      after := "";
    }
  }

  /** Neither end of the text is white space. */
  predicate Bare(s: string) {
    s != "" ==> !JsSpace(s[0]) && !JsSpace(s[|s| - 1])
  }

  lemma TrimSplits(s: string) returns (before: string, after: string)
    ensures Blank(before) && Blank(after) && s == before + Trim(JsSpace, s) + after && Bare(Trim(JsSpace, s))
  {
    before := TrimStartSplits(s);
    after := TrimEndSplits(TrimStart(JsSpace, s));
  }

  /** There is one way only to take the white space off both ends. */
  lemma CoreIsUnique(a: string, c: string, b: string, d: string, e: string, f: string)
    requires Blank(a) && Blank(b) && Blank(d) && Blank(f) && Bare(c) && Bare(e) && a + c + b == d + e + f
    ensures c == e
  {
    var s := a + c + b;
    if c == "" || e == "" {
      assert c != "" ==> s[|a|] == c[0];
      assert e != "" ==> s[|d|] == e[0];
      AllBlank(a, c, b);
      AllBlank(d, e, f);
    } else {
      assert a + c + b == a + (c + b) && d + e + f == d + (e + f);
      SameStart(a, c + b, d, e + f);
      SameEnd(c, b, e, f);
    }
  }

  lemma AllBlank(a: string, c: string, b: string)
    requires Blank(a) && Blank(b) && Bare(c)
    ensures Blank(a + c + b) <==> c == ""
  {
    if c != "" {
      assert (a + c + b)[|a|] == c[0];
    }
  }

  lemma SameStart(a: string, c: string, d: string, e: string)
    requires Blank(a) && Blank(d) && c != "" && e != "" && !JsSpace(c[0]) && !JsSpace(e[0]) && a + c == d + e
    ensures a == d && c == e
  {
    assert (a + c)[|a|] == c[0] && (d + e)[|d|] == e[0];
    assert |a| == |d|;
    assert a == (a + c)[..|a|] && d == (d + e)[..|d|] && c == (a + c)[|a|..] && e == (d + e)[|d|..];
  }

  lemma SameEnd(c: string, b: string, e: string, f: string)
    requires Blank(b) && Blank(f) && c != "" && e != "" && !JsSpace(c[|c| - 1]) && !JsSpace(e[|e| - 1]) && c + b == e + f
    ensures c == e && b == f
  {
    assert (c + b)[|c| - 1] == c[|c| - 1] && (e + f)[|e| - 1] == e[|e| - 1];
    assert |c| == |e|;
    assert c == (c + b)[..|c|] && e == (e + f)[..|e|] && b == (c + b)[|c|..] && f == (e + f)[|e|..];
  }

  /** Taking the white space off is the same with or without more of it. */
  lemma TrimAround(s: string, core: string)
    requires Around(s, core)
    ensures Trim(JsSpace, s) == Trim(JsSpace, core)
  {
    var before, after :| Blank(before) && Blank(after) && s == before + core + after;
    var a, b := TrimSplits(s);
    var d, f := TrimSplits(core);
    assert s == (before + d) + Trim(JsSpace, core) + (f + after);
    CoreIsUnique(a, Trim(JsSpace, s), b, before + d, Trim(JsSpace, core), f + after);
  }

  lemma TrimIsAround(s: string)
    ensures Around(s, Trim(JsSpace, s))
  {
    var before, after := TrimSplits(s);
  }

  lemma LowerBlank(s: string)
    ensures Blank(Lower(s)) <==> Blank(s)
  {
    if Blank(Lower(s)) {
      forall i | 0 <= i < |s| ensures JsSpace(s[i]) {
        assert JsSpace(Lower(s)[i]);
      }
    }
  }

  lemma LowerParts(a: string, c: string, b: string)
    ensures Lower(a + c + b) == Lower(a) + Lower(c) + Lower(b)
  {
  }

  /** Lower-casing before or after trimming is the same. */
  lemma LowerTrim(s: string)
    ensures Trim(JsSpace, Lower(s)) == Lower(Trim(JsSpace, s))
  {
    var a, b := TrimSplits(s);
    var d, f := TrimSplits(Lower(s));
    var c := Trim(JsSpace, s);
    LowerParts(a, c, b);
    LowerBlank(a);
    LowerBlank(b);
    assert c != "" ==> Lower(c)[0] == LowerChar(c[0]) && Lower(c)[|c| - 1] == LowerChar(c[|c| - 1]);
    CoreIsUnique(Lower(a), Lower(c), Lower(b), d, Trim(JsSpace, Lower(s)), f);
  }

  lemma SameTrimmed(s: string, t: string)
    requires SameUpToCase(s, t)
    ensures SameUpToCase(Trim(JsSpace, s), Trim(JsSpace, t))
  {
    LowerIff(s, t);
    LowerTrim(s);
    LowerTrim(t);
    LowerIff(Trim(JsSpace, s), Trim(JsSpace, t));
  }

  /** The comparison after trimming, in words: equal up to case and outer white space. */
  lemma AlikeIff(s: string, t: string)
    ensures SameUpToCase(Trim(JsSpace, s), Trim(JsSpace, t)) <==> Alike(s, t)
  {
    TrimIsAround(s);
    TrimIsAround(t);
    if Alike(s, t) {
      var c, d :| Around(s, c) && Around(t, d) && SameUpToCase(c, d);
      TrimAround(s, c);
      TrimAround(t, d);
      SameTrimmed(c, d);
    }
  }

  /** Lower-cased and trimmed texts are equal exactly when the texts are alike. */
  lemma LowerAlike(s: string, t: string)
    ensures Lower(Trim(JsSpace, s)) == Lower(Trim(JsSpace, t)) <==> Alike(s, t)
    ensures Trim(JsSpace, Lower(s)) == Trim(JsSpace, Lower(t)) <==> Alike(s, t)
  {
    LowerTrim(s);
    LowerTrim(t);
    LowerIff(Trim(JsSpace, s), Trim(JsSpace, t));
    AlikeIff(s, t);
  }

  /** Token symbols match exactly when they are equal up to case and outer white space. */
  lemma SymbolsMatchIff(s: string, t: string)
    ensures SymbolsMatch(s, t) <==> Alike(s, t)
  {
    UpperIff(Trim(JsSpace, s), Trim(JsSpace, t));
    AlikeIff(s, t);
  }

  lemma {:induction false} ContainsIff(s: string, t: string)
    ensures Contains(s, t) <==> exists i: nat :: OccursAt(s, t, i)
  {
    if |t| <= |s| && s[..|t|] == t {
      assert OccursAt(s, t, 0);
    } else if |t| <= |s| && s != "" {
      ContainsIff(s[1..], t);
      if i: nat :| OccursAt(s[1..], t, i) {
        assert s[i + 1..i + 1 + |t|] == s[1..][i..i + |t|];
        assert OccursAt(s, t, i + 1);
      }
      if i: nat :| OccursAt(s, t, i) {
        assert i != 0;
        assert s[i..i + |t|] == s[1..][i - 1..i - 1 + |t|];
        assert OccursAt(s[1..], t, i - 1);
      }
    }
  }

  lemma LowerOccurs(s: string, word: string, i: nat)
    requires Lower(word) == word
    ensures OccursAt(Lower(s), word, i) <==> MentionedAt(s, word, i)
  {
    if i + |word| <= |s| {
      assert Lower(s)[i..i + |word|] == Lower(s[i..i + |word|]);
      LowerIff(s[i..i + |word|], word);
    }
  }

  /** Searching the lower-cased text for a lower-case word is searching in any case. */
  lemma LowerContains(s: string, word: string)
    requires Lower(word) == word
    ensures Contains(Lower(s), word) <==> Mentions(s, word)
  {
    ContainsIff(Lower(s), word);
    if i: nat :| OccursAt(Lower(s), word, i) {
      LowerOccurs(s, word, i);
    }
    if i: nat :| MentionedAt(s, word, i) {
      LowerOccurs(s, word, i);
    }
  }

  lemma OccursInside(a: string, c: string, b: string, word: string, i: nat)
    requires Blank(a) && Blank(b) && word != "" && forall k :: 0 <= k < |word| ==> !JsSpace(word[k])
    requires OccursAt(a + c + b, word, i)
    ensures i >= |a| && OccursAt(c, word, i - |a|)
  {
    var s, n := a + c + b, |word|;
    assert !JsSpace(s[i..i + n][0]) && !JsSpace(s[i..i + n][n - 1]);
    assert c[i - |a|..i - |a| + n] == s[i..i + n];
  }

  lemma OccursOutside(a: string, c: string, b: string, word: string, i: nat)
    requires OccursAt(c, word, i)
    ensures OccursAt(a + c + b, word, |a| + i)
  {
    var s, k := a + c + b, |a| + i;
    assert s[k..k + |word|] == c[i..i + |word|];
  }

  lemma OccursAround(a: string, c: string, b: string, word: string)
    requires Blank(a) && Blank(b) && word != "" && forall k :: 0 <= k < |word| ==> !JsSpace(word[k])
    ensures Contains(a + c + b, word) <==> Contains(c, word)
  {
    ContainsIff(a + c + b, word);
    ContainsIff(c, word);
    if i: nat :| OccursAt(c, word, i) {
      OccursOutside(a, c, b, word, i);
    }
    if i: nat :| OccursAt(a + c + b, word, i) {
      OccursInside(a, c, b, word, i);
    }
  }

  /** Outer white space does not hide or make a word without white space. */
  lemma TrimContains(s: string, word: string)
    requires word != "" && forall k :: 0 <= k < |word| ==> !JsSpace(word[k])
    ensures Contains(Trim(JsSpace, s), word) <==> Contains(s, word)
  {
    var a, b := TrimSplits(s);
    OccursAround(a, Trim(JsSpace, s), b, word);
  }
}
