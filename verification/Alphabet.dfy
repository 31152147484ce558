/** Strings over a fixed alphabet and the positions of their characters in it. */
module Alphabet {

  /** String.prototype.indexOf for one character: its first position, or -1. */
  function IndexOf(al: string, c: char): (i: int)
    ensures -1 <= i < |al|
    ensures i >= 0 ==> al[i] == c && c !in al[..i]
    ensures i < 0 <==> c !in al
  {
    if al == [] then -1
    else if al[0] == c then 0
    else
      assert al == [al[0]] + al[1..];
      var i := IndexOf(al[1..], c);
      if i < 0 then -1 else
        assert al[..i + 1] == [al[0]] + al[1..][..i];
        i + 1
  }

  predicate Over(al: string, s: string) {
    forall i :: 0 <= i < |s| ==> s[i] in al
  }

  predicate Distinct(al: string) {
    forall i, j :: 0 <= i < j < |al| ==> al[i] != al[j]
  }

  function IndicesOf(al: string, s: string): (ds: seq<nat>)
    requires Over(al, s)
    ensures |ds| == |s|
    ensures forall i :: 0 <= i < |s| ==> ds[i] < |al| && al[ds[i]] == s[i]
  {
    seq(|s|, i requires 0 <= i < |s| => IndexOf(al, s[i]))
  }

  function CharsOf(al: string, ds: seq<nat>): (s: string)
    requires forall i :: 0 <= i < |ds| ==> ds[i] < |al|
    ensures |s| == |ds| && Over(al, s)
    ensures forall i :: 0 <= i < |ds| ==> s[i] == al[ds[i]]
  {
    seq(|ds|, i requires 0 <= i < |ds| => al[ds[i]])
  }

  lemma CharsOfIndices(al: string, s: string)
    requires Over(al, s)
    ensures CharsOf(al, IndicesOf(al, s)) == s
  {
  }

  lemma IndicesOfChars(al: string, ds: seq<nat>)
    requires Distinct(al) && forall i :: 0 <= i < |ds| ==> ds[i] < |al|
    ensures IndicesOf(al, CharsOf(al, ds)) == ds
  {
    var back := IndicesOf(al, CharsOf(al, ds));
    forall i | 0 <= i < |ds| ensures back[i] == ds[i] {
      assert al[back[i]] == al[ds[i]];
    }
  }

  lemma IndicesOfSnoc(al: string, s: string, c: char)
    requires Over(al, s) && c in al
    ensures Over(al, s + [c])
    ensures IndicesOf(al, s + [c]) == IndicesOf(al, s) + [IndexOf(al, c)]
  {
  }
}
