/** The JavaScript array primitives the source relies on (`find`, `findIndex`,
    `filter`), stated once over Dafny sequences. */
module Seqs {
  import opened Options

  /** `Array.prototype.findIndex`: the first index whose element satisfies `p`. */
  function FindIndex<T>(s: seq<T>, p: T -> bool): (r: Option<nat>)
    ensures r.Some? ==> r.value < |s| && p(s[r.value])
    ensures r.Some? ==> forall j :: 0 <= j < r.value ==> !p(s[j])
    ensures r.None? <==> forall j :: 0 <= j < |s| ==> !p(s[j])
  {
    if s == [] then None
    else if p(s[0]) then Some(0)
    else match FindIndex(s[1..], p)
      case None => None
      case Some(i) => Some(i + 1)
  }

  /** `Array.prototype.find`: the first element satisfying `p`. */
  function Find<T>(s: seq<T>, p: T -> bool): (r: Option<T>)
    ensures r.Some? <==> exists j :: 0 <= j < |s| && p(s[j])
    ensures r.Some? ==> r.value in s && p(r.value)
  {
    match FindIndex(s, p)
    case None => None
    case Some(i) => Some(s[i])
  }

  /** `Array.prototype.filter`: the elements satisfying `p`, in their order. */
  function Filter<T>(s: seq<T>, p: T -> bool): (r: seq<T>)
    ensures |r| <= |s|
    ensures forall j :: 0 <= j < |r| ==> r[j] in s && p(r[j])
    ensures forall j :: 0 <= j < |s| && p(s[j]) ==> s[j] in r
    ensures (forall j :: 0 <= j < |s| ==> !p(s[j])) ==> r == []
  {
    if s == [] then []
    else (if p(s[0]) then [s[0]] else []) + Filter(s[1..], p)
  }

  /** Filtering distributes over concatenation, so it keeps the relative order. */
  lemma {:induction false} FilterAppend<T>(a: seq<T>, b: seq<T>, p: T -> bool)
    ensures Filter(a + b, p) == Filter(a, p) + Filter(b, p)
  {
    if a == [] {
      assert a + b == b;
    } else {
      assert (a + b)[1..] == a[1..] + b;
      FilterAppend(a[1..], b, p);
    }
  }

  /** Filtering removes nothing exactly when every element passes. */
  lemma {:induction false} FilterKeepsAll<T>(s: seq<T>, p: T -> bool)
    ensures Filter(s, p) == s <==> forall j :: 0 <= j < |s| ==> p(s[j])
  {
    if s != [] {
      FilterKeepsAll(s[1..], p);
      if !p(s[0]) {
        assert |Filter(s, p)| < |s| by { assert |Filter(s[1..], p)| <= |s[1..]|; }
      } else {
        assert forall j :: 1 <= j < |s| ==> s[j] == s[1..][j - 1];
      }
    }
  }
}
