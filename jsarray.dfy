/**
 The few JavaScript `Array.prototype` methods the catalog code is built from
 (`slice`, `find`, `filter`), as functions over Dafny sequences.
 */
module JsArray {

  datatype Option<T> = None | Some(value: T)

  function Min(a: int, b: int): int { if a <= b then a else b }

  /** Where `slice` starts or stops for the argument `k` on an array of
      length `len`: a negative `k` counts back from the end, and the result
      is clamped to `0..len`. */
  function RelativeIndex(len: nat, k: int): (i: nat)
    ensures i <= len
  {
    if k < 0 then (if len + k < 0 then 0 else len + k)
    else if k < len then k else len
  }

  /** `s.slice(start, end)`. */
  function Slice<T>(s: seq<T>, start: int, end: int): (r: seq<T>)
    ensures start <= end ==> |r| <= end - start
    ensures 0 <= start && r != [] ==> start + |r| <= |s|
    ensures 0 <= start <= end ==> |r| == (if |s| <= start then 0 else Min(end, |s|) - start)
    ensures 0 <= start ==> forall k :: 0 <= k < |r| ==> r[k] == s[start + k]
    ensures 0 <= start && |s| <= start ==> r == []
  {
    var a, b := RelativeIndex(|s|, start), RelativeIndex(|s|, end);
    if a < b then s[a..b] else []
  }

  /** `s.find(p)`: the first element satisfying `p`, or nothing (`undefined`). */
  function Find<T>(s: seq<T>, p: T -> bool): (r: Option<T>)
    ensures r.None? <==> forall i :: 0 <= i < |s| ==> !p(s[i])
    ensures r.Some? ==> exists i :: 0 <= i < |s| && s[i] == r.value && p(s[i]) && forall j :: 0 <= j < i ==> !p(s[j])
  {
    if s == [] then None
    else if p(s[0]) then Some(s[0])
    else
      var r := Find(s[1..], p);
      assert r.Some? ==> forall j :: 0 <= j < 1 ==> !p(s[j]);
      assert forall i :: 0 <= i < |s[1..]| ==> s[1..][i] == s[i + 1];
      r
  }

  /** `s.filter(p)`: the elements satisfying `p`, in their original order. */
  function Filter<T>(s: seq<T>, p: T -> bool): (r: seq<T>)
    ensures |r| <= |s|
    ensures forall k :: 0 <= k < |r| ==> r[k] in s && p(r[k])
  {
    if s == [] then []
    else (if p(s[0]) then [s[0]] else []) + Filter(s[1..], p)
  }

  predicate StrictlyIncreasing(ix: seq<nat>) {
    forall k, l :: 0 <= k < l < |ix| ==> ix[k] < ix[l]
  }

  /** The positions of `s` whose element satisfies `p`, in increasing order:
      the positions `filter` keeps. */
  function IndicesWhere<T>(s: seq<T>, p: T -> bool): (ix: seq<nat>)
    ensures StrictlyIncreasing(ix)
    ensures forall k :: 0 <= k < |ix| ==> ix[k] < |s| && p(s[ix[k]])
  {
    if s == [] then []
    else
      var rest := IndicesWhere(s[1..], p);
      var shifted := Shift(rest);
      assert forall k :: 0 <= k < |shifted| ==> 0 < shifted[k] < |s| && s[shifted[k]] == s[1..][rest[k]];
      if p(s[0]) then [0] + shifted else shifted
  }

  /** Every position whose element satisfies `p` is among `IndicesWhere`. */
  lemma {:induction false} IndicesWhereComplete<T>(s: seq<T>, p: T -> bool, i: nat)
    requires i < |s| && p(s[i])
    ensures i in IndicesWhere(s, p)
  {
    if i > 0 {
      assert s[1..][i - 1] == s[i];
      IndicesWhereComplete(s[1..], p, i - 1);
      var rest := IndicesWhere(s[1..], p);
      var k :| 0 <= k < |rest| && rest[k] == i - 1;
      assert Shift(rest)[k] == i;
    }
  }

  /** Every index moved one place to the right. */
  function Shift(ix: seq<nat>): (r: seq<nat>)
    ensures |r| == |ix| && forall k :: 0 <= k < |ix| ==> r[k] == ix[k] + 1
  {
    seq(|ix|, k requires 0 <= k < |ix| => ix[k] + 1)
  }

  /** `filter` keeps exactly the elements at `IndicesWhere`, in that order,
      and those are exactly the positions whose element satisfies `p`: the
      result is the order-preserving subsequence of the elements satisfying
      `p`. */
  lemma FilterIsSubsequence<T>(s: seq<T>, p: T -> bool)
    ensures StrictlyIncreasing(IndicesWhere(s, p))
    ensures |Filter(s, p)| == |IndicesWhere(s, p)|
    ensures forall k :: 0 <= k < |Filter(s, p)| ==> Filter(s, p)[k] == s[IndicesWhere(s, p)[k]]
    ensures forall i :: 0 <= i < |s| ==> (i in IndicesWhere(s, p) <==> p(s[i]))
  {
    FilterAtIndices(s, p);
    forall i | 0 <= i < |s| && p(s[i]) ensures i in IndicesWhere(s, p) {
      IndicesWhereComplete(s, p, i);
    }
  }

  /** The k-th element `filter` keeps is the one at the k-th satisfying position. */
  lemma {:induction false} FilterAtIndices<T>(s: seq<T>, p: T -> bool)
    ensures |Filter(s, p)| == |IndicesWhere(s, p)|
    ensures forall k :: 0 <= k < |Filter(s, p)| ==> Filter(s, p)[k] == s[IndicesWhere(s, p)[k]]
  {
    if s != [] {
      FilterAtIndices(s[1..], p);
    }
  }

  /** `filter` keeps every element satisfying `p`. */
  lemma FilterComplete<T>(s: seq<T>, p: T -> bool, i: nat)
    requires i < |s| && p(s[i])
    ensures s[i] in Filter(s, p)
  {
    FilterIsSubsequence(s, p);
    var ix := IndicesWhere(s, p);
    var k :| 0 <= k < |ix| && ix[k] == i;
    assert Filter(s, p)[k] == s[i];
  }

  /** `filter` depends only on what the predicate answers. */
  lemma {:induction false} FilterCongruent<T>(s: seq<T>, p: T -> bool, q: T -> bool)
    requires forall i :: 0 <= i < |s| ==> p(s[i]) == q(s[i])
    ensures Filter(s, p) == Filter(s, q)
  {
    if s != [] {
      FilterCongruent(s[1..], p, q);
    }
  }
}
