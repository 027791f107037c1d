/** `Array.prototype.filter` and `find`, and what "an order-preserving
    sublist" means. */
module Seqs {
  import opened Wrappers

  /** `r` is `s` with some elements left out and the rest in their order. */
  predicate IsSubsequence<T(==)>(r: seq<T>, s: seq<T>)
    decreases |s|
  {
    if |r| == 0 then true
    else if |s| == 0 then false
    else if r[0] == s[0] then IsSubsequence(r[1..], s[1..])
    else IsSubsequence(r, s[1..])
  }

  /** `s.filter(keep)`: the kept elements, each as often as in `s`, in
      their original order. */
  function Filter<T(==,!new)>(s: seq<T>, keep: T -> bool): (r: seq<T>)
    ensures IsSubsequence(r, s)
    ensures forall x :: x in r <==> x in s && keep(x)
    ensures forall x :: multiset(r)[x] == if keep(x) then multiset(s)[x] else 0
    decreases |s|
  {
    if |s| == 0 then []
    else
      var rest := Filter(s[1..], keep);
      assert s == [s[0]] + s[1..];
      if keep(s[0]) then [s[0]] + rest else rest
  }

  /** `s.find(matches)`: the first element that matches, if any. */
  function Find<T(==)>(s: seq<T>, matches: T -> bool): (r: Option<T>)
    ensures r.None? <==> forall i :: 0 <= i < |s| ==> !matches(s[i])
    ensures r.Some? ==> exists k :: FirstMatchAt(s, matches, k) && r.value == s[k]
    decreases |s|
  {
    if |s| == 0 then None
    else if matches(s[0]) then
      assert FirstMatchAt(s, matches, 0);
      Some(s[0])
    else
      var r := Find(s[1..], matches);
      if r.Some? then
        var k :| FirstMatchAt(s[1..], matches, k) && r.value == s[1..][k];
        assert FirstMatchAt(s, matches, k + 1);
        r
      else r
  }

  /** Position `k` holds the first element of `s` that matches. */
  predicate FirstMatchAt<T>(s: seq<T>, matches: T -> bool, k: int) {
    0 <= k < |s| && matches(s[k]) && forall i :: 0 <= i < k ==> !matches(s[i])
  }

  /** Filtering with a test every element passes gives the sequence back. */
  lemma {:induction false} FilterKeepsAll<T(!new)>(s: seq<T>, keep: T -> bool)
    requires forall i :: 0 <= i < |s| ==> keep(s[i])
    ensures Filter(s, keep) == s
    decreases |s|
  {
    if |s| > 0 {
      FilterKeepsAll(s[1..], keep);
      FilterCons(s, keep);
    }
  }

  /** One step of `Filter`: the head is kept or dropped, then the tail is filtered. */
  lemma FilterCons<T(!new)>(s: seq<T>, keep: T -> bool)
    requires |s| > 0
    ensures Filter(s, keep) == if keep(s[0]) then [s[0]] + Filter(s[1..], keep) else Filter(s[1..], keep)
  {
  }
}
