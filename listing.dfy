/** The query `find(filter).sort({ date: -1 })` over one collection: the
    documents that pass the filter, newest first.  The order of documents
    with equal dates is left open, as it is for the database. */
module Listing {

  predicate NewestFirst<K, T>(s: seq<(K, T)>, date: T -> nat) {
    forall i, j :: 0 <= i < j < |s| ==> date(s[i].1) >= date(s[j].1)
  }

  /** No document appears twice. */
  predicate DistinctIds<K(==), T>(s: seq<(K, T)>) {
    forall i, j :: 0 <= i < j < |s| ==> s[i].0 != s[j].0
  }

  /** Puts `x` in front of the first document that is not newer than it. */
  function Insert<K(==,!new), T(==,!new)>(s: seq<(K, T)>, x: (K, T), date: T -> nat): (r: seq<(K, T)>)
    ensures |r| == |s| + 1
    ensures forall e :: e in r <==> e == x || e in s
    ensures multiset(r) == multiset(s) + multiset{x}
    ensures NewestFirst(s, date) ==> NewestFirst(r, date)
    decreases |s|
  {
    if |s| == 0 || date(x.1) >= date(s[0].1) then
      assert NewestFirst(s, date) ==> NewestFirst([x] + s, date) by {
        if NewestFirst(s, date) {
          PrependKeepsOrder(x, s, date);
        }
      }
      [x] + s
    else
      var rest := Insert(s[1..], x, date);
      ConsUnderInsert(s, x, rest);
      assert NewestFirst(s, date) ==> NewestFirst([s[0]] + rest, date) by {
        if NewestFirst(s, date) {
          assert forall e :: e in rest ==> date(s[0].1) >= date(e.1);
          PrependKeepsOrder(s[0], rest, date);
        }
      }
      [s[0]] + rest
  }

  /** A document not older than anything in a newest-first list can go in front. */
  lemma PrependKeepsOrder<K, T>(h: (K, T), s: seq<(K, T)>, date: T -> nat)
    requires NewestFirst(s, date)
    requires |s| == 0 || date(h.1) >= date(s[0].1)
    ensures NewestFirst([h] + s, date)
  {
    var r := [h] + s;
    forall i, j | 0 <= i < j < |r| ensures date(r[i].1) >= date(r[j].1) {
      if i == 0 && j > 1 {
        assert r[j] == s[j - 1];
      }
    }
  }

  /** The contents of `[s[0]] + rest`, where `rest` is `s[1..]` with `x` added. */
  lemma ConsUnderInsert<K, T>(s: seq<(K, T)>, x: (K, T), rest: seq<(K, T)>)
    requires |s| > 0
    requires multiset(rest) == multiset(s[1..]) + multiset{x}
    ensures multiset([s[0]] + rest) == multiset(s) + multiset{x}
    ensures forall e :: e in [s[0]] + rest <==> e == x || e in s
  {
    assert s == [s[0]] + s[1..];
    var r := [s[0]] + rest;
    assert multiset(r) == multiset(s) + multiset{x};
    forall e ensures e in r <==> e == x || e in s {
      assert e in r <==> e in multiset(r);
      assert e in s <==> e in multiset(s);
    }
  }

  lemma {:induction false} InsertKeepsIdsDistinct<K(!new), T(!new)>(s: seq<(K, T)>, x: (K, T), date: T -> nat)
    requires DistinctIds(s)
    requires forall e :: e in s ==> e.0 != x.0
    ensures DistinctIds(Insert(s, x, date))
    decreases |s|
  {
    if |s| == 0 || date(x.1) >= date(s[0].1) {
    } else {
      InsertKeepsIdsDistinct(s[1..], x, date);
      var rest := Insert(s[1..], x, date);
      assert forall e :: e in s[1..] ==> e.0 != s[0].0 by {
        forall e | e in s[1..] ensures e.0 != s[0].0 {
          var j :| 0 <= j < |s[1..]| && s[1..][j] == e;
          assert s[j + 1] == e;
        }
      }
      assert forall e :: e in rest ==> e.0 != s[0].0;
      var r := [s[0]] + rest;
      forall i, j | 0 <= i < j < |r| ensures r[i].0 != r[j].0 {
        if i == 0 {
          assert r[j] in rest;
        } else {
          assert r[i] == rest[i - 1] && r[j] == rest[j - 1];
        }
      }
    }
  }

  /** The documents of `m` that `keep` accepts, each once, newest first. */
  method Query<K(==,!new), T(==,!new)>(m: map<K, T>, keep: T -> bool, date: T -> nat) returns (r: seq<(K, T)>)
    ensures NewestFirst(r, date)
    ensures DistinctIds(r)
    ensures forall e :: e in r <==> e.0 in m && e.1 == m[e.0] && keep(e.1)
  {
    r := [];
    var todo := m.Keys;
    while todo != {}
      invariant todo <= m.Keys
      invariant NewestFirst(r, date) && DistinctIds(r)
      invariant forall e :: e in r <==> e.0 in m && e.0 !in todo && e.1 == m[e.0] && keep(e.1)
      decreases todo
    {
      var k :| k in todo;
      if keep(m[k]) {
        InsertKeepsIdsDistinct(r, (k, m[k]), date);
        r := Insert(r, (k, m[k]), date);
      }
      todo := todo - {k};
    }
  }
}
