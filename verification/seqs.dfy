/** Order-preserving filtering of sequences, shared by the catalog engine,
    the client reducer and the home page sections (all of which use
    JavaScript's `Array.prototype.filter`). */
module Seqs {

  /** `r` can be obtained from `s` by deleting elements, keeping the order of the rest. */
  ghost predicate SubsequenceOf<T>(r: seq<T>, s: seq<T>)
    decreases |s|
  {
    if |r| == 0 then true
    else if |s| == 0 then false
    else (r[0] == s[0] && SubsequenceOf(r[1..], s[1..])) || SubsequenceOf(r, s[1..])
  }

  /** Every pair of elements, taken in order, is related by `rel`. */
  ghost predicate Pairwise<T>(rel: (T, T) -> bool, s: seq<T>) {
    forall i, j :: 0 <= i < j < |s| ==> rel(s[i], s[j])
  }

  /** The elements of `s` that satisfy `p`, in their original order. */
  function Filter<T>(p: T -> bool, s: seq<T>): (r: seq<T>)
    ensures |r| <= |s|
    ensures forall i :: 0 <= i < |r| ==> p(r[i]) && r[i] in s
    ensures forall i :: 0 <= i < |s| && p(s[i]) ==> s[i] in r
    decreases |s|
  {
    if |s| == 0 then []
    else
      assert s == [s[0]] + s[1..];
      if p(s[0]) then [s[0]] + Filter(p, s[1..]) else Filter(p, s[1..])
  }

  /** Filtering deletes elements and keeps the order of the rest. */
  lemma {:induction false} FilterIsSubsequence<T>(p: T -> bool, s: seq<T>)
    ensures SubsequenceOf(Filter(p, s), s)
    decreases |s|
  {
    if |s| > 0 {
      FilterIsSubsequence(p, s[1..]);
      var r := Filter(p, s);
      if p(s[0]) {
        assert r[0] == s[0] && r[1..] == Filter(p, s[1..]);
      } else {
        assert r == Filter(p, s[1..]);
      }
    }
  }

  /** Filtering distributes over concatenation; with the one-element case
      this fixes exactly which elements survive and in which order. */
  lemma {:induction false} FilterAppend<T>(p: T -> bool, a: seq<T>, b: seq<T>)
    ensures Filter(p, a + b) == Filter(p, a) + Filter(p, b)
    decreases |a|
  {
    if |a| == 0 {
      assert a + b == b;
    } else {
      assert (a + b)[0] == a[0];
      assert (a + b)[1..] == a[1..] + b;
      FilterAppend(p, a[1..], b);
    }
  }

  /** When nothing satisfies `p`, filtering keeps nothing. */
  lemma NoneKept<T>(p: T -> bool, s: seq<T>)
    requires forall i :: 0 <= i < |s| ==> !p(s[i])
    ensures Filter(p, s) == []
  {
  }

  /** When everything satisfies `p`, filtering keeps everything. */
  lemma {:induction false} AllKept<T>(p: T -> bool, s: seq<T>)
    requires forall i :: 0 <= i < |s| ==> p(s[i])
    ensures Filter(p, s) == s
    decreases |s|
  {
    if |s| > 0 {
      assert forall i :: 0 <= i < |s[1..]| ==> s[1..][i] == s[i + 1];
      AllKept(p, s[1..]);
    }
  }

  /** When exactly one element satisfies `p`, filtering keeps just that one. */
  lemma {:induction false} OneKept<T>(p: T -> bool, s: seq<T>, k: int)
    requires 0 <= k < |s| && p(s[k])
    requires forall i :: 0 <= i < |s| && i != k ==> !p(s[i])
    ensures Filter(p, s) == [s[k]]
    decreases |s|
  {
    var tail := s[1..];
    assert forall i :: 0 <= i < |tail| ==> tail[i] == s[i + 1];
    if k == 0 {
      NoneKept(p, tail);
    } else {
      OneKept(p, tail, k - 1);
    }
  }

  /** Putting the same element in front of two sequences keeps a relation
      between their filterings of the form "one is the other plus `extra`". */
  lemma ConsKeepsAppended<T>(p: T -> bool, x: T, s: seq<T>, rest: seq<T>, extra: seq<T>)
    requires Filter(p, rest) == Filter(p, s) + extra
    ensures Filter(p, [x] + rest) == Filter(p, [x] + s) + extra
  {
    assert ([x] + rest)[0] == x && ([x] + rest)[1..] == rest;
    assert ([x] + s)[0] == x && ([x] + s)[1..] == s;
    if p(x) {
      assert [x] + (Filter(p, s) + extra) == ([x] + Filter(p, s)) + extra;
    }
  }

  /** Filtering by pointwise-equal predicates gives the same sequence. */
  lemma {:induction false} FilterExt<T>(p: T -> bool, q: T -> bool, s: seq<T>)
    requires forall x :: p(x) == q(x)
    ensures Filter(p, s) == Filter(q, s)
    decreases |s|
  {
    if |s| > 0 {
      FilterExt(p, q, s[1..]);
    }
  }

  /** The conjunction of two predicates. */
  function Both<T>(p: T -> bool, q: T -> bool): T -> bool {
    x => p(x) && q(x)
  }

  /** Two filters in a row keep exactly what one filter by the conjunction keeps. */
  lemma {:induction false} FilterCompose<T>(p: T -> bool, q: T -> bool, s: seq<T>)
    ensures Filter(q, Filter(p, s)) == Filter(Both(p, q), s)
    decreases |s|
  {
    if |s| > 0 {
      FilterCompose(p, q, s[1..]);
      if p(s[0]) {
        assert Filter(p, s) == [s[0]] + Filter(p, s[1..]);
        assert ([s[0]] + Filter(p, s[1..]))[1..] == Filter(p, s[1..]);
      }
    }
  }

  /** Filtering never breaks a pairwise property such as "no two elements share a key". */
  lemma {:induction false} FilterKeepsPairwise<T>(rel: (T, T) -> bool, p: T -> bool, s: seq<T>)
    requires Pairwise(rel, s)
    ensures Pairwise(rel, Filter(p, s))
    decreases |s|
  {
    if |s| > 0 {
      assert Pairwise(rel, s[1..]) by {
        forall i, j | 0 <= i < j < |s[1..]|
          ensures rel(s[1..][i], s[1..][j])
        {
          assert s[1..][i] == s[i + 1] && s[1..][j] == s[j + 1];
        }
      }
      FilterKeepsPairwise(rel, p, s[1..]);
      if p(s[0]) {
        var r := Filter(p, s);
        var t := Filter(p, s[1..]);
        assert r == [s[0]] + t;
        forall i, j | 0 <= i < j < |r|
          ensures rel(r[i], r[j])
        {
          if i == 0 {
            assert r[j] == t[j - 1];
            assert t[j - 1] in s[1..];
            var k :| 0 <= k < |s[1..]| && s[1..][k] == t[j - 1];
            assert s[k + 1] == r[j];
          } else {
            assert r[i] == t[i - 1] && r[j] == t[j - 1];
          }
        }
      }
    }
  }
}
