/** Order-preserving filtering and counting over sequences, shared by the
    database listings and the proposal browser. */
module Seqs {
  import opened Wrappers

  /** `Array.prototype.filter`: the elements of `s` that `keep` accepts, in order. */
  function Filter<T(==)>(s: seq<T>, keep: T -> bool): (r: seq<T>)
    ensures |r| <= |s|
    ensures forall i :: 0 <= i < |r| ==> r[i] in s && keep(r[i])
    ensures forall i :: 0 <= i < |s| && keep(s[i]) ==> s[i] in r
  {
    if |s| == 0 then []
    else (if keep(s[0]) then [s[0]] else []) + Filter(s[1..], keep)
  }

  /** Number of elements of `s` that satisfy `p`, counted one position at a time. */
  function Count<T>(s: seq<T>, p: T -> bool): nat
  {
    if |s| == 0 then 0 else (if p(s[0]) then 1 else 0) + Count(s[1..], p)
  }

  /** `a` can be obtained from `b` by deleting elements. */
  predicate IsSubsequence<T(==)>(a: seq<T>, b: seq<T>)
    decreases |b|
  {
    if |a| == 0 then true
    else if |b| == 0 then false
    else (a[0] == b[0] && IsSubsequence(a[1..], b[1..])) || IsSubsequence(a, b[1..])
  }

  /** Every earlier element is related by `before` to every later one. */
  ghost predicate PairwiseOrdered<T>(s: seq<T>, before: (T, T) -> bool)
  {
    forall i, j :: 0 <= i < j < |s| ==> before(s[i], s[j])
  }

  lemma {:induction false} FilterIsSubsequence<T>(s: seq<T>, keep: T -> bool)
    ensures IsSubsequence(Filter(s, keep), s)
  {
    if |s| > 0 {
      FilterIsSubsequence(s[1..], keep);
      var rest := Filter(s[1..], keep);
      if keep(s[0]) {
        assert Filter(s, keep) == [s[0]] + rest;
        assert ([s[0]] + rest)[1..] == rest;
      } else {
        assert Filter(s, keep) == rest;
        if |rest| > 0 {
          assert IsSubsequence(rest, s[1..]);
        }
      }
    }
  }

  /** Filtering with a predicate every element satisfies returns the input. */
  lemma {:induction false} FilterKeepsAll<T>(s: seq<T>, keep: T -> bool)
    requires forall i :: 0 <= i < |s| ==> keep(s[i])
    ensures Filter(s, keep) == s
  {
    if |s| > 0 {
      FilterKeepsAll(s[1..], keep);
      assert [s[0]] + s[1..] == s;
    }
  }

  /** Two successive filters equal one filter by the conjunction. */
  lemma {:induction false} FilterFusion<T>(s: seq<T>, f: T -> bool, g: T -> bool, fg: T -> bool)
    requires forall x :: fg(x) == (f(x) && g(x))
    ensures Filter(Filter(s, f), g) == Filter(s, fg)
  {
    if |s| > 0 {
      FilterFusion(s[1..], f, g, fg);
      var head := if f(s[0]) then [s[0]] else [];
      assert Filter(s, f) == head + Filter(s[1..], f);
      FilterAppend(head, Filter(s[1..], f), g);
    }
  }

  lemma {:induction false} FilterAppend<T>(a: seq<T>, b: seq<T>, keep: T -> bool)
    ensures Filter(a + b, keep) == Filter(a, keep) + Filter(b, keep)
  {
    if |a| == 0 {
      assert a + b == b;
    } else {
      var head := if keep(a[0]) then [a[0]] else [];
      var rest := Filter(a[1..] + b, keep);
      assert Filter(a + b, keep) == head + rest by {
        assert (a + b)[0] == a[0] && (a + b)[1..] == a[1..] + b;
      }
      assert rest == Filter(a[1..], keep) + Filter(b, keep) by {
        FilterAppend(a[1..], b, keep);
      }
      assert head + (Filter(a[1..], keep) + Filter(b, keep)) == (head + Filter(a[1..], keep)) + Filter(b, keep);
    }
  }

  /** Filtering keeps the relative order of what it keeps. */
  lemma {:induction false} FilterKeepsOrder<T>(s: seq<T>, keep: T -> bool, before: (T, T) -> bool)
    requires PairwiseOrdered(s, before)
    ensures PairwiseOrdered(Filter(s, keep), before)
  {
    if |s| > 0 {
      var tail := s[1..];
      assert PairwiseOrdered(tail, before) by {
        forall i, j | 0 <= i < j < |tail| ensures before(tail[i], tail[j]) {
          assert tail[i] == s[i + 1] && tail[j] == s[j + 1];
        }
      }
      FilterKeepsOrder(tail, keep, before);
      var rest := Filter(tail, keep);
      if keep(s[0]) {
        var r := [s[0]] + rest;
        forall i, j | 0 <= i < j < |r| ensures before(r[i], r[j]) {
          if i == 0 {
            assert r[j] == rest[j - 1];
            assert rest[j - 1] in tail;
            var k :| 0 <= k < |tail| && tail[k] == rest[j - 1];
            assert s[k + 1] == tail[k];
          } else {
            assert r[i] == rest[i - 1] && r[j] == rest[j - 1];
          }
        }
        assert Filter(s, keep) == r;
      } else {
        assert Filter(s, keep) == rest;
      }
    }
  }

  /** Counting is the length of the filtered sequence. */
  lemma {:induction false} CountIsFilterLength<T>(s: seq<T>, p: T -> bool)
    ensures Count(s, p) == |Filter(s, p)|
  {
    if |s| > 0 {
      CountIsFilterLength(s[1..], p);
    }
  }

  /** Two predicates that never hold together count at most the whole sequence. */
  lemma {:induction false} CountDisjoint<T>(s: seq<T>, p: T -> bool, q: T -> bool)
    requires forall x :: !(p(x) && q(x))
    ensures Count(s, p) + Count(s, q) <= |s|
  {
    if |s| > 0 {
      CountDisjoint(s[1..], p, q);
    }
  }

  /** A predicate and its negation split the sequence. */
  lemma {:induction false} CountComplement<T>(s: seq<T>, p: T -> bool, notP: T -> bool)
    requires forall x :: notP(x) == !p(x)
    ensures Count(s, p) + Count(s, notP) == |s|
  {
    if |s| > 0 {
      CountComplement(s[1..], p, notP);
    }
  }

  // ---------------------------------------------------------------------
  // Ordering a key set (`ORDER BY key DESC`)

  predicate IsMaxOf(m: int, keys: set<int>)
  {
    m in keys && forall k :: k in keys ==> k <= m
  }

  lemma {:induction false} MaxExists(keys: set<int>)
    requires keys != {}
    ensures exists m :: IsMaxOf(m, keys)
    decreases |keys|
  {
    if forall y :: y !in keys {
      assert false;
    }
    var x :| x in keys;
    var rest := keys - {x};
    assert keys == rest + {x};
    if rest == {} {
      assert keys == {x};
      assert IsMaxOf(x, keys);
    } else {
      MaxExists(rest);
      var m :| IsMaxOf(m, rest);
      var top := if m < x then x else m;
      assert IsMaxOf(top, keys);
    }
  }

  /** The largest key of a non-empty key set. */
  function MaxOf(keys: set<int>): (m: int)
    requires keys != {}
    ensures IsMaxOf(m, keys)
  {
    MaxExists(keys);
    var m :| IsMaxOf(m, keys);
    m
  }

  /** The keys of a table, largest first: a strictly decreasing listing of
      exactly the set. */
  function DescendingKeys(keys: set<int>): (r: seq<int>)
    ensures |r| == |keys|
    ensures forall i :: 0 <= i < |r| ==> r[i] in keys
    ensures forall k :: k in keys ==> k in r
    ensures forall i, j :: 0 <= i < j < |r| ==> r[i] > r[j]
    decreases |keys|
  {
    if keys == {} then []
    else
      var m := MaxOf(keys);
      var others := keys - {m};
      var rest := DescendingKeys(others);
      DescendingCons(m, keys, others, rest);
      [m] + rest
  }

  lemma DescendingCons(m: int, keys: set<int>, others: set<int>, rest: seq<int>)
    requires IsMaxOf(m, keys) && others == keys - {m}
    requires |rest| == |others|
    requires forall i :: 0 <= i < |rest| ==> rest[i] in others
    requires forall k :: k in others ==> k in rest
    requires forall i, j :: 0 <= i < j < |rest| ==> rest[i] > rest[j]
    ensures |[m] + rest| == |keys|
    ensures forall i :: 0 <= i < |[m] + rest| ==> ([m] + rest)[i] in keys
    ensures forall k :: k in keys ==> k in [m] + rest
    ensures forall i, j :: 0 <= i < j < |[m] + rest| ==> ([m] + rest)[i] > ([m] + rest)[j]
  {
    var r := [m] + rest;
    assert |r| == |keys| by {
      assert keys == others + {m} && m !in others;
    }
    assert forall i :: 0 <= i < |r| ==> r[i] in keys by {
      forall i | 0 <= i < |r| ensures r[i] in keys {
        if i > 0 {
          assert r[i] == rest[i - 1];
        }
      }
    }
    assert forall i, j :: 0 <= i < j < |r| ==> r[i] > r[j] by {
      forall i, j | 0 <= i < j < |r| ensures r[i] > r[j] {
        assert r[j] == rest[j - 1];
        assert rest[j - 1] in others;
        if i > 0 {
          assert r[i] == rest[i - 1];
        }
      }
    }
    assert forall k :: k in keys ==> k in r by {
      forall k | k in keys ensures k in r {
        if k != m {
          assert k in others;
          var i :| 0 <= i < |rest| && rest[i] == k;
          assert r[i + 1] == k;
        }
      }
    }
  }

  /** The smallest key of a key set, if it has one (the row a lookup
      without `ORDER BY` meets first). */
  function LowestKey(keys: set<int>): (r: Option<int>)
    ensures r.None? <==> keys == {}
    ensures r.Some? ==> r.value in keys && forall k :: k in keys ==> r.value <= k
  {
    var ks := DescendingKeys(keys);
    if |ks| == 0 then None
    else
      var last := ks[|ks| - 1];
      assert forall k :: k in keys ==> last <= k by {
        forall k | k in keys ensures last <= k {
          var i :| 0 <= i < |ks| && ks[i] == k;
          if i < |ks| - 1 {
            assert ks[i] > ks[|ks| - 1];
          }
        }
      }
      Some(last)
  }
}
