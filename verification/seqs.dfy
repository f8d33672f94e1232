/** Array.prototype.filter and the facts about it that the roster and attendance code rely on. */
module Seqs {

  /** The elements of `s` that satisfy `p`, in their original order. */
  function Filter<T(!new)>(s: seq<T>, p: T -> bool): (r: seq<T>)
    ensures |r| <= |s|
    ensures forall x :: x in r <==> x in s && p(x)
  {
    if s == [] then []
    else
      assert s == [s[0]] + s[1..];
      (if p(s[0]) then [s[0]] else []) + Filter(s[1..], p)
  }

  /** Filtering keeps every occurrence of the elements satisfying `p` and none of the others. */
  lemma {:induction false} FilterCounts<T(!new)>(s: seq<T>, p: T -> bool)
    ensures forall x :: p(x) ==> multiset(Filter(s, p))[x] == multiset(s)[x]
    ensures forall x :: !p(x) ==> multiset(Filter(s, p))[x] == 0
  {
    if s != [] {
      assert s == [s[0]] + s[1..];
      FilterCounts(s[1..], p);
    }
  }

  /** No element occurs twice. */
  predicate NoDup<T(==)>(s: seq<T>) {
    forall i, j :: 0 <= i < j < |s| ==> s[i] != s[j]
  }

  /** Filtering a concatenation filters each part: the relative order of kept elements is preserved. */
  lemma {:induction false} FilterConcat<T(!new)>(a: seq<T>, b: seq<T>, p: T -> bool)
    ensures Filter(a + b, p) == Filter(a, p) + Filter(b, p)
  {
    if a == [] {
      assert a + b == b;
    } else {
      assert (a + b)[0] == a[0];
      assert (a + b)[1..] == a[1..] + b;
      FilterConcat(a[1..], b, p);
    }
  }

  /** Filtering a one-element sequence keeps the element exactly when it satisfies `p`. */
  lemma FilterSingleton<T(!new)>(x: T, p: T -> bool)
    ensures Filter([x], p) == if p(x) then [x] else []
  {
    assert [x][1..] == [];
  }

  /** Filtering a sequence with a first element `x`. */
  lemma FilterCons<T(!new)>(x: T, s: seq<T>, p: T -> bool)
    ensures Filter([x] + s, p) == (if p(x) then [x] else []) + Filter(s, p)
  {
    assert ([x] + s)[0] == x;
    assert ([x] + s)[1..] == s;
  }

  /**
   * Putting the same element `x` in front of `rest` and of `s` keeps the
   * filtered `rest` ahead of the filtered `s` by `extra`, provided `x` does
   * not pass whenever `extra` is not empty.
   */
  lemma FilterConsShift<T(!new)>(x: T, s: seq<T>, rest: seq<T>, extra: seq<T>, p: T -> bool)
    requires Filter(rest, p) == extra + Filter(s, p)
    requires extra != [] ==> !p(x)
    ensures Filter([x] + rest, p) == extra + Filter([x] + s, p)
  {
    FilterCons(x, rest, p);
    FilterCons(x, s, p);
    var fs := Filter(s, p);
    var h: seq<T> := if p(x) then [x] else [];
    if p(x) {
      assert extra == [];
      assert extra + fs == fs && extra + (h + fs) == h + fs;
    } else {
      assert h == [];
      assert h + (extra + fs) == extra + fs && h + fs == fs;
    }
  }

  /** When every element already satisfies `p`, filtering changes nothing. */
  lemma {:induction false} FilterKeepsAll<T(!new)>(s: seq<T>, p: T -> bool)
    requires forall x :: x in s ==> p(x)
    ensures Filter(s, p) == s
  {
    if s != [] {
      FilterKeepsAll(s[1..], p);
    }
  }

  /** Filtering twice with the same predicate is filtering once. */
  lemma FilterIdempotent<T(!new)>(s: seq<T>, p: T -> bool)
    ensures Filter(Filter(s, p), p) == Filter(s, p)
  {
    FilterKeepsAll(Filter(s, p), p);
  }

  /** Two predicates that agree on the elements of `s` filter it identically. */
  lemma {:induction false} FilterCongruent<T(!new)>(s: seq<T>, p: T -> bool, q: T -> bool)
    requires forall x :: x in s ==> p(x) == q(x)
    ensures Filter(s, p) == Filter(s, q)
  {
    if s != [] {
      FilterCongruent(s[1..], p, q);
    }
  }

  /** Filtering by `p` first is redundant when every element satisfying `q` satisfies `p`. */
  lemma {:induction false} FilterAbsorb<T(!new)>(s: seq<T>, p: T -> bool, q: T -> bool)
    requires forall x :: x in s && q(x) ==> p(x)
    ensures Filter(Filter(s, p), q) == Filter(s, q)
  {
    if s != [] {
      FilterAbsorb(s[1..], p, q);
      FilterConcat([s[0]], s[1..], p);
      FilterConcat([s[0]], s[1..], q);
      FilterConcat(Filter([s[0]], p), Filter(s[1..], p), q);
      FilterSingleton(s[0], p);
      FilterSingleton(s[0], q);
      assert s == [s[0]] + s[1..];
    }
  }

  /** A predicate and its negation split `s` into two parts that together hold exactly its elements. */
  lemma {:induction false} FilterSplit<T(!new)>(s: seq<T>, p: T -> bool, q: T -> bool)
    requires forall x :: q(x) == !p(x)
    ensures |Filter(s, p)| + |Filter(s, q)| == |s|
    ensures multiset(Filter(s, p)) + multiset(Filter(s, q)) == multiset(s)
  {
    if s != [] {
      assert s == [s[0]] + s[1..];
      FilterSplit(s[1..], p, q);
    }
  }

  /** Filtering keeps a duplicate-free sequence duplicate-free. */
  lemma {:induction false} FilterNoDup<T(!new)>(s: seq<T>, p: T -> bool)
    requires NoDup(s)
    ensures NoDup(Filter(s, p))
  {
    if s != [] {
      assert s == [s[0]] + s[1..];
      assert NoDup(s[1..]) by {
        forall i, j | 0 <= i < j < |s[1..]| ensures s[1..][i] != s[1..][j] {
          assert s[1..][i] == s[i + 1] && s[1..][j] == s[j + 1];
        }
      }
      FilterNoDup(s[1..], p);
      assert s[0] !in s[1..] by {
        forall k | 0 <= k < |s[1..]| ensures s[1..][k] != s[0] {
          assert s[1..][k] == s[k + 1];
        }
      }
    }
  }

  /** A sequence has at least as many positions as distinct elements, and exactly as many when duplicate-free. */
  lemma {:induction false} DistinctCount<T>(s: seq<T>)
    ensures |set x | x in s| <= |s|
    ensures NoDup(s) ==> |set x | x in s| == |s|
  {
    if s != [] {
      var tail := s[1..];
      DistinctCount(tail);
      assert s == [s[0]] + tail;
      assert (set x | x in s) == (set x | x in tail) + {s[0]};
      if NoDup(s) {
        assert NoDup(tail) by {
          forall i, j | 0 <= i < j < |tail| ensures tail[i] != tail[j] {
            assert tail[i] == s[i + 1] && tail[j] == s[j + 1];
          }
        }
        assert s[0] !in tail by {
          forall k | 0 <= k < |tail| ensures tail[k] != s[0] {
            assert tail[k] == s[k + 1];
          }
        }
      }
    }
  }

  /** Every subset of a finite set is no larger than it. */
  lemma {:induction false} SubsetCard<T>(a: set<T>, b: set<T>)
    requires a <= b
    ensures |a| <= |b|
    decreases |b|
  {
    if a != {} {
      var x :| x in a;
      SubsetCard(a - {x}, b - {x});
    }
  }
}
