/** Counting facts about finite sets and duplicate-free sequences. */
module Finite {

  ghost predicate Distinct<T>(a: seq<T>)
  {
    forall i, j :: 0 <= i < j < |a| ==> a[i] != a[j]
  }

  ghost function Elements<T>(s: seq<T>): set<T> { set x | x in s }

  lemma {:induction false} ElementsAppend<T>(s: seq<T>, x: T)
    ensures Elements(s + [x]) == Elements(s) + {x}
  {
  }

  lemma {:induction false} DistinctAppend<T>(s: seq<T>, x: T)
    requires Distinct(s) && x !in Elements(s)
    ensures Distinct(s + [x])
  {
  }

  lemma {:induction false} DistinctSize<T>(p: seq<T>)
    requires Distinct(p)
    ensures |Elements(p)| == |p|
  {
    if p != [] {
      DistinctSize(p[1..]);
      assert p == [p[0]] + p[1..];
      assert Elements(p) == {p[0]} + Elements(p[1..]);
    }
  }

  lemma {:induction false} SubsetSize<T>(a: set<T>, b: set<T>)
    requires a <= b
    ensures |a| <= |b|
    ensures |a| == |b| ==> a == b
  {
    if a != {} {
      var x :| x in a;
      SubsetSize(a - {x}, b - {x});
    }
  }

  lemma {:induction false} SmallerSet<T>(a: set<T>, b: set<T>)
    requires a < b
    ensures |a| < |b|
  {
    SubsetSize(a, b);
  }

  lemma {:induction false} DistinctIffSingle<T>(a: seq<T>)
    ensures Distinct(a) <==> forall x :: x in multiset(a) ==> multiset(a)[x] == 1
  {
    if a != [] {
      var last, init := a[|a| - 1], a[..|a| - 1];
      assert a == init + [last];
      DistinctIffSingle(init);
      if Distinct(a) {
        assert last !in init;
        assert last !in multiset(init);
      } else if Distinct(init) {
        var i :| 0 <= i < |init| && init[i] == last;
        assert last in multiset(init);
        assert multiset(a)[last] == 2;
      } else {
        var x :| x in multiset(init) && multiset(init)[x] != 1;
        assert multiset(a)[x] != 1;
      }
    }
  }

  /** A permutation keeps length, membership and distinctness. */
  lemma {:induction false} PermutationFacts<T>(a: seq<T>, b: seq<T>)
    requires multiset(a) == multiset(b)
    ensures |a| == |b|
    ensures forall x :: x in a <==> x in b
    ensures Distinct(a) <==> Distinct(b)
  {
    assert |multiset(a)| == |a| && |multiset(b)| == |b|;
    forall x ensures x in a <==> x in b {
      assert x in a <==> x in multiset(a);
      assert x in b <==> x in multiset(b);
    }
    DistinctIffSingle(a);
    DistinctIffSingle(b);
  }

  /** One more of the elements is done. */
  lemma {:induction false} OneLess<T>(deps: set<T>, done: set<T>, x: T)
    requires x in deps && x !in done
    ensures |deps - done| == |deps - (done + {x})| + 1
    ensures |deps - (done + {x})| == 0 <==> deps <= done + {x}
  {
    var rest := deps - (done + {x});
    assert deps - done == rest + {x};
    if rest == {} {
      forall d | d in deps ensures d in done + {x} { assert d !in rest; }
    }
  }
}
