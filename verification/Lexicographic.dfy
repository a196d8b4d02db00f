/** Go's byte-wise order on strings, and the sorting routines the host uses.
    Go compares UTF-8 bytes, which is the order of the code points. */
module Lexicographic {
  import opened Finite

  /** a sorts strictly before b. */
  predicate Less(a: string, b: string)
  {
    if b == "" then false
    else if a == "" then true
    else a[0] < b[0] || (a[0] == b[0] && Less(a[1..], b[1..]))
  }

  /** At place k a ends, or has the smaller character; up to there they agree. */
  ghost predicate LessAt(a: string, b: string, k: nat)
  {
    k <= |a| && k < |b| && a[..k] == b[..k] && (k == |a| || a[k] < b[k])
  }

  /** The first difference decides; a proper prefix is smaller. */
  lemma {:induction false} LessExactly(a: string, b: string)
    ensures Less(a, b) <==> exists k: nat :: LessAt(a, b, k)
  {
    if a == "" || b == "" {
      assert b != "" ==> LessAt(a, b, 0);
    } else if a[0] != b[0] {
      assert a[0] < b[0] ==> LessAt(a, b, 0);
      forall k: nat | LessAt(a, b, k) ensures a[0] < b[0] {
        assert k > 0 ==> a[..k][0] == b[..k][0];
      }
    } else {
      LessExactly(a[1..], b[1..]);
      if k: nat :| LessAt(a[1..], b[1..], k) {
        assert a[..k + 1] == [a[0]] + a[1..][..k] && b[..k + 1] == [b[0]] + b[1..][..k];
        assert LessAt(a, b, k + 1);
      }
      if k: nat :| LessAt(a, b, k) {
        assert a[1..][..k - 1] == a[..k][1..] && b[1..][..k - 1] == b[..k][1..];
        assert LessAt(a[1..], b[1..], k - 1);
      }
    }
  }

  lemma {:induction false} LessIrreflexive(a: string)
    ensures !Less(a, a)
  {
    if a != "" { LessIrreflexive(a[1..]); }
  }

  lemma {:induction false} LessTransitive(a: string, b: string, c: string)
    requires Less(a, b) && Less(b, c)
    ensures Less(a, c)
  {
    if a != "" && a[0] == b[0] == c[0] { LessTransitive(a[1..], b[1..], c[1..]); }
  }

  lemma {:induction false} LessTotal(a: string, b: string)
    ensures Less(a, b) || a == b || Less(b, a)
  {
    if a != "" && b != "" && a[0] == b[0] {
      LessTotal(a[1..], b[1..]);
      assert a == [a[0]] + a[1..] && b == [b[0]] + b[1..];
    }
  }

  lemma {:induction false} LessAsymmetric(a: string, b: string)
    requires Less(a, b)
    ensures a != b && !Less(b, a)
  {
    LessIrreflexive(a);
    if Less(b, a) { LessTransitive(a, b, a); }
  }

  /** The order as one comparison, for sorting. */
  predicate AtMost(a: string, b: string) { a == b || Less(a, b) }

  ghost predicate TotalPreorder<T(!new)>(le: (T, T) -> bool)
  {
    && (forall x, y :: le(x, y) || le(y, x))
    && (forall x, y, z :: le(x, y) && le(y, z) ==> le(x, z))
  }

  lemma {:induction false} AtMostIsTotal()
    ensures TotalPreorder(AtMost)
  {
    forall x, y ensures AtMost(x, y) || AtMost(y, x) { LessTotal(x, y); }
    forall x, y, z | AtMost(x, y) && AtMost(y, z) ensures AtMost(x, z) {
      if x != y && y != z { LessTransitive(x, y, z); }
    }
  }

  ghost predicate SortedBy<T>(le: (T, T) -> bool, a: seq<T>)
  {
    forall i, j :: 0 <= i < j < |a| ==> le(a[i], a[j])
  }

  /** Strictly increasing, hence free of duplicates. */
  ghost predicate StrictlySorted(a: seq<string>)
  {
    forall i, j :: 0 <= i < j < |a| ==> Less(a[i], a[j])
  }

  lemma {:induction false} NotAfter<T(!new)>(le: (T, T) -> bool, x: T, y: T, z: T)
    requires TotalPreorder(le) && !le(y, x) && (y == z || le(y, z))
    ensures le(x, z)
  {
    assert le(x, y) || le(y, x);
  }

  /** A new element goes behind those that are not greater. */
  lemma {:induction false} InsertSorted<T(!new)>(le: (T, T) -> bool, r: seq<T>, k: nat, x: T)
    requires TotalPreorder(le) && SortedBy(le, r) && k <= |r|
    requires (forall i :: 0 <= i < k ==> le(r[i], x)) && (k < |r| ==> !le(r[k], x))
    ensures SortedBy(le, r[..k] + [x] + r[k..]) && multiset(r[..k] + [x] + r[k..]) == multiset(r) + multiset{x}
  {
    hide TotalPreorder;
    assert r == r[..k] + r[k..];
    forall i | k <= i < |r| ensures le(x, r[i]) { NotAfter(le, x, r[k], r[i]); }
    Inserted(le, r, k, x);
  }

  lemma {:induction false} Inserted<T>(le: (T, T) -> bool, r: seq<T>, k: nat, x: T)
    requires SortedBy(le, r) && k <= |r|
    requires (forall i :: 0 <= i < k ==> le(r[i], x)) && (forall i :: k <= i < |r| ==> le(x, r[i]))
    ensures SortedBy(le, r[..k] + [x] + r[k..])
  {
    var more := r[..k] + [x] + r[k..];
    forall i, j | 0 <= i < j < |more| ensures le(more[i], more[j]) {
      assert more[i] == (if i < k then r[i] else if i == k then x else r[i - 1]);
      assert more[j] == (if j < k then r[j] else if j == k then x else r[j - 1]);
    }
  }

  /** The standard library's sort, known to its callers only by this contract:
      a permutation, in order. Where the source sorts with an unstable sort the
      contract leaves the order of equal elements open too. */
  method Sort<T(!new)>(le: (T, T) -> bool, a: seq<T>) returns (r: seq<T>)
    requires TotalPreorder(le)
    ensures multiset(r) == multiset(a)
    ensures SortedBy(le, r)
  {
    r := [];
    for n := 0 to |a|
      invariant multiset(r) == multiset(a[..n])
      invariant SortedBy(le, r)
    {
      var k := 0;
      while k < |r| && le(r[k], a[n])
        invariant 0 <= k <= |r|
        invariant forall i :: 0 <= i < k ==> le(r[i], a[n])
      {
        k := k + 1;
      }
      assert a[..n + 1] == a[..n] + [a[n]];
      InsertSorted(le, r, k, a[n]);
      r := r[..k] + [a[n]] + r[k..];
    }
    assert a[..|a|] == a;
  }

  /** The keys of a Go map, collected and sorted. */
  method SortedKeys(keys: set<string>) returns (r: seq<string>)
    ensures StrictlySorted(r)
    ensures forall x :: x in r <==> x in keys
    ensures |r| == |keys|
  {
    var a: seq<string> := [];
    var rest := keys;
    while rest != {}
      invariant rest <= keys
      invariant forall x :: x in a <==> x in keys - rest
      invariant Distinct(a)
      invariant |a| + |rest| == |keys|
      decreases rest
    {
      var x :| x in rest;
      a, rest := a + [x], rest - {x};
    }
    AtMostIsTotal();
    r := Sort(AtMost, a);
    PermutationFacts(a, r);
  }

  /** There is only one way to list a set of strings in strict order. */
  lemma {:induction false} StrictlySortedUnique(a: seq<string>, b: seq<string>)
    requires StrictlySorted(a) && StrictlySorted(b)
    requires forall x :: x in a <==> x in b
    ensures a == b
  {
    assert a != [] ==> a[0] in a;
    assert b != [] ==> b[0] in b;
    if a != [] && b != [] {
      if Less(a[0], b[0]) { LessAsymmetric(a[0], b[0]); }
      forall x ensures x in a[1..] <==> x in b[1..] {
        LessIrreflexive(a[0]);
        if x in a[1..] { assert x in b; }
        if x in b[1..] { assert x in a; }
      }
      StrictlySortedUnique(a[1..], b[1..]);
      assert a == [a[0]] + a[1..] && b == [b[0]] + b[1..];
    }
  }
}
