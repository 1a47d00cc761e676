/** Finite counting facts shared by the field, the port permutation and the decoder. */
module Counting {

  predicate Distinct<T(==)>(s: seq<T>) {
    forall i, j :: 0 <= i < j < |s| ==> s[i] != s[j]
  }

  lemma {:induction false} DistinctSize<T>(s: seq<T>)
    requires Distinct(s)
    ensures |set x | x in s| == |s|
  {
    if s != [] {
      var n := |s| - 1;
      DistinctSize(s[..n]);
      assert (set x | x in s) == (set x | x in s[..n]) + {s[n]};
    }
  }

  function Range(lo: int, n: nat): (r: set<int>)
    ensures forall v :: v in r <==> lo <= v < lo + n
    ensures |r| == n
  {
    if n == 0 then {} else Range(lo, n - 1) + {lo + n - 1}
  }

  lemma SubsetFills<T>(small: set<T>, big: set<T>)
    requires small <= big && |small| >= |big|
    ensures small == big
  {
    if x :| x in big && x !in small {
      SubsetSize(small, big - {x});
    }
  }

  lemma {:induction false} SubsetSize<T>(small: set<T>, big: set<T>)
    requires small <= big
    ensures |small| <= |big|
  {
    if small != {} {
      var x :| x in small;
      SubsetSize(small - {x}, big - {x});
    }
  }

  /** n distinct values drawn from a range of n values use every value of the range. */
  lemma DistinctCoversRange(s: seq<int>, lo: int)
    requires Distinct(s)
    requires forall i :: 0 <= i < |s| ==> lo <= s[i] < lo + |s|
    ensures forall v :: lo <= v < lo + |s| ==> v in s
  {
    DistinctSize(s);
    SubsetFills((set x | x in s), Range(lo, |s|));
    assert forall v :: v in Range(lo, |s|) ==> v in s;
  }

  /** More than n values drawn from a range of n values repeat one. */
  lemma Pigeonhole(s: seq<int>, lo: int, n: nat)
    requires |s| > n
    requires forall i :: 0 <= i < |s| ==> lo <= s[i] < lo + n
    ensures !Distinct(s)
  {
    if Distinct(s) {
      DistinctSize(s);
      SubsetSize((set x | x in s), Range(lo, n));
    }
  }

  /** How often x occurs. */
  function Times<T(==)>(s: seq<T>, x: T): (c: nat) {
    multiset(s)[x]
  }

  lemma TimesAppend<T>(a: seq<T>, b: seq<T>, x: T)
    ensures Times(a + b, x) == Times(a, x) + Times(b, x)
    ensures Times([], x) == 0
  {
  }

  lemma TimesMore<T>(s: seq<T>, y: T, x: T)
    ensures Times(s + [y], x) == Times(s, x) + if y == x then 1 else 0
  {
  }

  /** The sum of f over the values of a map. */
  ghost function MapSum<T>(m: map<nat, T>, f: T -> nat): (t: nat)
    decreases |m|
  {
    if m == map[] then 0
    else
      var k :| k in m;
      f(m[k]) + MapSum(m - {k}, f)
  }

  lemma {:induction false} MapSumRemove<T>(m: map<nat, T>, f: T -> nat, k: nat)
    requires k in m
    ensures MapSum(m, f) == f(m[k]) + MapSum(m - {k}, f)
    decreases |m|
  {
    var p :| p in m && MapSum(m, f) == f(m[p]) + MapSum(m - {p}, f);
    if p != k {
      MapSumRemove(m - {p}, f, k);
      MapSumRemove(m - {k}, f, p);
      assert m - {p} - {k} == m - {k} - {p};
    }
  }

  lemma MapSumPut<T>(m: map<nat, T>, f: T -> nat, k: nat, v: T)
    ensures MapSum(m[k := v], f) == f(v) + MapSum(m - {k}, f)
    ensures k in m ==> MapSum(m, f) == f(m[k]) + MapSum(m - {k}, f)
    ensures k !in m ==> m - {k} == m
  {
    MapSumRemove(m[k := v], f, k);
    assert m[k := v] - {k} == m - {k};
    if k in m { MapSumRemove(m, f, k); } else { assert m - {k} == m; }
  }

  lemma {:induction false} MapSumBound<T>(m: map<nat, T>, f: T -> nat, c: nat)
    requires forall k :: k in m ==> f(m[k]) <= c
    ensures MapSum(m, f) <= |m| * c
    decreases |m|
  {
    if m != map[] {
      var p :| p in m && MapSum(m, f) == f(m[p]) + MapSum(m - {p}, f);
      MapSumBound(m - {p}, f, c);
      assert (m - {p}).Keys == m.Keys - {p};
      OneMore(|m - {p}|, c);
    }
  }

  lemma OneMore(n: nat, c: nat)
    ensures (n + 1) * c == n * c + c
  {
  }
}
