/** Sequence helpers shared by all three scripts: distinct values in order of
    first appearance (`Series.unique`, `drop_duplicates`), sums, and removal of
    the first occurrence of an element (`list.remove`) and row selection. */
module Seqs {
  import opened Wrappers

  /** No element occurs twice. */
  predicate NoDups<T(==)>(s: seq<T>) {
    forall i, j :: 0 <= i < j < |s| ==> s[i] != s[j]
  }

  /** The distinct elements of `s`, in order of first appearance. */
  function Unique<T(==, !new)>(s: seq<T>): (r: seq<T>)
    ensures NoDups(r)
    ensures forall x :: x in r <==> x in s
    ensures |r| <= |s|
  {
    if |s| == 0 then []
    else
      var u := Unique(s[..|s| - 1]);
      var x := s[|s| - 1];
      assert forall y :: y in s <==> y in s[..|s| - 1] || y == x;
      if x in u then u else u + [x]
  }

  /** Sum of a sequence of integers. */
  function Sum(s: seq<int>): int {
    if |s| == 0 then 0 else Sum(s[..|s| - 1]) + s[|s| - 1]
  }

  /** Sum of a sequence of reals. */
  function SumReal(s: seq<real>): real {
    if |s| == 0 then 0.0 else SumReal(s[..|s| - 1]) + s[|s| - 1]
  }

  lemma {:induction false} SumAppend(a: seq<int>, b: seq<int>)
    ensures Sum(a + b) == Sum(a) + Sum(b)
    decreases |b|
  {
    if |b| == 0 {
      assert a + b == a;
    } else {
      assert (a + b)[..|a + b| - 1] == a + b[..|b| - 1];
      SumAppend(a, b[..|b| - 1]);
    }
  }

  /** The index of the first occurrence of `x` in `s`. */
  function FirstIndex<T(==)>(s: seq<T>, x: T): (i: nat)
    requires x in s
    ensures i < |s| && s[i] == x
    ensures forall j :: 0 <= j < i ==> s[j] != x
  {
    if s[0] == x then 0 else 1 + FirstIndex(s[1..], x)
  }

  /** Appending never moves the first occurrence of an element already present. */
  lemma FirstIndexAppend<T>(a: seq<T>, b: seq<T>)
    ensures forall y :: y in a ==> FirstIndex(a + b, y) == FirstIndex(a, y)
  {
    forall y | y in a
      ensures FirstIndex(a + b, y) == FirstIndex(a, y)
    {
      var k := FirstIndex(a, y);
      assert (a + b)[k] == y;
    }
  }

  /** `Unique` lists the distinct elements in order of their first appearance. */
  lemma {:induction false} UniqueOrder<T(!new)>(s: seq<T>)
    ensures forall i, j :: 0 <= i < j < |Unique(s)| ==> FirstIndex(s, Unique(s)[i]) < FirstIndex(s, Unique(s)[j])
  {
    if |s| > 0 {
      var s' := s[..|s| - 1];
      var x := s[|s| - 1];
      var u := Unique(s');
      UniqueOrder(s');
      assert s == s' + [x];
      FirstIndexAppend(s', [x]);
      if x !in u {
        var r := u + [x];
        assert Unique(s) == r;
        forall i, j | 0 <= i < j < |r|
          ensures FirstIndex(s, r[i]) < FirstIndex(s, r[j])
        {
          assert r[i] == u[i] && u[i] in s';
          if j == |u| {
            assert FirstIndex(s, u[i]) < |s'|;
            assert FirstIndex(s, x) == |s'|;
          } else {
            assert r[j] == u[j] && u[j] in s';
          }
        }
      }
    }
  }

  /** `list.remove(x)`: drop the first occurrence of `x`, failing when there is none. */
  function RemoveFirst(s: seq<string>, x: string): (r: Result<seq<string>>)
    ensures r.Err? <==> x !in s
    ensures r.Err? ==> r.failure == NotInList(x)
    ensures r.Ok? ==> |r.value| + 1 == |s| && multiset(r.value) + multiset{x} == multiset(s)
    ensures r.Ok? ==> exists i :: 0 <= i < |s| && s[i] == x && x !in s[..i] && r.value == s[..i] + s[i + 1..]
  {
    if x !in s then Err(NotInList(x))
    else
      var i := FirstIndex(s, x);
      assert s == s[..i] + [x] + s[i + 1..];
      Ok(s[..i] + s[i + 1..])
  }

  /** Boolean row selection `df[mask]`: the rows that satisfy `p`, in order,
      each as often as before. */
  function Filter<T(==, !new)>(s: seq<T>, p: T -> bool): (r: seq<T>)
    ensures |r| <= |s|
    ensures forall x :: x in r <==> x in s && p(x)
    ensures forall x :: multiset(r)[x] == if p(x) then multiset(s)[x] else 0
  {
    if |s| == 0 then []
    else
      var init := s[..|s| - 1];
      var x := s[|s| - 1];
      assert s == init + [x];
      var rest := Filter(init, p);
      if p(x) then rest + [x] else rest
  }

  /** Sequences with the same elements, counted with multiplicity, have the same sum. */
  lemma {:induction false} SumPermutation(a: seq<int>, b: seq<int>)
    requires multiset(a) == multiset(b)
    ensures Sum(a) == Sum(b)
    decreases |a|
  {
    if |a| == 0 {
      assert |b| == |multiset(b)| == 0;
    } else {
      var x := a[|a| - 1];
      assert a == a[..|a| - 1] + [x];
      assert x in multiset(b);
      var i :| 0 <= i < |b| && b[i] == x;
      assert b == b[..i] + [x] + b[i + 1..];
      var rest := b[..i] + b[i + 1..];
      assert multiset(b) == multiset(b[..i]) + multiset{x} + multiset(b[i + 1..]);
      assert multiset(b) == multiset(rest) + multiset{x};
      assert multiset(a) == multiset(a[..|a| - 1]) + multiset{x};
      assert multiset(a[..|a| - 1]) == multiset(a) - multiset{x};
      assert multiset(rest) == multiset(b) - multiset{x};
      SumPermutation(a[..|a| - 1], rest);
      SumAppend(b[..i] + [x], b[i + 1..]);
      SumAppend(b[..i], b[i + 1..]);
    }
  }
}
