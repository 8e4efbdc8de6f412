/** Sequence vocabulary shared by the models: filters, maps, sums and the
    permutation facts the ordering theorems rest on. */
module Seqs {

  datatype Option<+T> = None | Some(value: T)

  /** The elements satisfying `p`, in order. */
  function Filter<T>(s: seq<T>, p: T -> bool): seq<T> {
    if s == [] then []
    else Filter(s[..|s| - 1], p) + if p(s[|s| - 1]) then [s[|s| - 1]] else []
  }

  function Map<T, U>(s: seq<T>, f: T -> U): (r: seq<U>)
    ensures |r| == |s| && forall i :: 0 <= i < |s| ==> r[i] == f(s[i])
  {
    seq(|s|, i requires 0 <= i < |s| => f(s[i]))
  }

  /** A descending sequence of integers. */
  ghost predicate Descending(s: seq<int>) {
    forall i, j :: 0 <= i < j < |s| ==> s[i] >= s[j]
  }

  lemma {:induction false} FilterMember<T>(s: seq<T>, p: T -> bool, x: T)
    ensures x in Filter(s, p) <==> x in s && p(x)
    decreases |s|
  {
    if s != [] {
      FilterMember(s[..|s| - 1], p, x);
      assert s == s[..|s| - 1] + [s[|s| - 1]];
    }
  }

  /** Removing the element at `i` removes one occurrence of it. */
  lemma RemoveAt<T>(s: seq<T>, i: nat)
    requires i < |s|
    ensures multiset(s[..i] + s[i + 1..]) == multiset(s) - multiset{s[i]}
  {
    assert s == s[..i] + [s[i]] + s[i + 1..];
  }

  lemma SwapPermutes<T>(s: seq<T>, i: nat, j: nat)
    requires i < |s| && j < |s|
    ensures multiset(s[i := s[j]][j := s[i]]) == multiset(s)
  {
  }

  lemma AppendAssociates<T>(a: seq<T>, b: seq<T>, c: seq<T>)
    ensures (a + b) + c == a + (b + c)
  {
  }

  lemma MapAppend<T, U>(a: seq<T>, b: seq<T>, f: T -> U)
    ensures Map(a + b, f) == Map(a, f) + Map(b, f)
  {
  }

  lemma HeadAndRest<T>(s: seq<T>)
    requires s != []
    ensures multiset(s) == multiset{s[0]} + multiset(s[1..])
    ensures multiset(s[1..]) == multiset(s) - multiset{s[0]}
  {
    assert s == [s[0]] + s[1..];
  }

  lemma MapRemove<T, U>(s: seq<T>, i: nat, f: T -> U)
    requires i < |s|
    ensures multiset(Map(s, f)) == multiset(Map(s[..i] + s[i + 1..], f)) + multiset{f(s[i])}
  {
    var m := Map(s, f);
    assert m[..i] + m[i + 1..] == Map(s[..i] + s[i + 1..], f);
    assert m == m[..i] + [m[i]] + m[i + 1..];
  }

  /** Mapping permuted sequences gives permuted sequences. */
  lemma {:induction false} MapPermutes<T, U>(a: seq<T>, b: seq<T>, f: T -> U)
    requires multiset(a) == multiset(b)
    ensures multiset(Map(a, f)) == multiset(Map(b, f))
    decreases |a|
  {
    if a == [] {
      assert |multiset(b)| == 0;
    } else {
      var x := a[0];
      HeadAndRest(a);
      assert x in multiset(b);
      var i :| 0 <= i < |b| && b[i] == x;
      var b' := b[..i] + b[i + 1..];
      RemoveAt(b, i);
      assert multiset(a[1..]) == multiset(b');
      MapPermutes(a[1..], b', f);
      MapHead(a, f);
      MapRemove(b, i, f);
    }
  }

  lemma MapHead<T, U>(s: seq<T>, f: T -> U)
    requires s != []
    ensures multiset(Map(s, f)) == multiset{f(s[0])} + multiset(Map(s[1..], f))
  {
    HeadAndRest(Map(s, f));
    assert Map(s, f)[1..] == Map(s[1..], f);
  }

  lemma HeadIsMax(s: seq<int>, x: int)
    requires Descending(s) && x in s
    ensures x <= s[0]
  {
    var i :| 0 <= i < |s| && s[i] == x;
  }

  lemma HeadsAgree(a: seq<int>, b: seq<int>)
    requires Descending(a) && Descending(b) && multiset(a) == multiset(b) && a != [] && b != []
    ensures a[0] == b[0]
  {
    assert a[0] in multiset(a) && b[0] in multiset(b);
    HeadIsMax(b, a[0]);
    HeadIsMax(a, b[0]);
  }

  /** A multiset of integers has one descending arrangement. */
  lemma {:induction false} DescendingUnique(a: seq<int>, b: seq<int>)
    requires Descending(a) && Descending(b) && multiset(a) == multiset(b)
    ensures a == b
    decreases |a|
  {
    assert |a| == |multiset(a)| == |multiset(b)| == |b|;
    if a != [] {
      HeadsAgree(a, b);
      HeadAndRest(a);
      HeadAndRest(b);
      DescendingRest(a);
      DescendingRest(b);
      DescendingUnique(a[1..], b[1..]);
      SameHeadAndRest(a, b);
    }
  }

  lemma DescendingRest(s: seq<int>)
    requires Descending(s) && s != []
    ensures Descending(s[1..])
  {
  }

  lemma SameHeadAndRest<T>(a: seq<T>, b: seq<T>)
    requires a != [] && b != [] && a[0] == b[0] && a[1..] == b[1..]
    ensures a == b
  {
    assert a == [a[0]] + a[1..] && b == [b[0]] + b[1..];
  }
}
