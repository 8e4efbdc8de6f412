/** Descending order by a numeric key: the adjacent-swap insertion sort of
    `BaselineAnomalies`, and the top-n of a multiset of sizes. */
module Ordering {
  import opened Seqs

  /** Descending by `key`; equal keys may appear in any order. */
  ghost predicate DescendingBy<T>(s: seq<T>, key: T -> real) {
    forall i, j :: 0 <= i < j < |s| ==> key(s[i]) >= key(s[j])
  }

  /** Every group of equal keys keeps its original order. */
  ghost predicate SameGroups<T>(a: seq<T>, b: seq<T>, key: T -> real) {
    forall v: real :: Group(a, key, v) == Group(b, key, v)
  }

  /** The elements whose key is `v`, in order. */
  function Group<T>(s: seq<T>, key: T -> real, v: real): seq<T> {
    if s == [] then []
    else Group(s[..|s| - 1], key, v) + if key(s[|s| - 1]) == v then [s[|s| - 1]] else []
  }

  /** `x` placed behind every element whose key is not smaller. */
  function InsertDesc<T>(s: seq<T>, x: T, key: T -> real): seq<T> {
    if s == [] || key(x) <= key(s[|s| - 1]) then s + [x]
    else InsertDesc(s[..|s| - 1], x, key) + [s[|s| - 1]]
  }

  function SortDesc<T>(s: seq<T>, key: T -> real): seq<T> {
    if s == [] then [] else InsertDesc(SortDesc(s[..|s| - 1], key), s[|s| - 1], key)
  }

  lemma {:induction false} InsertPermutes<T>(s: seq<T>, x: T, key: T -> real)
    ensures multiset(InsertDesc(s, x, key)) == multiset(s) + multiset{x}
    decreases |s|
  {
    if s != [] && key(x) > key(s[|s| - 1]) {
      InsertPermutes(s[..|s| - 1], x, key);
      assert s == s[..|s| - 1] + [s[|s| - 1]];
    }
  }

  lemma {:induction false} InsertDescends<T>(s: seq<T>, x: T, key: T -> real)
    requires DescendingBy(s, key)
    ensures DescendingBy(InsertDesc(s, x, key), key)
    decreases |s|
  {
    if s != [] && key(x) > key(s[|s| - 1]) {
      var init, last := s[..|s| - 1], s[|s| - 1];
      InsertDescends(init, x, key);
      InsertPermutes(init, x, key);
      var r := InsertDesc(init, x, key);
      forall i | 0 <= i < |r| ensures key(r[i]) >= key(last) {
        assert r[i] in multiset(r) && (r[i] in init || r[i] == x);
      }
    }
  }

  lemma {:induction false} InsertKeepsGroup<T>(s: seq<T>, x: T, key: T -> real, v: real)
    requires DescendingBy(s, key)
    ensures Group(InsertDesc(s, x, key), key, v)
         == Group(s, key, v) + if key(x) == v then [x] else []
    decreases |s|
  {
    if s != [] && key(x) > key(s[|s| - 1]) {
      var init, last := s[..|s| - 1], s[|s| - 1];
      InsertKeepsGroup(init, x, key, v);
      assert InsertDesc(s, x, key)[..|InsertDesc(s, x, key)| - 1] == InsertDesc(init, x, key);
      if key(x) == v {
        // nothing in `s` from the insertion point on has key v
        assert key(last) != v;
      }
    } else {
      assert (s + [x])[..|s + [x]| - 1] == s;
    }
  }

  lemma {:induction false} SortDescCorrect<T>(s: seq<T>, key: T -> real)
    ensures DescendingBy(SortDesc(s, key), key)
    ensures multiset(SortDesc(s, key)) == multiset(s)
    ensures SameGroups(SortDesc(s, key), s, key)
    decreases |s|
  {
    if s != [] {
      var init, last := s[..|s| - 1], s[|s| - 1];
      SortDescCorrect(init, key);
      InsertDescends(SortDesc(init, key), last, key);
      InsertPermutes(SortDesc(init, key), last, key);
      assert s == init + [last];
      forall v: real ensures Group(SortDesc(s, key), key, v) == Group(s, key, v) {
        assert Group(SortDesc(init, key), key, v) == Group(init, key, v);
        InsertKeepsGroup(SortDesc(init, key), last, key, v);
      }
    }
  }

  lemma {:induction false} GroupMember<T>(s: seq<T>, key: T -> real, v: real, x: T)
    ensures x in Group(s, key, v) <==> x in s && key(x) == v
    decreases |s|
  {
    if s != [] {
      GroupMember(s[..|s| - 1], key, v, x);
      assert s == s[..|s| - 1] + [s[|s| - 1]];
    }
  }

  /** Descending order and group order together leave no choice, so
      `SortDesc` is the one stable descending arrangement. */
  lemma {:induction false} StableDescUnique<T>(a: seq<T>, b: seq<T>, key: T -> real)
    requires DescendingBy(a, key) && DescendingBy(b, key) && SameGroups(a, b, key)
    ensures a == b
    decreases |a| + |b|
  {
    if a == [] || b == [] {
      if a != [] {
        GroupsShareMembers(a, b, key, a[0]);
      } else if b != [] {
        GroupsShareMembers(a, b, key, b[0]);
      }
    } else {
      var x, y := a[|a| - 1], b[|b| - 1];
      LastKeysAgree(a, b, key);
      var a', b' := a[..|a| - 1], b[..|b| - 1];
      assert Group(a, key, key(x)) == Group(b, key, key(x));
      AppendCancel(Group(a', key, key(x)), x, Group(b', key, key(x)), y);
      forall v: real ensures Group(a', key, v) == Group(b', key, v) {
        assert Group(a, key, v) == Group(b, key, v);
        if key(x) == v {
          AppendCancel(Group(a', key, v), x, Group(b', key, v), y);
        } else {
          assert Group(a, key, v) == Group(a', key, v) && Group(b, key, v) == Group(b', key, v);
        }
      }
      StableDescUnique(a', b', key);
      assert a == a' + [x] && b == b' + [y];
    }
  }

  lemma AppendCancel<T>(p: seq<T>, x: T, q: seq<T>, y: T)
    requires p + [x] == q + [y]
    ensures p == q && x == y
  {
    assert p == (p + [x])[..|p|] && q == (q + [y])[..|q|];
    assert x == (p + [x])[|p|] && y == (q + [y])[|q|];
  }

  lemma GroupsShareMembers<T>(a: seq<T>, b: seq<T>, key: T -> real, x: T)
    requires SameGroups(a, b, key)
    ensures x in a <==> x in b
  {
    GroupMember(a, key, key(x), x);
    GroupMember(b, key, key(x), x);
    assert Group(a, key, key(x)) == Group(b, key, key(x));
  }

  lemma LastKeysAgree<T>(a: seq<T>, b: seq<T>, key: T -> real)
    requires DescendingBy(a, key) && DescendingBy(b, key) && SameGroups(a, b, key)
    requires a != [] && b != []
    ensures key(a[|a| - 1]) == key(b[|b| - 1])
  {
    var x, y := a[|a| - 1], b[|b| - 1];
    GroupsShareMembers(a, b, key, x);
    GroupsShareMembers(a, b, key, y);
    var i :| 0 <= i < |b| && b[i] == x;
    var j :| 0 <= j < |a| && a[j] == y;
    assert key(b[i]) >= key(y) && key(a[j]) >= key(x);
  }

  /** `x` on its way down a sorted sequence, at position `j`. */
  function Sinking<T>(s: seq<T>, x: T, j: nat): seq<T>
    requires j <= |s|
  {
    s[..j] + [x] + s[j..]
  }

  lemma SinkStep<T>(s: seq<T>, j: nat, x: T, key: T -> real)
    requires 0 < j <= |s| && key(x) > key(s[j - 1])
    ensures var t := Sinking(s, x, j);
      t[j] == x && t[j - 1] == s[j - 1] && t[j := t[j - 1]][j - 1 := t[j]] == Sinking(s, x, j - 1)
    ensures InsertDesc(s[..j], x, key) + s[j..] == InsertDesc(s[..j - 1], x, key) + s[j - 1..]
  {
    assert s[..j][..j - 1] == s[..j - 1];
    assert [s[j - 1]] + s[j..] == s[j - 1..];
  }

  /** The inner loop: sinks `a[i]` into the sorted part `a[..i]` by adjacent swaps. */
  method SinkLast<T>(a: array<T>, i: nat, key: T -> real)
    requires i < a.Length
    modifies a
    ensures a[..i + 1] == InsertDesc(old(a[..i]), old(a[i]), key)
    ensures a[i + 1..] == old(a[i + 1..])
  {
    ghost var sorted, x := a[..i], a[i];
    var j: nat := i;
    assert a[..i + 1] == Sinking(sorted, x, i) && sorted[..i] == sorted;
    while j > 0 && key(a[j]) > key(a[j - 1])
      invariant j <= i
      invariant a[..i + 1] == Sinking(sorted, x, j)
      invariant InsertDesc(sorted[..j], x, key) + sorted[j..] == InsertDesc(sorted, x, key)
      invariant a[i + 1..] == old(a[i + 1..])
    {
      ghost var t := a[..i + 1];
      assert t[j] == a[j] == x && t[j - 1] == a[j - 1] == sorted[j - 1];
      SinkStep(sorted, j, x, key);
      a[j], a[j - 1] := a[j - 1], a[j];
      assert a[..i + 1] == t[j := t[j - 1]][j - 1 := t[j]];
      j := j - 1;
    }
    ghost var t := a[..i + 1];
    if j > 0 {
      assert t[j] == a[j] && t[j - 1] == a[j - 1];
      assert sorted[..j][j - 1] == sorted[j - 1];
    }
    assert InsertDesc(sorted[..j], x, key) == sorted[..j] + [x];
  }

  /** The adjacent-swap loop of `BaselineAnomalies`, in place. */
  method InsertionSortDesc<T>(a: array<T>, key: T -> real)
    modifies a
    ensures a[..] == SortDesc(old(a[..]), key)
  {
    ghost var was := a[..];
    if a.Length == 0 {
      return;
    }
    var i := 1;
    assert was[..1][..0] == [] && SortDesc(was[..1], key) == was[..1];
    while i < a.Length
      invariant 1 <= i <= a.Length
      invariant a[..i] == SortDesc(was[..i], key)
      invariant a[i..] == was[i..]
    {
      assert was[..i + 1][..i] == was[..i] && a[i] == was[i..][0];
      ghost var rest := a[i..];
      SinkLast(a, i, key);
      assert a[i + 1..] == rest[1..];
      i := i + 1;
    }
    assert a[..] == a[..i] && was == was[..i];
  }

  // ---------- The n largest of a multiset of sizes ----------

  function IntKey(x: int): real { x as real }

  /** The `n` largest of `sizes`, in descending order. */
  function Largest(sizes: seq<int>, n: nat): seq<int> {
    var s := SortDesc(sizes, IntKey);
    if |s| <= n then s else s[..n]
  }

  lemma SortedInts(sizes: seq<int>)
    ensures Descending(SortDesc(sizes, IntKey))
    ensures multiset(SortDesc(sizes, IntKey)) == multiset(sizes)
    ensures |SortDesc(sizes, IntKey)| == |sizes|
  {
    SortDescCorrect(sizes, IntKey);
    var s := SortDesc(sizes, IntKey);
    assert |s| == |multiset(s)| == |multiset(sizes)| == |sizes|;
    forall i, j | 0 <= i < j < |s| ensures s[i] >= s[j] {
      assert IntKey(s[i]) >= IntKey(s[j]);
    }
  }

  /** If `kept` and `dropped` split `all`, nothing dropped exceeds anything
      kept, and `kept` is as large as `n` allows, `kept` is the top `n`. */
  lemma KeptAreLargest(all: seq<int>, kept: seq<int>, dropped: seq<int>, n: nat)
    requires multiset(kept) + multiset(dropped) == multiset(all)
    requires forall k, d :: k in multiset(kept) && d in multiset(dropped) ==> d <= k
    requires |kept| == if |all| < n then |all| else n
    requires Descending(kept)
    ensures kept == Largest(all, n)
  {
    SortedInts(all);
    SortedInts(dropped);
    var d := SortDesc(dropped, IntKey);
    forall i, j | 0 <= i < j < |kept + d| ensures (kept + d)[i] >= (kept + d)[j] {
      if i < |kept| <= j {
        assert kept[i] in multiset(kept) && d[j - |kept|] in multiset(d);
      }
    }
    DescendingUnique(kept + d, SortDesc(all, IntKey));
    assert |kept + d| == |all|;
    assert (kept + d)[..|kept|] == kept;
  }

  /** Only the multiset of sizes matters, not the order they arrived in. */
  lemma LargestIgnoresOrder(a: seq<int>, b: seq<int>, n: nat)
    requires multiset(a) == multiset(b)
    ensures Largest(a, n) == Largest(b, n)
  {
    SortedInts(a);
    SortedInts(b);
    DescendingUnique(SortDesc(a, IntKey), SortDesc(b, IntKey));
  }

  /** The top k of the top m is the top k whenever k <= m. */
  lemma TopOfTop(s: seq<int>, m: nat, k: nat)
    requires k <= m
    ensures Largest(Largest(s, m), k) == Largest(s, k)
  {
    SortedInts(s);
    var t := Largest(s, m);
    SortedInts(t);
    DescendingUnique(t, SortDesc(t, IntKey));
    assert |t| > k ==> t[..k] == SortDesc(s, IntKey)[..k];
  }

  /** Any descending arrangement, cut at n, shows the top n sizes. */
  lemma CutIsLargest(all: seq<int>, s: seq<int>, n: nat)
    requires Descending(s) && multiset(s) == multiset(all)
    ensures Largest(all, n) == if |s| <= n then s else s[..n]
  {
    SortedInts(all);
    DescendingUnique(s, SortDesc(all, IntKey));
  }
}
