/** The bounded "N largest files" collector: container/heap's sift loops over an
    array, and the collector that keeps the largest files of a stream. */
module BigFiles {
  import opened Seqs
  import opened Ordering

  datatype BigFile = BigFile(path: string, size: int)

  function SizeOf(f: BigFile): int { f.size }

  function SizeKey(f: BigFile): real { f.size as real }

  function Sizes(fs: seq<BigFile>): seq<int> { Map(fs, SizeOf) }

  /** Go's `(j - 1) / 2`, which truncates to 0 at the root. */
  function HeapParent(j: nat): (p: nat)
    ensures p <= j && (j > 0 ==> p < j)
    ensures j > 0 ==> j == 2 * p + 1 || j == 2 * p + 2
  {
    if j == 0 then 0 else (j - 1) / 2
  }

  ghost predicate IsHeap(s: seq<BigFile>) {
    forall j :: 0 < j < |s| ==> s[HeapParent(j)].size <= s[j].size
  }

  /** Every parent link is in order except those that touch index `i`. */
  ghost predicate HeapAround(s: seq<BigFile>, i: nat) {
    && (forall j :: 0 < j < |s| && j != i && HeapParent(j) != i ==> s[HeapParent(j)].size <= s[j].size)
    && BridgesOver(s, i)
  }

  /** The parent of `i` is in order with the children of `i`. */
  ghost predicate BridgesOver(s: seq<BigFile>, i: nat) {
    i < |s| && forall j :: 0 < i && 0 < j < |s| && HeapParent(j) == i ==> s[HeapParent(i)].size <= s[j].size
  }

  function Swap(s: seq<BigFile>, i: nat, j: nat): seq<BigFile>
    requires i < |s| && j < |s|
  {
    s[i := s[j]][j := s[i]]
  }

  method SwapAt(a: array<BigFile>, n: nat, i: nat, j: nat)
    requires i < n <= a.Length && j < n
    modifies a
    ensures a[..n] == Swap(old(a[..n]), i, j)
    ensures a[n..] == old(a[n..])
    ensures multiset(a[..n]) == multiset(old(a[..n]))
  {
    SwapPermutes(a[..n], i, j);
    a[i], a[j] := a[j], a[i];
  }

  /** Only the link from `j` to its parent may be out of order. */
  ghost predicate HeapButParentOf(s: seq<BigFile>, j: nat) {
    && (forall k :: 0 < k < |s| && k != j ==> s[HeapParent(k)].size <= s[k].size)
    && BridgesOver(s, j)
  }

  /** Only the links from `i` to its children, and from `i0` to its parent when
      nothing moved yet, may be out of order. */
  ghost predicate HeapButChildrenOf(s: seq<BigFile>, i: nat, i0: nat) {
    && (forall k :: 0 < k < |s| && HeapParent(k) != i && (k != i || i > i0) ==> s[HeapParent(k)].size <= s[k].size)
    && BridgesOver(s, i)
  }

  lemma UpStep(s: seq<BigFile>, j: nat)
    requires HeapButParentOf(s, j) && j > 0 && s[j].size < s[HeapParent(j)].size
    ensures HeapButParentOf(Swap(s, HeapParent(j), j), HeapParent(j))
  {
    var i := HeapParent(j);
    var t := Swap(s, i, j);
    forall k | 0 < k < |t| && k != i ensures t[HeapParent(k)].size <= t[k].size {
      assert s[HeapParent(k)].size <= s[k].size || k == j;
    }
    forall k | 0 < i && 0 < k < |t| && HeapParent(k) == i ensures t[HeapParent(i)].size <= t[k].size {
      assert s[HeapParent(i)].size <= s[i].size;
      assert k != j ==> s[i].size <= s[k].size;
    }
  }

  lemma DownStep(s: seq<BigFile>, i: nat, i0: nat, j: nat)
    requires i0 <= i && HeapButChildrenOf(s, i, i0)
    requires 0 < j < |s| && HeapParent(j) == i && s[j].size < s[i].size
    requires forall k :: 0 < k < |s| && HeapParent(k) == i ==> s[j].size <= s[k].size
    ensures HeapButChildrenOf(Swap(s, i, j), j, i0)
  {
    var t := Swap(s, i, j);
    forall k | 0 < k < |t| && HeapParent(k) != j ensures t[HeapParent(k)].size <= t[k].size {
      if HeapParent(k) == i {
      } else if k == i {
        assert i > 0 ==> s[HeapParent(i)].size <= s[j].size;
      } else {
        assert s[HeapParent(k)].size <= s[k].size;
      }
    }
    forall k | 0 < k < |t| && HeapParent(k) == j ensures t[HeapParent(j)].size <= t[k].size {
      assert s[HeapParent(k)].size <= s[k].size;
    }
  }

  /** `container/heap.up`. */
  method Up(a: array<BigFile>, n: nat, j0: nat)
    requires j0 < n <= a.Length
    requires HeapButParentOf(a[..n], j0)
    modifies a
    ensures IsHeap(a[..n])
    ensures multiset(a[..n]) == multiset(old(a[..n]))
    ensures a[n..] == old(a[n..])
  {
    var j: nat := j0;
    while true
      invariant j < n
      invariant HeapButParentOf(a[..n], j)
      invariant multiset(a[..n]) == multiset(old(a[..n]))
      invariant a[n..] == old(a[n..])
      decreases j
    {
      var i := HeapParent(j);
      if i == j || !(a[j].size < a[i].size) {
        break;
      }
      UpStep(a[..n], j);
      SwapAt(a, n, i, j);
      j := i;
    }
  }

  lemma SmallerChild(s: seq<BigFile>, i: nat, j: nat)
    requires i < |s| && j < |s| && (j == 2 * i + 1 || j == 2 * i + 2)
    requires s[j].size <= s[2 * i + 1].size
    requires 2 * i + 2 < |s| ==> s[j].size <= s[2 * i + 2].size
    ensures HeapParent(j) == i
    ensures forall k :: 0 < k < |s| && HeapParent(k) == i ==> s[j].size <= s[k].size
  {
  }

  lemma DownDone(s: seq<BigFile>, i: nat, i0: nat)
    requires i0 <= i && HeapButChildrenOf(s, i, i0)
    requires forall k :: 0 < k < |s| && HeapParent(k) == i ==> s[i].size <= s[k].size
    ensures if i > i0 then IsHeap(s) else HeapButParentOf(s, i)
  {
  }

  /** The body of down's loop: the child `i` must sink to, or `i` itself at rest. */
  method SinkTarget(a: array<BigFile>, n: nat, i: nat) returns (j: nat)
    requires i < n <= a.Length
    ensures j < n && (j == i || (HeapParent(j) == i && a[j].size < a[i].size))
    ensures forall k :: 0 < k < n && HeapParent(k) == i ==> a[j].size <= a[k].size
  {
    var j1 := 2 * i + 1;
    if j1 >= n {
      return i;
    }
    j := j1;
    var j2 := j1 + 1;
    if j2 < n && a[j2].size < a[j1].size {
      j := j2;
    }
    SmallerChild(a[..n], i, j);
    assert forall k :: 0 < k < n && HeapParent(k) == i ==> a[..n][j].size <= a[..n][k].size;
    if !(a[j].size < a[i].size) {
      return i;
    }
  }

  /** `container/heap.down`: the result says whether anything moved. */
  method Down(a: array<BigFile>, n: nat, i0: nat) returns (moved: bool)
    requires i0 < n <= a.Length
    requires HeapAround(a[..n], i0)
    modifies a
    ensures moved ==> IsHeap(a[..n])
    ensures !moved ==> a[..n] == old(a[..n]) && HeapButParentOf(a[..n], i0)
    ensures multiset(a[..n]) == multiset(old(a[..n]))
    ensures a[n..] == old(a[n..])
  {
    var i: nat := i0;
    while true
      invariant i0 <= i < n
      invariant i == i0 ==> a[..n] == old(a[..n])
      invariant HeapButChildrenOf(a[..n], i, i0)
      invariant multiset(a[..n]) == multiset(old(a[..n]))
      invariant a[n..] == old(a[n..])
      decreases n - i
    {
      var j := SinkTarget(a, n, i);
      if j == i {
        DownDone(a[..n], i, i0);
        break;
      }
      DownStep(a[..n], i, i0, j);
      SwapAt(a, n, i, j);
      i := j;
    }
    moved := i > i0;
  }

  /** `heap.Fix`: restores the order after `a[i]` was overwritten. */
  method Fix(a: array<BigFile>, n: nat, i: nat)
    requires i < n <= a.Length
    requires HeapAround(a[..n], i)
    modifies a
    ensures IsHeap(a[..n])
    ensures multiset(a[..n]) == multiset(old(a[..n]))
    ensures a[n..] == old(a[n..])
  {
    var moved := Down(a, n, i);
    if !moved {
      Up(a, n, i);
    }
  }

  /** `a[0]` is the smallest element of a heap. */
  lemma {:induction false} RootIsSmallest(s: seq<BigFile>, i: nat)
    requires IsHeap(s) && i < |s|
    ensures s[0].size <= s[i].size
    decreases i
  {
    if i > 0 {
      RootIsSmallest(s, HeapParent(i));
    }
  }

  class BigFilesHeap {
    const cap: int
    // the slice `h`: the first `n` elements of its backing array
    var data: array<BigFile>
    var n: nat
    ghost var seen: seq<BigFile>     // every file considered so far, in order
    ghost var dropped: seq<BigFile>  // those no longer held

    ghost predicate Valid()
      reads this, data
    {
      n <= data.Length && IsHeap(data[..n]) && Retains(data[..n], dropped, seen, cap)
    }

    ghost function Held(): seq<BigFile>
      reads this, data
      requires n <= data.Length
    {
      data[..n]
    }

    constructor (capacity: int)
      ensures Valid() && fresh(data) && cap == capacity && seen == []
    {
      cap := capacity;
      data := new BigFile[0];
      n := 0;
      seen, dropped := [], [];
    }

    /** `append` of one element to the slice, growing the backing array when full. */
    method Append(f: BigFile)
      requires n <= data.Length
      modifies this`data, this`n, data
      ensures n == old(n) + 1 <= data.Length
      ensures data[..n] == old(data[..n]) + [f]
      ensures data == old(data) || fresh(data)
    {
      if n == data.Length {
        var bigger := new BigFile[2 * n + 1](i requires 0 <= i < 2 * n + 1 reads this, data =>
          if i < data.Length then data[i] else f);
        assert bigger[..n] == data[..n];
        data := bigger;
      }
      data[n] := f;
      n := n + 1;
      assert data[..n] == data[..n - 1] + [f];
    }

    /** `heap.Push`. */
    method Push(f: BigFile)
      requires n <= data.Length && IsHeap(data[..n])
      modifies this`data, this`n, data
      ensures n == old(n) + 1 <= data.Length && IsHeap(data[..n])
      ensures multiset(data[..n]) == multiset(old(data[..n]) + [f])
      ensures data == old(data) || fresh(data)
    {
      Append(f);
      PushedAround(old(data[..n]), f);
      Up(data, n, n - 1);
    }

    /** `(*b.h)[0] = f` followed by `heap.Fix(b.h, 0)`. */
    method ReplaceRoot(f: BigFile)
      requires 0 < n <= data.Length && IsHeap(data[..n])
      modifies data
      ensures IsHeap(data[..n])
      ensures multiset(data[..n]) == multiset(old(data[..n])[0 := f])
    {
      data[0] := f;
      assert data[..n] == old(data[..n])[0 := f];
      assert HeapAround(old(data[..n])[0 := f], 0);
      Fix(data, n, 0);
    }

    method Consider(path: string, size: int)
      requires Valid()
      modifies this, data
      ensures Valid() && (data == old(data) || fresh(data))
      ensures seen == old(seen) + [BigFile(path, size)]
      ensures TakesIn(old(data[..n]), data[..n], BigFile(path, size), cap)
    {
      var f := BigFile(path, size);
      ghost var was, gone, past := data[..n], dropped, seen;
      seen := past + [f];
      if cap <= 0 {
        dropped := gone + [f];
        RetainsNothing(was, f, gone, past, cap);
      } else if n < cap {
        Push(f);
        RetainsPushed(was, data[..n], f, gone, past, cap);
      } else {
        RootBoundsAll(was);
        assert data[0] == was[0];
        if size > data[0].size {
          dropped := gone + [was[0]];
          ReplaceRoot(f);
          RootReplaced(was, f);
          RetainsReplaced(was, data[..n], f, gone, past, cap);
        } else {
          dropped := gone + [f];
          RetainsRejected(was, f, gone, past, cap);
        }
      }
    }

    /** The held files in descending order of size. */
    method Sorted() returns (out: array<BigFile>)
      requires Valid()
      ensures fresh(out)
      ensures DescendingBy(out[..], SizeKey) && multiset(out[..]) == multiset(Held())
      ensures multiset(out[..] + dropped) == multiset(seen)
      ensures Sizes(out[..]) == Largest(Sizes(seen), if cap <= 0 then 0 else cap)
    {
      out := new BigFile[n](i requires 0 <= i < n && n <= data.Length reads this, data => data[i]);
      assert out[..] == data[..n];
      InsertionSortDesc(out, SizeKey);
      SortDescCorrect(data[..n], SizeKey);
      RetainsPermuted(data[..n], out[..], dropped, seen, cap);
      HeldAreLargest(out[..], seen, dropped, if cap <= 0 then 0 else cap);
    }
  }

  lemma RootReplaced(was: seq<BigFile>, f: BigFile)
    requires was != []
    ensures multiset(was[0 := f]) == multiset(was) - multiset{was[0]} + multiset{f}
  {
    assert was == [was[0]] + was[1..] && was[0 := f] == [f] + was[1..];
  }

  /** One more file: nothing is held without a capacity; below it the file joins; at
      it the file takes the place of the smallest, `was[0]`, if it is larger. */
  ghost predicate TakesIn(was: seq<BigFile>, now: seq<BigFile>, f: BigFile, cap: int) {
    if cap <= 0 then now == was
    else if |was| < cap then multiset(now) == multiset(was) + multiset{f}
    else if was[0].size < f.size then multiset(now) == multiset(was) - multiset{was[0]} + multiset{f}
    else now == was
  }

  function HeldCount(cap: int, considered: nat): nat {
    if cap <= 0 then 0 else if considered < cap then considered else cap
  }

  /** What is held and what was dropped split the stream, at the size the
      capacity asks for, and nothing dropped is larger than anything held. */
  ghost predicate Retains(held: seq<BigFile>, dropped: seq<BigFile>, seen: seq<BigFile>, cap: int) {
    && |held| == HeldCount(cap, |seen|)
    && multiset(held) + multiset(dropped) == multiset(seen)
    && (forall k, d :: k in held && d in dropped ==> d.size <= k.size)
  }

  lemma PushedAround(s: seq<BigFile>, f: BigFile)
    requires IsHeap(s)
    ensures HeapButParentOf(s + [f], |s|)
  {
  }

  lemma RetainsNothing(was: seq<BigFile>, f: BigFile, dropped: seq<BigFile>, seen: seq<BigFile>, cap: int)
    requires Retains(was, dropped, seen, cap) && cap <= 0
    ensures Retains(was, dropped + [f], seen + [f], cap)
  {
  }

  lemma RetainsPushed(was: seq<BigFile>, now: seq<BigFile>, f: BigFile, dropped: seq<BigFile>, seen: seq<BigFile>, cap: int)
    requires Retains(was, dropped, seen, cap) && |was| < cap
    requires multiset(now) == multiset(was + [f])
    ensures Retains(now, dropped, seen + [f], cap)
  {
    assert |multiset(was)| + |multiset(dropped)| == |multiset(seen)|;
    assert |now| == |multiset(now)| == |multiset(was + [f])| == |was| + 1;
  }

  lemma RetainsRejected(was: seq<BigFile>, f: BigFile, dropped: seq<BigFile>, seen: seq<BigFile>, cap: int)
    requires Retains(was, dropped, seen, cap) && 0 < cap <= |was|
    requires forall k :: k in was ==> f.size <= k.size
    ensures Retains(was, dropped + [f], seen + [f], cap)
  {
    assert |multiset(was)| + |multiset(dropped)| == |multiset(seen)|;
  }

  lemma RetainsReplaced(was: seq<BigFile>, now: seq<BigFile>, f: BigFile, dropped: seq<BigFile>, seen: seq<BigFile>, cap: int)
    requires Retains(was, dropped, seen, cap) && 0 < cap <= |was|
    requires multiset(now) == multiset(was[0 := f]) && f.size > was[0].size
    requires forall i :: 0 <= i < |was| ==> was[0].size <= was[i].size
    ensures Retains(now, dropped + [was[0]], seen + [f], cap)
  {
    assert was == [was[0]] + was[1..] && was[0 := f] == [f] + was[1..];
    assert |now| == |multiset(now)| == |multiset(was[0 := f])| == |was|;
    forall k, d | k in now && d in dropped + [was[0]] ensures d.size <= k.size {
      assert k in multiset(was[0 := f]);
      assert k == f || k in was;
    }
  }

  lemma RootBoundsAll(s: seq<BigFile>)
    requires IsHeap(s)
    ensures forall i :: 0 <= i < |s| ==> s[0].size <= s[i].size
  {
    forall i | 0 <= i < |s| ensures s[0].size <= s[i].size {
      RootIsSmallest(s, i);
    }
  }

  lemma RetainsPermuted(a: seq<BigFile>, b: seq<BigFile>, dropped: seq<BigFile>, seen: seq<BigFile>, cap: int)
    requires Retains(a, dropped, seen, cap) && multiset(a) == multiset(b)
    ensures Retains(b, dropped, seen, cap)
  {
    assert |b| == |multiset(b)| == |multiset(a)| == |a|;
    assert forall k :: k in b ==> k in multiset(a);
  }

  /** The collector's invariant determines the sizes it will report: the `cap`
      largest of everything considered, whatever the order of the stream. */
  lemma HeldAreLargest(kept: seq<BigFile>, seen: seq<BigFile>, dropped: seq<BigFile>, cap: nat)
    requires DescendingBy(kept, SizeKey)
    requires Retains(kept, dropped, seen, cap)
    ensures Sizes(kept) == Largest(Sizes(seen), cap)
  {
    assert multiset(kept + dropped) == multiset(seen);
    MapPermutes(kept + dropped, seen, SizeOf);
    assert Sizes(kept + dropped) == Sizes(kept) + Sizes(dropped);
    forall i, j | 0 <= i < j < |Sizes(kept)| ensures Sizes(kept)[i] >= Sizes(kept)[j] {
      assert SizeKey(kept[i]) >= SizeKey(kept[j]);
      assert Sizes(kept)[i] == kept[i].size && Sizes(kept)[j] == kept[j].size;
    }
    forall k, d | k in multiset(Sizes(kept)) && d in multiset(Sizes(dropped)) ensures d <= k {
      var i :| 0 <= i < |Sizes(kept)| && Sizes(kept)[i] == k;
      var j :| 0 <= j < |Sizes(dropped)| && Sizes(dropped)[j] == d;
      assert kept[i] in kept && dropped[j] in dropped;
      assert k == kept[i].size && d == dropped[j].size;
    }
    KeptAreLargest(Sizes(seen), Sizes(kept), Sizes(dropped), cap);
  }
}
