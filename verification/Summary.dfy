/** The dashboard's top lists (`topN`) and their composition with the scanner. */
module Summary {
  import opened Seqs
  import opened Ordering
  import opened Samples
  import opened FileTree
  import opened Attribution
  import opened HostWalk

  const TOP_FILES := 15

  datatype SummaryItem = SummaryItem(key: string, title: string, bytes: int)

  function ItemOf(s: Sample): SummaryItem { SummaryItem(s.key, s.title, s.bytes) }

  function ItemBytes(i: SummaryItem): int { i.bytes }

  /** The filtering loop of `topN`. */
  method FilterKind(samples: seq<Sample>, kind: string) returns (filtered: seq<Sample>)
    ensures filtered == OfKind(samples, kind)
  {
    filtered := [];
    var i := 0;
    while i < |samples|
      invariant 0 <= i <= |samples|
      invariant filtered == OfKind(samples[..i], kind)
    {
      assert samples[..i + 1][..i] == samples[..i];
      if samples[i].kind == kind {
        filtered := filtered + [samples[i]];
      }
      i := i + 1;
    }
    assert samples[..i] == samples;
  }

  /** The `sort.Slice` call: a copy in descending order of bytes. */
  method SortByBytes(filtered: seq<Sample>) returns (sorted: seq<Sample>)
    ensures DescendingBy(sorted, BytesKey) && multiset(sorted) == multiset(filtered)
  {
    var a := new Sample[|filtered|](i requires 0 <= i < |filtered| => filtered[i]);
    assert a[..] == filtered;
    InsertionSortDesc(a, BytesKey);
    SortDescCorrect(filtered, BytesKey);
    sorted := a[..];
  }

  /** `topN`: its items come from samples of the kind, and their sizes are the
      `n` largest there, in descending order. */
  method TopN(samples: seq<Sample>, kind: string, n: nat) returns (out: seq<SummaryItem>)
    ensures Map(out, ItemBytes) == Largest(Map(OfKind(samples, kind), BytesOf), n)
    ensures multiset(out) <= multiset(Map(OfKind(samples, kind), ItemOf))
    ensures forall i, j :: 0 <= i < j < |out| ==> out[i].bytes >= out[j].bytes
    ensures forall x :: x in out ==> IsItemOf(x, samples, kind)
  {
    var filtered := FilterKind(samples, kind);
    var sorted := SortByBytes(filtered);
    var shown := if |sorted| > n then sorted[..n] else sorted;
    out := Map(shown, ItemOf);
    CutShowsLargest(filtered, sorted, n);
    assert Map(out, ItemBytes) == Map(shown, BytesOf);
    ItemsFrom(filtered, sorted, shown);
    ItemsAreSamples(samples, kind, sorted, shown);
  }

  /** The item shows a sample of the kind. */
  ghost predicate IsItemOf(x: SummaryItem, samples: seq<Sample>, kind: string) {
    exists s :: s in samples && s.kind == kind && x.key == s.key && x.title == s.title && x.bytes == s.bytes
  }

  lemma {:induction false} OfKindMember(samples: seq<Sample>, kind: string, s: Sample)
    ensures s in OfKind(samples, kind) <==> s in samples && s.kind == kind
    decreases |samples|
  {
    if samples != [] {
      OfKindMember(samples[..|samples| - 1], kind, s);
      assert samples == samples[..|samples| - 1] + [samples[|samples| - 1]];
    }
  }

  lemma ItemsAreSamples(samples: seq<Sample>, kind: string, sorted: seq<Sample>, shown: seq<Sample>)
    requires DescendingBy(sorted, BytesKey) && multiset(sorted) == multiset(OfKind(samples, kind)) && shown <= sorted
    ensures var out := Map(shown, ItemOf);
      && (forall i, j :: 0 <= i < j < |out| ==> out[i].bytes >= out[j].bytes)
      && (forall x :: x in out ==> IsItemOf(x, samples, kind))
  {
    var out := Map(shown, ItemOf);
    forall i, j | 0 <= i < j < |out| ensures out[i].bytes >= out[j].bytes {
      assert BytesKey(sorted[i]) >= BytesKey(sorted[j]);
    }
    forall x | x in out ensures IsItemOf(x, samples, kind) {
      var i :| 0 <= i < |out| && out[i] == x;
      assert sorted[i] in multiset(sorted);
      OfKindMember(samples, kind, sorted[i]);
    }
  }

  lemma ItemsFrom(filtered: seq<Sample>, sorted: seq<Sample>, shown: seq<Sample>)
    requires multiset(sorted) == multiset(filtered) && shown <= sorted
    ensures multiset(Map(shown, ItemOf)) <= multiset(Map(filtered, ItemOf))
  {
    MapPermutes(filtered, sorted, ItemOf);
    assert sorted == shown + sorted[|shown|..];
    MapAppend(shown, sorted[|shown|..], ItemOf);
  }

  lemma CutShowsLargest(filtered: seq<Sample>, sorted: seq<Sample>, n: nat)
    requires DescendingBy(sorted, BytesKey) && multiset(sorted) == multiset(filtered)
    ensures Map(if |sorted| > n then sorted[..n] else sorted, BytesOf) == Largest(Map(filtered, BytesOf), n)
  {
    var bytes := Map(sorted, BytesOf);
    MapPermutes(sorted, filtered, BytesOf);
    forall i, j | 0 <= i < j < |bytes| ensures bytes[i] >= bytes[j] {
      assert BytesKey(sorted[i]) >= BytesKey(sorted[j]);
    }
    CutIsLargest(Map(filtered, BytesOf), bytes, n);
    assert |sorted| > n ==> bytes[..n] == Map(sorted[..n], BytesOf);
  }

  /** From scan to dashboard: the "biggest files" card shows exactly the sizes of
      the 15 largest surviving files of all configured paths, although the
      scanner only ever held 20 and other scanners' samples are mixed in. */
  method ScanToTopFiles(paths: seq<(PathCfg, Option<Node>)>, mounts: seq<Sample>, docker: seq<Sample>,
                        ignored: string -> bool, now: int)
    returns (card: seq<SummaryItem>)
    requires forall i :: 0 <= i < |paths| ==> Walkable(paths[i].0, paths[i].1, ignored)
    requires forall s :: s in mounts ==> s.kind == "fs" && s.takenAt == now
    requires OfKind(docker, "big_file") == []
    ensures Map(card, ItemBytes) == Largest(Map(AllSurviving(paths, ignored), FileSize), 15)
  {
    var samples := Scan(paths, mounts, ignored, now);
    OfKindAppend(samples, docker, "big_file");
    assert OfKind(samples + docker, "big_file") == OfKind(samples, "big_file");
    card := TopN(samples + docker, "big_file", TOP_FILES);
    TopOfTop(Map(AllSurviving(paths, ignored), FileSize), BIG_FILES_TOP, TOP_FILES);
  }
}
