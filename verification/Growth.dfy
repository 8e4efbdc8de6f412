/** The growth-since, latest-scan and recent-findings queries. */
module Growth {
  import opened Ordering
  import opened Samples
  import opened Tables

  datatype GrowthRow = GrowthRow(key: string, title: string, bytes: int, delta: int)

  function DeltaKey(g: GrowthRow): real { g.delta as real }

  predicate SameItem(x: Row, r: Row) { x.s.kind == r.s.kind && x.s.key == r.s.key }

  /** A row of the "first" subquery: no row of its item since `since` is earlier. */
  predicate IsFirst(all: seq<Row>, kind: string, since: int, r: Row) {
    && r.s.kind == kind && since <= r.s.takenAt
    && forall x :: x in all && SameItem(x, r) && since <= x.s.takenAt ==> r.s.takenAt <= x.s.takenAt
  }

  /** A row of the "last" subquery, which has no time bound. */
  predicate IsLast(all: seq<Row>, kind: string, r: Row) {
    && r.s.kind == kind
    && forall x :: x in all && SameItem(x, r) ==> x.s.takenAt <= r.s.takenAt
  }

  /** The first rows among `part`, judged against the whole table. */
  function Firsts(part: seq<Row>, all: seq<Row>, kind: string, since: int): seq<Row> {
    if part == [] then []
    else
      var r := part[|part| - 1];
      Firsts(part[..|part| - 1], all, kind, since) + if IsFirst(all, kind, since, r) then [r] else []
  }

  /** The join of one last row with the first rows of its key. */
  function Matches(l: Row, firsts: seq<Row>): seq<GrowthRow> {
    if firsts == [] then []
    else
      var f := firsts[|firsts| - 1];
      Matches(l, firsts[..|firsts| - 1])
      + if f.s.key == l.s.key then [GrowthRow(l.s.key, l.s.title, l.s.bytes, l.s.bytes - f.s.bytes)] else []
  }

  /** The join over the last rows among `part`. */
  function Joined(part: seq<Row>, all: seq<Row>, kind: string, firsts: seq<Row>): seq<GrowthRow> {
    if part == [] then []
    else
      var r := part[|part| - 1];
      Joined(part[..|part| - 1], all, kind, firsts) + if IsLast(all, kind, r) then Matches(r, firsts) else []
  }

  /** `GrowthSince`: joined, ordered by delta, cut at the limit. */
  function GrowthSince(rows: seq<Row>, kind: string, since: int, limit: int): seq<GrowthRow> {
    Limit(SortDesc(Joined(rows, rows, kind, Firsts(rows, rows, kind, since)), DeltaKey), limit)
  }

  // ---------- The query as loops ----------

  /** The correlated MIN subquery, for an item that has a row since `since`. */
  method EarliestSince(rows: seq<Row>, r: Row, since: int) returns (t: int)
    requires r in rows && since <= r.s.takenAt
    ensures t <= r.s.takenAt && exists x :: x in rows && SameItem(x, r) && since <= x.s.takenAt && x.s.takenAt == t
    ensures forall x :: x in rows && SameItem(x, r) && since <= x.s.takenAt ==> t <= x.s.takenAt
  {
    t := r.s.takenAt;
    assert SameItem(r, r);
    for i := 0 to |rows|
      invariant t <= r.s.takenAt && exists x :: x in rows && SameItem(x, r) && since <= x.s.takenAt && x.s.takenAt == t
      invariant forall x :: x in rows[..i] && SameItem(x, r) && since <= x.s.takenAt ==> t <= x.s.takenAt
    {
      assert rows[..i + 1] == rows[..i] + [rows[i]];
      if SameItem(rows[i], r) && since <= rows[i].s.takenAt < t {
        t := rows[i].s.takenAt;
      }
    }
    assert rows[..|rows|] == rows;
  }

  /** The correlated MAX subquery. */
  method LatestOfItem(rows: seq<Row>, r: Row) returns (t: int)
    requires r in rows
    ensures r.s.takenAt <= t && exists x :: x in rows && SameItem(x, r) && x.s.takenAt == t
    ensures forall x :: x in rows && SameItem(x, r) ==> x.s.takenAt <= t
  {
    t := r.s.takenAt;
    assert SameItem(r, r);
    for i := 0 to |rows|
      invariant r.s.takenAt <= t && exists x :: x in rows && SameItem(x, r) && x.s.takenAt == t
      invariant forall x :: x in rows[..i] && SameItem(x, r) ==> x.s.takenAt <= t
    {
      assert rows[..i + 1] == rows[..i] + [rows[i]];
      if SameItem(rows[i], r) && t < rows[i].s.takenAt {
        t := rows[i].s.takenAt;
      }
    }
    assert rows[..|rows|] == rows;
  }

  method SelectFirsts(rows: seq<Row>, kind: string, since: int) returns (out: seq<Row>)
    ensures out == Firsts(rows, rows, kind, since)
  {
    out := [];
    for i := 0 to |rows|
      invariant out == Firsts(rows[..i], rows, kind, since)
    {
      assert rows[..i + 1][..i] == rows[..i];
      var r := rows[i];
      if r.s.kind == kind && since <= r.s.takenAt {
        var t := EarliestSince(rows, r, since);
        if r.s.takenAt == t {
          out := out + [r];
        }
      }
    }
    assert rows[..|rows|] == rows;
  }

  method JoinFirsts(l: Row, firsts: seq<Row>) returns (out: seq<GrowthRow>)
    ensures out == Matches(l, firsts)
  {
    out := [];
    for i := 0 to |firsts|
      invariant out == Matches(l, firsts[..i])
    {
      assert firsts[..i + 1][..i] == firsts[..i];
      if firsts[i].s.key == l.s.key {
        out := out + [GrowthRow(l.s.key, l.s.title, l.s.bytes, l.s.bytes - firsts[i].s.bytes)];
      }
    }
    assert firsts[..|firsts|] == firsts;
  }

  method JoinLasts(rows: seq<Row>, kind: string, firsts: seq<Row>) returns (out: seq<GrowthRow>)
    ensures out == Joined(rows, rows, kind, firsts)
  {
    out := [];
    for i := 0 to |rows|
      invariant out == Joined(rows[..i], rows, kind, firsts)
    {
      assert rows[..i + 1][..i] == rows[..i];
      if rows[i].s.kind == kind {
        var t := LatestOfItem(rows, rows[i]);
        if rows[i].s.takenAt == t {
          var matched := JoinFirsts(rows[i], firsts);
          out := out + matched;
        }
      }
    }
    assert rows[..|rows|] == rows;
  }

  method QueryGrowth(rows: seq<Row>, kind: string, since: int, limit: int) returns (out: seq<GrowthRow>)
    ensures out == GrowthSince(rows, kind, since, limit)
  {
    var firsts := SelectFirsts(rows, kind, since);
    var joined := JoinLasts(rows, kind, firsts);
    var a := new GrowthRow[|joined|](i requires 0 <= i < |joined| => joined[i]);
    assert a[..] == joined;
    InsertionSortDesc(a, DeltaKey);
    out := Limit(a[..], limit);
  }

  // ---------- What the query means, and what pruning does to it ----------

  lemma {:induction false} FirstsMember(part: seq<Row>, all: seq<Row>, kind: string, since: int, r: Row)
    ensures r in Firsts(part, all, kind, since) <==> r in part && IsFirst(all, kind, since, r)
    decreases |part|
  {
    if part != [] {
      FirstsMember(part[..|part| - 1], all, kind, since, r);
      assert part == part[..|part| - 1] + [part[|part| - 1]];
    }
  }

  lemma {:induction false} MatchesMember(l: Row, firsts: seq<Row>, g: GrowthRow)
    ensures g in Matches(l, firsts) <==> exists f :: f in firsts && Joins(l, f, g)
    decreases |firsts|
  {
    if firsts != [] {
      var init, last := firsts[..|firsts| - 1], firsts[|firsts| - 1];
      MatchesMember(l, init, g);
      assert firsts == init + [last];
      assert g in Matches(l, firsts) <==> g in Matches(l, init) || Joins(l, last, g);
    }
  }

  /** `g` is the result row of a last and a first row. */
  predicate Joins(l: Row, f: Row, g: GrowthRow) {
    f.s.key == l.s.key && g == GrowthRow(l.s.key, l.s.title, l.s.bytes, l.s.bytes - f.s.bytes)
  }

  lemma {:induction false} JoinedFrom(part: seq<Row>, all: seq<Row>, kind: string, firsts: seq<Row>, g: GrowthRow) returns (l: Row)
    requires g in Joined(part, all, kind, firsts)
    ensures l in part && IsLast(all, kind, l) && g in Matches(l, firsts)
    decreases |part|
  {
    var init, last := part[..|part| - 1], part[|part| - 1];
    if g in Joined(init, all, kind, firsts) {
      l := JoinedFrom(init, all, kind, firsts, g);
    } else {
      l := last;
    }
  }

  lemma {:induction false} JoinedHas(part: seq<Row>, all: seq<Row>, kind: string, firsts: seq<Row>, g: GrowthRow, l: Row)
    requires l in part && IsLast(all, kind, l) && g in Matches(l, firsts)
    ensures g in Joined(part, all, kind, firsts)
    decreases |part|
  {
    var init, last := part[..|part| - 1], part[|part| - 1];
    assert part == init + [last];
    if l in init {
      JoinedHas(init, all, kind, firsts, g, l);
    }
  }

  /** `r` is one of the newest rows of its item. */
  ghost predicate NewestOfItem(rows: seq<Row>, r: Row) {
    r in rows && forall x :: x in rows && x.s.kind == r.s.kind && x.s.key == r.s.key ==> x.s.takenAt <= r.s.takenAt
  }

  /** `r` is one of the oldest rows of its item among those since `since`. */
  ghost predicate OldestSince(rows: seq<Row>, since: int, r: Row) {
    && r in rows && since <= r.s.takenAt
    && forall x :: x in rows && x.s.kind == r.s.kind && x.s.key == r.s.key && since <= x.s.takenAt ==> r.s.takenAt <= x.s.takenAt
  }

  /** An item of the kind grew from its oldest row `f` since `since` to its newest
      row `l`. */
  ghost predicate Grew(rows: seq<Row>, kind: string, since: int, l: Row, f: Row, g: GrowthRow) {
    && NewestOfItem(rows, l) && OldestSince(rows, since, f)
    && l.s.kind == kind && f.s.kind == kind && l.s.key == f.s.key
    && g.key == l.s.key && g.title == l.s.title && g.bytes == l.s.bytes && g.delta == l.s.bytes - f.s.bytes
  }

  lemma GrewIff(rows: seq<Row>, kind: string, since: int, l: Row, f: Row, g: GrowthRow)
    ensures Grew(rows, kind, since, l, f, g)
       <==> l in rows && f in rows && IsLast(rows, kind, l) && IsFirst(rows, kind, since, f) && Joins(l, f, g)
  {
  }

  ghost predicate SomethingGrew(rows: seq<Row>, kind: string, since: int, g: GrowthRow) {
    exists l, f :: Grew(rows, kind, since, l, f, g)
  }

  /** The joined rows are exactly the growths of the kind's items. */
  lemma JoinedAreGrowths(rows: seq<Row>, kind: string, since: int, g: GrowthRow)
    ensures g in Joined(rows, rows, kind, Firsts(rows, rows, kind, since)) <==> SomethingGrew(rows, kind, since, g)
  {
    var firsts := Firsts(rows, rows, kind, since);
    if g in Joined(rows, rows, kind, firsts) {
      var l := JoinedFrom(rows, rows, kind, firsts, g);
      MatchesMember(l, firsts, g);
      var f :| f in firsts && Joins(l, f, g);
      FirstsMember(rows, rows, kind, since, f);
      GrewIff(rows, kind, since, l, f, g);
    } else if SomethingGrew(rows, kind, since, g) {
      var l, f :| Grew(rows, kind, since, l, f, g);
      GrewIff(rows, kind, since, l, f, g);
      FirstsMember(rows, rows, kind, since, f);
      MatchesMember(l, firsts, g);
      JoinedHas(rows, rows, kind, firsts, g, l);
    }
  }

  /** `out` and `dropped` are a descending arrangement of `all`, cut at a limit
      that is not negative. */
  ghost predicate TopBy<T>(out: seq<T>, dropped: seq<T>, all: seq<T>, key: T -> real, limit: int) {
    && DescendingBy(out + dropped, key)
    && multiset(out + dropped) == multiset(all)
    && (dropped != [] ==> 0 <= limit == |out|)
    && (0 <= limit ==> |out| <= limit)
  }

  lemma LimitOfSorted<T>(all: seq<T>, key: T -> real, limit: int) returns (out: seq<T>, dropped: seq<T>)
    ensures out == Limit(SortDesc(all, key), limit) && TopBy(out, dropped, all, key, limit)
  {
    var sorted := SortDesc(all, key);
    SortDescCorrect(all, key);
    out := Limit(sorted, limit);
    dropped := sorted[|out|..];
    assert out + dropped == sorted;
  }

  /** No item of the kind was stored twice for one time. */
  ghost predicate NoDuplicates(rows: seq<Row>, kind: string) {
    forall i, j :: 0 <= i < j < |rows| && rows[i].s.kind == kind && SameItem(rows[i], rows[j])
      ==> rows[i].s.takenAt != rows[j].s.takenAt
  }

  ghost predicate OneRowEach(rows: seq<Row>) {
    forall i, j :: 0 <= i < j < |rows| ==> rows[i].s.key != rows[j].s.key
  }

  ghost predicate OneGrowthEach(growths: seq<GrowthRow>) {
    forall i, j :: 0 <= i < j < |growths| ==> growths[i].key != growths[j].key
  }

  /** Each item then has one first row ... */
  lemma {:induction false} FirstsDiffer(part: seq<Row>, all: seq<Row>, kind: string, since: int)
    requires part <= all && NoDuplicates(all, kind)
    ensures OneRowEach(Firsts(part, all, kind, since))
    decreases |part|
  {
    if part != [] {
      var init, r := part[..|part| - 1], part[|part| - 1];
      FirstsDiffer(init, all, kind, since);
      if IsFirst(all, kind, since, r) {
        forall f | f in Firsts(init, all, kind, since) ensures f.s.key != r.s.key {
          FirstsMember(init, all, kind, since, f);
          var i :| 0 <= i < |init| && init[i] == f;
          assert all[i] == f && all[|part| - 1] == r && f in all && r in all;
        }
        var earlier, firsts := Firsts(init, all, kind, since), Firsts(part, all, kind, since);
        assert firsts == earlier + [r];
        forall i, j | 0 <= i < j < |firsts| ensures firsts[i].s.key != firsts[j].s.key {
          assert firsts[i] == earlier[i] && earlier[i] in earlier;
        }
      }
    }
  }

  lemma {:induction false} OneMatchAtMost(l: Row, firsts: seq<Row>)
    requires OneRowEach(firsts)
    ensures |Matches(l, firsts)| <= 1
    ensures forall g :: g in Matches(l, firsts) ==> g.key == l.s.key
    decreases |firsts|
  {
    if firsts != [] {
      var init, last := firsts[..|firsts| - 1], firsts[|firsts| - 1];
      if last.s.key == l.s.key {
        MatchesNothing(l, init);
      } else {
        OneMatchAtMost(l, init);
      }
    }
  }

  /** ... and one last row, so one growth. */
  lemma {:induction false} GrowthsDiffer(part: seq<Row>, all: seq<Row>, kind: string, firsts: seq<Row>)
    requires part <= all && NoDuplicates(all, kind)
    requires OneRowEach(firsts)
    ensures OneGrowthEach(Joined(part, all, kind, firsts))
    decreases |part|
  {
    if part != [] {
      var init, r := part[..|part| - 1], part[|part| - 1];
      GrowthsDiffer(init, all, kind, firsts);
      OneMatchAtMost(r, firsts);
      if IsLast(all, kind, r) {
        forall g | g in Joined(init, all, kind, firsts) ensures g.key != r.s.key {
          var l := JoinedFrom(init, all, kind, firsts, g);
          OneMatchAtMost(l, firsts);
          var i :| 0 <= i < |init| && init[i] == l;
          assert all[i] == l && all[|part| - 1] == r && l in all && r in all;
        }
      }
    }
  }

  lemma LargestDeltasFirst(out: seq<GrowthRow>, dropped: seq<GrowthRow>)
    requires DescendingBy(out + dropped, DeltaKey)
    ensures forall i, j :: 0 <= i < j < |out| ==> out[i].delta >= out[j].delta
    ensures forall g, d :: g in out && d in dropped ==> g.delta >= d.delta
  {
    var all := out + dropped;
    forall i, j | 0 <= i < j < |all| ensures all[i].delta >= all[j].delta {
      assert DeltaKey(all[i]) >= DeltaKey(all[j]);
    }
    forall i, j | 0 <= i < j < |out| ensures out[i].delta >= out[j].delta {
      assert all[i] == out[i] && all[j] == out[j];
    }
    forall g, d | g in out && d in dropped ensures g.delta >= d.delta {
      var i :| 0 <= i < |out| && out[i] == g;
      var j :| 0 <= j < |dropped| && dropped[j] == d;
      assert all[i] == g && all[|out| + j] == d;
    }
  }

  /** The result holds the largest growths: a descending arrangement of exactly
      the items' growths, one for each item unless it was stored twice for one
      time, cut at the limit. */
  lemma ResultIsTopGrowth(rows: seq<Row>, kind: string, since: int, limit: int)
    returns (out: seq<GrowthRow>, dropped: seq<GrowthRow>, growths: seq<GrowthRow>)
    ensures out == GrowthSince(rows, kind, since, limit) && TopBy(out, dropped, growths, DeltaKey, limit)
    ensures forall g :: g in growths <==> SomethingGrew(rows, kind, since, g)
    ensures NoDuplicates(rows, kind) ==> OneGrowthEach(growths)
    ensures forall i, j :: 0 <= i < j < |out| ==> out[i].delta >= out[j].delta
    ensures forall g, d :: g in out && d in dropped ==> g.delta >= d.delta
  {
    var firsts := Firsts(rows, rows, kind, since);
    growths := Joined(rows, rows, kind, firsts);
    if NoDuplicates(rows, kind) {
      assert rows <= rows;
      FirstsDiffer(rows, rows, kind, since);
      GrowthsDiffer(rows, rows, kind, firsts);
    }
    out, dropped := LimitOfSorted(growths, DeltaKey, limit);
    LargestDeltasFirst(out, dropped);
    forall g ensures g in growths <==> SomethingGrew(rows, kind, since, g) {
      JoinedAreGrowths(rows, kind, since, g);
    }
  }

  lemma FirstSurvives(all: seq<Row>, kind: string, since: int, cutoff: int, r: Row)
    requires cutoff <= since
    ensures IsFirst(Since(all, RowTime, cutoff), kind, since, r) <==> IsFirst(all, kind, since, r)
  {
    forall x: Row | since <= x.s.takenAt ensures x in Since(all, RowTime, cutoff) <==> x in all {
      SinceMember(all, RowTime, cutoff, x);
    }
  }

  lemma {:induction false} FirstsSurvive(part: seq<Row>, all: seq<Row>, kind: string, since: int, cutoff: int)
    requires cutoff <= since
    ensures Firsts(Since(part, RowTime, cutoff), Since(all, RowTime, cutoff), kind, since) == Firsts(part, all, kind, since)
    decreases |part|
  {
    if part != [] {
      var init, r := part[..|part| - 1], part[|part| - 1];
      FirstsSurvive(init, all, kind, since, cutoff);
      FirstSurvives(all, kind, since, cutoff, r);
      FirstsLast(Since(init, RowTime, cutoff), r, Since(all, RowTime, cutoff), kind, since);
    }
  }

  lemma FirstsLast(part: seq<Row>, r: Row, all: seq<Row>, kind: string, since: int)
    ensures Firsts(part + [r], all, kind, since)
         == Firsts(part, all, kind, since) + if IsFirst(all, kind, since, r) then [r] else []
    ensures part + [] == part
  {
    assert (part + [r])[..|part|] == part;
  }

  lemma JoinedLast(part: seq<Row>, r: Row, all: seq<Row>, kind: string, firsts: seq<Row>)
    ensures Joined(part + [r], all, kind, firsts)
         == Joined(part, all, kind, firsts) + if IsLast(all, kind, r) then Matches(r, firsts) else []
    ensures part + [] == part
  {
    assert (part + [r])[..|part|] == part;
  }

  lemma LastSurvives(all: seq<Row>, kind: string, cutoff: int, r: Row)
    requires cutoff <= r.s.takenAt
    ensures IsLast(Since(all, RowTime, cutoff), kind, r) <==> IsLast(all, kind, r)
  {
    forall x: Row ensures x in Since(all, RowTime, cutoff) <==> x in all && cutoff <= x.s.takenAt {
      SinceMember(all, RowTime, cutoff, x);
    }
  }

  lemma {:induction false} MatchesNothing(l: Row, firsts: seq<Row>)
    requires forall f :: f in firsts ==> f.s.key != l.s.key
    ensures Matches(l, firsts) == []
    decreases |firsts|
  {
    if firsts != [] {
      MatchesNothing(l, firsts[..|firsts| - 1]);
      assert firsts[|firsts| - 1] in firsts;
    }
  }

  /** An item whose last row is older than the window has no first row to join,
      so losing it does not show although the "last" subquery is unbounded. */
  lemma StaleItemsDoNotJoin(all: seq<Row>, kind: string, since: int, l: Row)
    requires IsLast(all, kind, l) && l.s.takenAt < since
    ensures Matches(l, Firsts(all, all, kind, since)) == []
  {
    var firsts := Firsts(all, all, kind, since);
    forall f | f in firsts ensures f.s.key != l.s.key {
      FirstsMember(all, all, kind, since, f);
      assert SameItem(f, l) ==> f.s.takenAt <= l.s.takenAt;
    }
    MatchesNothing(l, firsts);
  }

  lemma {:induction false} JoinedSurvives(part: seq<Row>, all: seq<Row>, kind: string, since: int, cutoff: int)
    requires cutoff <= since
    ensures var firsts := Firsts(all, all, kind, since);
      Joined(Since(part, RowTime, cutoff), Since(all, RowTime, cutoff), kind, firsts) == Joined(part, all, kind, firsts)
    decreases |part|
  {
    if part != [] {
      var firsts := Firsts(all, all, kind, since);
      var init, r := part[..|part| - 1], part[|part| - 1];
      JoinedSurvives(init, all, kind, since, cutoff);
      var kept := Since(init, RowTime, cutoff);
      assert part == init + [r];
      SinceLast(init, r, RowTime, cutoff);
      JoinedLast(init, r, all, kind, firsts);
      if cutoff <= r.s.takenAt {
        LastSurvives(all, kind, cutoff, r);
        JoinedLast(kept, r, Since(all, RowTime, cutoff), kind, firsts);
      } else {
        if IsLast(all, kind, r) {
          StaleItemsDoNotJoin(all, kind, since, r);
        }
        assert Since(part, RowTime, cutoff) == kept;
        assert Joined(part, all, kind, firsts) == Joined(init, all, kind, firsts);
      }
    }
  }

  /** Pruning up to `cutoff` does not change growth since any later time. */
  lemma PruningKeepsGrowth(rows: seq<Row>, kind: string, since: int, limit: int, cutoff: int)
    requires cutoff <= since
    ensures GrowthSince(Since(rows, RowTime, cutoff), kind, since, limit) == GrowthSince(rows, kind, since, limit)
  {
    FirstsSurvive(rows, rows, kind, since, cutoff);
    JoinedSurvives(rows, rows, kind, since, cutoff);
  }

  lemma FirstOfOne(now: Row, kind: string, since: int)
    requires now.s.kind == kind && since <= now.s.takenAt
    ensures Firsts([now], [now], kind, since) == [now]
  {
    assert [] + [now] == [now];
    FirstsLast([], now, [now], kind, since);
  }

  lemma GrowthOfOne(now: Row, kind: string, since: int)
    requires now.s.kind == kind && since <= now.s.takenAt
    ensures Joined([now], [now], kind, Firsts([now], [now], kind, since)) == [GrowthRow(now.s.key, now.s.title, now.s.bytes, 0)]
  {
    assert [] + [now] == [now];
    FirstOfOne(now, kind, since);
    JoinedLast([], now, [now], kind, [now]);
    OneMatch(now, now);
  }

  lemma FirstOfTwo(early: Row, now: Row, kind: string, since: int)
    requires early.s.kind == kind && SameItem(early, now) && since <= early.s.takenAt < now.s.takenAt
    ensures Firsts([early, now], [early, now], kind, since) == [early]
  {
    var rows := [early, now];
    assert rows == [early] + [now] && [early] == [] + [early];
    assert early in rows;
    FirstsLast([early], now, rows, kind, since);
    FirstsLast([], early, rows, kind, since);
  }

  lemma GrowthOfTwo(early: Row, now: Row, kind: string, since: int)
    requires early.s.kind == kind && SameItem(early, now) && since <= early.s.takenAt < now.s.takenAt
    ensures Joined([early, now], [early, now], kind, Firsts([early, now], [early, now], kind, since))
         == [GrowthRow(now.s.key, now.s.title, now.s.bytes, now.s.bytes - early.s.bytes)]
  {
    var rows := [early, now];
    assert rows == [early] + [now] && [early] == [] + [early];
    assert now in rows;
    FirstOfTwo(early, now, kind, since);
    JoinedLast([early], now, rows, kind, [early]);
    JoinedLast([], early, rows, kind, [early]);
    OneMatch(now, early);
  }

  lemma OneRowGrowth(rows: seq<Row>, kind: string, since: int, limit: int, g: GrowthRow)
    requires Joined(rows, rows, kind, Firsts(rows, rows, kind, since)) == [g] && limit != 0
    ensures GrowthSince(rows, kind, since, limit) == [g]
  {
    SortOne(g);
  }

  /** Two samples of one item, in the window and at the cutoff: without the first
      the item seems not to have grown. */
  lemma PruningInsideTheWindowShows(early: Row, now: Row, kind: string, since: int, limit: int, cutoff: int)
    requires early.s.kind == kind && SameItem(early, now) && early.s.bytes != now.s.bytes
    requires since <= early.s.takenAt < cutoff <= now.s.takenAt && limit != 0
    ensures GrowthSince(Since([early, now], RowTime, cutoff), kind, since, limit)
         != GrowthSince([early, now], kind, since, limit)
  {
    FirstDropped(early, [now], RowTime, cutoff);
    assert [early] + [now] == [early, now];
    GrowthOfTwo(early, now, kind, since);
    OneRowGrowth([early, now], kind, since, limit, GrowthRow(now.s.key, now.s.title, now.s.bytes, now.s.bytes - early.s.bytes));
    GrowthOfOne(now, kind, since);
    OneRowGrowth([now], kind, since, limit, GrowthRow(now.s.key, now.s.title, now.s.bytes, 0));
  }

  lemma OneMatch(l: Row, f: Row)
    requires l.s.key == f.s.key
    ensures Matches(l, [f]) == [GrowthRow(l.s.key, l.s.title, l.s.bytes, l.s.bytes - f.s.bytes)]
  {
    assert [f][..0] == [];
  }

  lemma SortOne(g: GrowthRow)
    ensures SortDesc([g], DeltaKey) == [g]
  {
    assert [g][..0] == [];
  }

  /** No table's growth changes when rows before `cutoff` are deleted. */
  ghost predicate SweepHidesNoGrowth(kind: string, since: int, limit: int, cutoff: int) {
    forall rows :: GrowthSince(Since(rows, RowTime, cutoff), kind, since, limit) == GrowthSince(rows, kind, since, limit)
  }

  /** So pruning is invisible to growth, whatever the table holds, if and only if
      its cutoff does not lie inside the window. */
  lemma GrowthTransparentIff(kind: string, since: int, limit: int, cutoff: int)
    requires limit != 0
    ensures SweepHidesNoGrowth(kind, since, limit, cutoff) <==> cutoff <= since
  {
    if cutoff <= since {
      forall rows: seq<Row> ensures GrowthSince(Since(rows, RowTime, cutoff), kind, since, limit) == GrowthSince(rows, kind, since, limit) {
        PruningKeepsGrowth(rows, kind, since, limit, cutoff);
      }
    } else {
      var early := Row(0, Sample(kind, [], [], 0, [], since));
      var now := Row(1, Sample(kind, [], [], 1, [], cutoff));
      PruningInsideTheWindowShows(early, now, kind, since, limit, cutoff);
    }
  }

  // ---------- Latest scan ----------

  /** The newest time in the table, by a scan over the rows. */
  method MaxTime(rows: seq<Row>) returns (t: int)
    requires rows != []
    ensures (exists r :: r in rows && r.s.takenAt == t) && forall r :: r in rows ==> r.s.takenAt <= t
  {
    t := rows[0].s.takenAt;
    assert rows[0] in rows;
    for i := 0 to |rows|
      invariant exists r :: r in rows && r.s.takenAt == t
      invariant forall r :: r in rows[..i] ==> r.s.takenAt <= t
    {
      assert rows[..i + 1] == rows[..i] + [rows[i]];
      if t < rows[i].s.takenAt {
        t := rows[i].s.takenAt;
      }
    }
    assert rows[..|rows|] == rows;
  }

  /** The samples taken exactly at `t`, in table order. */
  function TakenAt(rows: seq<Row>, t: int): seq<Sample> {
    if rows == [] then []
    else
      var last := rows[|rows| - 1];
      TakenAt(rows[..|rows| - 1], t) + if last.s.takenAt == t then [last.s] else []
  }

  ghost predicate IsNewest(rows: seq<Row>, t: int) {
    (exists r :: r in rows && r.s.takenAt == t) && forall r :: r in rows ==> r.s.takenAt <= t
  }

  /** `LatestScan`: all samples of the newest time; `latest` starts from Go's
      zero time. */
  method LatestScan(rows: seq<Row>) returns (out: seq<Sample>, latest: int)
    ensures rows == [] ==> out == [] && latest == 0
    ensures rows != [] ==> exists t :: IsNewest(rows, t) && out == TakenAt(rows, t) && latest == if t > 0 then t else 0
  {
    out, latest := [], 0;
    if rows == [] {
      return;
    }
    var t := MaxTime(rows);
    for i := 0 to |rows|
      invariant out == TakenAt(rows[..i], t)
      invariant latest == if t in SampleTimes(out) && t > 0 then t else 0
    {
      assert rows[..i + 1][..i] == rows[..i];
      if rows[i].s.takenAt == t {
        out := out + [rows[i].s];
        if rows[i].s.takenAt > latest {
          latest := rows[i].s.takenAt;
        }
      }
    }
    assert rows[..|rows|] == rows;
    NewestIsListed(rows, t);
    assert IsNewest(rows, t);
  }

  function SampleTimes(samples: seq<Sample>): set<int> {
    set s | s in samples :: s.takenAt
  }

  lemma {:induction false} NewestIsListed(rows: seq<Row>, t: int)
    requires exists r :: r in rows && r.s.takenAt == t
    ensures t in SampleTimes(TakenAt(rows, t))
    decreases |rows|
  {
    var last := rows[|rows| - 1];
    if last.s.takenAt == t {
      assert last.s in TakenAt(rows, t);
    } else {
      var r :| r in rows && r.s.takenAt == t;
      assert rows == rows[..|rows| - 1] + [last];
      assert r in rows[..|rows| - 1];
      NewestIsListed(rows[..|rows| - 1], t);
      var s :| s in TakenAt(rows[..|rows| - 1], t) && s.takenAt == t;
      assert s in TakenAt(rows, t);
    }
  }

  lemma {:induction false} TakenAtAppend(a: seq<Row>, b: seq<Row>, t: int)
    ensures TakenAt(a + b, t) == TakenAt(a, t) + TakenAt(b, t)
    decreases |b|
  {
    if b == [] {
      assert a + b == a;
    } else {
      assert (a + b)[..|a + b| - 1] == a + b[..|b| - 1];
      TakenAtAppend(a, b[..|b| - 1], t);
    }
  }

  // ---------- Recent findings ----------

  function CreatedKey(r: FindingRow): real { r.f.createdAt as real }

  /** `RecentFindings`: newest first, cut at the limit. */
  function RecentFindings(rows: seq<FindingRow>, since: int, limit: int): seq<FindingRow> {
    Limit(SortDesc(Since(rows, FindingTime, since), CreatedKey), limit)
  }

  lemma NewestFindingsFirst(out: seq<FindingRow>, dropped: seq<FindingRow>)
    requires DescendingBy(out + dropped, CreatedKey)
    ensures forall i, j :: 0 <= i < j < |out| ==> out[i].f.createdAt >= out[j].f.createdAt
    ensures forall r, d :: r in out && d in dropped ==> r.f.createdAt >= d.f.createdAt
  {
    var all := out + dropped;
    forall i, j | 0 <= i < j < |all| ensures all[i].f.createdAt >= all[j].f.createdAt {
      assert CreatedKey(all[i]) >= CreatedKey(all[j]);
    }
    forall i, j | 0 <= i < j < |out| ensures out[i].f.createdAt >= out[j].f.createdAt {
      assert all[i] == out[i] && all[j] == out[j];
    }
    forall r, d | r in out && d in dropped ensures r.f.createdAt >= d.f.createdAt {
      var i :| 0 <= i < |out| && out[i] == r;
      var j :| 0 <= j < |dropped| && dropped[j] == d;
      assert all[i] == r && all[|out| + j] == d;
    }
  }

  /** The result holds the newest of exactly the findings since `since`. */
  lemma ResultIsNewestFindings(rows: seq<FindingRow>, since: int, limit: int)
    returns (out: seq<FindingRow>, dropped: seq<FindingRow>, recent: seq<FindingRow>)
    ensures out == RecentFindings(rows, since, limit) && TopBy(out, dropped, recent, CreatedKey, limit)
    ensures forall r :: r in recent <==> r in rows && since <= r.f.createdAt
    ensures forall i, j :: 0 <= i < j < |out| ==> out[i].f.createdAt >= out[j].f.createdAt
    ensures forall r, d :: r in out && d in dropped ==> r.f.createdAt >= d.f.createdAt
  {
    recent := Since(rows, FindingTime, since);
    out, dropped := LimitOfSorted(recent, CreatedKey, limit);
    NewestFindingsFirst(out, dropped);
    forall r ensures r in recent <==> r in rows && since <= r.f.createdAt {
      SinceMember(rows, FindingTime, since, r);
    }
  }

  /** Pruning up to `cutoff` does not change the findings since any later time. */
  lemma PruningKeepsFindings(rows: seq<FindingRow>, since: int, limit: int, cutoff: int)
    requires cutoff <= since
    ensures RecentFindings(Since(rows, FindingTime, cutoff), since, limit) == RecentFindings(rows, since, limit)
  {
    SinceTwice(rows, FindingTime, cutoff, since);
  }
}
