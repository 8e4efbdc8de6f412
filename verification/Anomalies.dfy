/** Baseline anomalies: the ranked query over the baseline window, the filters,
    the in-place sort and the cut. */
module Anomalies {
  import opened Seqs
  import opened Ordering
  import opened Samples
  import opened Tables

  const NO_BASELINE_RATIO := 999.0

  datatype AnomalyRow = AnomalyRow(kind: string, key: string, title: string, bytes: int, delta: int, baseline: real, ratio: real)

  function RatioKey(a: AnomalyRow): real { a.ratio }

  /** The parameters of a call, with the window it derives from the clock. */
  datatype Query = Query(kind: string, days: int, minRatio: real, minDelta: int, limit: int, now: int)

  function Last24Start(q: Query): int { q.now - DAY }

  function BaseStart(q: Query): int { Last24Start(q) - q.days * DAY }

  /** The rows the query ranks. */
  function Window(rows: seq<Row>, q: Query): seq<Row> {
    if rows == [] then []
    else
      var r := rows[|rows| - 1];
      Window(rows[..|rows| - 1], q) + if r.s.kind == q.kind && BaseStart(q) <= r.s.takenAt then [r] else []
  }

  // ---------- Ranking ----------

  /** The three ORDER BY criteria: newest first, or nearest to a time. */
  datatype Measure = Newest | Nearest(target: int)

  function Cost(m: Measure, r: Row): int {
    match m
    case Newest => -r.s.takenAt
    case Nearest(t) => if r.s.takenAt >= t then r.s.takenAt - t else t - r.s.takenAt
  }

  /** Rank 1 of a key: smallest cost, ties to the lowest row. */
  ghost predicate RanksFirst(w: seq<Row>, key: string, m: Measure, i: nat) {
    && i < |w| && w[i].s.key == key
    && forall j :: 0 <= j < |w| && w[j].s.key == key ==>
         Cost(m, w[i]) < Cost(m, w[j]) || (Cost(m, w[i]) == Cost(m, w[j]) && i <= j)
  }

  ghost predicate HasKey(w: seq<Row>, key: string) {
    exists i :: 0 <= i < |w| && w[i].s.key == key
  }

  lemma {:induction false} SomeRowRanksFirst(w: seq<Row>, key: string, m: Measure)
    requires HasKey(w, key)
    ensures exists i: nat :: RanksFirst(w, key, m, i)
    decreases |w|
  {
    var init, last := w[..|w| - 1], w[|w| - 1];
    if HasKey(init, key) {
      SomeRowRanksFirst(init, key, m);
      var i: nat :| RanksFirst(init, key, m, i);
      if last.s.key == key && Cost(m, last) < Cost(m, w[i]) {
        assert RanksFirst(w, key, m, |w| - 1) by {
          assert forall j :: 0 <= j < |init| ==> w[j] == init[j];
        }
      } else {
        assert RanksFirst(w, key, m, i) by {
          assert forall j :: 0 <= j < |init| ==> w[j] == init[j];
        }
      }
    } else {
      assert forall j :: 0 <= j < |init| ==> w[j] == init[j] && init[j].s.key != key;
      assert RanksFirst(w, key, m, |w| - 1);
    }
  }

  /** The row with ROW_NUMBER() = 1 for a key. */
  ghost function First(w: seq<Row>, key: string, m: Measure): (i: nat)
    requires HasKey(w, key)
    ensures RanksFirst(w, key, m, i)
  {
    SomeRowRanksFirst(w, key, m);
    var i: nat :| RanksFirst(w, key, m, i);
    i
  }

  lemma FirstIs(w: seq<Row>, key: string, m: Measure, i: nat)
    requires RanksFirst(w, key, m, i)
    ensures HasKey(w, key) && First(w, key, m) == i
  {
  }

  /** One pass over the window finds the rank-1 row of a key. */
  method FindFirst(w: seq<Row>, key: string, m: Measure) returns (best: nat)
    requires HasKey(w, key)
    ensures best == First(w, key, m)
  {
    var found: Option<nat> := None;
    for i := 0 to |w|
      invariant found.None? ==> forall j :: 0 <= j < i ==> w[j].s.key != key
      invariant found.Some? ==> RanksFirst(w[..i], key, m, found.value)
    {
      assert w[..i + 1] == w[..i] + [w[i]];
      if w[i].s.key == key && (found.None? || Cost(m, w[i]) < Cost(m, w[found.value])) {
        found := Some(i);
      }
    }
    assert w[..|w|] == w;
    best := found.value;
    FirstIs(w, key, m, best);
  }

  // ---------- One anomaly candidate ----------

  ghost function Latest(w: seq<Row>, key: string): nat
    requires HasKey(w, key)
  {
    First(w, key, Newest)
  }

  ghost function DayAgo(w: seq<Row>, key: string, q: Query): nat
    requires HasKey(w, key)
  {
    First(w, key, Nearest(Last24Start(q)))
  }

  ghost function Base(w: seq<Row>, key: string, q: Query): nat
    requires HasKey(w, key)
  {
    First(w, key, Nearest(BaseStart(q)))
  }

  function Max(a: int, b: int): int { if a >= b then a else b }

  function Baseline(dayAgo: int, base: int, days: int): real
    requires days != 0
  {
    Max(dayAgo - base, 0) as real / days as real
  }

  function Ratio(delta: int, baseline: real): real {
    if baseline <= 0.0 then NO_BASELINE_RATIO else delta as real / baseline
  }

  /** The result row of a key, from its three rank-1 rows. */
  function AnomalyFrom(q: Query, latest: Row, dayAgo: Row, base: Row): AnomalyRow
    requires q.days != 0
  {
    var delta := latest.s.bytes - dayAgo.s.bytes;
    var baseline := Baseline(dayAgo.s.bytes, base.s.bytes, q.days);
    AnomalyRow(q.kind, latest.s.key, latest.s.title, latest.s.bytes, delta, baseline, Ratio(delta, baseline))
  }

  ghost function AnomalyOf(w: seq<Row>, key: string, q: Query): AnomalyRow
    requires HasKey(w, key) && q.days != 0
  {
    AnomalyFrom(q, w[Latest(w, key)], w[DayAgo(w, key, q)], w[Base(w, key, q)])
  }

  /** Both filters of the loop. */
  predicate Passes(q: Query, a: AnomalyRow) { q.minDelta <= a.delta && q.minRatio <= a.ratio }

  // ---------- The whole query ----------

  /** The keys of the window, each once, in order of first appearance. */
  function Keys(w: seq<Row>): seq<string> {
    if w == [] then []
    else
      var init, key := Keys(w[..|w| - 1]), w[|w| - 1].s.key;
      if key in init then init else init + [key]
  }

  lemma {:induction false} KeysAreTheKeys(w: seq<Row>)
    ensures forall key :: key in Keys(w) <==> HasKey(w, key)
    decreases |w|
  {
    if w != [] {
      var init := w[..|w| - 1];
      KeysAreTheKeys(init);
      forall key ensures key in Keys(w) <==> HasKey(w, key) {
        if HasKey(init, key) {
          var i :| 0 <= i < |init| && init[i].s.key == key;
          assert w[i].s.key == key;
        }
        if HasKey(w, key) && key != w[|w| - 1].s.key {
          var i :| 0 <= i < |w| && w[i].s.key == key;
          assert init[i].s.key == key;
        }
        assert key == w[|w| - 1].s.key ==> HasKey(w, key);
      }
    }
  }

  /** `x` has a row before the first row of `y`. */
  ghost predicate AppearsBefore(w: seq<Row>, x: string, y: string) {
    exists a :: 0 <= a < |w| && w[a].s.key == x && forall b :: 0 <= b <= a ==> w[b].s.key != y
  }

  ghost predicate InOrderOfAppearance(w: seq<Row>, keys: seq<string>) {
    forall i, j :: 0 <= i < j < |keys| ==> AppearsBefore(w, keys[i], keys[j])
  }

  lemma StillAppearsBefore(w: seq<Row>, r: Row, x: string, y: string)
    requires AppearsBefore(w, x, y)
    ensures AppearsBefore(w + [r], x, y)
  {
    var a :| 0 <= a < |w| && w[a].s.key == x && forall b :: 0 <= b <= a ==> w[b].s.key != y;
    assert (w + [r])[a].s.key == x;
  }

  lemma AppearsBeforeANewKey(w: seq<Row>, r: Row, x: string)
    requires HasKey(w, x) && !HasKey(w, r.s.key)
    ensures AppearsBefore(w + [r], x, r.s.key)
  {
    var a :| 0 <= a < |w| && w[a].s.key == x;
    assert (w + [r])[a].s.key == x;
  }

  /** Each key once, by first appearance. */
  lemma {:induction false} KeysInOrder(w: seq<Row>)
    ensures InOrderOfAppearance(w, Keys(w))
    decreases |w|
  {
    if w != [] {
      var init, r := w[..|w| - 1], w[|w| - 1];
      KeysInOrder(init);
      KeysAreTheKeys(init);
      assert w == init + [r];
      forall i, j | 0 <= i < j < |Keys(w)| ensures AppearsBefore(w, Keys(w)[i], Keys(w)[j]) {
        assert Keys(w)[i] in Keys(init);
        if j < |Keys(init)| {
          StillAppearsBefore(init, r, Keys(w)[i], Keys(w)[j]);
        } else {
          AppearsBeforeANewKey(init, r, Keys(w)[i]);
        }
      }
    }
  }

  /** The rows that pass, in key order. */
  ghost function Flagged(w: seq<Row>, keys: seq<string>, q: Query): seq<AnomalyRow>
    requires q.days != 0
  {
    if keys == [] then []
    else
      var key := keys[|keys| - 1];
      Flagged(w, keys[..|keys| - 1], q)
      + if HasKey(w, key) && Passes(q, AnomalyOf(w, key, q)) then [AnomalyOf(w, key, q)] else []
  }

  /** Dividing by zero days gives NULL, which the scan of a row rejects. */
  ghost function AnomalyRows(rows: seq<Row>, q: Query): Option<seq<AnomalyRow>> {
    var w := Window(rows, q);
    if q.days == 0 then (if w == [] then Some([]) else None)
    else Some(CutAt(SortDesc(Flagged(w, Keys(w), q), RatioKey), q.limit))
  }

  function CutAt(sorted: seq<AnomalyRow>, limit: int): seq<AnomalyRow> {
    if limit > 0 && |sorted| > limit then sorted[..limit] else sorted
  }

  method SelectWindow(rows: seq<Row>, q: Query) returns (w: seq<Row>)
    ensures w == Window(rows, q)
  {
    w := [];
    for i := 0 to |rows|
      invariant w == Window(rows[..i], q)
    {
      assert rows[..i + 1][..i] == rows[..i];
      if rows[i].s.kind == q.kind && BaseStart(q) <= rows[i].s.takenAt {
        w := w + [rows[i]];
      }
    }
    assert rows[..|rows|] == rows;
  }

  method SelectKeys(w: seq<Row>) returns (keys: seq<string>)
    ensures keys == Keys(w)
  {
    keys := [];
    for i := 0 to |w|
      invariant keys == Keys(w[..i])
    {
      assert w[..i + 1][..i] == w[..i];
      if w[i].s.key !in keys {
        keys := keys + [w[i].s.key];
      }
    }
    assert w[..|w|] == w;
  }

  /** The loop over the joined rows, with both filters. */
  method FilterRows(w: seq<Row>, keys: seq<string>, q: Query) returns (out: seq<AnomalyRow>)
    requires q.days != 0 && forall key :: key in keys ==> HasKey(w, key)
    ensures out == Flagged(w, keys, q)
  {
    out := [];
    for i := 0 to |keys|
      invariant out == Flagged(w, keys[..i], q)
    {
      assert keys[..i + 1][..i] == keys[..i];
      var latest := FindFirst(w, keys[i], Newest);
      var dayAgo := FindFirst(w, keys[i], Nearest(Last24Start(q)));
      var base := FindFirst(w, keys[i], Nearest(BaseStart(q)));
      var a := AnomalyFrom(q, w[latest], w[dayAgo], w[base]);
      if a.delta < q.minDelta {
        continue;
      }
      if a.ratio < q.minRatio {
        continue;
      }
      out := out + [a];
    }
    assert keys[..|keys|] == keys;
  }

  method BaselineAnomalies(rows: seq<Row>, q: Query) returns (out: Option<seq<AnomalyRow>>)
    ensures out == AnomalyRows(rows, q)
  {
    var w := SelectWindow(rows, q);
    var keys := SelectKeys(w);
    KeysAreTheKeys(w);
    if q.days == 0 {
      return if |w| == 0 then Some([]) else None;
    }
    var kept := FilterRows(w, keys, q);
    var a := new AnomalyRow[|kept|](i requires 0 <= i < |kept| => kept[i]);
    assert a[..] == kept;
    InsertionSortDesc(a, RatioKey);
    out := Some(CutAt(a[..], q.limit));
  }

  // ---------- What the result is ----------

  /** `a` is the result row of `key` and passes both filters. */
  ghost predicate Reported(w: seq<Row>, key: string, q: Query, a: AnomalyRow)
    requires q.days != 0
  {
    HasKey(w, key) && a == AnomalyOf(w, key, q) && Passes(q, a)
  }

  /** `flagged` holds the result rows of `keys`, one for one: exactly the keys
      whose row passes, by first appearance in the window. */
  ghost predicate FlaggedFor(w: seq<Row>, q: Query, keys: seq<string>, flagged: seq<AnomalyRow>)
    requires q.days != 0
  {
    && |flagged| == |keys| && InOrderOfAppearance(w, keys)
    && (forall i :: 0 <= i < |keys| ==> Reported(w, keys[i], q, flagged[i]))
    && (forall key, a :: Reported(w, key, q, a) ==> key in keys)
  }

  /** The keys whose row passes both filters. */
  ghost function PassingKeys(w: seq<Row>, keys: seq<string>, q: Query): seq<string>
    requires q.days != 0
  {
    if keys == [] then []
    else
      var key := keys[|keys| - 1];
      PassingKeys(w, keys[..|keys| - 1], q) + if HasKey(w, key) && Passes(q, AnomalyOf(w, key, q)) then [key] else []
  }

  lemma {:induction false} PassingMember(w: seq<Row>, keys: seq<string>, q: Query, key: string)
    requires q.days != 0
    ensures key in PassingKeys(w, keys, q) <==> key in keys && HasKey(w, key) && Passes(q, AnomalyOf(w, key, q))
    decreases |keys|
  {
    if keys != [] {
      var init, last := keys[..|keys| - 1], keys[|keys| - 1];
      assert keys == init + [last];
      PassingMember(w, init, q, key);
    }
  }

  lemma InOrderAppend(w: seq<Row>, keys: seq<string>, last: string)
    requires InOrderOfAppearance(w, keys) && forall key :: key in keys ==> AppearsBefore(w, key, last)
    ensures InOrderOfAppearance(w, keys + [last])
  {
  }

  lemma {:induction false} PassingInOrder(w: seq<Row>, keys: seq<string>, q: Query)
    requires q.days != 0 && InOrderOfAppearance(w, keys)
    ensures InOrderOfAppearance(w, PassingKeys(w, keys, q))
    decreases |keys|
  {
    if keys != [] {
      var init, last := keys[..|keys| - 1], keys[|keys| - 1];
      PassingInOrder(w, init, q);
      forall key | key in PassingKeys(w, init, q) ensures AppearsBefore(w, key, last) {
        PassingMember(w, init, q, key);
        var j :| 0 <= j < |init| && init[j] == key;
        assert keys[j] == key;
      }
      InOrderAppend(w, PassingKeys(w, init, q), last);
    }
  }

  lemma {:induction false} FlaggedRows(w: seq<Row>, keys: seq<string>, q: Query)
    requires q.days != 0
    ensures var passing, flagged := PassingKeys(w, keys, q), Flagged(w, keys, q);
      |flagged| == |passing| && forall i :: 0 <= i < |passing| ==> Reported(w, passing[i], q, flagged[i])
    decreases |keys|
  {
    if keys != [] {
      FlaggedRows(w, keys[..|keys| - 1], q);
    }
  }

  /** `out` and `dropped` are the stable descending arrangement of `flagged`, cut
      at the limit. */
  ghost predicate TopByRatio(out: seq<AnomalyRow>, dropped: seq<AnomalyRow>, flagged: seq<AnomalyRow>, limit: int) {
    && DescendingBy(out + dropped, RatioKey)
    && multiset(out + dropped) == multiset(flagged)
    && SameGroups(out + dropped, flagged, RatioKey)
    && (dropped != [] ==> 0 < limit == |out|)
    && (limit > 0 ==> |out| <= limit)
  }

  /** Nothing dropped has a larger ratio than anything kept. */
  lemma DroppedAreSmaller(out: seq<AnomalyRow>, dropped: seq<AnomalyRow>, flagged: seq<AnomalyRow>, limit: int, i: nat, j: nat)
    requires TopByRatio(out, dropped, flagged, limit) && i < |out| && j < |dropped|
    ensures out[i].ratio >= dropped[j].ratio
  {
    var s := out + dropped;
    assert RatioKey(s[i]) >= RatioKey(s[|out| + j]);
  }

  lemma CutOfSorted(flagged: seq<AnomalyRow>, limit: int) returns (out: seq<AnomalyRow>, dropped: seq<AnomalyRow>)
    ensures out == CutAt(SortDesc(flagged, RatioKey), limit) && TopByRatio(out, dropped, flagged, limit)
  {
    var sorted := SortDesc(flagged, RatioKey);
    SortDescCorrect(flagged, RatioKey);
    out := CutAt(sorted, limit);
    dropped := sorted[|out|..];
    assert out + dropped == sorted;
  }

  /** The result is a prefix of the stable descending arrangement of exactly the
      rows that pass both filters, one for each passing key; only a positive limit
      cuts it. */
  lemma ResultIsTopByRatio(rows: seq<Row>, q: Query)
    returns (out: seq<AnomalyRow>, dropped: seq<AnomalyRow>, flagged: seq<AnomalyRow>, keys: seq<string>)
    requires q.days != 0
    ensures AnomalyRows(rows, q) == Some(out)
    ensures TopByRatio(out, dropped, flagged, q.limit)
    ensures FlaggedFor(Window(rows, q), q, keys, flagged)
    ensures forall i, j :: 0 <= i < j < |out| ==> out[i].ratio >= out[j].ratio
  {
    var w := Window(rows, q);
    KeysAreTheKeys(w);
    KeysInOrder(w);
    flagged, keys := Flagged(w, Keys(w), q), PassingKeys(w, Keys(w), q);
    FlaggedRows(w, Keys(w), q);
    PassingInOrder(w, Keys(w), q);
    forall key, a | Reported(w, key, q, a) ensures key in keys {
      PassingMember(w, Keys(w), q, key);
    }
    out, dropped := CutOfSorted(flagged, q.limit);
    forall i, j | 0 <= i < j < |out| ensures out[i].ratio >= out[j].ratio {
      assert (out + dropped)[i] == out[i] && (out + dropped)[j] == out[j];
      assert RatioKey(out[i]) >= RatioKey(out[j]);
    }
  }

  // ---------- What a reported row says ----------

  /** The rows ranked are those of the kind since the start of the window: the
      baseline days and the last 24 hours, in seconds. */
  lemma {:induction false} WindowMeans(rows: seq<Row>, q: Query, r: Row)
    ensures r in Window(rows, q)
       <==> r in rows && r.s.kind == q.kind && r.s.takenAt >= q.now - 86400 - 86400 * q.days
    decreases |rows|
  {
    if rows != [] {
      WindowMeans(rows[..|rows| - 1], q, r);
      assert rows == rows[..|rows| - 1] + [rows[|rows| - 1]];
    }
  }

  function Distance(a: int, b: int): int { if a >= b then a - b else b - a }

  /** `i` is the key's newest row, and the first of those. */
  ghost predicate NewestOf(w: seq<Row>, key: string, i: nat) {
    && i < |w| && w[i].s.key == key
    && (forall j :: 0 <= j < |w| && w[j].s.key == key ==> w[j].s.takenAt <= w[i].s.takenAt)
    && (forall j :: 0 <= j < i && w[j].s.key == key ==> w[j].s.takenAt < w[i].s.takenAt)
  }

  /** `i` is the key's row nearest to the time `t`, and the first of those. */
  ghost predicate NearestTo(w: seq<Row>, key: string, t: int, i: nat) {
    && i < |w| && w[i].s.key == key
    && (forall j :: 0 <= j < |w| && w[j].s.key == key ==> Distance(w[i].s.takenAt, t) <= Distance(w[j].s.takenAt, t))
    && (forall j :: 0 <= j < i && w[j].s.key == key ==> Distance(w[i].s.takenAt, t) < Distance(w[j].s.takenAt, t))
  }

  /** The three rows: the newest, the one nearest to 24 hours ago, and the one
      nearest to the start of the window. */
  lemma RankedRows(w: seq<Row>, key: string, q: Query)
    requires HasKey(w, key)
    ensures NewestOf(w, key, Latest(w, key))
    ensures NearestTo(w, key, q.now - 86400, DayAgo(w, key, q))
    ensures NearestTo(w, key, q.now - 86400 - 86400 * q.days, Base(w, key, q))
  {
    NewestRanksFirst(w, key, Latest(w, key));
    NearestRanksFirst(w, key, Last24Start(q), DayAgo(w, key, q));
    NearestRanksFirst(w, key, BaseStart(q), Base(w, key, q));
  }

  lemma NewestRanksFirst(w: seq<Row>, key: string, i: nat)
    requires RanksFirst(w, key, Newest, i)
    ensures NewestOf(w, key, i)
  {
    forall j | 0 <= j < |w| && w[j].s.key == key
      ensures w[j].s.takenAt <= w[i].s.takenAt && (j < i ==> w[j].s.takenAt < w[i].s.takenAt)
    {
      assert Cost(Newest, w[i]) <= Cost(Newest, w[j]);
    }
  }

  lemma NearestRanksFirst(w: seq<Row>, key: string, t: int, i: nat)
    requires RanksFirst(w, key, Nearest(t), i)
    ensures NearestTo(w, key, t, i)
  {
    forall j | 0 <= j < |w| && w[j].s.key == key
      ensures Distance(w[i].s.takenAt, t) <= Distance(w[j].s.takenAt, t)
      ensures j < i ==> Distance(w[i].s.takenAt, t) < Distance(w[j].s.takenAt, t)
    {
      assert Cost(Nearest(t), w[i]) <= Cost(Nearest(t), w[j]);
    }
  }

  lemma DailyAverage(b: real, d: int, days: int)
    requires days != 0 && b == d as real / days as real
    ensures b * days as real == d as real
  {
  }

  lemma QuotientTimes(d: real, b: real)
    requires b > 0.0
    ensures d / b * b == d
  {
  }

  /** What the daily average and the ratio mean, without division. */
  ghost predicate Averages(baseline: real, days: int, grown: int) {
    baseline * days as real == grown as real
  }

  ghost predicate Compares(ratio: real, baseline: real, delta: int) {
    if baseline > 0.0 then ratio * baseline == delta as real else ratio == 999.0
  }

  lemma BaselineAverages(dayAgo: int, base: int, days: int)
    requires days != 0
    ensures Averages(Baseline(dayAgo, base, days), days, if dayAgo > base then dayAgo - base else 0)
  {
    DailyAverage(Baseline(dayAgo, base, days), if dayAgo > base then dayAgo - base else 0, days);
  }

  lemma RatioCompares(delta: int, baseline: real)
    ensures Compares(Ratio(delta, baseline), baseline, delta)
  {
    if baseline > 0.0 {
      QuotientTimes(delta as real, baseline);
    }
  }

  /** The columns of a result row, from the bytes of the key's three rows. */
  ghost predicate Figures(a: AnomalyRow, now: int, dayAgo: int, base: int, days: int) {
    && a.bytes == now && a.delta == now - dayAgo
    && Averages(a.baseline, days, if dayAgo > base then dayAgo - base else 0)
    && Compares(a.ratio, a.baseline, a.delta)
  }

  lemma FiguresFrom(q: Query, l: Row, x: Row, b: Row)
    requires q.days != 0
    ensures Figures(AnomalyFrom(q, l, x, b), l.s.bytes, x.s.bytes, b.s.bytes, q.days)
  {
    BaselineAverages(x.s.bytes, b.s.bytes, q.days);
    RatioCompares(l.s.bytes - x.s.bytes, Baseline(x.s.bytes, b.s.bytes, q.days));
  }

  /** The baseline is the growth before the last day averaged over the days, and the
      ratio compares the last day's growth with it. */
  lemma AnomalyMeans(w: seq<Row>, key: string, q: Query)
    requires HasKey(w, key) && q.days != 0
    ensures var a, l := AnomalyOf(w, key, q), w[Latest(w, key)];
      && a.kind == q.kind && a.key == key && a.title == l.s.title
      && Figures(a, l.s.bytes, w[DayAgo(w, key, q)].s.bytes, w[Base(w, key, q)].s.bytes, q.days)
  {
    FiguresFrom(q, w[Latest(w, key)], w[DayAgo(w, key, q)], w[Base(w, key, q)]);
  }

  /** The filters, by cross-multiplication. */
  ghost predicate Suffices(q: Query, delta: int, dayAgo: int, base: int) {
    && delta >= q.minDelta
    && if dayAgo > base then delta as real * q.days as real >= q.minRatio * (dayAgo - base) as real
       else q.minRatio <= 999.0
  }

  lemma FiguresPass(a: AnomalyRow, q: Query, now: int, dayAgo: int, base: int)
    requires q.days > 0 && Figures(a, now, dayAgo, base, q.days)
    ensures Passes(q, a) <==> Suffices(q, a.delta, dayAgo, base)
  {
    var n := q.days as real;
    if dayAgo > base {
      PositiveFactor(a.baseline, n, (dayAgo - base) as real);
      CrossMultiply(a.ratio, a.baseline, a.delta as real, n, q.minRatio, (dayAgo - base) as real);
    } else {
      ZeroFactor(a.baseline, n);
    }
  }

  lemma ZeroFactor(b: real, n: real)
    requires n > 0.0 && b * n == 0.0
    ensures b == 0.0
  {
  }

  lemma PositiveFactor(b: real, n: real, d: real)
    requires n > 0.0 && b * n == d && d > 0.0
    ensures b > 0.0
  {
  }

  lemma CrossMultiply(ratio: real, b: real, delta: real, n: real, least: real, d: real)
    requires b > 0.0 && n > 0.0 && ratio * b == delta && b * n == d
    ensures least <= ratio <==> delta * n >= least * d
  {
    assert delta * n == ratio * d by {
      assert ratio * b * n == ratio * (b * n);
    }
    assert d > 0.0 by {
      assert b * n > 0.0;
    }
    if least <= ratio {
      assert (ratio - least) * d >= 0.0;
    } else {
      assert (least - ratio) * d > 0.0;
    }
  }

  lemma ReportedKey(rows: seq<Row>, q: Query, out: seq<AnomalyRow>, a: AnomalyRow)
    requires q.days != 0 && AnomalyRows(rows, q) == Some(out) && a in out
    ensures Reported(Window(rows, q), a.key, q, a)
  {
    var out', dropped, flagged, keys := ResultIsTopByRatio(rows, q);
    assert a in out + dropped;
    assert a in multiset(flagged);
    var i :| 0 <= i < |flagged| && flagged[i] == a;
    assert Reported(Window(rows, q), keys[i], q, a);
  }

  /** Each reported row belongs to one key of the window, shows the figures of its
      newest, day-ago and base rows, and passes both filters. */
  lemma ReportedRow(rows: seq<Row>, q: Query, out: seq<AnomalyRow>, a: AnomalyRow)
    requires q.days > 0 && AnomalyRows(rows, q) == Some(out) && a in out
    ensures var w := Window(rows, q);
      && HasKey(w, a.key) && a.kind == q.kind && a.title == w[Latest(w, a.key)].s.title
      && Figures(a, w[Latest(w, a.key)].s.bytes, w[DayAgo(w, a.key, q)].s.bytes, w[Base(w, a.key, q)].s.bytes, q.days)
      && Suffices(q, a.delta, w[DayAgo(w, a.key, q)].s.bytes, w[Base(w, a.key, q)].s.bytes)
  {
    var w := Window(rows, q);
    ReportedKey(rows, q, out, a);
    AnomalyMeans(w, a.key, q);
    FiguresPass(a, q, w[Latest(w, a.key)].s.bytes, w[DayAgo(w, a.key, q)].s.bytes, w[Base(w, a.key, q)].s.bytes);
  }

  lemma PassingRowIsIn(rows: seq<Row>, q: Query, key: string)
    requires q.days != 0 && q.limit <= 0 && HasKey(Window(rows, q), key) && Passes(q, AnomalyOf(Window(rows, q), key, q))
    ensures AnomalyRows(rows, q).Some? && AnomalyOf(Window(rows, q), key, q) in AnomalyRows(rows, q).value
  {
    var a := AnomalyOf(Window(rows, q), key, q);
    var out, dropped, flagged, keys := ResultIsTopByRatio(rows, q);
    assert Reported(Window(rows, q), key, q, a);
    var i :| 0 <= i < |keys| && keys[i] == key;
    assert Reported(Window(rows, q), keys[i], q, flagged[i]);
    assert flagged[i] == a && a in multiset(flagged);
    assert dropped == [] && out + dropped == out;
    assert a in multiset(out);
  }

  /** Without a limit every key whose figures suffice is reported. */
  lemma PassingKeyIsReported(rows: seq<Row>, q: Query, key: string) returns (a: AnomalyRow)
    requires q.days > 0 && q.limit <= 0 && HasKey(Window(rows, q), key)
    requires var w := Window(rows, q);
      Suffices(q, w[Latest(w, key)].s.bytes - w[DayAgo(w, key, q)].s.bytes,
               w[DayAgo(w, key, q)].s.bytes, w[Base(w, key, q)].s.bytes)
    ensures AnomalyRows(rows, q).Some? && a in AnomalyRows(rows, q).value && a.key == key
  {
    var w := Window(rows, q);
    a := AnomalyOf(w, key, q);
    AnomalyMeans(w, key, q);
    FiguresPass(a, q, w[Latest(w, key)].s.bytes, w[DayAgo(w, key, q)].s.bytes, w[Base(w, key, q)].s.bytes);
    PassingRowIsIn(rows, q, key);
  }

  /** A baseline of zero days fails the query once there is a row to rank. */
  lemma ZeroDaysFail(rows: seq<Row>, q: Query)
    requires q.days == 0
    ensures AnomalyRows(rows, q).None?
       <==> exists r :: r in rows && r.s.kind == q.kind && r.s.takenAt >= q.now - 86400
    ensures AnomalyRows(rows, q).Some? ==> AnomalyRows(rows, q).value == []
  {
    var w := Window(rows, q);
    if w != [] {
      WindowMeans(rows, q, w[0]);
      assert w[0] in rows && w[0].s.kind == q.kind && w[0].s.takenAt >= q.now - 86400;
    } else if r :| r in rows && r.s.kind == q.kind && r.s.takenAt >= q.now - 86400 {
      WindowMeans(rows, q, r);
    }
  }

  // ---------- Retention ----------

  lemma WindowLast(rows: seq<Row>, r: Row, q: Query)
    ensures Window(rows + [r], q)
         == Window(rows, q) + if r.s.kind == q.kind && BaseStart(q) <= r.s.takenAt then [r] else []
    ensures rows + [] == rows
  {
    assert (rows + [r])[..|rows|] == rows;
  }

  lemma {:induction false} WindowSurvives(rows: seq<Row>, q: Query, cutoff: int)
    requires cutoff <= BaseStart(q)
    ensures Window(Since(rows, RowTime, cutoff), q) == Window(rows, q)
    decreases |rows|
  {
    if rows != [] {
      var init, r := rows[..|rows| - 1], rows[|rows| - 1];
      WindowSurvives(init, q, cutoff);
      SinceLast(init, r, RowTime, cutoff);
      WindowLast(init, r, q);
      WindowLast(Since(init, RowTime, cutoff), r, q);
      assert rows == init + [r];
      if r.s.takenAt < cutoff {
        assert Since(rows, RowTime, cutoff) == Since(init, RowTime, cutoff);
        assert Window(rows, q) == Window(init, q);
      }
    }
  }

  /** Pruning no later than the start of the baseline window changes nothing. */
  lemma PruningKeepsAnomalies(rows: seq<Row>, q: Query, cutoff: int)
    requires cutoff <= BaseStart(q)
    ensures AnomalyRows(Since(rows, RowTime, cutoff), q) == AnomalyRows(rows, q)
  {
    WindowSurvives(rows, q, cutoff);
  }

  lemma {:induction false} OneKey(w: seq<Row>, key: string)
    requires w != [] && forall i :: 0 <= i < |w| ==> w[i].s.key == key
    ensures Keys(w) == [key]
    decreases |w|
  {
    if |w| > 1 {
      OneKey(w[..|w| - 1], key);
    } else {
      assert w[..0] == [];
    }
  }

  lemma FlaggedOne(w: seq<Row>, q: Query, key: string)
    requires q.days != 0 && HasKey(w, key)
    ensures var a := AnomalyOf(w, key, q);
      SortDesc(Flagged(w, [key], q), RatioKey) == if Passes(q, a) then [a] else []
  {
    var a := AnomalyOf(w, key, q);
    assert [key][..0] == [] && [a][..0] == [];
    assert Flagged(w, [], q) == [];
  }

  /** The result for a table whose window holds one item, from its rank-1 rows. */
  lemma OneItemResult(rows: seq<Row>, w: seq<Row>, q: Query, key: string, latest: nat, dayAgo: nat, base: nat)
    requires q.days != 0 && w == Window(rows, q) && w != [] && forall i :: 0 <= i < |w| ==> w[i].s.key == key
    requires RanksFirst(w, key, Newest, latest)
    requires RanksFirst(w, key, Nearest(Last24Start(q)), dayAgo)
    requires RanksFirst(w, key, Nearest(BaseStart(q)), base)
    ensures AnomalyRows(rows, q)
         == Some(if Passes(q, AnomalyFrom(q, w[latest], w[dayAgo], w[base])) then [AnomalyFrom(q, w[latest], w[dayAgo], w[base])] else [])
  {
    FirstIs(w, key, Newest, latest);
    FirstIs(w, key, Nearest(Last24Start(q)), dayAgo);
    FirstIs(w, key, Nearest(BaseStart(q)), base);
    OneKey(w, key);
    FlaggedOne(w, q, key);
  }

  function RowAt(id: nat, q: Query, t: int, bytes: int): Row {
    Row(id, Sample(q.kind, "k", "k", bytes, "", t))
  }

  /** The parameters under which the query is used: a positive baseline and
      filters that a new spike passes and a quiet item does not. */
  predicate Sensible(q: Query) {
    q.days > 0 && q.minDelta > 0 && 0.0 < q.minRatio <= NO_BASELINE_RATIO
  }

  lemma {:induction false} WindowOf(rows: seq<Row>, q: Query)
    requires forall i :: 0 <= i < |rows| ==> rows[i].s.kind == q.kind && BaseStart(q) <= rows[i].s.takenAt
    ensures Window(rows, q) == rows
    decreases |rows|
  {
    if rows != [] {
      var init, r := rows[..|rows| - 1], rows[|rows| - 1];
      assert rows == init + [r];
      assert forall i :: 0 <= i < |init| ==> init[i] == rows[i];
      WindowOf(init, q);
      WindowLast(init, r, q);
    }
  }

  /** `latest`, `dayAgo` and `base` are the rank-1 rows of the item. */
  ghost predicate Ranked(w: seq<Row>, q: Query, latest: nat, dayAgo: nat, base: nat) {
    && RanksFirst(w, "k", Newest, latest)
    && RanksFirst(w, "k", Nearest(Last24Start(q)), dayAgo)
    && RanksFirst(w, "k", Nearest(BaseStart(q)), base)
  }

  /** The result for a table of rows of one item inside the window. */
  lemma RankedResult(rows: seq<Row>, q: Query, latest: nat, dayAgo: nat, base: nat)
    requires q.days > 0 && rows != [] && Ranked(rows, q, latest, dayAgo, base)
    requires forall i :: 0 <= i < |rows| ==> SameItemOf(q, rows[i]) && BaseStart(q) <= rows[i].s.takenAt
    ensures AnomalyRows(rows, q)
         == Some(if Passes(q, AnomalyFrom(q, rows[latest], rows[dayAgo], rows[base]))
                 then [AnomalyFrom(q, rows[latest], rows[dayAgo], rows[base])] else [])
  {
    WindowOf(rows, q);
    OneItemResult(rows, rows, q, "k", latest, dayAgo, base);
  }

  lemma OneRowRanked(q: Query, r: Row)
    requires SameItemOf(q, r)
    ensures Ranked([r], q, 0, 0, 0)
  {
  }

  lemma TwoRowsRanked(q: Query, r0: Row, r1: Row)
    requires q.days > 0 && SameItemOf(q, r0) && SameItemOf(q, r1)
    requires BaseStart(q) <= r0.s.takenAt == Last24Start(q) < r1.s.takenAt
    ensures Ranked([r0, r1], q, 1, 0, 0)
  {
  }

  lemma ThreeRowsRanked(q: Query, r0: Row, r1: Row, r2: Row)
    requires q.days > 0 && SameItemOf(q, r0) && SameItemOf(q, r1) && SameItemOf(q, r2)
    requires BaseStart(q) == r0.s.takenAt < r1.s.takenAt == Last24Start(q) < r2.s.takenAt
    ensures Ranked([r0, r1, r2], q, 2, 1, 0)
  {
  }

  predicate SameItemOf(q: Query, r: Row) { r.s.kind == q.kind && r.s.key == "k" }

  lemma BaselineOfDifference(a: int, b: int, days: int)
    requires days != 0
    ensures Baseline(a, b, days) == 0.0 <==> a <= b
  {
  }

  /** Growth without a baseline passes at the sentinel ratio. */
  lemma NewGrowthPasses(q: Query, latest: Row, dayAgo: Row)
    requires Sensible(q) && latest.s.bytes - dayAgo.s.bytes == q.minDelta
    ensures Passes(q, AnomalyFrom(q, latest, dayAgo, dayAgo))
  {
    BaselineOfDifference(dayAgo.s.bytes, dayAgo.s.bytes, q.days);
  }

  lemma SteadyGrowthFails(q: Query, latest: Row, dayAgo: Row, base: Row, big: int)
    requires Sensible(q) && Ratio(q.minDelta, Baseline(big, 0, q.days)) < q.minRatio
    requires latest.s.bytes - dayAgo.s.bytes == q.minDelta && dayAgo.s.bytes == big && base.s.bytes == 0
    ensures !Passes(q, AnomalyFrom(q, latest, dayAgo, base))
  {
  }

  lemma WindowOrder(q: Query)
    requires q.days > 0
    ensures BaseStart(q) < Last24Start(q) < q.now
  {
  }

  /** Rows a day ago and now, the newer larger by the minimum delta, are reported. */
  lemma SpikeIsReported(q: Query, dayAgo: Row, latest: Row) returns (a: AnomalyRow)
    requires Sensible(q) && SameItemOf(q, dayAgo) && SameItemOf(q, latest)
    requires dayAgo.s.takenAt == Last24Start(q) < latest.s.takenAt
    requires latest.s.bytes - dayAgo.s.bytes == q.minDelta
    ensures AnomalyRows([dayAgo, latest], q) == Some([a])
  {
    WindowOrder(q);
    TwoRowsRanked(q, dayAgo, latest);
    RankedResult([dayAgo, latest], q, 1, 0, 0);
    NewGrowthPasses(q, latest, dayAgo);
    a := AnomalyFrom(q, latest, dayAgo, dayAgo);
  }

  lemma LoneRowIsNotReported(q: Query, r: Row)
    requires Sensible(q) && SameItemOf(q, r) && BaseStart(q) <= r.s.takenAt
    ensures AnomalyRows([r], q) == Some([])
  {
    OneRowRanked(q, r);
    RankedResult([r], q, 0, 0, 0);
  }

  /** A cutoff after the day-ago row hides a spike: the item is left with its
      newest row and no longer reported. */
  lemma LateCutoffHidesASpike(q: Query, dayAgo: Row, latest: Row, cutoff: int)
    requires Sensible(q) && SameItemOf(q, dayAgo) && SameItemOf(q, latest)
    requires dayAgo.s.takenAt == Last24Start(q) < cutoff <= latest.s.takenAt
    requires latest.s.bytes - dayAgo.s.bytes == q.minDelta
    ensures AnomalyRows(Since([dayAgo, latest], RowTime, cutoff), q) == Some([])
    ensures AnomalyRows([dayAgo, latest], q).Some? && |AnomalyRows([dayAgo, latest], q).value| == 1
  {
    WindowOrder(q);
    assert [dayAgo] + [latest] == [dayAgo, latest];
    FirstDropped(dayAgo, [latest], RowTime, cutoff);
    var a := SpikeIsReported(q, dayAgo, latest);
    LoneRowIsNotReported(q, latest);
  }

  /** Rows at the start of the window, a day ago and now, growing steadily, are not. */
  lemma SteadyGrowthIsNotReported(q: Query, base: Row, dayAgo: Row, latest: Row, big: int)
    requires Sensible(q) && SameItemOf(q, base) && SameItemOf(q, dayAgo) && SameItemOf(q, latest)
    requires BaseStart(q) == base.s.takenAt < dayAgo.s.takenAt == Last24Start(q) < latest.s.takenAt
    requires Ratio(q.minDelta, Baseline(big, 0, q.days)) < q.minRatio
    requires base.s.bytes == 0 && dayAgo.s.bytes == big && latest.s.bytes == big + q.minDelta
    ensures AnomalyRows([base, dayAgo, latest], q) == Some([])
  {
    ThreeRowsRanked(q, base, dayAgo, latest);
    RankedResult([base, dayAgo, latest], q, 2, 1, 0);
    SteadyGrowthFails(q, latest, dayAgo, base, big);
  }

  /** A cutoff inside the baseline window loses the steady growth before it, and
      reports a steadily growing item as new growth. */
  lemma EarlyCutoffInventsASpike(q: Query, base: Row, dayAgo: Row, latest: Row, big: int, cutoff: int)
    requires Sensible(q) && SameItemOf(q, base) && SameItemOf(q, dayAgo) && SameItemOf(q, latest)
    requires BaseStart(q) == base.s.takenAt < cutoff <= dayAgo.s.takenAt == Last24Start(q) < latest.s.takenAt
    requires Ratio(q.minDelta, Baseline(big, 0, q.days)) < q.minRatio
    requires base.s.bytes == 0 && dayAgo.s.bytes == big && latest.s.bytes == big + q.minDelta
    ensures AnomalyRows([base, dayAgo, latest], q) == Some([])
    ensures var swept := AnomalyRows(Since([base, dayAgo, latest], RowTime, cutoff), q);
      swept.Some? && |swept.value| == 1
  {
    assert [base] + [dayAgo, latest] == [base, dayAgo, latest];
    FirstDropped(base, [dayAgo, latest], RowTime, cutoff);
    SteadyGrowthIsNotReported(q, base, dayAgo, latest, big);
    var a := SpikeIsReported(q, dayAgo, latest);
  }

  /** A day-ago size so large that the minimum delta is far below the minimum ratio. */
  lemma SteadyBytes(q: Query) returns (big: int)
    requires Sensible(q)
    ensures big > 0 && Ratio(q.minDelta, Baseline(big, 0, q.days)) < q.minRatio
  {
    var need := q.minDelta as real * q.days as real / q.minRatio;
    big := need.Floor + 1;
    assert big as real > need >= 0.0;
    SmallRatio(q.minDelta as real, q.days as real, q.minRatio, big as real);
    assert Max(big - 0, 0) == big;
  }

  lemma SmallRatio(delta: real, days: real, minRatio: real, big: real)
    requires delta > 0.0 && days > 0.0 && minRatio > 0.0 && big > delta * days / minRatio
    ensures big / days > 0.0 && delta / (big / days) < minRatio
  {
    var b := big / days;
    assert b * days == big;
    var n := delta * days / minRatio;
    assert n * minRatio == delta * days;
    assert big * minRatio > n * minRatio;
    assert b * minRatio * days > delta * days;
    assert b * minRatio > delta;
    var r := delta / b;
    assert r * b == delta;
  }

  /** No table's result changes when rows before `cutoff` are deleted. */
  ghost predicate SweepIsInvisible(q: Query, cutoff: int) {
    forall rows :: AnomalyRows(Since(rows, RowTime, cutoff), q) == AnomalyRows(rows, q)
  }

  /** The samples that show it: at the start of the baseline window, a day ago and
      now. */
  lemma SteadySamples(q: Query, cutoff: int) returns (samples: seq<Sample>)
    requires Sensible(q) && BaseStart(q) < cutoff <= Last24Start(q)
    ensures samples != [] && InTimeOrder(samples) && samples[|samples| - 1].takenAt == q.now
    ensures AnomalyRows(Since(NewRows(samples, 0), RowTime, cutoff), q) != AnomalyRows(NewRows(samples, 0), q)
  {
    WindowOrder(q);
    var big := SteadyBytes(q);
    var base, dayAgo := RowAt(0, q, BaseStart(q), 0), RowAt(1, q, Last24Start(q), big);
    var latest := RowAt(2, q, q.now, big + q.minDelta);
    EarlyCutoffInventsASpike(q, base, dayAgo, latest, big, cutoff);
    samples := [base.s, dayAgo.s, latest.s];
    ThreeNewRows(base, dayAgo, latest);
  }

  lemma ThreeNewRows(r0: Row, r1: Row, r2: Row)
    requires r0.id == 0 && r1.id == 1 && r2.id == 2
    ensures NewRows([r0.s, r1.s, r2.s], 0) == [r0, r1, r2]
  {
  }

  lemma CutoffInTheBaselineShows(q: Query, cutoff: int)
    requires Sensible(q) && BaseStart(q) < cutoff <= Last24Start(q)
    ensures !SweepIsInvisible(q, cutoff)
  {
    var samples := SteadySamples(q, cutoff);
  }

  lemma CutoffInTheLastDayShows(q: Query, cutoff: int)
    requires Sensible(q) && Last24Start(q) < cutoff
    ensures !SweepIsInvisible(q, cutoff)
  {
    var dayAgo, latest := RowAt(0, q, Last24Start(q), 0), RowAt(1, q, cutoff, q.minDelta);
    LateCutoffHidesASpike(q, dayAgo, latest, cutoff);
    assert AnomalyRows(Since([dayAgo, latest], RowTime, cutoff), q) != AnomalyRows([dayAgo, latest], q);
  }

  lemma CutoffBeforeTheWindowIsInvisible(q: Query, cutoff: int)
    requires cutoff <= BaseStart(q)
    ensures SweepIsInvisible(q, cutoff)
  {
    forall rows ensures AnomalyRows(Since(rows, RowTime, cutoff), q) == AnomalyRows(rows, q) {
      PruningKeepsAnomalies(rows, q, cutoff);
    }
  }

  /** So, with the filters in use, pruning is invisible to the query, whatever the
      table holds, if and only if its cutoff lies no later than the window. */
  lemma AnomaliesTransparentIff(q: Query, cutoff: int)
    requires Sensible(q)
    ensures SweepIsInvisible(q, cutoff) <==> cutoff <= BaseStart(q)
  {
    if cutoff <= BaseStart(q) {
      CutoffBeforeTheWindowIsInvisible(q, cutoff);
    } else if cutoff <= Last24Start(q) {
      CutoffInTheBaselineShows(q, cutoff);
    } else {
      CutoffInTheLastDayShows(q, cutoff);
    }
  }

  // ---------- Spikes and their own baseline ----------

  lemma {:induction false} WindowRecent(rows: seq<Row>, q: Query)
    ensures forall i :: 0 <= i < |Window(rows, q)| ==> BaseStart(q) <= Window(rows, q)[i].s.takenAt
    decreases |rows|
  {
    if rows != [] {
      WindowRecent(rows[..|rows| - 1], q);
    }
  }

  /** The window with the bytes of one row replaced. */
  function WithBytes(w: seq<Row>, i: nat, bytes: int): seq<Row>
    requires i < |w|
  {
    w[i := w[i].(s := w[i].s.(bytes := bytes))]
  }

  /** Ranking does not look at bytes. */
  lemma RanksIgnoreBytes(w: seq<Row>, i: nat, bytes: int, key: string, m: Measure)
    requires i < |w| && HasKey(w, key)
    ensures HasKey(WithBytes(w, i, bytes), key)
    ensures First(WithBytes(w, i, bytes), key, m) == First(w, key, m)
  {
    var v := WithBytes(w, i, bytes);
    var f := First(w, key, m);
    assert forall j :: 0 <= j < |w| ==> v[j].s.key == w[j].s.key && Cost(m, v[j]) == Cost(m, w[j]);
    assert RanksFirst(v, key, m, f);
    FirstIs(v, key, m, f);
  }

  ghost function BaselineOf(w: seq<Row>, key: string, q: Query): real
    requires HasKey(w, key) && q.days != 0
  {
    AnomalyOf(w, key, q).baseline
  }

  /** The latest row's bytes have no influence on the key's baseline. */
  ghost predicate SpikeProof(w: seq<Row>, key: string, q: Query)
    requires HasKey(w, key) && q.days != 0
  {
    forall bytes: int ::
      HasKey(WithBytes(w, Latest(w, key), bytes), key)
      && BaselineOf(WithBytes(w, Latest(w, key), bytes), key, q) == BaselineOf(w, key, q)
  }

  /** If the newest row of a key is also nearest to the start of the window, all
      its rows are equally old and it serves as the day-ago row too. */
  lemma NewestBaseIsDayAgo(w: seq<Row>, key: string, q: Query)
    requires HasKey(w, key) && forall i :: 0 <= i < |w| ==> BaseStart(q) <= w[i].s.takenAt
    requires Latest(w, key) == Base(w, key, q)
    ensures DayAgo(w, key, q) == Base(w, key, q)
  {
    var i := Latest(w, key);
    forall j | 0 <= j < |w| && w[j].s.key == key ensures w[j].s.takenAt == w[i].s.takenAt && i <= j {
      assert Cost(Newest, w[i]) <= Cost(Newest, w[j]);
      assert Cost(Nearest(BaseStart(q)), w[i]) <= Cost(Nearest(BaseStart(q)), w[j]);
    }
    assert RanksFirst(w, key, Nearest(Last24Start(q)), i);
    FirstIs(w, key, Nearest(Last24Start(q)), i);
  }

  lemma ChangedBaseline(w: seq<Row>, key: string, q: Query, bytes: int)
    requires HasKey(w, key) && q.days != 0
    ensures var v := WithBytes(w, Latest(w, key), bytes);
      HasKey(v, key)
      && Latest(v, key) == Latest(w, key) && DayAgo(v, key, q) == DayAgo(w, key, q) && Base(v, key, q) == Base(w, key, q)
      && BaselineOf(v, key, q) == Baseline(v[DayAgo(w, key, q)].s.bytes, v[Base(w, key, q)].s.bytes, q.days)
  {
    var i := Latest(w, key);
    RanksIgnoreBytes(w, i, bytes, key, Newest);
    RanksIgnoreBytes(w, i, bytes, key, Nearest(Last24Start(q)));
    RanksIgnoreBytes(w, i, bytes, key, Nearest(BaseStart(q)));
  }

  /** A spike cannot inflate its own baseline if and only if the latest row is
      not the day-ago row, or that row is the base row as well. */
  lemma SpikeProofIff(rows: seq<Row>, key: string, q: Query)
    requires q.days != 0 && HasKey(Window(rows, q), key)
    ensures var w := Window(rows, q);
      SpikeProof(w, key, q) <==> Latest(w, key) != DayAgo(w, key, q) || DayAgo(w, key, q) == Base(w, key, q)
  {
    WindowRecent(rows, q);
    SpikeProofInWindow(Window(rows, q), key, q);
  }

  lemma SpikeProofInWindow(w: seq<Row>, key: string, q: Query)
    requires HasKey(w, key) && q.days != 0 && forall i :: 0 <= i < |w| ==> BaseStart(q) <= w[i].s.takenAt
    ensures SpikeProof(w, key, q) <==> Latest(w, key) != DayAgo(w, key, q) || DayAgo(w, key, q) == Base(w, key, q)
  {
    var i, x, b := Latest(w, key), DayAgo(w, key, q), Base(w, key, q);
    if i != x || x == b {
      forall bytes: int
        ensures HasKey(WithBytes(w, i, bytes), key) && BaselineOf(WithBytes(w, i, bytes), key, q) == BaselineOf(w, key, q)
      {
        ChangedBaseline(w, key, q, bytes);
        if i == b {
          NewestBaseIsDayAgo(w, key, q);
        }
      }
    } else {
      var base := w[b].s.bytes;
      var bytes := if w[x].s.bytes <= base then base + 1 else base;
      ChangedBaseline(w, key, q, bytes);
      BaselineOfDifference(bytes, base, q.days);
      BaselineOfDifference(w[x].s.bytes, base, q.days);
      assert BaselineOf(WithBytes(w, i, bytes), key, q) != BaselineOf(w, key, q);
    }
  }

  /** A table where it can: one row at the start of the window and one a day ago,
      which is then both the latest and the day-ago row. */
  lemma SpikeHidesItself(q: Query, base: Row, latest: Row)
    requires q.days > 0 && SameItemOf(q, base) && SameItemOf(q, latest)
    requires base.s.takenAt == BaseStart(q) && latest.s.takenAt == Last24Start(q)
    ensures var w := Window([base, latest], q); HasKey(w, "k") && !SpikeProof(w, "k", q)
  {
    var w := [base, latest];
    WindowOrder(q);
    WindowOf(w, q);
    FirstIs(w, "k", Newest, 1);
    FirstIs(w, "k", Nearest(Last24Start(q)), 1);
    FirstIs(w, "k", Nearest(BaseStart(q)), 0);
    SpikeProofInWindow(w, "k", q);
  }

  /** With a separate latest row, growing further never takes a flagged item off the list. */
  lemma LargerSpikeStaysFlagged(w: seq<Row>, key: string, q: Query, bytes: int)
    requires HasKey(w, key) && q.days != 0
    requires Latest(w, key) != DayAgo(w, key, q) && Latest(w, key) != Base(w, key, q)
    requires Passes(q, AnomalyOf(w, key, q)) && w[Latest(w, key)].s.bytes <= bytes
    ensures HasKey(WithBytes(w, Latest(w, key), bytes), key)
    ensures Passes(q, AnomalyOf(WithBytes(w, Latest(w, key), bytes), key, q))
  {
    ChangedBaseline(w, key, q, bytes);
    var a, a' := AnomalyOf(w, key, q), AnomalyOf(WithBytes(w, Latest(w, key), bytes), key, q);
    assert a'.baseline == a.baseline && a'.delta >= a.delta;
    if a.baseline > 0.0 {
      RatioGrows(a.delta, a'.delta, a.baseline);
    }
  }

  lemma RatioGrows(d: int, d': int, baseline: real)
    requires d <= d' && baseline > 0.0
    ensures d as real / baseline <= d' as real / baseline
  {
  }

  /** An item whose latest row is also its day-ago row has grown by nothing and is
      never reported for a positive minimum delta. That is so with a single row in
      the window, and with no row in the last day. */
  lemma QuietItemIsNeverReported(w: seq<Row>, key: string, q: Query)
    requires q.days != 0 && HasKey(w, key)
    requires || Latest(w, key) == DayAgo(w, key, q)
             || (forall i, j :: 0 <= i < j < |w| && w[i].s.key == key ==> w[j].s.key != key)
             || (forall i :: 0 <= i < |w| && w[i].s.key == key ==> w[i].s.takenAt <= Last24Start(q))
    ensures AnomalyOf(w, key, q).delta == 0
    ensures q.minDelta > 0 ==> !Passes(q, AnomalyOf(w, key, q))
  {
    var i := Latest(w, key);
    if i != DayAgo(w, key, q) {
      forall j | 0 <= j < |w| && w[j].s.key == key
        ensures w[j].s.takenAt < w[i].s.takenAt || (w[j].s.takenAt == w[i].s.takenAt && i <= j)
      {
        assert Cost(Newest, w[i]) <= Cost(Newest, w[j]);
      }
      assert RanksFirst(w, key, Nearest(Last24Start(q)), i);
      FirstIs(w, key, Nearest(Last24Start(q)), i);
    }
  }
}
