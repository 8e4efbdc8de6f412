/** The daemon's scan loop (`runScan`) and the restore at startup: whole runs of
    insert, prune and publish. */
module ScanLoop {
  import opened Seqs
  import opened Samples
  import opened Tables
  import opened Growth
  import opened Anomalies
  import opened Store

  datatype Snapshot = Snapshot(takenAt: int, samples: seq<Sample>, alerts: seq<string>)

  /** One `runScan`: what the scanners and rules produced, and what failed. */
  datatype Scan = Scan(now: int, samples: seq<Sample>, fired: seq<string>,
                       insertFails: Option<nat>, fault: PruneFault, findingsFail: Option<nat>)

  /** The rule-engine messages as findings. */
  function RuleFindings(fired: seq<string>, now: int): seq<Finding> {
    seq(|fired|, i requires 0 <= i < |fired| => Finding("rule", "rule", "warn", fired[i], "rules", now))
  }

  predicate InsertFailed(s: Scan) {
    s.insertFails.Some? && s.insertFails.value <= |s.samples|
  }

  function Stored(db: Db, s: Scan): Db {
    if InsertFailed(s) then db else Inserted(db, s.samples)
  }

  function Swept(db: Db, s: Scan, retentionDays: int): Db {
    if retentionDays > 0 then Pruned(db, s.now - retentionDays * DAY, s.fault) else db
  }

  function Recorded(db: Db, s: Scan): Db {
    if s.fired == [] || (s.findingsFail.Some? && s.findingsFail.value <= |s.fired|) then db
    else FindingsInserted(db, RuleFindings(s.fired, s.now))
  }

  /** The database after one scan. */
  function AfterScan(db: Db, s: Scan, retentionDays: int): Db {
    Recorded(Swept(Stored(db, s), s, retentionDays), s)
  }

  function Published(s: Scan): Snapshot {
    Snapshot(s.now, s.samples, s.fired)
  }

  function Run(scans: seq<Scan>, retentionDays: int): Db {
    if scans == [] then EMPTY_DB
    else AfterScan(Run(scans[..|scans| - 1], retentionDays), scans[|scans| - 1], retentionDays)
  }

  /** The snapshot holds the samples of the newest time `t` in the table. */
  ghost predicate ShowsNewest(rows: seq<Row>, t: int, snapshot: Option<Snapshot>) {
    IsNewest(rows, t) && snapshot == Some(Snapshot(if t > 0 then t else 0, TakenAt(rows, t), []))
  }

  class Daemon {
    const store: Store
    const retentionDays: int
    var snapshot: Option<Snapshot>

    constructor (store: Store, retentionDays: int)
      ensures this.store == store && this.retentionDays == retentionDays && snapshot == None
    {
      this.store, this.retentionDays, snapshot := store, retentionDays, None;
    }

    /** `runScan`, after the scanners and with the rules' messages as input: the
        snapshot is published even when the insert failed. */
    method RunScan(s: Scan)
      modifies this, store
      ensures store.State() == AfterScan(old(store.State()), s, retentionDays)
      ensures snapshot == Some(Published(s))
      ensures snapshot == Some(Snapshot(s.now, s.samples, s.fired))
    {
      ghost var db0 := store.State();
      var stored := store.Insert(s.samples, s.insertFails);
      assert store.State() == Stored(db0, s);
      if retentionDays > 0 {
        var _ := store.Prune(s.now - retentionDays * DAY, s.fault);
      }
      assert store.State() == Swept(Stored(db0, s), s, retentionDays);
      if |s.fired| > 0 {
        var ok := store.InsertFindings(RuleFindings(s.fired, s.now), s.findingsFail);
      }
      snapshot := Some(Snapshot(s.now, s.samples, s.fired));
    }

    /** The restore at startup: nothing is published when the query fails or its
        result is empty. */
    method Restore(queryFails: bool)
      modifies this
      ensures queryFails || store.samples == [] ==> snapshot == old(snapshot)
      ensures !queryFails && store.samples != [] ==> exists t :: ShowsNewest(store.samples, t, snapshot)
    {
      if queryFails {
        return;
      }
      var samples, taken := LatestScan(store.samples);
      if |samples| == 0 {
        if store.samples != [] {
          ghost var t :| IsNewest(store.samples, t) && samples == TakenAt(store.samples, t);
          NewestIsListed(store.samples, t);
        }
        return;
      }
      snapshot := Some(Snapshot(taken, samples, []));
      if t :| IsNewest(store.samples, t) && samples == TakenAt(store.samples, t) && taken == if t > 0 then t else 0 {
        assert ShowsNewest(store.samples, t, snapshot);
      }
    }
  }

  // ---------- What one scan leaves in the tables ----------

  /** After a scan the samples are those there before and, unless the insert failed,
      the scan's own, less what a sweep that worked deletes. */
  lemma SamplesOfScan(db: Db, s: Scan, retentionDays: int, r: Row)
    ensures r in AfterScan(db, s, retentionDays).samples
       <==> && (r in db.samples || (!InsertFailed(s) && exists i :: 0 <= i < |s.samples| && r == Row(db.nextSample + i, s.samples[i])))
            && (retentionDays > 0 && s.fault != SamplesFail ==> r.s.takenAt >= s.now - 86400 * retentionDays)
  {
    var added := NewRows(s.samples, db.nextSample);
    if i :| 0 <= i < |s.samples| && r == Row(db.nextSample + i, s.samples[i]) {
      assert added[i] == r;
    }
    if r in added {
      var i :| 0 <= i < |added| && added[i] == r;
      assert r == Row(db.nextSample + i, s.samples[i]);
    }
    SinceMember(Stored(db, s).samples, RowTime, s.now - retentionDays * DAY, r);
  }

  /** If rules fired and the store takes their findings, they are its last rows: one
      for each message, in order. */
  lemma FindingsOfScan(db: Db, s: Scan, retentionDays: int)
    requires s.fired != [] && !(s.findingsFail.Some? && s.findingsFail.value <= |s.fired|)
    ensures var findings := AfterScan(db, s, retentionDays).findings;
      var first := |findings| - |s.fired|;
      && first >= 0
      && (forall i :: 0 <= i < |s.fired| ==>
            findings[first + i] == FindingRow(db.nextFinding + i, Finding("rule", "rule", "warn", s.fired[i], "rules", s.now)))
      && findings[..first] == Swept(Stored(db, s), s, retentionDays).findings
  {
    var swept := Swept(Stored(db, s), s, retentionDays);
    var added := NewFindings(RuleFindings(s.fired, s.now), swept.nextFinding);
    assert AfterScan(db, s, retentionDays).findings == swept.findings + added;
    assert (swept.findings + added)[..|swept.findings|] == swept.findings;
  }

  // ---------- Retention is invisible over whole runs ----------

  /** The same run without retention keeps the full history. */
  function FullHistory(scans: seq<Scan>): Db { Run(scans, 0) }

  /** No scan swept rows later than `horizon`. */
  ghost predicate SweptBefore(scans: seq<Scan>, retentionDays: int, horizon: int) {
    forall i :: 0 <= i < |scans| ==> scans[i].now - retentionDays * DAY <= horizon
  }

  lemma ScanKeepsSame(db: Db, full: Db, horizon: int, s: Scan, retentionDays: int)
    requires SameSince(db, full, horizon)
    requires retentionDays > 0 ==> s.now - retentionDays * DAY <= horizon
    ensures SameSince(AfterScan(db, s, retentionDays), AfterScan(full, s, 0), horizon)
  {
    InsertKeepsSame(db, full, horizon, s.samples);
    var stored, fullStored := Stored(db, s), Stored(full, s);
    if retentionDays > 0 {
      PruneKeepsSame(stored, fullStored, horizon, s.now - retentionDays * DAY, s.fault);
    }
    FindingsKeepSame(Swept(stored, s, retentionDays), fullStored, horizon, RuleFindings(s.fired, s.now));
  }

  lemma {:induction false} RunKeepsSame(scans: seq<Scan>, retentionDays: int, horizon: int)
    requires retentionDays > 0 ==> SweptBefore(scans, retentionDays, horizon)
    ensures SameSince(Run(scans, retentionDays), FullHistory(scans), horizon)
    decreases |scans|
  {
    if scans != [] {
      RunKeepsSame(scans[..|scans| - 1], retentionDays, horizon);
      ScanKeepsSame(Run(scans[..|scans| - 1], retentionDays), FullHistory(scans[..|scans| - 1]), horizon,
                    scans[|scans| - 1], retentionDays);
    }
  }

  /** After any run whose scans are no later than the query, keeping at least one
      day more than the baseline makes retention invisible to the anomaly query. */
  lemma RetentionHidesNoAnomaly(scans: seq<Scan>, retentionDays: int, q: Query)
    requires forall i :: 0 <= i < |scans| ==> scans[i].now <= q.now
    requires retentionDays >= q.days + 1
    ensures AnomalyRows(Run(scans, retentionDays).samples, q) == AnomalyRows(FullHistory(scans).samples, q)
  {
    assert retentionDays * DAY >= (q.days + 1) * DAY;
    RunKeepsSame(scans, retentionDays, BaseStart(q));
    SameAnomalies(Run(scans, retentionDays), FullHistory(scans), BaseStart(q), q);
  }

  /** Scans at strictly increasing times, each stamping its samples with its own
      time. */
  ghost predicate InStep(scans: seq<Scan>) {
    && (forall i, j :: 0 <= i < j < |scans| ==> scans[i].now < scans[j].now)
    && (forall i, s :: 0 <= i < |scans| && s in scans[i].samples ==> s.takenAt == scans[i].now)
  }

  /** After a sweep that did not fail, both tables are exactly the full history from
      that sweep's cutoff on, whatever failed before. */
  lemma SweptRunIsCutHistory(scans: seq<Scan>, retentionDays: int)
    requires retentionDays > 0 && scans != []
    requires var last := scans[|scans| - 1];
      last.fault == NoFault && forall i :: 0 <= i < |scans| ==> scans[i].now <= last.now
    ensures Run(scans, retentionDays).samples
         == Since(FullHistory(scans).samples, RowTime, scans[|scans| - 1].now - retentionDays * DAY)
    ensures Run(scans, retentionDays).findings
         == Since(FullHistory(scans).findings, FindingTime, scans[|scans| - 1].now - retentionDays * DAY)
  {
    var init, last := scans[..|scans| - 1], scans[|scans| - 1];
    var cutoff := last.now - retentionDays * DAY;
    RunKeepsSame(scans, retentionDays, cutoff);
    var db := Stored(Run(init, retentionDays), last);
    SinceTwice(db.samples, RowTime, cutoff, cutoff);
    SinceTwice(db.findings, FindingTime, cutoff, cutoff);
    RecordedIsRecent(Swept(db, last, retentionDays), last, cutoff);
  }

  /** The findings of a scan are no older than its own cutoff. */
  lemma RecordedIsRecent(db: Db, s: Scan, cutoff: int)
    requires cutoff <= s.now && Since(db.findings, FindingTime, cutoff) == db.findings
    ensures Since(Recorded(db, s).findings, FindingTime, cutoff) == Recorded(db, s).findings
  {
    var added := NewFindings(RuleFindings(s.fired, s.now), db.nextFinding);
    SinceAppend(db.findings, added, FindingTime, cutoff);
    SinceAll(added, FindingTime, cutoff);
  }

  lemma {:induction false} NoRetentionKeepsAll(scans: seq<Scan>, retentionDays: int)
    requires retentionDays <= 0
    ensures Run(scans, retentionDays) == FullHistory(scans)
    decreases |scans|
  {
    if scans != [] {
      NoRetentionKeepsAll(scans[..|scans| - 1], retentionDays);
    }
  }

  /** A scan where nothing fails. */
  function Smooth(now: int, samples: seq<Sample>, fired: seq<string>): Scan {
    Scan(now, samples, fired, None, NoFault, None)
  }

  /** Scans that find one sample each. */
  function SmoothScans(samples: seq<Sample>): (scans: seq<Scan>)
    ensures |scans| == |samples|
    ensures forall i :: 0 <= i < |samples| ==> scans[i] == Smooth(samples[i].takenAt, [samples[i]], [])
  {
    seq(|samples|, i requires 0 <= i < |samples| => Smooth(samples[i].takenAt, [samples[i]], []))
  }

  lemma HistoryLast(init: seq<Scan>, last: Scan)
    ensures FullHistory(init + [last]) == AfterScan(FullHistory(init), last, 0)
  {
    assert (init + [last])[..|init|] == init;
  }

  lemma SmoothLast(init: seq<Sample>, last: Sample)
    ensures SmoothScans(init + [last]) == SmoothScans(init) + [Smooth(last.takenAt, [last], [])]
    ensures NewRows(init + [last], 0) == NewRows(init, 0) + NewRows([last], |init|)
  {
  }

  lemma {:induction false} SmoothHistory(samples: seq<Sample>)
    ensures FullHistory(SmoothScans(samples)).samples == NewRows(samples, 0)
    ensures FullHistory(SmoothScans(samples)).nextSample == |samples|
    decreases |samples|
  {
    if samples != [] {
      var init, last := samples[..|samples| - 1], samples[|samples| - 1];
      SmoothHistory(init);
      SmoothLast(init, last);
      HistoryLast(SmoothScans(init), Smooth(last.takenAt, [last], []));
      assert samples == init + [last];
    }
  }

  lemma SmoothInStep(samples: seq<Sample>)
    requires samples != [] && InTimeOrder(samples)
    ensures InStep(SmoothScans(samples)) && Until(SmoothScans(samples), samples[|samples| - 1].takenAt)
  {
  }

  /** Such scans under a retention, at the times of their samples, up to `now`: what
      is left of their history. */
  lemma SmoothRun(samples: seq<Sample>, retentionDays: int, now: int, cutoff: int)
    requires samples != [] && samples[|samples| - 1].takenAt == now
    requires InTimeOrder(samples)
    requires retentionDays > 0 && cutoff == now - retentionDays * DAY
    ensures InStep(SmoothScans(samples)) && Until(SmoothScans(samples), now)
    ensures Run(SmoothScans(samples), retentionDays).samples == Since(NewRows(samples, 0), RowTime, cutoff)
  {
    SmoothHistory(samples);
    SmoothInStep(samples);
    var scans := SmoothScans(samples);
    assert scans[|scans| - 1].now == now && scans[|scans| - 1].fault == NoFault;
    SweptRunIsCutHistory(scans, retentionDays);
  }

  /** Every run of scans in step, up to the query, gives the full history's answer. */
  ghost predicate RetentionHidden(retentionDays: int, q: Query) {
    forall scans :: InStep(scans) && Until(scans, q.now) ==> SameAnswer(scans, retentionDays, q)
  }

  ghost predicate Until(scans: seq<Scan>, now: int) {
    forall i :: 0 <= i < |scans| ==> scans[i].now <= now
  }

  ghost predicate SameAnswer(scans: seq<Scan>, retentionDays: int, q: Query) {
    AnomalyRows(Run(scans, retentionDays).samples, q) == AnomalyRows(FullHistory(scans).samples, q)
  }

  /** Keeping fewer days reports a steadily growing item: three scans, at the start
      of the baseline window, a day before the query and at the query. */
  lemma TooFewDaysInventASpike(retentionDays: int, q: Query)
    requires Sensible(q) && 0 < retentionDays <= q.days
    ensures !RetentionHidden(retentionDays, q)
  {
    var cutoff := q.now - retentionDays * DAY;
    CutoffInside(retentionDays, q, cutoff);
    var samples := SteadySamples(q, cutoff);
    SmoothHistory(samples);
    SmoothRun(samples, retentionDays, q.now, cutoff);
    assert !SameAnswer(SmoothScans(samples), retentionDays, q);
  }

  lemma CutoffInside(retentionDays: int, q: Query, cutoff: int)
    requires 0 < retentionDays <= q.days && cutoff == q.now - retentionDays * DAY
    ensures BaseStart(q) < cutoff <= Last24Start(q) < q.now
  {
  }

  /** With the filters in use, every run gives the full history's answer if and
      only if nothing is swept or at least one day more than the baseline is kept. */
  lemma RetentionDaysIff(retentionDays: int, q: Query)
    requires Sensible(q)
    ensures RetentionHidden(retentionDays, q) <==> retentionDays <= 0 || retentionDays >= q.days + 1
  {
    if 0 < retentionDays <= q.days {
      TooFewDaysInventASpike(retentionDays, q);
    } else {
      forall scans | InStep(scans) && Until(scans, q.now) ensures SameAnswer(scans, retentionDays, q) {
        if retentionDays <= 0 {
          NoRetentionKeepsAll(scans, retentionDays);
        } else {
          RetentionHidesNoAnomaly(scans, retentionDays, q);
        }
      }
    }
  }

  /** Growth and findings since any time no sweep reached past are those of the
      full history, with whatever failures along the way. */
  lemma RetentionHidesNoGrowth(scans: seq<Scan>, retentionDays: int, kind: string, since: int, limit: int)
    requires retentionDays > 0 ==> SweptBefore(scans, retentionDays, since)
    ensures GrowthSince(Run(scans, retentionDays).samples, kind, since, limit)
         == GrowthSince(FullHistory(scans).samples, kind, since, limit)
    ensures RecentFindings(Run(scans, retentionDays).findings, since, limit)
         == RecentFindings(FullHistory(scans).findings, since, limit)
  {
    RunKeepsSame(scans, retentionDays, since);
    SameGrowth(Run(scans, retentionDays), FullHistory(scans), since, kind, since, limit);
    SameFindings(Run(scans, retentionDays), FullHistory(scans), since, since, limit);
  }

  ghost predicate SameGrowthAnswer(scans: seq<Scan>, retentionDays: int, kind: string, since: int, limit: int) {
    GrowthSince(Run(scans, retentionDays).samples, kind, since, limit)
    == GrowthSince(FullHistory(scans).samples, kind, since, limit)
  }

  ghost predicate SameFindingsAnswer(scans: seq<Scan>, retentionDays: int, since: int, limit: int) {
    RecentFindings(Run(scans, retentionDays).findings, since, limit)
    == RecentFindings(FullHistory(scans).findings, since, limit)
  }

  /** Every run of scans in step up to `now` answers like the full history. */
  ghost predicate GrowthHidden(retentionDays: int, kind: string, since: int, limit: int, now: int) {
    forall scans :: InStep(scans) && Until(scans, now) ==> SameGrowthAnswer(scans, retentionDays, kind, since, limit)
  }

  ghost predicate FindingsHidden(retentionDays: int, since: int, limit: int, now: int) {
    forall scans :: InStep(scans) && Until(scans, now) ==> SameFindingsAnswer(scans, retentionDays, since, limit)
  }

  /** The window back to `since` lies within what a sweep at `now` keeps. */
  predicate WindowKept(retentionDays: int, since: int, now: int) {
    retentionDays <= 0 || now - retentionDays * DAY <= since
  }

  lemma KeptWindowAnswers(scans: seq<Scan>, retentionDays: int, kind: string, since: int, limit: int, now: int)
    requires WindowKept(retentionDays, since, now) && Until(scans, now)
    ensures SameGrowthAnswer(scans, retentionDays, kind, since, limit)
    ensures SameFindingsAnswer(scans, retentionDays, since, limit)
  {
    RetentionHidesNoGrowth(scans, retentionDays, kind, since, limit);
  }

  /** Otherwise an item sampled at the window's start and at `now` seems not to have
      grown. */
  lemma LostWindowHidesGrowth(retentionDays: int, kind: string, since: int, limit: int, now: int)
    requires limit != 0 && !WindowKept(retentionDays, since, now)
    ensures !GrowthHidden(retentionDays, kind, since, limit, now)
  {
    var cutoff := now - retentionDays * DAY;
    var samples := GrownSamples(kind, since, limit, now, cutoff);
    SmoothHistory(samples);
    SmoothRun(samples, retentionDays, now, cutoff);
    assert !SameGrowthAnswer(SmoothScans(samples), retentionDays, kind, since, limit);
  }

  lemma GrownSamples(kind: string, since: int, limit: int, now: int, cutoff: int) returns (samples: seq<Sample>)
    requires limit != 0 && since < cutoff <= now
    ensures samples != [] && InTimeOrder(samples) && samples[|samples| - 1].takenAt == now
    ensures GrowthSince(Since(NewRows(samples, 0), RowTime, cutoff), kind, since, limit)
         != GrowthSince(NewRows(samples, 0), kind, since, limit)
  {
    var early, late := Row(0, Sample(kind, [], [], 0, [], since)), Row(1, Sample(kind, [], [], 1, [], now));
    PruningInsideTheWindowShows(early, late, kind, since, limit, cutoff);
    samples := [early.s, late.s];
    TwoNewRows(early, late);
  }

  lemma TwoNewRows(r0: Row, r1: Row)
    requires r0.id == 0 && r1.id == 1
    ensures NewRows([r0.s, r1.s], 0) == [r0, r1]
  {
  }

  /** Every run's growth is that of the full history if and only if the window lies
      within what is kept, or nothing is asked for. */
  lemma RetentionGrowthIff(retentionDays: int, kind: string, since: int, limit: int, now: int)
    ensures GrowthHidden(retentionDays, kind, since, limit, now)
       <==> limit == 0 || WindowKept(retentionDays, since, now)
  {
    if limit != 0 && !WindowKept(retentionDays, since, now) {
      LostWindowHidesGrowth(retentionDays, kind, since, limit, now);
    } else {
      forall scans | InStep(scans) && Until(scans, now) ensures SameGrowthAnswer(scans, retentionDays, kind, since, limit) {
        if limit != 0 {
          KeptWindowAnswers(scans, retentionDays, kind, since, limit, now);
        }
      }
    }
  }

  /** Otherwise a rule that fired at the window's start is forgotten. */
  lemma LostWindowHidesFindings(retentionDays: int, since: int, limit: int, now: int)
    requires limit != 0 && !WindowKept(retentionDays, since, now)
    ensures !FindingsHidden(retentionDays, since, limit, now)
  {
    var scans, rows := FiringScans(since, now);
    var cutoff := now - retentionDays * DAY;
    FindingDropped(rows, since, limit, cutoff);
    FindingsDiffer(scans, retentionDays, since, limit, now, rows, cutoff);
  }

  /** A scan at `since` where a rule fires, and a quiet one at `now`. */
  lemma FiringScans(since: int, now: int) returns (scans: seq<Scan>, rows: seq<FindingRow>)
    requires since < now
    ensures InStep(scans) && Until(scans, now)
    ensures scans != [] && scans[|scans| - 1].now == now && scans[|scans| - 1].fault == NoFault
    ensures |rows| == 1 && rows[0].f.createdAt == since && FullHistory(scans).findings == rows
  {
    var fires, quiet := Smooth(since, [], ["full"]), Smooth(now, [], []);
    scans, rows := [fires, quiet], [FindingRow(0, RuleFindings(["full"], since)[0])];
    FiresOnce(fires, quiet, rows[0]);
  }

  lemma FindingsDiffer(scans: seq<Scan>, retentionDays: int, since: int, limit: int, now: int,
                       rows: seq<FindingRow>, cutoff: int)
    requires InStep(scans) && Until(scans, now) && retentionDays > 0 && cutoff == now - retentionDays * DAY
    requires scans != [] && scans[|scans| - 1].now == now && scans[|scans| - 1].fault == NoFault
    requires FullHistory(scans).findings == rows
    requires RecentFindings(Since(rows, FindingTime, cutoff), since, limit) != RecentFindings(rows, since, limit)
    ensures !FindingsHidden(retentionDays, since, limit, now)
  {
    SweptRunIsCutHistory(scans, retentionDays);
    assert !SameFindingsAnswer(scans, retentionDays, since, limit);
  }

  lemma QuietRecordsNothing(db: Db, quiet: Scan)
    requires quiet == Smooth(quiet.now, [], [])
    ensures AfterScan(db, quiet, 0).findings == db.findings
  {
  }

  lemma FiringRecords(fires: Scan, row: FindingRow)
    requires fires == Smooth(fires.now, [], ["full"])
    requires row == FindingRow(0, RuleFindings(["full"], fires.now)[0])
    ensures AfterScan(EMPTY_DB, fires, 0).findings == [row]
  {
    assert NewFindings(RuleFindings(["full"], fires.now), 0) == [row];
  }

  lemma FiresOnce(fires: Scan, quiet: Scan, row: FindingRow)
    requires fires == Smooth(fires.now, [], ["full"]) && quiet == Smooth(quiet.now, [], [])
    requires row == FindingRow(0, RuleFindings(["full"], fires.now)[0])
    ensures FullHistory([fires, quiet]).findings == [row]
  {
    assert [fires] == [] + [fires] && [fires, quiet] == [fires] + [quiet];
    HistoryLast([], fires);
    HistoryLast([fires], quiet);
    FiringRecords(fires, row);
    QuietRecordsNothing(FullHistory([fires]), quiet);
  }

  lemma FindingDropped(rows: seq<FindingRow>, since: int, limit: int, cutoff: int)
    requires |rows| == 1 && rows[0].f.createdAt == since < cutoff && limit != 0
    ensures RecentFindings(Since(rows, FindingTime, cutoff), since, limit) != RecentFindings(rows, since, limit)
  {
    assert rows[..0] == [];
  }

  /** The same for the recent findings. */
  lemma RetentionFindingsIff(retentionDays: int, since: int, limit: int, now: int)
    ensures FindingsHidden(retentionDays, since, limit, now)
       <==> limit == 0 || WindowKept(retentionDays, since, now)
  {
    if limit != 0 && !WindowKept(retentionDays, since, now) {
      LostWindowHidesFindings(retentionDays, since, limit, now);
    } else {
      forall scans | InStep(scans) && Until(scans, now) ensures SameFindingsAnswer(scans, retentionDays, since, limit) {
        if limit != 0 {
          KeptWindowAnswers(scans, retentionDays, "", since, limit, now);
        }
      }
    }
  }

  // ---------- Restore ----------

  /** Scans in step, after Go's zero time. */
  ghost predicate Timely(scans: seq<Scan>) {
    InStep(scans) && forall i :: 0 <= i < |scans| ==> 0 < scans[i].now
  }

  /** Every stored sample is at most as new as `now`. */
  ghost predicate NoLaterThan(rows: seq<Row>, now: int) {
    forall i :: 0 <= i < |rows| ==> rows[i].s.takenAt <= now
  }

  lemma {:induction false} SinceNoLater(rows: seq<Row>, cutoff: int, now: int)
    requires NoLaterThan(rows, now)
    ensures NoLaterThan(Since(rows, RowTime, cutoff), now)
    decreases |rows|
  {
    if rows != [] {
      SinceNoLater(rows[..|rows| - 1], cutoff, now);
    }
  }

  /** The samples table after a scan whose insert succeeded: what was kept of it,
      then the new rows. */
  lemma SamplesAfterScan(db: Db, s: Scan, retentionDays: int, before: int) returns (kept: seq<Row>)
    requires (forall x :: x in s.samples ==> x.takenAt == s.now) && !InsertFailed(s)
    requires NoLaterThan(db.samples, before)
    ensures AfterScan(db, s, retentionDays).samples == kept + NewRows(s.samples, db.nextSample)
    ensures NoLaterThan(kept, before)
  {
    var added := NewRows(s.samples, db.nextSample);
    if retentionDays > 0 && s.fault != SamplesFail {
      var cutoff := s.now - retentionDays * DAY;
      SinceAppend(db.samples, added, RowTime, cutoff);
      SinceAll(added, RowTime, cutoff);
      kept := Since(db.samples, RowTime, cutoff);
      SinceNoLater(db.samples, cutoff, before);
    } else {
      kept := db.samples;
    }
  }

  lemma ScanNoLater(db: Db, s: Scan, retentionDays: int, before: int)
    requires forall x :: x in s.samples ==> x.takenAt == s.now
    requires NoLaterThan(db.samples, before) && before < s.now
    ensures NoLaterThan(AfterScan(db, s, retentionDays).samples, if InsertFailed(s) then before else s.now)
  {
    if InsertFailed(s) {
      if retentionDays > 0 {
        SinceNoLater(db.samples, s.now - retentionDays * DAY, before);
      }
    } else {
      var kept := SamplesAfterScan(db, s, retentionDays, before);
    }
  }

  lemma {:induction false} RunNoLater(scans: seq<Scan>, retentionDays: int)
    requires Timely(scans)
    ensures NoLaterThan(Run(scans, retentionDays).samples, if scans == [] then 0 else scans[|scans| - 1].now)
    decreases |scans|
  {
    if scans != [] {
      var init := scans[..|scans| - 1];
      RunNoLater(init, retentionDays);
      ScanNoLater(Run(init, retentionDays), scans[|scans| - 1], retentionDays,
                  if init == [] then 0 else init[|init| - 1].now);
    }
  }

  lemma {:induction false} TakenAtNone(rows: seq<Row>, t: int)
    requires forall i :: 0 <= i < |rows| ==> rows[i].s.takenAt != t
    ensures TakenAt(rows, t) == []
    decreases |rows|
  {
    if rows != [] {
      TakenAtNone(rows[..|rows| - 1], t);
    }
  }

  lemma {:induction false} TakenAtAll(batch: seq<Sample>, id: nat, t: int)
    requires forall x :: x in batch ==> x.takenAt == t
    ensures TakenAt(NewRows(batch, id), t) == batch
    decreases |batch|
  {
    if batch != [] {
      var init := batch[..|batch| - 1];
      TakenAtAll(init, id, t);
      assert NewRows(batch, id)[..|batch| - 1] == NewRows(init, id);
      assert batch == init + [batch[|batch| - 1]];
    }
  }

  /** What `Restore` publishes from a database. */
  ghost predicate Restores(rows: seq<Row>, takenAt: int, samples: seq<Sample>) {
    rows != [] && IsNewest(rows, takenAt) && samples == TakenAt(rows, takenAt)
  }

  lemma NewestAppended(kept: seq<Row>, batch: seq<Sample>, id: nat, before: int, now: int)
    requires NoLaterThan(kept, before) && before < now
    requires batch != [] && forall x :: x in batch ==> x.takenAt == now
    ensures Restores(kept + NewRows(batch, id), now, batch)
  {
    var added := NewRows(batch, id);
    var rows := kept + added;
    TakenAtAppend(kept, added, now);
    TakenAtNone(kept, now);
    TakenAtAll(batch, id, now);
    assert [] + batch == batch;
    assert rows[|kept|] == added[0] && added[0].s.takenAt == now;
    forall r | r in rows ensures r.s.takenAt <= now {
      assert r in kept || r in added;
    }
  }

  /** After any timely run that ends in a non-empty scan, a restart restores the
      time and samples that scan published if and only if its insert succeeded;
      pruning never gets in the way. */
  lemma RestoreRoundTripIff(scans: seq<Scan>, retentionDays: int)
    requires Timely(scans) && scans != [] && scans[|scans| - 1].samples != []
    ensures var last := scans[|scans| - 1];
      Restores(Run(scans, retentionDays).samples, last.now, Published(last).samples) <==> !InsertFailed(last)
  {
    var init, last := scans[..|scans| - 1], scans[|scans| - 1];
    var db := Run(init, retentionDays);
    var before := if init == [] then 0 else init[|init| - 1].now;
    RunNoLater(init, retentionDays);
    if InsertFailed(last) {
      ScanNoLater(db, last, retentionDays, before);
    } else {
      var kept := SamplesAfterScan(db, last, retentionDays, before);
      NewestAppended(kept, last.samples, db.nextSample, before, last.now);
    }
  }

  lemma NewestUnique(rows: seq<Row>, t: int, u: int)
    requires IsNewest(rows, t) && IsNewest(rows, u)
    ensures t == u
  {
  }

  lemma ShownIsRestored(rows: seq<Row>, t: int, snapshot: Option<Snapshot>, takenAt: int, samples: seq<Sample>)
    requires ShowsNewest(rows, t, snapshot) && Restores(rows, takenAt, samples) && takenAt > 0
    ensures snapshot == Some(Snapshot(takenAt, samples, []))
  {
    NewestUnique(rows, t, takenAt);
  }

  /** What a run leaves in the table after `scan` is restored as that scan. */
  lemma LastScanRestores(past: seq<Scan>, scan: Scan, retentionDays: int)
    requires Timely(past + [scan]) && scan.samples != [] && scan.insertFails == None
    ensures Run(past + [scan], retentionDays) == AfterScan(Run(past, retentionDays), scan, retentionDays)
    ensures Restores(Run(past + [scan], retentionDays).samples, scan.now, scan.samples) && scan.now > 0
  {
    var scans := past + [scan];
    assert scans[..|scans| - 1] == past && scans[|scans| - 1] == scan;
    RestoreRoundTripIff(scans, retentionDays);
  }

  /** A scan and a restart, as the daemon does them: the new process shows the
      published snapshot but for the alerts, which are not stored; it shows nothing
      if the restoring query fails. */
  method ScanAndRestart(daemon: Daemon, scan: Scan, queryFails: bool, ghost past: seq<Scan>) returns (restarted: Daemon)
    requires daemon.store.State() == Run(past, daemon.retentionDays)
    requires Timely(past + [scan]) && scan.samples != [] && scan.insertFails == None
    modifies daemon, daemon.store
    ensures fresh(restarted) && restarted.store == daemon.store
    ensures daemon.store.State() == Run(past + [scan], daemon.retentionDays)
    ensures daemon.snapshot == Some(Published(scan))
    ensures restarted.snapshot == if queryFails then None else Some(Published(scan).(alerts := []))
  {
    LastScanRestores(past, scan, daemon.retentionDays);
    daemon.RunScan(scan);
    ghost var rows := daemon.store.samples;
    restarted := new Daemon(daemon.store, daemon.retentionDays);
    restarted.Restore(queryFails);
    if !queryFails {
      ghost var t :| ShowsNewest(rows, t, restarted.snapshot);
      ShownIsRestored(rows, t, restarted.snapshot, scan.now, scan.samples);
    }
  }
}
