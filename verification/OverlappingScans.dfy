/** Scans that overlap: the startup, scheduled, dashboard and Telegram scans run
    without a common lock, so the phases of several `runScan` calls interleave. */
module OverlappingScans {
  import opened Seqs
  import opened Samples
  import opened Tables
  import opened Growth
  import opened Store
  import opened ScanLoop

  /** The steps of one scan that others can come between. */
  datatype Phase = Inserts | Sweeps | Records | Publishes

  datatype Event = Event(scan: Scan, phase: Phase)

  datatype Host = Host(db: Db, shown: Option<Snapshot>)

  function Rank(p: Phase): nat {
    match p
    case Inserts => 0
    case Sweeps => 1
    case Records => 2
    case Publishes => 3
  }

  function Next(h: Host, e: Event, retentionDays: int): Host {
    match e.phase
    case Inserts => h.(db := Stored(h.db, e.scan))
    case Sweeps => h.(db := Swept(h.db, e.scan, retentionDays))
    case Records => h.(db := Recorded(h.db, e.scan))
    case Publishes => h.(shown := Some(Published(e.scan)))
  }

  function After(events: seq<Event>, retentionDays: int): Host {
    if events == [] then Host(EMPTY_DB, None)
    else Next(After(events[..|events| - 1], retentionDays), events[|events| - 1], retentionDays)
  }

  lemma AfterLast(init: seq<Event>, e: Event, retentionDays: int)
    ensures After(init + [e], retentionDays) == Next(After(init, retentionDays), e, retentionDays)
  {
    assert (init + [e])[..|init|] == init;
  }

  ghost predicate Stamped(s: Scan) {
    forall x :: x in s.samples ==> x.takenAt == s.now
  }

  /** Phases of different scans in any order; each scan has its own start time, which
      it stamps on its samples, and goes through its phases in turn. */
  ghost predicate Interleaves(events: seq<Event>) {
    && (forall i :: 0 <= i < |events| ==> Stamped(events[i].scan))
    && (forall i, j :: 0 <= i < j < |events| && events[i].scan.now == events[j].scan.now ==>
          events[i].scan == events[j].scan && Rank(events[i].phase) < Rank(events[j].phase))
    && (forall i :: 0 <= i < |events| ==> Event(events[i].scan, Inserts) in events)
  }

  // ---------- What the table holds of one time ----------

  /** A sweep that deletes samples taken at `t`. */
  predicate Deletes(e: Event, retentionDays: int, t: int) {
    e.phase.Sweeps? && retentionDays > 0 && e.scan.fault != SamplesFail && t < e.scan.now - retentionDays * DAY
  }

  predicate Adds(e: Event) { e.phase.Inserts? && !InsertFailed(e.scan) && e.scan.samples != [] }

  function KeptStep(kept: seq<Sample>, e: Event, retentionDays: int, t: int): seq<Sample> {
    if Adds(e) && e.scan.now == t then kept + e.scan.samples
    else if Deletes(e, retentionDays, t) then []
    else kept
  }

  lemma TakenAtLast(rows: seq<Row>, r: Row, t: int)
    ensures TakenAt(rows + [r], t) == TakenAt(rows, t) + if r.s.takenAt == t then [r.s] else []
    ensures rows + [] == rows
  {
    assert (rows + [r])[..|rows|] == rows;
  }

  lemma SinceTakenAtLast(rows: seq<Row>, r: Row, cutoff: int, t: int)
    requires TakenAt(Since(rows, RowTime, cutoff), t) == if cutoff <= t then TakenAt(rows, t) else []
    ensures TakenAt(Since(rows + [r], RowTime, cutoff), t) == if cutoff <= t then TakenAt(rows + [r], t) else []
  {
    SinceLast(rows, r, RowTime, cutoff);
    TakenAtLast(rows, r, t);
    TakenAtLast(Since(rows, RowTime, cutoff), r, t);
  }

  lemma {:induction false} SinceTakenAt(rows: seq<Row>, cutoff: int, t: int)
    ensures TakenAt(Since(rows, RowTime, cutoff), t) == if cutoff <= t then TakenAt(rows, t) else []
    decreases |rows|
  {
    if rows != [] {
      var init, last := rows[..|rows| - 1], rows[|rows| - 1];
      SinceTakenAt(init, cutoff, t);
      SinceTakenAtLast(init, last, cutoff, t);
      assert rows == init + [last];
    }
  }

  lemma NewRowsTakenAt(batch: seq<Sample>, id: nat, now: int, t: int)
    requires forall x :: x in batch ==> x.takenAt == now
    ensures TakenAt(NewRows(batch, id), t) == if t == now then batch else []
  {
    if t == now {
      TakenAtAll(batch, id, t);
    } else {
      TakenAtNone(NewRows(batch, id), t);
    }
  }

  lemma InsertTakenAt(db: Db, scan: Scan, t: int)
    requires Stamped(scan)
    ensures TakenAt(Inserted(db, scan.samples).samples, t)
         == TakenAt(db.samples, t) + if scan.now == t then scan.samples else []
  {
    TakenAtAppend(db.samples, NewRows(scan.samples, db.nextSample), t);
    NewRowsTakenAt(scan.samples, db.nextSample, scan.now, t);
  }

  lemma InsertStep(h: Host, e: Event, retentionDays: int, t: int)
    requires Stamped(e.scan) && e.phase.Inserts?
    ensures TakenAt(Next(h, e, retentionDays).db.samples, t) == KeptStep(TakenAt(h.db.samples, t), e, retentionDays, t)
  {
    InsertTakenAt(h.db, e.scan, t);
    assert TakenAt(h.db.samples, t) + [] == TakenAt(h.db.samples, t);
  }

  lemma PruneTakenAt(db: Db, cutoff: int, fault: PruneFault, t: int)
    ensures TakenAt(Pruned(db, cutoff, fault).samples, t)
         == if fault != SamplesFail && t < cutoff then [] else TakenAt(db.samples, t)
  {
    SinceTakenAt(db.samples, cutoff, t);
  }

  lemma SweepStep(h: Host, e: Event, retentionDays: int, t: int)
    requires e.phase.Sweeps?
    ensures TakenAt(Next(h, e, retentionDays).db.samples, t) == KeptStep(TakenAt(h.db.samples, t), e, retentionDays, t)
  {
    PruneTakenAt(h.db, e.scan.now - retentionDays * DAY, e.scan.fault, t);
  }

  /** What any event does to the samples of one time. */
  lemma StepTakenAt(h: Host, e: Event, retentionDays: int, t: int)
    requires Stamped(e.scan)
    ensures TakenAt(Next(h, e, retentionDays).db.samples, t) == KeptStep(TakenAt(h.db.samples, t), e, retentionDays, t)
  {
    match e.phase {
      case Inserts => InsertStep(h, e, retentionDays, t);
      case Sweeps => SweepStep(h, e, retentionDays, t);
      case _ =>
    }
  }

  // ---------- Which scans the table keeps ----------

  ghost predicate KeepsFrom(events: seq<Event>, retentionDays: int, s: Scan, i: nat) {
    && i < |events| && events[i] == Event(s, Inserts) && Adds(events[i])
    && forall j :: i < j < |events| ==> !Deletes(events[j], retentionDays, s.now)
  }

  /** The scan stored samples and no later sweep deleted them. */
  ghost predicate Keeps(events: seq<Event>, retentionDays: int, s: Scan) {
    exists i: nat :: KeepsFrom(events, retentionDays, s, i)
  }

  lemma KeepsLast(init: seq<Event>, e: Event, retentionDays: int, s: Scan)
    ensures Keeps(init + [e], retentionDays, s)
       <==> (e == Event(s, Inserts) && Adds(e)) || (Keeps(init, retentionDays, s) && !Deletes(e, retentionDays, s.now))
  {
    var events := init + [e];
    if i: nat :| KeepsFrom(events, retentionDays, s, i) {
      if i < |init| {
        assert events[|init|] == e;
        forall j | i < j < |init| ensures !Deletes(init[j], retentionDays, s.now) {
          assert events[j] == init[j];
        }
        assert KeepsFrom(init, retentionDays, s, i);
      }
    }
    if e == Event(s, Inserts) && Adds(e) {
      assert KeepsFrom(events, retentionDays, s, |init|);
    }
    if Keeps(init, retentionDays, s) && !Deletes(e, retentionDays, s.now) {
      var i: nat :| KeepsFrom(init, retentionDays, s, i);
      assert KeepsFrom(events, retentionDays, s, i);
    }
  }

  /** `s` is the only scan of its time. */
  ghost predicate OnlyAt(events: seq<Event>, s: Scan) {
    forall i :: 0 <= i < |events| && events[i].scan.now == s.now ==> events[i].scan == s
  }

  /** What one event does to the samples of `s`. */
  lemma EventOnScan(init: seq<Event>, e: Event, retentionDays: int, s: Scan, kept: seq<Sample>)
    requires kept == if Keeps(init, retentionDays, s) then s.samples else []
    requires e.scan.now == s.now ==> e.scan == s
    requires e == Event(s, Inserts) ==> !Keeps(init, retentionDays, s)
    ensures KeptStep(kept, e, retentionDays, s.now) == if Keeps(init + [e], retentionDays, s) then s.samples else []
  {
    KeepsLast(init, e, retentionDays, s);
    assert [] + s.samples == s.samples;
    if Adds(e) && e.scan.now == s.now {
      assert e == Event(s, Inserts);
    }
  }

  ghost predicate PhasesInTurn(events: seq<Event>) {
    forall i, j :: 0 <= i < j < |events| && events[i].scan == events[j].scan ==> Rank(events[i].phase) < Rank(events[j].phase)
  }

  lemma InsertsOnce(init: seq<Event>, e: Event, retentionDays: int, s: Scan)
    requires PhasesInTurn(init + [e]) && e == Event(s, Inserts)
    ensures !Keeps(init, retentionDays, s)
  {
    forall i: nat ensures !KeepsFrom(init, retentionDays, s, i) {
      if i < |init| {
        assert (init + [e])[i] == init[i] && (init + [e])[|init|] == e;
      }
    }
  }

  lemma TakenAtScanLast(init: seq<Event>, e: Event, retentionDays: int, s: Scan)
    requires Stamped(e.scan) && (e.scan.now == s.now ==> e.scan == s)
    requires e == Event(s, Inserts) ==> !Keeps(init, retentionDays, s)
    requires TakenAt(After(init, retentionDays).db.samples, s.now) == if Keeps(init, retentionDays, s) then s.samples else []
    ensures TakenAt(After(init + [e], retentionDays).db.samples, s.now)
         == if Keeps(init + [e], retentionDays, s) then s.samples else []
  {
    var h := After(init, retentionDays);
    AfterLast(init, e, retentionDays);
    StepTakenAt(h, e, retentionDays, s.now);
    EventOnScan(init, e, retentionDays, s, TakenAt(h.db.samples, s.now));
  }

  /** After any interleaving the table holds, of a scan's time, its samples or none. */
  lemma {:induction false} TakenAtScan(events: seq<Event>, retentionDays: int, s: Scan)
    requires forall i :: 0 <= i < |events| ==> Stamped(events[i].scan)
    requires PhasesInTurn(events) && OnlyAt(events, s)
    ensures TakenAt(After(events, retentionDays).db.samples, s.now)
         == if Keeps(events, retentionDays, s) then s.samples else []
    decreases |events|
  {
    if events == [] {
      assert !Keeps(events, retentionDays, s);
    } else {
      var init, e := events[..|events| - 1], events[|events| - 1];
      assert events == init + [e];
      TakenAtScan(init, retentionDays, s);
      if e == Event(s, Inserts) {
        InsertsOnce(init, e, retentionDays, s);
      }
      TakenAtScanLast(init, e, retentionDays, s);
    }
  }

  // ---------- What a restart restores ----------

  /** The table holds no sample taken after `t`. */
  ghost predicate NothingAfter(rows: seq<Row>, t: int) {
    forall u :: u > t ==> TakenAt(rows, u) == []
  }

  lemma RestoresIfNewest(rows: seq<Row>, t: int, samples: seq<Sample>)
    requires samples != [] && TakenAt(rows, t) == samples && NothingAfter(rows, t)
    ensures Restores(rows, t, samples)
  {
    if forall i :: 0 <= i < |rows| ==> rows[i].s.takenAt != t {
      TakenAtNone(rows, t);
    } else {
      var i :| 0 <= i < |rows| && rows[i].s.takenAt == t;
      assert rows[i] in rows;
    }
    forall r | r in rows ensures r.s.takenAt <= t {
      if r.s.takenAt > t {
        assert TakenAt(rows, r.s.takenAt) == [];
        NewestIsListed(rows, r.s.takenAt);
      }
    }
  }

  lemma NewestIsLast(rows: seq<Row>, t: int)
    requires IsNewest(rows, t)
    ensures TakenAt(rows, t) != [] && NothingAfter(rows, t)
  {
    NewestIsListed(rows, t);
    forall u | u > t ensures TakenAt(rows, u) == [] {
      assert forall i :: 0 <= i < |rows| ==> rows[i] in rows;
      TakenAtNone(rows, u);
    }
  }

  /** Restoring in terms of what the table holds of each time. */
  lemma RestoresIff(rows: seq<Row>, t: int, samples: seq<Sample>)
    ensures Restores(rows, t, samples) <==> samples != [] && TakenAt(rows, t) == samples && NothingAfter(rows, t)
  {
    if samples != [] && TakenAt(rows, t) == samples && NothingAfter(rows, t) {
      RestoresIfNewest(rows, t, samples);
    } else if Restores(rows, t, samples) {
      NewestIsLast(rows, t);
    }
  }

  /** No scan that started after `s` is kept. */
  ghost predicate NewestKept(events: seq<Event>, retentionDays: int, s: Scan) {
    forall i :: 0 <= i < |events| && Keeps(events, retentionDays, events[i].scan) ==> events[i].scan.now <= s.now
  }

  lemma NothingLater(events: seq<Event>, retentionDays: int, s: Scan)
    requires Interleaves(events)
    ensures NewestKept(events, retentionDays, s)
       <==> NothingAfter(After(events, retentionDays).db.samples, s.now)
  {
    if NewestKept(events, retentionDays, s) {
      forall u | u > s.now ensures TakenAt(After(events, retentionDays).db.samples, u) == [] {
        NothingAt(events, retentionDays, s, u);
      }
    } else {
      var i :| 0 <= i < |events| && Keeps(events, retentionDays, events[i].scan) && events[i].scan.now > s.now;
      TakenAtScan(events, retentionDays, events[i].scan);
      assert TakenAt(After(events, retentionDays).db.samples, events[i].scan.now) != [];
    }
  }

  lemma NothingAt(events: seq<Event>, retentionDays: int, s: Scan, u: int)
    requires Interleaves(events) && NewestKept(events, retentionDays, s) && u > s.now
    ensures TakenAt(After(events, retentionDays).db.samples, u) == []
  {
    if i :| 0 <= i < |events| && events[i].scan.now == u {
      TakenAtScan(events, retentionDays, events[i].scan);
    } else {
      TakenAtScan(events, retentionDays, Smooth(u, [], []));
    }
  }

  /** The scan whose snapshot is shown. */
  function LastPublished(events: seq<Event>): Option<Scan> {
    if events == [] then None
    else if events[|events| - 1].phase.Publishes? then Some(events[|events| - 1].scan)
    else LastPublished(events[..|events| - 1])
  }

  lemma {:induction false} ShownIsLast(events: seq<Event>, retentionDays: int, p: Scan)
    requires LastPublished(events) == Some(p)
    ensures After(events, retentionDays).shown == Some(Published(p)) && Event(p, Publishes) in events
    decreases |events|
  {
    var init := events[..|events| - 1];
    assert events == init + [events[|events| - 1]];
    if !events[|events| - 1].phase.Publishes? {
      ShownIsLast(init, retentionDays, p);
    }
  }

  /** After any interleaving, a restart brings back the time and samples that are
      shown if and only if that scan's samples were stored and not swept since, and
      no scan that started later has samples in the table. */
  lemma OverlapRestoreIff(events: seq<Event>, retentionDays: int, p: Scan)
    requires Interleaves(events) && LastPublished(events) == Some(p)
    ensures var h := After(events, retentionDays);
      && h.shown == Some(Published(p))
      && (Restores(h.db.samples, h.shown.value.takenAt, h.shown.value.samples)
          <==> Keeps(events, retentionDays, p) && NewestKept(events, retentionDays, p))
  {
    var h := After(events, retentionDays);
    ShownIsLast(events, retentionDays, p);
    var i :| 0 <= i < |events| && events[i] == Event(p, Publishes);
    assert OnlyAt(events, p);
    TakenAtScan(events, retentionDays, p);
    NothingLater(events, retentionDays, p);
    RestoresIff(h.db.samples, p.now, p.samples);
    if Keeps(events, retentionDays, p) {
      assert p.samples != [];
    }
  }

  /** No scan started so long after `p` that its sweep reaches `p`'s samples. */
  ghost predicate WithinRetention(events: seq<Event>, retentionDays: int, p: Scan) {
    retentionDays > 0 ==> forall i :: 0 <= i < |events| ==> events[i].scan.now - retentionDays * DAY <= p.now
  }

  /** A scan that started after `p` stored samples. */
  ghost predicate Overtaken(events: seq<Event>, p: Scan) {
    exists i :: 0 <= i < |events| && Adds(events[i]) && events[i].scan.now > p.now
  }

  lemma KeptUnlessSwept(events: seq<Event>, retentionDays: int, p: Scan, s: Scan)
    requires WithinRetention(events, retentionDays, p) && s.now >= p.now
    ensures Keeps(events, retentionDays, s) <==> Adds(Event(s, Inserts)) && Event(s, Inserts) in events
  {
    if Adds(Event(s, Inserts)) && Event(s, Inserts) in events {
      var i: nat :| i < |events| && events[i] == Event(s, Inserts);
      assert KeepsFrom(events, retentionDays, s, i);
    }
  }

  lemma OvertakenIff(events: seq<Event>, retentionDays: int, p: Scan)
    requires Interleaves(events) && WithinRetention(events, retentionDays, p)
    ensures NewestKept(events, retentionDays, p) <==> !Overtaken(events, p)
  {
    if Overtaken(events, p) {
      var i :| 0 <= i < |events| && Adds(events[i]) && events[i].scan.now > p.now;
      assert events[i] == Event(events[i].scan, Inserts);
      KeptUnlessSwept(events, retentionDays, p, events[i].scan);
    }
    if !NewestKept(events, retentionDays, p) {
      var i :| 0 <= i < |events| && Keeps(events, retentionDays, events[i].scan) && events[i].scan.now > p.now;
      KeptUnlessSwept(events, retentionDays, p, events[i].scan);
      var j :| 0 <= j < |events| && events[j] == Event(events[i].scan, Inserts);
      assert Adds(events[j]);
    }
  }

  /** Unless scans drag on for longer than the retention: exactly if its insert
      succeeded, with samples, and no scan that started later stored any. */
  lemma RestoredUnlessOvertaken(events: seq<Event>, retentionDays: int, p: Scan)
    requires Interleaves(events) && LastPublished(events) == Some(p) && WithinRetention(events, retentionDays, p)
    ensures var h := After(events, retentionDays);
      && h.shown == Some(Published(p))
      && (Restores(h.db.samples, h.shown.value.takenAt, h.shown.value.samples)
          <==> !InsertFailed(p) && p.samples != [] && !Overtaken(events, p))
  {
    OverlapRestoreIff(events, retentionDays, p);
    OvertakenIff(events, retentionDays, p);
    ShownIsLast(events, retentionDays, p);
    KeptUnlessSwept(events, retentionDays, p, p);
  }

  // ---------- Scans one after the other ----------

  function PhaseAt(k: nat): Phase {
    if k == 0 then Inserts else if k == 1 then Sweeps else if k == 2 then Records else Publishes
  }

  /** Whole scans, in the order in which they finish. */
  function InTurn(scans: seq<Scan>): (events: seq<Event>)
    ensures |events| == 4 * |scans|
    ensures forall k: nat :: k < |events| ==> events[k] == Event(scans[k / 4], PhaseAt(k % 4))
  {
    seq(4 * |scans|, k requires 0 <= k < 4 * |scans| => Event(scans[k / 4], PhaseAt(k % 4)))
  }

  lemma InTurnLast(scans: seq<Scan>)
    requires scans != []
    ensures var init, s := scans[..|scans| - 1], scans[|scans| - 1];
      InTurn(scans) == InTurn(init) + [Event(s, Inserts)] + [Event(s, Sweeps)] + [Event(s, Records)] + [Event(s, Publishes)]
  {
  }

  /** The loop of whole scans is one of the interleavings. */
  lemma {:induction false} InTurnIsRun(scans: seq<Scan>, retentionDays: int)
    ensures After(InTurn(scans), retentionDays)
         == Host(Run(scans, retentionDays), if scans == [] then None else Some(Published(scans[|scans| - 1])))
    decreases |scans|
  {
    if scans != [] {
      var init, s := scans[..|scans| - 1], scans[|scans| - 1];
      InTurnIsRun(init, retentionDays);
      InTurnLast(scans);
      var events := InTurn(init);
      AfterLast(events, Event(s, Inserts), retentionDays);
      AfterLast(events + [Event(s, Inserts)], Event(s, Sweeps), retentionDays);
      AfterLast(events + [Event(s, Inserts)] + [Event(s, Sweeps)], Event(s, Records), retentionDays);
      AfterLast(events + [Event(s, Inserts)] + [Event(s, Sweeps)] + [Event(s, Records)], Event(s, Publishes), retentionDays);
    }
  }

  lemma InTurnInterleaves(scans: seq<Scan>)
    requires forall i :: 0 <= i < |scans| ==> Stamped(scans[i])
    requires forall i, j :: 0 <= i < j < |scans| ==> scans[i].now != scans[j].now
    ensures Interleaves(InTurn(scans))
  {
    var events := InTurn(scans);
    forall i | 0 <= i < |events| ensures Event(events[i].scan, Inserts) in events {
      var k := i / 4 * 4;
      assert events[k] == Event(events[i].scan, Inserts);
    }
    forall i, j | 0 <= i < j < |events| && events[i].scan.now == events[j].scan.now
      ensures events[i].scan == events[j].scan && Rank(events[i].phase) < Rank(events[j].phase)
    {
      assert i / 4 == j / 4;
    }
  }

  /** Two scans are enough: one starts first but finishes last. It is shown, and a
      restart shows the other one. */
  lemma SlowScanIsOvertaken(slow: Scan, quick: Scan, retentionDays: int)
    requires Stamped(slow) && Stamped(quick) && 0 < slow.now < quick.now && retentionDays <= 0
    requires quick.samples != [] && quick.insertFails == None
    ensures var events := InTurn([quick, slow]);
      var h := After(events, retentionDays);
      && Interleaves(events) && h.shown == Some(Published(slow))
      && !Restores(h.db.samples, slow.now, slow.samples)
  {
    var scans := [quick, slow];
    var events := InTurn(scans);
    InTurnInterleaves(scans);
    InTurnIsRun(scans, retentionDays);
    assert events[7] == Event(slow, Publishes);
    assert events[0] == Event(quick, Inserts);
    assert Adds(events[0]);
    RestoredUnlessOvertaken(events, retentionDays, slow);
  }
}
