/** The SQLite store's two tables and the operations that change them. */
module Store {
  import opened Seqs
  import opened Samples
  import opened Tables
  import opened Growth
  import opened Anomalies

  /** Both tables, in row id order, and the next ids (AUTOINCREMENT). */
  datatype Db = Db(samples: seq<Row>, findings: seq<FindingRow>, nextSample: nat, nextFinding: nat)

  const EMPTY_DB := Db([], [], 0, 0)

  function NewFindings(batch: seq<Finding>, id: nat): seq<FindingRow> {
    seq(|batch|, i requires 0 <= i < |batch| => FindingRow(id + i, batch[i]))
  }

  function Inserted(db: Db, batch: seq<Sample>): Db {
    db.(samples := db.samples + NewRows(batch, db.nextSample), nextSample := db.nextSample + |batch|)
  }

  function FindingsInserted(db: Db, batch: seq<Finding>): Db {
    db.(findings := db.findings + NewFindings(batch, db.nextFinding), nextFinding := db.nextFinding + |batch|)
  }

  /** Where a retention sweep fails: each DELETE is its own statement. */
  datatype PruneFault = NoFault | SamplesFail | FindingsFail

  function Pruned(db: Db, cutoff: int, fault: PruneFault): Db {
    match fault
    case SamplesFail => db
    case FindingsFail => db.(samples := Since(db.samples, RowTime, cutoff))
    case NoFault => db.(samples := Since(db.samples, RowTime, cutoff), findings := Since(db.findings, FindingTime, cutoff))
  }

  class Store {
    var samples: seq<Row>
    var findings: seq<FindingRow>
    var nextSample: nat
    var nextFinding: nat

    function State(): Db
      reads this
    {
      Db(samples, findings, nextSample, nextFinding)
    }

    constructor ()
      ensures State() == EMPTY_DB
    {
      samples, findings, nextSample, nextFinding := [], [], 0, 0;
    }

    /** One transaction: all rows or, if a statement or the commit fails (at step
        `failAt`), none, and the ids are not used up. */
    method Insert(batch: seq<Sample>, failAt: Option<nat>) returns (ok: bool)
      modifies this
      ensures ok == !(failAt.Some? && failAt.value <= |batch|)
      ensures State() == if ok then Inserted(old(State()), batch) else old(State())
      ensures ok ==>
        && |samples| == |old(samples)| + |batch| && old(samples) <= samples
        && forall i :: 0 <= i < |batch| ==> samples[|old(samples)| + i] == Row(old(nextSample) + i, batch[i])
    {
      var pending, id := samples, nextSample;
      for i := 0 to |batch|
        invariant id == nextSample + i && pending == samples + NewRows(batch[..i], nextSample)
        invariant failAt.Some? ==> i <= failAt.value
      {
        if failAt == Some(i) {
          return false;
        }
        assert NewRows(batch[..i + 1], nextSample) == NewRows(batch[..i], nextSample) + [Row(id, batch[i])];
        pending, id := pending + [Row(id, batch[i])], id + 1;
      }
      assert batch[..|batch|] == batch;
      if failAt == Some(|batch|) {
        return false;
      }
      samples, nextSample := pending, id;
      return true;
    }

    /** `InsertFindings`; an empty batch does not touch the database. */
    method InsertFindings(batch: seq<Finding>, failAt: Option<nat>) returns (ok: bool)
      modifies this
      ensures ok == (batch == [] || !(failAt.Some? && failAt.value <= |batch|))
      ensures State() == if ok then FindingsInserted(old(State()), batch) else old(State())
      ensures ok ==>
        && |findings| == |old(findings)| + |batch| && old(findings) <= findings
        && forall i :: 0 <= i < |batch| ==> findings[|old(findings)| + i] == FindingRow(old(nextFinding) + i, batch[i])
    {
      if |batch| == 0 {
        assert findings + NewFindings(batch, nextFinding) == findings;
        return true;
      }
      var pending, id := findings, nextFinding;
      for i := 0 to |batch|
        invariant id == nextFinding + i && pending == findings + NewFindings(batch[..i], nextFinding)
        invariant failAt.Some? ==> i <= failAt.value
      {
        if failAt == Some(i) {
          return false;
        }
        assert NewFindings(batch[..i + 1], nextFinding) == NewFindings(batch[..i], nextFinding) + [FindingRow(id, batch[i])];
        pending, id := pending + [FindingRow(id, batch[i])], id + 1;
      }
      assert batch[..|batch|] == batch;
      if failAt == Some(|batch|) {
        return false;
      }
      findings, nextFinding := pending, id;
      return true;
    }

    /** The retention sweep; the result counts the rows deleted from both tables. */
    method Prune(cutoff: int, fault: PruneFault) returns (removed: Option<nat>)
      modifies this
      ensures State() == Pruned(old(State()), cutoff, fault)
      ensures fault == NoFault ==>
        removed == Some(|old(samples)| + |old(findings)| - |samples| - |findings|)
      ensures fault != NoFault ==> removed == None
    {
      if fault == SamplesFail {
        return None;
      }
      var keptSamples, a := DeleteBefore(samples, RowTime, cutoff);
      samples := keptSamples;
      if fault == FindingsFail {
        return None;
      }
      var keptFindings, b := DeleteBefore(findings, FindingTime, cutoff);
      findings := keptFindings;
      return Some(a + b);
    }
  }

  /** A sweep deletes exactly the rows older than the cutoff, from the samples first;
      a failing statement leaves its table, and the one after it, alone. */
  lemma PrunedRows(db: Db, cutoff: int, fault: PruneFault, r: Row, f: FindingRow)
    ensures var left := Pruned(db, cutoff, fault);
      && (r in left.samples <==> r in db.samples && (fault == SamplesFail || r.s.takenAt >= cutoff))
      && (f in left.findings <==> f in db.findings && (fault != NoFault || f.f.createdAt >= cutoff))
      && left.nextSample == db.nextSample && left.nextFinding == db.nextFinding
  {
    SinceMember(db.samples, RowTime, cutoff, r);
    SinceMember(db.findings, FindingTime, cutoff, f);
  }

  /** Nothing that happens to a database's rows from `horizon` on is lost: it has
      the rows the other has there. */
  ghost predicate SameSince(db: Db, full: Db, horizon: int) {
    && Since(db.samples, RowTime, horizon) == Since(full.samples, RowTime, horizon)
    && Since(db.findings, FindingTime, horizon) == Since(full.findings, FindingTime, horizon)
    && db.nextSample == full.nextSample && db.nextFinding == full.nextFinding
  }

  lemma InsertKeepsSame(db: Db, full: Db, horizon: int, batch: seq<Sample>)
    requires SameSince(db, full, horizon)
    ensures SameSince(Inserted(db, batch), Inserted(full, batch), horizon)
  {
    SinceAppend(db.samples, NewRows(batch, db.nextSample), RowTime, horizon);
    SinceAppend(full.samples, NewRows(batch, db.nextSample), RowTime, horizon);
  }

  lemma FindingsKeepSame(db: Db, full: Db, horizon: int, batch: seq<Finding>)
    requires SameSince(db, full, horizon)
    ensures SameSince(FindingsInserted(db, batch), FindingsInserted(full, batch), horizon)
  {
    SinceAppend(db.findings, NewFindings(batch, db.nextFinding), FindingTime, horizon);
    SinceAppend(full.findings, NewFindings(batch, db.nextFinding), FindingTime, horizon);
  }

  lemma PruneKeepsSame(db: Db, full: Db, horizon: int, cutoff: int, fault: PruneFault)
    requires SameSince(db, full, horizon) && cutoff <= horizon
    ensures SameSince(Pruned(db, cutoff, fault), full, horizon)
  {
    SinceTwice(db.samples, RowTime, cutoff, horizon);
    SinceTwice(db.findings, FindingTime, cutoff, horizon);
  }

  // ---------- No windowed query sees what lies before its window ----------

  lemma SameGrowth(db: Db, full: Db, horizon: int, kind: string, since: int, limit: int)
    requires SameSince(db, full, horizon) && horizon <= since
    ensures GrowthSince(db.samples, kind, since, limit) == GrowthSince(full.samples, kind, since, limit)
  {
    PruningKeepsGrowth(db.samples, kind, since, limit, horizon);
    PruningKeepsGrowth(full.samples, kind, since, limit, horizon);
  }

  lemma SameAnomalies(db: Db, full: Db, horizon: int, q: Query)
    requires SameSince(db, full, horizon) && horizon <= BaseStart(q)
    ensures AnomalyRows(db.samples, q) == AnomalyRows(full.samples, q)
  {
    PruningKeepsAnomalies(db.samples, q, horizon);
    PruningKeepsAnomalies(full.samples, q, horizon);
  }

  lemma SameFindings(db: Db, full: Db, horizon: int, since: int, limit: int)
    requires SameSince(db, full, horizon) && horizon <= since
    ensures RecentFindings(db.findings, since, limit) == RecentFindings(full.findings, since, limit)
  {
    PruningKeepsFindings(db.findings, since, limit, horizon);
    PruningKeepsFindings(full.findings, since, limit, horizon);
  }
}
