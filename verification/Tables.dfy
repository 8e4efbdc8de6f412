/** Table rows and the time filter that retention and the queries share. */
module Tables {
  import opened Samples

  /** Times are whole seconds since Go's zero time. */
  const DAY := 24 * 3600

  datatype Row = Row(id: nat, s: Sample)

  datatype Finding = Finding(kind: string, key: string, severity: string, reason: string, source: string, createdAt: int)

  datatype FindingRow = FindingRow(id: nat, f: Finding)

  /** A batch of samples as rows, with consecutive ids. */
  function NewRows(batch: seq<Sample>, id: nat): seq<Row> {
    seq(|batch|, i requires 0 <= i < |batch| => Row(id + i, batch[i]))
  }

  function RowTime(r: Row): int { r.s.takenAt }

  function FindingTime(r: FindingRow): int { r.f.createdAt }

  /** Each sample was taken later than the ones before it. */
  ghost predicate InTimeOrder(samples: seq<Sample>) {
    forall i, j :: 0 <= i < j < |samples| ==> samples[i].takenAt < samples[j].takenAt
  }

  /** The rows not older than `cutoff`: what a DELETE of the older ones leaves. */
  function Since<T>(rows: seq<T>, time: T -> int, cutoff: int): seq<T> {
    if rows == [] then []
    else
      var last := rows[|rows| - 1];
      Since(rows[..|rows| - 1], time, cutoff) + if cutoff <= time(last) then [last] else []
  }

  lemma {:induction false} SinceAppend<T>(a: seq<T>, b: seq<T>, time: T -> int, cutoff: int)
    ensures Since(a + b, time, cutoff) == Since(a, time, cutoff) + Since(b, time, cutoff)
    decreases |b|
  {
    if b == [] {
      assert a + b == a;
    } else {
      assert (a + b)[..|a + b| - 1] == a + b[..|b| - 1];
      SinceAppend(a, b[..|b| - 1], time, cutoff);
    }
  }

  /** Deleting up to an earlier time first makes no difference. */
  lemma {:induction false} SinceTwice<T>(rows: seq<T>, time: T -> int, early: int, late: int)
    requires early <= late
    ensures Since(Since(rows, time, early), time, late) == Since(rows, time, late)
    decreases |rows|
  {
    if rows != [] {
      var init, last := rows[..|rows| - 1], rows[|rows| - 1];
      SinceTwice(init, time, early, late);
      SinceLast(Since(init, time, early), last, time, late);
    }
  }

  lemma SinceLast<T>(rows: seq<T>, last: T, time: T -> int, cutoff: int)
    ensures Since(rows + [last], time, cutoff) == Since(rows, time, cutoff) + if cutoff <= time(last) then [last] else []
    ensures rows + [] == rows
  {
    assert (rows + [last])[..|rows|] == rows;
  }

  lemma {:induction false} SinceMember<T>(rows: seq<T>, time: T -> int, cutoff: int, x: T)
    ensures x in Since(rows, time, cutoff) <==> x in rows && cutoff <= time(x)
    decreases |rows|
  {
    if rows != [] {
      SinceMember(rows[..|rows| - 1], time, cutoff, x);
      assert rows == rows[..|rows| - 1] + [rows[|rows| - 1]];
    }
  }

  lemma {:induction false} SinceAll<T>(rows: seq<T>, time: T -> int, cutoff: int)
    requires forall i :: 0 <= i < |rows| ==> cutoff <= time(rows[i])
    ensures Since(rows, time, cutoff) == rows
    decreases |rows|
  {
    if rows != [] {
      SinceAll(rows[..|rows| - 1], time, cutoff);
    }
  }

  /** A sweep that drops the first row of a table, and no other. */
  lemma FirstDropped<T>(first: T, rest: seq<T>, time: T -> int, cutoff: int)
    requires time(first) < cutoff && forall i :: 0 <= i < |rest| ==> cutoff <= time(rest[i])
    ensures Since([first] + rest, time, cutoff) == rest
  {
    SinceAppend([first], rest, time, cutoff);
    SinceAll(rest, time, cutoff);
    assert [first][..0] == [];
    assert [] + rest == rest;
  }

  /** The DELETE of a retention sweep, row by row. */
  method DeleteBefore<T>(rows: seq<T>, time: T -> int, cutoff: int) returns (left: seq<T>, removed: nat)
    ensures left == Since(rows, time, cutoff) && removed + |left| == |rows|
  {
    left, removed := [], 0;
    var i := 0;
    while i < |rows|
      invariant 0 <= i <= |rows|
      invariant left == Since(rows[..i], time, cutoff) && removed + |left| == i
    {
      assert rows[..i + 1][..i] == rows[..i];
      if time(rows[i]) < cutoff {
        removed := removed + 1;
      } else {
        left := left + [rows[i]];
      }
      i := i + 1;
    }
    assert rows[..i] == rows;
  }

  /** SQL's LIMIT: a negative one is no limit. */
  function Limit<T>(rows: seq<T>, limit: int): seq<T> {
    if 0 <= limit < |rows| then rows[..limit] else rows
  }
}
