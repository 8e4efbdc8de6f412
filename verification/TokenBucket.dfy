/** The `/api/ask` rate limiter: a lazily refilled token bucket, shown to answer
    exactly like one that adds a token at every tick, with its rate bounds. */
module TokenBucket {

  /** The bucket's fields; `last` is the tick its refills are counted from. */
  datatype Bucket = Bucket(capacity: nat, refill: int, tokens: int, last: int)

  /** Go's integer division by a positive divisor truncates toward zero. */
  function TruncDiv(a: int, b: int): int
    requires b > 0
  {
    if a >= 0 then a / b else -(-a / b)
  }

  function Min(a: int, b: int): int { if a <= b then a else b }

  function Fresh(capacity: nat, refill: int, now: int): Bucket {
    Bucket(capacity, refill, capacity, now)
  }

  /** The refilling half of `Take`. */
  function Refilled(b: Bucket, now: int): Bucket
    requires b.refill > 0
  {
    var add := TruncDiv(now - b.last, b.refill);
    if add > 0 then b.(tokens := Min(b.tokens + add, b.capacity), last := b.last + add * b.refill) else b
  }

  function Granted(b: Bucket, now: int): bool
    requires b.refill > 0
  {
    Refilled(b, now).tokens > 0
  }

  function Taken(b: Bucket, now: int): Bucket
    requires b.refill > 0
  {
    var r := Refilled(b, now);
    if r.tokens > 0 then r.(tokens := r.tokens - 1) else r
  }

  class TokenBucket {
    const capacity: nat
    const refill: int
    var tokens: int
    var last: int

    function State(): Bucket
      reads this
    {
      Bucket(capacity, refill, tokens, last)
    }

    constructor (capacity: nat, refill: int, now: int)
      requires refill > 0
      ensures State() == Fresh(capacity, refill, now)
    {
      this.capacity, this.refill, tokens, last := capacity, refill, capacity, now;
    }

    method Take(now: int) returns (ok: bool)
      requires refill > 0
      modifies this`tokens, this`last
      ensures State() == Taken(old(State()), now) && ok == Granted(old(State()), now)
    {
      var add := TruncDiv(now - last, refill);
      if add > 0 {
        tokens := tokens + add;
        if tokens > capacity {
          tokens := capacity;
        }
        last := last + add * refill;
      }
      if tokens <= 0 {
        return false;
      }
      tokens := tokens - 1;
      return true;
    }
  }

  // ---------- Runs ----------

  function After(b: Bucket, times: seq<int>): (e: Bucket)
    requires b.refill > 0
    ensures e.refill == b.refill && e.capacity == b.capacity
  {
    if times == [] then b else Taken(After(b, times[..|times| - 1]), times[|times| - 1])
  }

  /** The answers of a run of calls. */
  function Answers(b: Bucket, times: seq<int>): seq<bool>
    requires b.refill > 0
  {
    if times == [] then []
    else
      var init := times[..|times| - 1];
      Answers(b, init) + [Granted(After(b, init), times[|times| - 1])]
  }

  function Count(answers: seq<bool>): nat {
    if answers == [] then 0
    else Count(answers[..|answers| - 1]) + if answers[|answers| - 1] then 1 else 0
  }

  /** The clock is read under the lock, so times do not go back. */
  ghost predicate NonDecreasing(times: seq<int>, from: int) {
    && (forall i :: 0 <= i < |times| ==> from <= times[i])
    && (forall i, j :: 0 <= i < j < |times| ==> times[i] <= times[j])
  }

  ghost predicate Sound(b: Bucket) {
    b.refill > 0 && 0 <= b.tokens <= b.capacity
  }

  lemma DivBounds(a: int, b: int)
    requires a >= 0 && b > 0
    ensures 0 <= a / b && a / b * b <= a < a / b * b + b
  {
  }

  /** After a call at `now` the reference tick is at most one refill behind. */
  lemma TakeAligns(b: Bucket, now: int)
    requires Sound(b) && b.last <= now
    ensures var e := Taken(b, now);
      Sound(e) && e.refill == b.refill && b.last <= e.last <= now < e.last + e.refill
  {
    DivBounds(now - b.last, b.refill);
  }

  lemma {:induction false} RunAligns(b: Bucket, times: seq<int>)
    requires Sound(b) && NonDecreasing(times, b.last)
    ensures var e := After(b, times);
      && Sound(e) && e.refill == b.refill && e.capacity == b.capacity && b.last <= e.last
      && (times != [] ==> e.last <= times[|times| - 1] < e.last + e.refill)
      && (times == [] ==> e == b)
    decreases |times|
  {
    if times != [] {
      RunAligns(b, times[..|times| - 1]);
      TakeAligns(After(b, times[..|times| - 1]), times[|times| - 1]);
    }
  }

  /** A clock that went back, or has not reached the next refill, adds nothing. */
  lemma NoRefillBefore(b: Bucket, now: int)
    requires b.refill > 0 && now < b.last + b.refill
    ensures Refilled(b, now) == b && (Granted(b, now) <==> b.tokens > 0)
  {
    if now >= b.last {
      DivUnique(now - b.last, b.refill, 0, now - b.last);
    } else {
      DivBounds(b.last - now, b.refill);
    }
  }

  // ---------- The eager bucket ----------

  /** A bucket that adds one clamped token at every tick; `ticks` have passed. */
  datatype Eager = Eager(tokens: int, ticks: int)

  function TickMany(tokens: int, capacity: nat, n: int): int
    decreases n
  {
    if n <= 0 then tokens else Min(TickMany(tokens, capacity, n - 1) + 1, capacity)
  }

  /** The ticks at start + refill, start + 2 * refill, ... up to `now` happen first. */
  function EagerTaken(e: Eager, capacity: nat, refill: int, start: int, now: int): (Eager, bool)
    requires refill > 0
  {
    var ticks := (now - start) / refill;
    var tokens := TickMany(e.tokens, capacity, ticks - e.ticks);
    if tokens > 0 then (Eager(tokens - 1, ticks), true) else (Eager(tokens, ticks), false)
  }

  function EagerAfter(capacity: nat, refill: int, start: int, times: seq<int>): Eager
    requires refill > 0
  {
    if times == [] then Eager(capacity, 0)
    else EagerTaken(EagerAfter(capacity, refill, start, times[..|times| - 1]), capacity, refill, start, times[|times| - 1]).0
  }

  function EagerAnswers(capacity: nat, refill: int, start: int, times: seq<int>): seq<bool>
    requires refill > 0
  {
    if times == [] then []
    else
      var init := times[..|times| - 1];
      EagerAnswers(capacity, refill, start, init)
      + [EagerTaken(EagerAfter(capacity, refill, start, init), capacity, refill, start, times[|times| - 1]).1]
  }

  /** Clamped batch refills compose: n single ticks are one batch of n. */
  lemma {:induction false} TicksAreOneBatch(tokens: int, capacity: nat, n: nat)
    requires tokens <= capacity
    ensures TickMany(tokens, capacity, n) == Min(tokens + n, capacity)
    decreases n
  {
    if n > 0 {
      TicksAreOneBatch(tokens, capacity, n - 1);
    }
  }

  /** Dividing a distance that starts `k` whole periods in. */
  lemma DivShift(a: int, k: int, r: int)
    requires r > 0
    ensures (a - k * r) / r == a / r - k
  {
    var q := (a - k * r) / r;
    assert (a - k * r) == q * r + (a - k * r) % r;
    assert a == (q + k) * r + (a - k * r) % r;
    DivUnique(a, r, q + k, (a - k * r) % r);
  }

  lemma DivUnique(a: int, r: int, q: int, rest: int)
    requires r > 0 && 0 <= rest < r && a == q * r + rest
    ensures a / r == q
  {
    var d := a / r - q;
    assert d * r == rest - a % r;
    MulSign(d, r);
  }

  lemma MulSign(d: int, r: int)
    requires r > 0
    ensures d > 0 ==> d * r >= r
    ensures d < 0 ==> d * r <= -r
  {
  }

  /** The lazy state is the eager state read off the grid of ticks. */
  ghost predicate OnGrid(b: Bucket, e: Eager, start: int) {
    b.tokens == e.tokens && b.last == start + e.ticks * b.refill
  }

  lemma TakeStaysOnGrid(b: Bucket, e: Eager, start: int, now: int)
    requires Sound(b) && OnGrid(b, e, start) && b.last <= now
    ensures var step := EagerTaken(e, b.capacity, b.refill, start, now);
      OnGrid(Taken(b, now), step.0, start) && Granted(b, now) == step.1
  {
    var r := b.refill;
    var add := (now - b.last) / r;
    DivBounds(now - b.last, r);
    assert now - b.last == (now - start) - e.ticks * r;
    DivShift(now - start, e.ticks, r);
    assert add == (now - start) / r - e.ticks;
    TicksAreOneBatch(e.tokens, b.capacity, add);
    assert start + e.ticks * r + add * r == start + (e.ticks + add) * r;
  }

  lemma {:induction false} RunStaysOnGrid(capacity: nat, refill: int, start: int, times: seq<int>)
    requires refill > 0 && NonDecreasing(times, start)
    ensures OnGrid(After(Fresh(capacity, refill, start), times), EagerAfter(capacity, refill, start, times), start)
    ensures Answers(Fresh(capacity, refill, start), times) == EagerAnswers(capacity, refill, start, times)
    decreases |times|
  {
    if times != [] {
      var init, now := times[..|times| - 1], times[|times| - 1];
      var b := Fresh(capacity, refill, start);
      RunStaysOnGrid(capacity, refill, start, init);
      RunAligns(b, init);
      TakeStaysOnGrid(After(b, init), EagerAfter(capacity, refill, start, init), start, now);
    }
  }

  /** On every run the lazy bucket answers each call as the eager one would. */
  lemma LazyAnswersLikeEager(capacity: nat, refill: int, start: int, times: seq<int>)
    requires refill > 0 && NonDecreasing(times, start)
    ensures Answers(Fresh(capacity, refill, start), times) == EagerAnswers(capacity, refill, start, times)
  {
    RunStaysOnGrid(capacity, refill, start, times);
  }

  // ---------- Rate bounds ----------

  /** One call: the grant and what is left come out of the tokens and the ticks
      the reference moved by. */
  lemma TakeAccounts(b: Bucket, now: int) returns (ticks: nat)
    requires Sound(b) && b.last <= now
    ensures Taken(b, now).last == b.last + ticks * b.refill
    ensures (if Granted(b, now) then 1 else 0) + Taken(b, now).tokens <= b.tokens + ticks
  {
    DivBounds(now - b.last, b.refill);
    ticks := (now - b.last) / b.refill;
  }

  /** Tokens are conserved: what a run grants and keeps never exceeds what it had
      plus one token per tick its reference moved by. */
  lemma {:induction false} Accounting(b: Bucket, times: seq<int>) returns (ticks: nat)
    requires Sound(b) && NonDecreasing(times, b.last)
    ensures After(b, times).last == b.last + ticks * b.refill
    ensures Count(Answers(b, times)) + After(b, times).tokens <= b.tokens + ticks
    decreases |times|
  {
    if times == [] {
      ticks := 0;
    } else {
      var init, now := times[..|times| - 1], times[|times| - 1];
      var before := Accounting(b, init);
      RunAligns(b, init);
      var add := TakeAccounts(After(b, init), now);
      ticks := before + add;
      MulSplits(before, add, b.refill);
      CountLast(Answers(b, init), Granted(After(b, init), now));
    }
  }

  lemma MulSplits(a: int, b: int, r: int)
    ensures (a + b) * r == a * r + b * r
  {
  }

  lemma CountLast(s: seq<bool>, x: bool)
    ensures Count(s + [x]) == Count(s) + if x then 1 else 0
  {
    assert (s + [x])[..|s|] == s;
  }

  lemma {:induction false} AnswersSplit(b: Bucket, s: seq<int>, t: seq<int>)
    requires b.refill > 0
    ensures After(b, s + t) == After(After(b, s), t)
    ensures Answers(b, s + t) == Answers(b, s) + Answers(After(b, s), t)
    decreases |t|
  {
    if t == [] {
      assert s + t == s;
    } else {
      assert (s + t)[..|s + t| - 1] == s + t[..|t| - 1];
      AnswersSplit(b, s, t[..|t| - 1]);
    }
  }

  /** Since construction: at most the capacity plus one grant per elapsed refill. */
  lemma GrantsSinceStart(capacity: nat, refill: int, start: int, times: seq<int>)
    requires refill > 0 && NonDecreasing(times, start) && times != []
    ensures Count(Answers(Fresh(capacity, refill, start), times))
         <= capacity + (times[|times| - 1] - start) / refill
  {
    var b := Fresh(capacity, refill, start);
    var ticks := Accounting(b, times);
    RunAligns(b, times);
    AtMostDiv(ticks, refill, times[|times| - 1] - start);
  }

  lemma AtMostDiv(n: int, r: int, a: int)
    requires r > 0 && n * r <= a
    ensures n <= a / r
  {
    var q := a / r;
    assert a < q * r + r;
    assert (n - q) * r < r;
    MulSign(n - q, r);
  }

  /** A call in a window followed by further calls in it. */
  lemma GrantsFrom(m: Bucket, now: int, rest: seq<int>, t1: int, t2: int)
    requires Sound(m) && m.last <= now && t1 <= now <= t2
    requires NonDecreasing(rest, now) && forall k :: 0 <= k < |rest| ==> rest[k] <= t2
    ensures (if Granted(m, now) then 1 else 0) + Count(Answers(Taken(m, now), rest))
         <= m.capacity + (t2 - t1) / m.refill + 1
  {
    var m1 := Taken(m, now);
    TakeAligns(m, now);
    var ticks := Accounting(m1, rest);
    RunAligns(m1, rest);
    TicksInWindow(ticks, m.refill, m1.last, After(m1, rest).last, t1, t2);
    FirstGrantFits(m, now);
  }

  /** In any window [t1, t2]: the calls of a run that fall in the window are a
      stretch of it, and at most capacity + (t2 - t1) / refill + 1 of them are
      granted, whatever came before. */
  lemma GrantsInWindow(b: Bucket, past: seq<int>, window: seq<int>, tail: seq<int>, t1: int, t2: int)
    requires Sound(b) && NonDecreasing(past + window + tail, b.last)
    requires t1 <= t2 && forall k :: 0 <= k < |window| ==> t1 <= window[k] <= t2
    ensures var m := After(b, past);
      && Answers(b, past + window + tail)
         == Answers(b, past) + Answers(m, window) + Answers(After(m, window), tail)
      && Count(Answers(m, window)) <= b.capacity + (t2 - t1) / b.refill + 1
  {
    AnswersInParts(b, past, window, tail);
    PartsDoNotGoBack(past, window, tail, b.last);
    RunAligns(b, past);
    GrantsOfStretch(After(b, past), window, t1, t2);
  }

  lemma AnswersInParts(b: Bucket, past: seq<int>, window: seq<int>, tail: seq<int>)
    requires b.refill > 0
    ensures var m := After(b, past);
      Answers(b, past + window + tail) == Answers(b, past) + Answers(m, window) + Answers(After(m, window), tail)
  {
    AnswersSplit(b, past + window, tail);
    AnswersSplit(b, past, window);
  }

  lemma GrantsOfStretch(m: Bucket, window: seq<int>, t1: int, t2: int)
    requires Sound(m) && NonDecreasing(window, m.last)
    requires t1 <= t2 && forall k :: 0 <= k < |window| ==> t1 <= window[k] <= t2
    ensures Count(Answers(m, window)) <= m.capacity + (t2 - t1) / m.refill + 1
  {
    if window != [] {
      GrantsFrom(m, window[0], window[1..], t1, t2);
      AnswersFirst(m, window);
    } else {
      DivBounds(t2 - t1, m.refill);
    }
  }

  lemma PartsDoNotGoBack(past: seq<int>, window: seq<int>, tail: seq<int>, from: int)
    requires NonDecreasing(past + window + tail, from)
    ensures NonDecreasing(past, from)
    ensures NonDecreasing(window, if past == [] then from else past[|past| - 1])
  {
    var all := past + window + tail;
    assert forall k :: 0 <= k < |past| ==> past[k] == all[k];
    assert forall k :: 0 <= k < |window| ==> window[k] == all[|past| + k];
  }

  lemma AnswersFirst(m: Bucket, window: seq<int>)
    requires m.refill > 0 && window != []
    ensures Count(Answers(m, window))
      == (if Granted(m, window[0]) then 1 else 0) + Count(Answers(Taken(m, window[0]), window[1..]))
  {
    assert window == [window[0]] + window[1..];
    AnswersSplit(m, [window[0]], window[1..]);
    AnswersOne(m, window[0]);
    CountCons(Granted(m, window[0]), Answers(Taken(m, window[0]), window[1..]));
  }

  /** A reference that starts less than one refill before the window and does not
      leave it moves by at most the window's refills plus one. */
  lemma TicksInWindow(ticks: nat, refill: int, from: int, to: int, t1: int, t2: int)
    requires refill > 0 && to == from + ticks * refill && t1 < from + refill && to <= t2
    ensures ticks <= (t2 - t1) / refill + 1
  {
    MulSplits(ticks, -1, refill);
    AtMostDiv(ticks - 1, refill, t2 - t1);
  }

  lemma FirstGrantFits(b: Bucket, now: int)
    requires Sound(b)
    ensures (if Granted(b, now) then 1 else 0) + Taken(b, now).tokens <= b.capacity
  {
  }

  lemma {:induction false} CountCons(x: bool, s: seq<bool>)
    ensures Count([x] + s) == (if x then 1 else 0) + Count(s)
    decreases |s|
  {
    if s == [] {
      assert [x] + s == [x] && [x][..0] == [];
    } else {
      assert ([x] + s)[..|s|] == [x] + s[..|s| - 1];
      CountCons(x, s[..|s| - 1]);
    }
  }

  /** The window bound is reached: with one token, calls just before a tick and
      on it are both granted. */
  lemma WindowBoundIsReached(refill: int, start: int)
    requires refill >= 2
    ensures var t1, t2 := start + refill - 1, start + refill;
      Count(Answers(Fresh(1, refill, start), [t1, t2])) == 2 == 1 + (t2 - t1) / refill + 1
  {
    var t1, t2 := start + refill - 1, start + refill;
    var b := Fresh(1, refill, start);
    DivUnique(refill - 1, refill, 0, refill - 1);
    DivUnique(refill, refill, 1, 0);
    DivUnique(1, refill, 0, 1);
    assert Granted(b, t1) && Granted(Taken(b, t1), t2);
    assert [t1] + [t2] == [t1, t2];
    AnswersSplit(b, [t1], [t2]);
    AnswersOne(b, t1);
    AnswersOne(Taken(b, t1), t2);
    CountLast([true], true);
    CountLast([], true);
    assert [] + [true] == [true];
  }

  lemma AnswersOne(b: Bucket, now: int)
    requires b.refill > 0
    ensures Answers(b, [now]) == [Granted(b, now)] && After(b, [now]) == Taken(b, now)
  {
    assert [now][..0] == [];
  }

  /** With any capacity, a call at least one refill period after the previous
      one is granted. */
  lemma PatientCallerIsGranted(b: Bucket, times: seq<int>, now: int)
    requires Sound(b) && NonDecreasing(times, b.last) && times != []
    requires b.capacity >= 1 && now >= times[|times| - 1] + b.refill
    ensures Granted(After(b, times), now)
  {
    RunAligns(b, times);
    var e := After(b, times);
    DivBounds(now - e.last, e.refill);
    AtMostDiv(1, e.refill, now - e.last);
  }
}
