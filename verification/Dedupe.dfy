/** `Telegram.Send` up to the unlock: the dedupe gate. */
module Dedupe {
  import opened SweptMaps

  const MAX_DEDUPE_ENTRIES := 2048

  datatype Verdict = NotConfigured | Suppressed | Accepted

  /** One `Send`, in the order the lock was taken; `now` was read before that. */
  datatype Call = Call(key: string, now: int)

  predicate Accepts(last: map<string, int>, c: Call, window: int) {
    !(c.key in last && c.now - last[c.key] < window)
  }

  function Recorded(last: map<string, int>, c: Call, window: int): map<string, int> {
    if !Accepts(last, c, window) then last
    else
      var m := last[c.key := c.now];
      if |m| > MAX_DEDUPE_ENTRIES then Swept(m, c.now - window) else m
  }

  class Telegram {
    const enabled: bool
    const window: int
    var last: map<string, int>

    constructor (enabled: bool, window: int)
      ensures this.enabled == enabled && this.window == window && last == map[]
    {
      this.enabled, this.window, last := enabled, window, map[];
    }

    method SweepLocked(now: int)
      modifies this
      ensures last == Swept(old(last), now - window)
    {
      last := Sweep(last, now - window);
    }

    method Send(c: Call) returns (v: Verdict)
      modifies this
      ensures !enabled ==> v == NotConfigured && last == old(last)
      ensures enabled ==> v == (if Accepts(old(last), c, window) then Accepted else Suppressed)
      ensures enabled ==> last == Recorded(old(last), c, window)
    {
      if !enabled {
        return NotConfigured;
      }
      if c.key in last && c.now - last[c.key] < window {
        return Suppressed;
      }
      last := last[c.key := c.now];
      if |last| > MAX_DEDUPE_ENTRIES {
        SweepLocked(c.now);
      }
      return Accepted;
    }
  }

  // ---------- Runs ----------

  function After(calls: seq<Call>, window: int): map<string, int> {
    if calls == [] then map[]
    else Recorded(After(calls[..|calls| - 1], window), calls[|calls| - 1], window)
  }

  predicate AcceptedAt(calls: seq<Call>, window: int, i: nat)
    requires i < |calls|
  {
    Accepts(After(calls[..i], window), calls[i], window)
  }

  /** The same gate over a map that is never swept. */
  function AfterUnswept(calls: seq<Call>, window: int): map<string, int> {
    if calls == [] then map[]
    else
      var m, c := AfterUnswept(calls[..|calls| - 1], window), calls[|calls| - 1];
      if Accepts(m, c, window) then m[c.key := c.now] else m
  }

  /** The time of the last send of each key that the real gate accepted. */
  function LastAccepted(calls: seq<Call>, window: int): map<string, int> {
    if calls == [] then map[]
    else
      var init, c := calls[..|calls| - 1], calls[|calls| - 1];
      var m := LastAccepted(init, window);
      if Accepts(After(init, window), c, window) then m[c.key := c.now] else m
  }

  /** No call's clock is more than `lag` behind one already seen in lock order. */
  ghost predicate LagsAtMost(calls: seq<Call>, lag: int) {
    forall i, j :: 0 <= i < j < |calls| ==> calls[i].now - lag <= calls[j].now
  }

  /** The map agrees with the history except for keys swept out, which are older
      than the window as of a clock value `top` already seen. */
  ghost predicate ForgetsOnlyOld(m: map<string, int>, history: map<string, int>, top: int, window: int) {
    && (forall k :: k in m ==> k in history && m[k] == history[k])
    && (forall k :: k in history && k !in m ==> history[k] < top - window)
  }

  /** The largest clock value of a run. */
  function Top(calls: seq<Call>): int
    requires calls != []
  {
    var last := calls[|calls| - 1].now;
    if |calls| == 1 then last
    else
      var top := Top(calls[..|calls| - 1]);
      if top < last then last else top
  }

  lemma {:induction false} TopSeen(calls: seq<Call>)
    requires calls != []
    ensures exists i :: 0 <= i < |calls| && calls[i].now == Top(calls)
    ensures calls[|calls| - 1].now <= Top(calls)
    decreases |calls|
  {
    assert calls[|calls| - 1].now == calls[|calls| - 1].now;
    if |calls| > 1 {
      var init := calls[..|calls| - 1];
      TopSeen(init);
      var i :| 0 <= i < |init| && init[i].now == Top(init);
      assert calls[i].now == Top(init);
    }
  }

  lemma StepForgetsOnlyOld(m: map<string, int>, history: map<string, int>, top: int, window: int, c: Call, top': int)
    requires ForgetsOnlyOld(m, history, top, window) && top <= top' && c.now <= top'
    ensures ForgetsOnlyOld(Recorded(m, c, window),
                           if Accepts(m, c, window) then history[c.key := c.now] else history, top', window)
  {
  }

  lemma {:induction false} RunForgetsOnlyOld(calls: seq<Call>, window: int)
    requires calls != []
    ensures ForgetsOnlyOld(After(calls, window), LastAccepted(calls, window), Top(calls), window)
    decreases |calls|
  {
    var init, c := calls[..|calls| - 1], calls[|calls| - 1];
    if init == [] {
      StepForgetsOnlyOld(map[], map[], c.now, window, c, c.now);
    } else {
      RunForgetsOnlyOld(init, window);
      StepForgetsOnlyOld(After(init, window), LastAccepted(init, window), Top(init), window, c, Top(calls));
    }
  }

  /** An accepted call comes at least window - lag after the key's last accepted
      one, even when the entry was swept in between. */
  lemma AcceptedGap(calls: seq<Call>, window: int, lag: int, j: nat)
    requires lag >= 0 && LagsAtMost(calls, lag) && j < |calls| && AcceptedAt(calls, window, j)
    requires calls[j].key in LastAccepted(calls[..j], window)
    ensures calls[j].now - LastAccepted(calls[..j], window)[calls[j].key] >= window - lag
  {
    var past := calls[..j];
    assert past != [];
    RunForgetsOnlyOld(past, window);
    TopSeen(past);
    var i :| 0 <= i < |past| && past[i].now == Top(past);
    assert calls[i].now - lag <= calls[j].now;
  }

  lemma {:induction false} LastAcceptedIs(calls: seq<Call>, window: int, i: nat, j: nat)
    requires i < j <= |calls| && AcceptedAt(calls, window, i)
    requires forall m :: i < m < j && calls[m].key == calls[i].key ==> !AcceptedAt(calls, window, m)
    ensures calls[i].key in LastAccepted(calls[..j], window)
    ensures LastAccepted(calls[..j], window)[calls[i].key] == calls[i].now
    decreases j
  {
    assert calls[..j][..j - 1] == calls[..j - 1];
    if j - 1 > i {
      LastAcceptedIs(calls, window, i, j - 1);
    }
  }

  /** Any two successive accepted sends of one key are at least window - lag
      apart; with clocks in lock order (lag 0), a full window apart. */
  lemma AcceptedSendsAreSpaced(calls: seq<Call>, window: int, lag: int, i: nat, j: nat)
    requires lag >= 0 && LagsAtMost(calls, lag)
    requires i < j < |calls| && calls[i].key == calls[j].key
    requires AcceptedAt(calls, window, i) && AcceptedAt(calls, window, j)
    requires forall m :: i < m < j && calls[m].key == calls[i].key ==> !AcceptedAt(calls, window, m)
    ensures calls[j].now - calls[i].now >= window - lag
  {
    LastAcceptedIs(calls, window, i, j);
    AcceptedGap(calls, window, lag, j);
  }

  /** The key's last accepted send in terms of the calls. */
  predicate LastBefore(calls: seq<Call>, window: int, key: string, i: nat, j: nat)
    requires j <= |calls|
  {
    && i < j && calls[i].key == key && AcceptedAt(calls, window, i)
    && forall m: nat :: i < m < j && calls[m].key == key ==> !AcceptedAt(calls, window, m)
  }

  lemma {:induction false} LastAcceptedFrom(calls: seq<Call>, window: int, key: string, j: nat) returns (i: nat)
    requires j <= |calls| && key in LastAccepted(calls[..j], window)
    ensures LastBefore(calls, window, key, i, j) && calls[i].now == LastAccepted(calls[..j], window)[key]
    decreases j
  {
    assert calls[..j][..j - 1] == calls[..j - 1];
    if calls[j - 1].key == key && AcceptedAt(calls, window, j - 1) {
      i := j - 1;
    } else {
      i := LastAcceptedFrom(calls, window, key, j - 1);
    }
  }

  /** A call is suppressed exactly if its key's last accepted send, whatever was
      swept, came less than a window before it. */
  lemma SuppressedIff(calls: seq<Call>, window: int, lag: int, j: nat)
    requires LagsAtMost(calls, lag) && (lag <= 1 || lag <= -window) && j < |calls|
    ensures !AcceptedAt(calls, window, j)
       <==> exists i: nat :: LastBefore(calls, window, calls[j].key, i, j) && calls[j].now - calls[i].now < window
  {
    var key, past := calls[j].key, calls[..j];
    assert LagsAtMost(past, lag);
    SweepingIsInvisible(past, window, lag);
    EveryVerdictAgrees(calls, window, lag);
    assert VerdictAgrees(calls, window, j);
    if key in LastAccepted(past, window) {
      var i := LastAcceptedFrom(calls, window, key, j);
      forall k: nat | LastBefore(calls, window, key, k, j) ensures k == i {
      }
    } else {
      forall i: nat ensures !LastBefore(calls, window, key, i, j) {
        if LastBefore(calls, window, key, i, j) {
          LastAcceptedIs(calls, window, i, j);
        }
      }
    }
  }

  // ---------- What sweeping changes ----------

  lemma {:induction false} LastAcceptedSeen(calls: seq<Call>, window: int, key: string)
    requires key in LastAccepted(calls, window)
    ensures exists i :: 0 <= i < |calls| && calls[i].now == LastAccepted(calls, window)[key]
    decreases |calls|
  {
    var init, c := calls[..|calls| - 1], calls[|calls| - 1];
    if key in LastAccepted(init, window) && LastAccepted(calls, window)[key] == LastAccepted(init, window)[key] {
      LastAcceptedSeen(init, window, key);
      var i :| 0 <= i < |init| && init[i].now == LastAccepted(init, window)[key];
      assert calls[i].now == LastAccepted(calls, window)[key];
    } else {
      assert calls[|calls| - 1].now == LastAccepted(calls, window)[key];
    }
  }

  /** The gate accepts a call exactly when a map that keeps everything would. */
  ghost predicate VerdictAgrees(calls: seq<Call>, window: int, j: nat)
    requires j < |calls|
  {
    AcceptedAt(calls, window, j) <==> Accepts(AfterUnswept(calls[..j], window), calls[j], window)
  }

  ghost predicate VerdictsAgree(calls: seq<Call>, window: int) {
    forall j: nat :: j < |calls| ==> VerdictAgrees(calls, window, j)
  }

  /** A key that was swept out is past its window for every later call. */
  lemma SweptIsPast(init: seq<Call>, c: Call, window: int, lag: int)
    requires LagsAtMost(init + [c], lag) && (lag <= 1 || lag <= -window)
    requires c.key in LastAccepted(init, window) && c.key !in After(init, window)
    ensures c.now - LastAccepted(init, window)[c.key] >= window
  {
    var calls := init + [c];
    RunForgetsOnlyOld(init, window);
    TopSeen(init);
    var i :| 0 <= i < |init| && init[i].now == Top(init);
    assert calls[i].now - lag <= calls[|init|].now;
    LastAcceptedSeen(init, window, c.key);
    var k :| 0 <= k < |init| && init[k].now == LastAccepted(init, window)[c.key];
    assert calls[k].now - lag <= calls[|init|].now;
  }

  lemma {:induction false} SweepingIsInvisible(calls: seq<Call>, window: int, lag: int)
    requires LagsAtMost(calls, lag) && (lag <= 1 || lag <= -window)
    ensures LastAccepted(calls, window) == AfterUnswept(calls, window)
    ensures calls != [] ==> VerdictAgrees(calls, window, |calls| - 1)
    decreases |calls|
  {
    if calls != [] {
      var init, c := calls[..|calls| - 1], calls[|calls| - 1];
      SweepingIsInvisible(init, window, lag);
      assert calls == init + [c];
      if init != [] {
        RunForgetsOnlyOld(init, window);
        if c.key in LastAccepted(init, window) && c.key !in After(init, window) {
          SweptIsPast(init, c, window, lag);
        }
      }
    }
  }

  /** With no clock more than one tick behind another, sweeping never changes a
      verdict. */
  lemma EveryVerdictAgrees(calls: seq<Call>, window: int, lag: int)
    requires LagsAtMost(calls, lag) && (lag <= 1 || lag <= -window)
    ensures VerdictsAgree(calls, window)
  {
    forall j: nat | j < |calls| ensures VerdictAgrees(calls, window, j) {
      var run := calls[..j + 1];
      SweepingIsInvisible(run, window, lag);
      assert run[..j] == calls[..j];
    }
  }

  /** `n` sends at one time, with keys of `n` different lengths. */
  function Burst(n: nat, now: int): seq<Call> {
    if n == 0 then [] else Burst(n - 1, now) + [Call(seq(n, _ => 'a'), now)]
  }

  /** The run that overflows the map between two sends of one key: the burst's
      last send sweeps the first one out, and the last call's clock is behind. */
  function LateRun(window: int): seq<Call> {
    var sweepAt := if window >= 0 then window + 1 else 0;
    [Call("", 0)] + Burst(MAX_DEDUPE_ENTRIES, sweepAt) + [Call("", window - 1)]
  }

  lemma {:induction false} BurstShape(n: nat, now: int)
    ensures |Burst(n, now)| == n && forall c :: c in Burst(n, now) ==> c.now == now
    decreases n
  {
    if n > 0 {
      BurstShape(n - 1, now);
    }
  }

  lemma BurstStep(n: nat, now: int) returns (run: seq<Call>, last: Call)
    requires n > 0
    ensures run == [Call("", 0)] + Burst(n - 1, now) && last.now == now && |last.key| == n
    ensures [Call("", 0)] + Burst(n, now) == run + [last]
    ensures (run + [last])[..|run|] == run && |run| > 0
  {
    run, last := [Call("", 0)] + Burst(n - 1, now), Call(seq(n, _ => 'a'), now);
    assert [Call("", 0)] + (Burst(n - 1, now) + [last]) == run + [last];
  }

  /** Up to the cap every send of the burst is kept. */
  lemma {:induction false} BurstFills(n: nat, window: int, now: int)
    requires n < MAX_DEDUPE_ENTRIES
    ensures var m := After([Call("", 0)] + Burst(n, now), window);
      && |m| == n + 1 && "" in m && m[""] == 0
      && forall k :: k in m ==> |k| <= n
    decreases n
  {
    if n == 0 {
      assert [Call("", 0)] + Burst(0, now) == [Call("", 0)] && [Call("", 0)][..0] == [];
    } else {
      var run, last := BurstStep(n, now);
      BurstFills(n - 1, window, now);
      assert last.key !in After(run, window);
    }
  }

  /** A map that is never swept still holds the first send. */
  lemma {:induction false} BurstUnswept(n: nat, window: int, now: int)
    ensures var m := AfterUnswept([Call("", 0)] + Burst(n, now), window); "" in m && m[""] == 0
    decreases n
  {
    if n == 0 {
      assert [Call("", 0)] + Burst(0, now) == [Call("", 0)] && [Call("", 0)][..0] == [];
    } else {
      var _, _ := BurstStep(n, now);
      BurstUnswept(n - 1, window, now);
    }
  }

  /** The send after the cap sweeps it out. */
  lemma BurstSweeps(window: int, now: int)
    requires 0 < now - window
    ensures "" !in After([Call("", 0)] + Burst(MAX_DEDUPE_ENTRIES, now), window)
  {
    var run, last := BurstStep(MAX_DEDUPE_ENTRIES, now);
    BurstFills(MAX_DEDUPE_ENTRIES - 1, window, now);
    assert last.key !in After(run, window);
  }

  lemma LateRunLags(window: int, lag: int)
    requires lag >= 2 && lag > -window
    ensures LagsAtMost(LateRun(window), lag)
  {
    var sweepAt := if window >= 0 then window + 1 else 0;
    var burst := Burst(MAX_DEDUPE_ENTRIES, sweepAt);
    BurstShape(MAX_DEDUPE_ENTRIES, sweepAt);
    var calls := LateRun(window);
    forall i, j | 0 <= i < j < |calls| ensures calls[i].now - lag <= calls[j].now {
      assert 0 < i <= |burst| ==> calls[i] == burst[i - 1];
      assert 0 < j <= |burst| ==> calls[j] == burst[j - 1];
    }
  }

  /** Its last send is accepted although the key's last accepted one is less than a
      window before it. */
  lemma LateRunSlipsThrough(window: int)
    ensures !VerdictsAgree(LateRun(window), window)
  {
    var sweepAt := if window >= 0 then window + 1 else 0;
    BurstSweeps(window, sweepAt);
    BurstUnswept(MAX_DEDUPE_ENTRIES, window, sweepAt);
    var calls := LateRun(window);
    var j := |calls| - 1;
    assert calls[..j] == [Call("", 0)] + Burst(MAX_DEDUPE_ENTRIES, sweepAt);
    assert !VerdictAgrees(calls, window, j);
  }

  /** How far clocks may run behind each other under the lock: sweeping changes no
      verdict of any run if and only if that is one tick at most (or, for a
      negative window, no more than its size). */
  lemma VerdictsAgreeIff(window: int, lag: int)
    ensures (forall calls :: LagsAtMost(calls, lag) ==> VerdictsAgree(calls, window))
       <==> lag <= 1 || lag <= -window
  {
    if lag <= 1 || lag <= -window {
      forall calls | LagsAtMost(calls, lag) ensures VerdictsAgree(calls, window) {
        EveryVerdictAgrees(calls, window, lag);
      }
    } else {
      LateRunLags(window, lag);
      LateRunSlipsThrough(window);
    }
  }

  /** The keys accepted within the window that ends at `now`. */
  function RecentKeys(history: map<string, int>, now: int, window: int): set<string> {
    set k | k in history && now - window <= history[k]
  }

  /** After an accepted send the map is no larger than the cap or the number of
      keys accepted within the last window. */
  lemma SizeAfterAccept(calls: seq<Call>, window: int)
    requires calls != [] && AcceptedAt(calls, window, |calls| - 1)
    ensures var recent := |RecentKeys(LastAccepted(calls, window), calls[|calls| - 1].now, window)|;
      |After(calls, window)| <= if 2048 < recent then recent else 2048
  {
    var now := calls[|calls| - 1].now;
    var m := After(calls, window);
    RunForgetsOnlyOld(calls, window);
    if |m| > MAX_DEDUPE_ENTRIES {
      var before := After(calls[..|calls| - 1], window)[calls[|calls| - 1].key := now];
      assert |before| > MAX_DEDUPE_ENTRIES;
      assert m == Swept(before, now - window);
      SubsetSize(m.Keys, RecentKeys(LastAccepted(calls, window), now, window));
    }
  }
}
