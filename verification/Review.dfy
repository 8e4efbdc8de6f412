/** The AI review's filter: the allowlist of (kind, key) pairs shown to the model,
    the in-place compaction of its findings, and the notifications sent. */
module Review {
  import opened Seqs
  import Store
  import Tables

  datatype Finding = Finding(kind: string, key: string, severity: string, reason: string)

  const BAR := '|'

  /** The allowlist's string for a pair. */
  function AllowKey(kind: string, key: string): string { kind + "|" + key }

  function AllowKeys(shown: set<(string, string)>): set<string> {
    set p | p in shown :: AllowKey(p.0, p.1)
  }

  /** The pairs of one batch, and of the first `n` batches. */
  function BatchPairs(kind: string, keys: seq<string>): set<(string, string)> {
    set k | k in keys :: (kind, k)
  }

  function ShownInBatches(batches: seq<(string, seq<string>)>): set<(string, string)> {
    if batches == [] then {}
    else
      var last := batches[|batches| - 1];
      ShownInBatches(batches[..|batches| - 1]) + BatchPairs(last.0, last.1)
  }

  function AnomalyPairs(anomalies: seq<(string, string)>): set<(string, string)> {
    set a | a in anomalies
  }

  /** Everything the prompt lists: the growth batches and the anomalies. */
  function Shown(batches: seq<(string, seq<string>)>, anomalies: seq<(string, string)>): set<(string, string)> {
    ShownInBatches(batches) + AnomalyPairs(anomalies)
  }

  lemma {:induction false} InBatches(batches: seq<(string, seq<string>)>, p: (string, string))
    ensures p in ShownInBatches(batches) <==> exists i :: 0 <= i < |batches| && batches[i].0 == p.0 && p.1 in batches[i].1
    decreases |batches|
  {
    if batches != [] {
      var init, last := batches[..|batches| - 1], batches[|batches| - 1];
      InBatches(init, p);
      assert forall i :: 0 <= i < |init| ==> init[i] == batches[i];
      if last.0 == p.0 && p.1 in last.1 {
        assert batches[|init|] == last;
      }
    }
  }

  /** A pair is shown exactly if its batch lists the key or it is an anomaly. */
  lemma ShownIff(batches: seq<(string, seq<string>)>, anomalies: seq<(string, string)>, kind: string, key: string)
    ensures (kind, key) in Shown(batches, anomalies)
       <==> || (exists i :: 0 <= i < |batches| && batches[i].0 == kind && key in batches[i].1)
            || (kind, key) in anomalies
  {
    InBatches(batches, (kind, key));
  }

  lemma AllowUnion(a: set<(string, string)>, b: set<(string, string)>)
    ensures AllowKeys(a + b) == AllowKeys(a) + AllowKeys(b)
  {
  }

  method AllowBatch(allow0: set<string>, kind: string, keys: seq<string>) returns (allow: set<string>)
    ensures allow == allow0 + AllowKeys(BatchPairs(kind, keys))
  {
    allow := allow0;
    var i := 0;
    while i < |keys|
      invariant 0 <= i <= |keys|
      invariant allow == allow0 + AllowKeys(BatchPairs(kind, keys[..i]))
    {
      BatchGrows(kind, keys, i);
      allow := allow + {AllowKey(kind, keys[i])};
      i := i + 1;
    }
    assert keys[..i] == keys;
  }

  lemma BatchGrows(kind: string, keys: seq<string>, i: nat)
    requires i < |keys|
    ensures AllowKeys(BatchPairs(kind, keys[..i + 1])) == AllowKeys(BatchPairs(kind, keys[..i])) + {AllowKey(kind, keys[i])}
  {
    assert keys[..i + 1] == keys[..i] + [keys[i]];
    assert BatchPairs(kind, keys[..i + 1]) == BatchPairs(kind, keys[..i]) + {(kind, keys[i])};
    AllowUnion(BatchPairs(kind, keys[..i]), {(kind, keys[i])});
    assert AllowKeys({(kind, keys[i])}) == {AllowKey(kind, keys[i])};
  }

  method AllowAnomalies(allow0: set<string>, anomalies: seq<(string, string)>) returns (allow: set<string>)
    ensures allow == allow0 + AllowKeys(AnomalyPairs(anomalies))
  {
    allow := allow0;
    var i := 0;
    while i < |anomalies|
      invariant 0 <= i <= |anomalies|
      invariant allow == allow0 + AllowKeys(AnomalyPairs(anomalies[..i]))
    {
      ghost var before := AnomalyPairs(anomalies[..i]);
      assert anomalies[..i + 1] == anomalies[..i] + [anomalies[i]];
      assert AnomalyPairs(anomalies[..i + 1]) == before + {anomalies[i]};
      AllowUnion(before, {anomalies[i]});
      assert AllowKeys({anomalies[i]}) == {AllowKey(anomalies[i].0, anomalies[i].1)};
      allow := allow + {AllowKey(anomalies[i].0, anomalies[i].1)};
      i := i + 1;
    }
    assert anomalies[..i] == anomalies;
  }

  /** The loops that fill `allow`. */
  method BuildAllow(batches: seq<(string, seq<string>)>, anomalies: seq<(string, string)>) returns (allow: set<string>)
    ensures allow == AllowKeys(Shown(batches, anomalies))
  {
    allow := {};
    var i := 0;
    while i < |batches|
      invariant 0 <= i <= |batches|
      invariant allow == AllowKeys(ShownInBatches(batches[..i]))
    {
      assert batches[..i + 1][..i] == batches[..i];
      AllowUnion(ShownInBatches(batches[..i]), BatchPairs(batches[i].0, batches[i].1));
      allow := AllowBatch(allow, batches[i].0, batches[i].1);
      i := i + 1;
    }
    assert batches[..i] == batches;
    AllowUnion(ShownInBatches(batches), AnomalyPairs(anomalies));
    allow := AllowAnomalies(allow, anomalies);
  }

  // ---------- When the allowlist is exact ----------

  /** Only pairs that were shown pass the allowlist. */
  ghost predicate AdmitsOnlyShown(shown: set<(string, string)>) {
    forall kind, key :: AllowKey(kind, key) in AllowKeys(shown) ==> (kind, key) in shown
  }

  /** Between parts without bars there is one bar. */
  lemma OnlyBar(kind: string, key: string, i: nat)
    requires BAR !in kind && BAR !in key
    requires i < |AllowKey(kind, key)| && AllowKey(kind, key)[i] == BAR
    ensures i == |kind|
  {
    assert forall k :: 0 <= k < |kind| ==> kind[k] != BAR;
    assert forall k :: 0 <= k < |key| ==> key[k] != BAR;
  }

  /** So a string with one bar splits one way. */
  lemma OneSplit(kind: string, key: string, kind': string, key': string)
    requires AllowKey(kind, key) == AllowKey(kind', key')
    requires BAR !in kind' && BAR !in key'
    ensures kind == kind' && key == key'
  {
    var s := AllowKey(kind, key);
    assert s[|kind|] == BAR;
    OnlyBar(kind', key', |kind|);
    assert kind == s[..|kind|] && kind' == s[..|kind'|];
    assert key == s[|kind| + 1..] && key' == s[|kind'| + 1..];
  }

  /** A key with a bar in it lets a pair through that was never shown. */
  lemma BarredKeyLeaks(shown: set<(string, string)>, p: (string, string))
    requires p in shown && BAR in p.1 && forall q :: q in shown ==> BAR !in q.0
    ensures !AdmitsOnlyShown(shown)
  {
    var i :| 0 <= i < |p.1| && p.1[i] == BAR;
    var kind, key := p.0 + "|" + p.1[..i], p.1[i + 1..];
    assert AllowKey(kind, key) == AllowKey(p.0, p.1) by {
      assert p.1 == p.1[..i] + "|" + p.1[i + 1..];
    }
    assert AllowKey(p.0, p.1) in AllowKeys(shown);
    assert kind[|p.0|] == BAR;
    assert (kind, key) !in shown;
  }

  /** The kinds shown are fixed names without a bar; then the allowlist is exact
      if and only if no shown key contains one. */
  lemma AllowlistExactIff(shown: set<(string, string)>)
    requires forall p :: p in shown ==> '|' !in p.0
    ensures AdmitsOnlyShown(shown) <==> forall p :: p in shown ==> '|' !in p.1
  {
    if p :| p in shown && BAR in p.1 {
      BarredKeyLeaks(shown, p);
    } else {
      forall kind, key | AllowKey(kind, key) in AllowKeys(shown) ensures (kind, key) in shown {
        var p :| p in shown && AllowKey(p.0, p.1) == AllowKey(kind, key);
        OneSplit(kind, key, p.0, p.1);
      }
    }
  }

  // ---------- The in-place filter ----------

  predicate Allowed(f: Finding, allow: set<string>) { AllowKey(f.kind, f.key) in allow }

  predicate KnownSeverity(s: string) { s == "info" || s == "warn" || s == "crit" }

  function Clamp(f: Finding): Finding {
    if KnownSeverity(f.severity) then f else f.(severity := "warn")
  }

  /** The allowed findings in order, with their severity clamped. */
  function Kept(findings: seq<Finding>, allow: set<string>): seq<Finding> {
    Map(Filter(findings, f => Allowed(f, allow)), Clamp)
  }

  lemma KeptStep(findings: seq<Finding>, allow: set<string>, i: nat)
    requires i < |findings|
    ensures Kept(findings[..i + 1], allow)
         == Kept(findings[..i], allow) + if Allowed(findings[i], allow) then [Clamp(findings[i])] else []
  {
    var p := f => Allowed(f, allow);
    assert findings[..i + 1][..i] == findings[..i];
    assert Filter(findings[..i + 1], p) == Filter(findings[..i], p) + if p(findings[i]) then [findings[i]] else [];
  }

  /** `out := findings[:0]` shares the array it is appended to: the write index
      never passes the read index, so no finding is lost before it is read. */
  method FilterInPlace(findings: array<Finding>, allow: set<string>) returns (n: nat)
    modifies findings
    ensures n <= findings.Length
    ensures findings[..n] == Kept(old(findings[..]), allow)
    ensures findings[n..] == old(findings[n..])
  {
    ghost var was := findings[..];
    n := 0;
    var i := 0;
    while i < findings.Length
      invariant 0 <= n <= i <= findings.Length
      invariant findings[..n] == Kept(was[..i], allow)
      invariant findings[n..] == was[n..]
    {
      var f := findings[i];
      assert f == findings[n..][i - n] == was[i];
      KeptStep(was, allow, i);
      if Allowed(f, allow) {
        if f.severity != "info" && f.severity != "warn" && f.severity != "crit" {
          f := f.(severity := "warn");
        }
        ghost var rest := findings[n..];
        findings[n] := f;
        n := n + 1;
        assert findings[n..] == rest[1..];
        assert findings[..n] == findings[..n - 1] + [f];
      }
      i := i + 1;
    }
    assert was[..i] == was;
  }

  // ---------- The whole pass ----------

  predicate Notifies(f: Finding) { f.severity != "info" }

  /** The dedupe key of a notification, and whether it carries the "crit" icon. */
  function NoticeOf(f: Finding): (string, bool) {
    ("ai-review:" + f.kind + ":" + f.key, f.severity == "crit")
  }

  method Notify(findings: array<Finding>, n: nat) returns (sent: seq<(string, bool)>)
    requires n <= findings.Length
    ensures sent == Map(Filter(findings[..n], Notifies), NoticeOf)
  {
    sent := [];
    var i := 0;
    while i < n
      invariant 0 <= i <= n
      invariant sent == Map(Filter(findings[..i], Notifies), NoticeOf)
    {
      assert findings[..i + 1][..i] == findings[..i];
      if findings[i].severity != "info" {
        sent := sent + [NoticeOf(findings[i])];
      }
      i := i + 1;
    }
  }

  /** What a finding of the answer becomes: a severity other than the three known
      ones is a warning, and nothing else changes. */
  predicate BecomesOf(f: Finding, x: Finding) {
    && x.kind == f.kind && x.key == f.key && x.reason == f.reason
    && x.severity == if f.severity == "info" || f.severity == "warn" || f.severity == "crit" then f.severity else "warn"
  }

  /** `at` lists, in order, the positions of the allowed findings of the answer, and
      `kept` what they became. */
  ghost predicate KeptAt(findings: seq<Finding>, allow: set<string>, kept: seq<Finding>, at: seq<nat>) {
    && |at| == |kept| && (forall i, j :: 0 <= i < j < |at| ==> at[i] < at[j])
    && (forall i :: 0 <= i < |at| ==> at[i] < |findings| && BecomesOf(findings[at[i]], kept[i]))
    && (forall k: nat :: k in at <==> k < |findings| && findings[k].kind + "|" + findings[k].key in allow)
  }

  lemma KeptAtDropped(init: seq<Finding>, f: Finding, allow: set<string>, kept: seq<Finding>, at: seq<nat>)
    requires KeptAt(init, allow, kept, at) && !Allowed(f, allow)
    ensures KeptAt(init + [f], allow, kept, at)
  {
    var all := init + [f];
    assert forall k: nat :: k < |init| ==> all[k] == init[k];
    assert all[|init|] == f;
    forall i | 0 <= i < |at| ensures at[i] < |all| && BecomesOf(all[at[i]], kept[i]) {
      assert BecomesOf(init[at[i]], kept[i]);
    }
  }

  lemma KeptAtTaken(init: seq<Finding>, f: Finding, allow: set<string>, kept: seq<Finding>, at: seq<nat>)
    requires KeptAt(init, allow, kept, at) && Allowed(f, allow)
    ensures KeptAt(init + [f], allow, kept + [Clamp(f)], at + [|init|])
  {
    var all, more, n := init + [f], at + [|init|], |init|;
    assert forall k: nat :: k < n ==> all[k] == init[k];
    assert all[n] == f;
    forall i | 0 <= i < |more| ensures more[i] < |all| && BecomesOf(all[more[i]], (kept + [Clamp(f)])[i]) {
      if i < |at| {
        assert BecomesOf(init[at[i]], kept[i]);
      }
    }
    forall i, j | 0 <= i < j < |more| ensures more[i] < more[j] {
      assert at[i] in at;
    }
  }

  lemma {:induction false} KeptPositions(findings: seq<Finding>, allow: set<string>) returns (at: seq<nat>)
    ensures KeptAt(findings, allow, Kept(findings, allow), at)
    decreases |findings|
  {
    if findings == [] {
      at := [];
    } else {
      var n := |findings| - 1;
      var init, f := findings[..n], findings[n];
      at := KeptPositions(init, allow);
      KeptStep(findings, allow, n);
      assert findings[..n + 1] == findings && findings == init + [f];
      if Allowed(f, allow) {
        KeptAtTaken(init, f, allow, Kept(init, allow), at);
        at := at + [n];
      } else {
        KeptAtDropped(init, f, allow, Kept(init, allow), at);
        assert Kept(init, allow) + [] == Kept(init, allow);
      }
    }
  }

  /** The notices an answer leads to: one, in order, for each allowed finding that
      does not come back as "info", marked if it came back as "crit". */
  function Notices(findings: seq<Finding>, allow: set<string>): seq<(string, bool)> {
    if findings == [] then []
    else
      var f := findings[|findings| - 1];
      Notices(findings[..|findings| - 1], allow)
      + if f.kind + "|" + f.key in allow && f.severity != "info"
        then [("ai-review:" + f.kind + ":" + f.key, f.severity == "crit")] else []
  }

  lemma {:induction false} NoticesSent(findings: seq<Finding>, allow: set<string>)
    ensures Map(Filter(Kept(findings, allow), Notifies), NoticeOf) == Notices(findings, allow)
    decreases |findings|
  {
    if findings != [] {
      var n := |findings| - 1;
      var f := findings[n];
      NoticesSent(findings[..n], allow);
      KeptStep(findings, allow, n);
      assert findings[..n + 1] == findings;
      if Allowed(f, allow) {
        FilterLast(Kept(findings[..n], allow), Clamp(f));
      } else {
        assert Kept(findings[..n], allow) + [] == Kept(findings[..n], allow);
      }
    }
  }

  lemma FilterLast(kept: seq<Finding>, x: Finding)
    ensures Map(Filter(kept + [x], Notifies), NoticeOf)
         == Map(Filter(kept, Notifies), NoticeOf) + if x.severity != "info" then [NoticeOf(x)] else []
  {
    assert (kept + [x])[..|kept|] == kept;
  }

  /** The rows `RunReview` asks the store to keep. */
  function Persisted(f: Finding, now: int): Tables.Finding {
    Tables.Finding(f.kind, f.key, f.severity, f.reason, "ai_review", now)
  }

  /** The store's last rows are the survivors, stamped with the source and the time. */
  ghost predicate PersistedLast(rows: seq<Tables.FindingRow>, kept: seq<Finding>, now: int) {
    && |rows| >= |kept|
    && forall i :: 0 <= i < |kept| ==>
         var r := rows[|rows| - |kept| + i].f;
         && r.kind == kept[i].kind && r.key == kept[i].key && r.severity == kept[i].severity
         && r.reason == kept[i].reason && r.source == "ai_review" && r.createdAt == now
  }

  /** The persisting loop and the store call; a failure is only printed. */
  method Persist(store: Store.Store, findings: array<Finding>, n: nat, now: int, failAt: Option<nat>) returns (ok: bool)
    requires n <= findings.Length
    modifies store
    ensures ok == (n == 0 || !(failAt.Some? && failAt.value <= n))
    ensures !ok ==> store.State() == old(store.State())
    ensures ok ==> old(store.findings) <= store.findings && |store.findings| == |old(store.findings)| + n
    ensures ok ==> PersistedLast(store.findings, findings[..n], now)
  {
    var batch: seq<Tables.Finding> := [];
    for i := 0 to n
      invariant |batch| == i && forall j :: 0 <= j < i ==> batch[j] == Persisted(findings[j], now)
    {
      batch := batch + [Persisted(findings[i], now)];
    }
    ok := store.InsertFindings(batch, failAt);
  }

  /** What a review makes of an answer, given the allowlist. */
  ghost predicate Reviewed(answer: seq<Finding>, allow: set<string>, kept: seq<Finding>) {
    kept == Kept(answer, allow) && KeptInOrder(answer, allow, kept) && AllAllowed(allow, kept)
  }

  ghost predicate KeptInOrder(answer: seq<Finding>, allow: set<string>, kept: seq<Finding>) {
    exists at :: KeptAt(answer, allow, kept, at)
  }

  ghost predicate AllAllowed(allow: set<string>, kept: seq<Finding>) {
    forall x :: x in kept ==> x.kind + "|" + x.key in allow && KnownSeverity(x.severity)
  }

  ghost predicate AllShown(shown: set<(string, string)>, kept: seq<Finding>) {
    forall x :: x in kept ==> (x.kind, x.key) in shown
  }

  lemma KeptIsReviewed(answer: seq<Finding>, allow: set<string>)
    ensures Reviewed(answer, allow, Kept(answer, allow))
    ensures Map(Filter(Kept(answer, allow), Notifies), NoticeOf) == Notices(answer, allow)
  {
    var at := KeptPositions(answer, allow);
    NoticesSent(answer, allow);
    forall x | x in Kept(answer, allow) ensures x.kind + "|" + x.key in allow && KnownSeverity(x.severity) {
      KeptMember(answer, allow, x);
    }
  }

  lemma ReviewedWasShown(answer: seq<Finding>, shown: set<(string, string)>, kept: seq<Finding>)
    requires Reviewed(answer, AllowKeys(shown), kept) && AdmitsOnlyShown(shown)
    ensures AllShown(shown, kept)
  {
    forall x | x in kept ensures (x.kind, x.key) in shown {
      assert AllowKey(x.kind, x.key) in AllowKeys(shown);
    }
  }

  /** `RunReview` from the model's parsed answer on. */
  method RunReview(batches: seq<(string, seq<string>)>, anomalies: seq<(string, string)>, findings: array<Finding>,
                   store: Store.Store, now: int, failAt: Option<nat>)
    returns (n: nat, sent: seq<(string, bool)>)
    modifies findings, store
    ensures n <= findings.Length
    ensures Reviewed(old(findings[..]), AllowKeys(Shown(batches, anomalies)), findings[..n])
    ensures sent == Notices(old(findings[..]), AllowKeys(Shown(batches, anomalies)))
    ensures n > 0 && failAt.Some? && failAt.value <= n ==> store.State() == old(store.State())
    ensures n == 0 || !(failAt.Some? && failAt.value <= n) ==> PersistedLast(store.findings, findings[..n], now)
    ensures AdmitsOnlyShown(Shown(batches, anomalies)) ==> AllShown(Shown(batches, anomalies), findings[..n])
  {
    var allow := BuildAllow(batches, anomalies);
    ghost var was := findings[..];
    n := FilterInPlace(findings, allow);
    ghost var kept := findings[..n];
    KeptIsReviewed(was, allow);
    if AdmitsOnlyShown(Shown(batches, anomalies)) {
      ReviewedWasShown(was, Shown(batches, anomalies), kept);
    }
    var persisted := Persist(store, findings, n, now, failAt);
    assert findings[..n] == kept;
    sent := Notify(findings, n);
  }

  /** Every survivor is an allowed finding of the answer, severity clamped. */
  lemma KeptMember(findings: seq<Finding>, allow: set<string>, x: Finding)
    requires x in Kept(findings, allow)
    ensures exists f :: f in findings && f.kind + "|" + f.key in allow && BecomesOf(f, x)
    ensures Allowed(x, allow) && KnownSeverity(x.severity)
  {
    var p := f => Allowed(f, allow);
    var i :| 0 <= i < |Kept(findings, allow)| && Kept(findings, allow)[i] == x;
    var f := Filter(findings, p)[i];
    FilterMember(findings, p, f);
    assert x == Clamp(f);
  }
}
