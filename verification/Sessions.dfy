/** Session tokens of the dashboard: the swept map against the full history of
    logins and logouts. */
module Sessions {
  import opened Seqs
  import opened SweptMaps

  const SESSION_TTL := 30 * 24 * 3600
  const MAX_SESSIONS := 1024

  /** A request to the session code, with the clock value read under its lock. */
  datatype Op =
    | Login(tok: string, now: int)
    | LoginFails                 // no randomness: an error, nothing recorded
    | Check(tok: string, now: int)
    | Revoke(tok: string)

  // ---------- The server's map ----------

  function Apply(s: map<string, int>, op: Op): map<string, int> {
    match op
    case Login(tok, now) =>
      (if |s| >= MAX_SESSIONS then Swept(s, now) else s)[tok := now + SESSION_TTL]
    case LoginFails => s
    case Check(tok, now) => if tok in s && s[tok] < now then s - {tok} else s
    case Revoke(tok) => s - {tok}
  }

  function Admits(s: map<string, int>, tok: string, now: int): bool {
    tok != "" && tok in s && now <= s[tok]
  }

  class SessionTable {
    var sessions: map<string, int>

    constructor ()
      ensures sessions == map[]
    {
      sessions := map[];
    }

    /** `random` is the fresh token, or `None` when the random source fails. */
    method NewSession(random: Option<string>, now: int) returns (tok: Option<string>)
      modifies this
      ensures tok == random
      ensures sessions == Apply(old(sessions), if random.None? then LoginFails else Login(random.value, now))
      ensures random.None? ==> sessions == old(sessions)
      ensures random.Some? ==> random.value in sessions && sessions[random.value] == now + 30 * 86400
      ensures random.Some? ==> forall t :: t != random.value ==>
        (t in sessions <==> t in old(sessions) && (|old(sessions)| >= 1024 ==> now <= old(sessions)[t]))
      ensures random.Some? ==> forall t :: t != random.value && t in sessions ==> sessions[t] == old(sessions)[t]
    {
      if random.None? {
        return None;
      }
      if |sessions| >= MAX_SESSIONS {
        sessions := Sweep(sessions, now);
      }
      sessions := sessions[random.value := now + SESSION_TTL];
      return random;
    }

    method ValidSession(tok: string, now: int) returns (ok: bool)
      modifies this
      ensures ok == Admits(old(sessions), tok, now)
      ensures sessions == if tok == "" then old(sessions) else Apply(old(sessions), Check(tok, now))
      ensures ok <==> tok != "" && tok in old(sessions) && now <= old(sessions)[tok]
      ensures ok ==> sessions == old(sessions)
      ensures !ok && tok != "" ==> tok !in sessions && sessions == old(sessions) - {tok}
    {
      if tok == "" {
        return false;
      }
      if tok !in sessions {
        return false;
      }
      if sessions[tok] < now {
        sessions := sessions - {tok};
        return false;
      }
      return true;
    }

    method RevokeSession(tok: string)
      modifies this
      ensures sessions == Apply(old(sessions), Revoke(tok))
      ensures tok !in sessions && forall t :: t != tok ==> (t in sessions <==> t in old(sessions))
      ensures forall t :: t in sessions ==> sessions[t] == old(sessions)[t]
    {
      sessions := sessions - {tok};
    }
  }

  // ---------- The history it stands for ----------

  /** Every token issued, with its time, and those revoked since. */
  datatype History = History(issued: map<string, int>, revoked: set<string>)

  function Extend(h: History, op: Op): History {
    match op
    case Login(tok, now) => h.(issued := h.issued[tok := now])
    case Revoke(tok) => if tok in h.issued then h.(revoked := h.revoked + {tok}) else h
    case _ => h
  }

  predicate StillValid(h: History, tok: string, now: int) {
    tok in h.issued && tok !in h.revoked && now <= h.issued[tok] + SESSION_TTL
  }

  /** Tokens are non-empty and never issued twice; the clock does not go back. */
  predicate Proper(h: History, clock: int, op: Op) {
    match op
    case Login(tok, now) => tok != "" && tok !in h.issued && clock <= now
    case Check(tok, now) => clock <= now
    case _ => true
  }

  function Clock(clock: int, op: Op): int {
    match op
    case Login(_, now) => now
    case Check(_, now) => now
    case _ => clock
  }

  datatype Run = Run(sessions: map<string, int>, history: History, clock: int)

  function RunOf(ops: seq<Op>, start: int): Run {
    if ops == [] then Run(map[], History(map[], {}), start)
    else
      var r, op := RunOf(ops[..|ops| - 1], start), ops[|ops| - 1];
      Run(Apply(r.sessions, op), Extend(r.history, op), Clock(r.clock, op))
  }

  predicate ProperRun(ops: seq<Op>, start: int) {
    ops == [] ||
    (ProperRun(ops[..|ops| - 1], start)
     && var r := RunOf(ops[..|ops| - 1], start); Proper(r.history, r.clock, ops[|ops| - 1]))
  }

  /** The map holds only valid history, and lacks only what has expired. */
  ghost predicate Inv(r: Run) {
    && "" !in r.history.issued
    && (forall t :: t in r.sessions ==>
          t in r.history.issued && t !in r.history.revoked && r.sessions[t] == r.history.issued[t] + SESSION_TTL)
    && (forall t :: t in r.history.issued && t !in r.history.revoked && t !in r.sessions ==>
          r.history.issued[t] + SESSION_TTL < r.clock)
    && r.history.revoked <= r.history.issued.Keys
  }

  lemma StepKeepsInv(r: Run, op: Op)
    requires Inv(r) && Proper(r.history, r.clock, op)
    ensures Inv(Run(Apply(r.sessions, op), Extend(r.history, op), Clock(r.clock, op)))
  {
  }

  lemma {:induction false} RunKeepsInv(ops: seq<Op>, start: int)
    requires ProperRun(ops, start)
    ensures Inv(RunOf(ops, start))
    decreases |ops|
  {
    if ops != [] {
      RunKeepsInv(ops[..|ops| - 1], start);
      StepKeepsInv(RunOf(ops[..|ops| - 1], start), ops[|ops| - 1]);
    }
  }

  /** After any run, whatever was swept or lazily deleted, a token is admitted
      exactly when it was issued, not revoked since, and has not outlived its TTL. */
  lemma AdmitsExactlyTheValid(ops: seq<Op>, start: int, tok: string, now: int)
    requires ProperRun(ops, start) && RunOf(ops, start).clock <= now
    ensures Admits(RunOf(ops, start).sessions, tok, now) <==> StillValid(RunOf(ops, start).history, tok, now)
    ensures var h := RunOf(ops, start).history;
      StillValid(h, tok, now) <==> tok in h.issued && tok !in h.revoked && now - h.issued[tok] <= 30 * 86400
  {
    RunKeepsInv(ops, start);
  }

  /** The tokens valid at `now`. */
  function ValidTokens(h: History, now: int): set<string> {
    set t | t in h.issued && StillValid(h, t, now)
  }

  /** After a login the map is no larger than the cap or the number of valid
      sessions. */
  lemma SizeAfterLogin(ops: seq<Op>, start: int, tok: string, now: int)
    requires ProperRun(ops, start) && Proper(RunOf(ops, start).history, RunOf(ops, start).clock, Login(tok, now))
    ensures var s, h := RunOf(ops, start).sessions, RunOf(ops, start).history;
      var valid := |ValidTokens(Extend(h, Login(tok, now)), now)|;
      |Apply(s, Login(tok, now))| <= if 1024 < valid then valid else 1024
  {
    RunKeepsInv(ops, start);
    var r := RunOf(ops, start);
    StepKeepsInv(r, Login(tok, now));
    var s' := Apply(r.sessions, Login(tok, now));
    if |r.sessions| < MAX_SESSIONS {
      assert s'.Keys == r.sessions.Keys + {tok};
      assert |s'.Keys| <= |r.sessions.Keys| + 1;
    } else {
      SubsetSize(s'.Keys, ValidTokens(Extend(r.history, Login(tok, now)), now));
    }
  }
}
