/** The guard on the dashboard's "run now" buttons, over every interleaving of
    requests, job bodies and deferred clean-ups. */
module Triggers {

  datatype Response = PostOnly | Unavailable | Busy | Started

  /** A background job: the `serial`-th one started for its kind. */
  datatype Job = Job(kind: string, serial: nat)

  datatype Phase = InBody | InCleanup

  /** `running` is the server's map; the rest is what is going on around it: how
      often each kind was started and completed, and the jobs in between. */
  datatype Guard = Guard(running: set<string>, started: map<string, nat>, completed: map<string, nat>, live: map<Job, Phase>)

  datatype Event =
    | Request(kind: string, post: bool, wired: bool)
    | BodyReturns(job: Job)      // the job function is done, its clean-up is not
    | CleansUp(job: Job)         // the deferred function takes the lock

  const IDLE := Guard({}, map[], map[], map[])

  function Times(m: map<string, nat>, kind: string): nat { if kind in m then m[kind] else 0 }

  function Respond(running: set<string>, kind: string, post: bool, wired: bool): Response {
    if !post then PostOnly else if !wired then Unavailable else if kind in running then Busy else Started
  }

  function Step(g: Guard, e: Event): Guard {
    match e
    case Request(kind, post, wired) =>
      if Respond(g.running, kind, post, wired).Started? then
        g.(running := g.running + {kind},
           started := g.started[kind := Times(g.started, kind) + 1],
           live := g.live[Job(kind, Times(g.started, kind)) := InBody])
      else g
    case BodyReturns(job) =>
      if job in g.live && g.live[job].InBody? then g.(live := g.live[job := InCleanup]) else g
    case CleansUp(job) =>
      if job in g.live && g.live[job].InCleanup? then
        g.(running := g.running - {job.kind},
           completed := g.completed[job.kind := Times(g.completed, job.kind) + 1],
           live := g.live - {job})
      else g
  }

  function Run(events: seq<Event>): Guard {
    if events == [] then IDLE else Step(Run(events[..|events| - 1]), events[|events| - 1])
  }

  function KindOf(e: Event): string {
    match e
    case Request(kind, _, _) => kind
    case BodyReturns(job) => job.kind
    case CleansUp(job) => job.kind
  }

  // ---------- Mutual exclusion ----------

  /** The flag of a kind is up exactly while one job of that kind is live: the
      last one started. 202 responses minus completions is then 1, else 0. */
  ghost predicate ExclusiveFor(g: Guard, kind: string) {
    && (forall n: nat :: Job(kind, n) in g.live <==> kind in g.running && n + 1 == Times(g.started, kind))
    && Times(g.started, kind) == Times(g.completed, kind) + if kind in g.running then 1 else 0
  }

  lemma StepKeepsExclusive(g: Guard, e: Event, kind: string)
    requires ExclusiveFor(g, kind) && ExclusiveFor(g, KindOf(e))
    ensures ExclusiveFor(Step(g, e), kind)
  {
    match e {
      case Request(_, _, _) =>
      case BodyReturns(job) => assert job == Job(job.kind, job.serial);
      case CleansUp(job) => assert job == Job(job.kind, job.serial);
    }
  }

  /** This holds for every kind in every interleaving. */
  lemma {:induction false} OneJobPerKind(events: seq<Event>, kind: string)
    ensures ExclusiveFor(Run(events), kind)
    decreases |events|
  {
    if events != [] {
      var init, last := events[..|events| - 1], events[|events| - 1];
      OneJobPerKind(init, kind);
      OneJobPerKind(init, KindOf(last));
      StepKeepsExclusive(Run(init), last, kind);
    }
  }

  /** No two jobs of one kind are ever live together. */
  lemma NeverTwo(events: seq<Event>, i: Job, j: Job)
    requires i in Run(events).live && j in Run(events).live && i.kind == j.kind
    ensures i == j
  {
    OneJobPerKind(events, i.kind);
    assert i == Job(i.kind, i.serial) && j == Job(i.kind, j.serial);
  }

  /** A wired POST is refused exactly while a job of its kind is live. */
  lemma BusyIff(events: seq<Event>, kind: string)
    ensures Respond(Run(events).running, kind, true, true) == Busy
      <==> exists n: nat :: Job(kind, n) in Run(events).live
    ensures Respond(Run(events).running, kind, true, true) in {Busy, Started}
  {
    OneJobPerKind(events, kind);
    var g := Run(events);
    if kind in g.running {
      var n: nat := Times(g.started, kind) - 1;
      assert Job(kind, n) in g.live;
    }
  }

  // ---------- Kinds do not block each other ----------

  function Only(events: seq<Event>, kind: string): seq<Event> {
    if events == [] then []
    else
      var last := events[|events| - 1];
      Only(events[..|events| - 1], kind) + if KindOf(last) == kind then [last] else []
  }

  /** Two guards that cannot be told apart by events of one kind. */
  ghost predicate SameFor(g: Guard, h: Guard, kind: string) {
    && (kind in g.running <==> kind in h.running)
    && Times(g.started, kind) == Times(h.started, kind)
    && Times(g.completed, kind) == Times(h.completed, kind)
    && (forall n: nat :: Job(kind, n) in g.live <==> Job(kind, n) in h.live)
    && (forall n: nat :: Job(kind, n) in g.live ==> g.live[Job(kind, n)] == h.live[Job(kind, n)])
  }

  lemma OtherKindsDoNotMatter(g: Guard, h: Guard, e: Event, kind: string)
    requires SameFor(g, h, kind) && KindOf(e) != kind
    ensures SameFor(Step(g, e), h, kind)
  {
  }

  lemma OwnKindStaysTheSame(g: Guard, h: Guard, e: Event)
    requires SameFor(g, h, KindOf(e))
    ensures SameFor(Step(g, e), Step(h, e), KindOf(e))
  {
    match e {
      case Request(kind, post, wired) =>
      case BodyReturns(job) => assert job == Job(job.kind, job.serial);
      case CleansUp(job) => assert job == Job(job.kind, job.serial);
    }
  }

  lemma {:induction false} RunsAgreeOn(events: seq<Event>, kind: string)
    ensures SameFor(Run(events), Run(Only(events, kind)), kind)
    decreases |events|
  {
    if events != [] {
      var init, last := events[..|events| - 1], events[|events| - 1];
      RunsAgreeOn(init, kind);
      if KindOf(last) == kind {
        OwnKindStaysTheSame(Run(init), Run(Only(init, kind)), last);
        assert Only(events, kind)[..|Only(events, kind)| - 1] == Only(init, kind);
      } else {
        OtherKindsDoNotMatter(Run(init), Run(Only(init, kind)), last, kind);
        assert Only(events, kind) == Only(init, kind);
      }
    }
  }

  /** The answer to a request depends only on what happened to its own kind. */
  lemma KindsAreIndependent(events: seq<Event>, kind: string, post: bool, wired: bool)
    ensures Respond(Run(events).running, kind, post, wired)
         == Respond(Run(Only(events, kind)).running, kind, post, wired)
  {
    RunsAgreeOn(events, kind);
  }

  // ---------- The server's guard ----------

  ghost predicate InPhase(g: Guard, job: Job, phase: Phase) {
    job in g.live && g.live[job] == phase
  }

  /** The server's own state is the map `running`; `events` is what happened to it
      and to its jobs so far. */
  class TriggerGuard {
    var running: set<string>
    ghost var events: seq<Event>

    ghost predicate Valid()
      reads this
    {
      running == Run(events).running
    }

    constructor ()
      ensures Valid() && events == []
    {
      running, events := {}, [];
    }

    /** The handler up to its reply; `Started` is when the goroutine is launched.
        A wired POST is refused exactly while a job of its kind is live, and
        otherwise starts the only one. */
    method Handle(kind: string, post: bool, wired: bool) returns (r: Response)
      requires Valid()
      modifies this
      ensures Valid() && events == old(events) + [Request(kind, post, wired)]
      ensures r == Respond(old(running), kind, post, wired)
      ensures running == old(running) + (if r.Started? then {kind} else {})
      ensures !post ==> r == PostOnly
      ensures post && !wired ==> r == Unavailable
      ensures r != Started ==> Run(events) == Run(old(events))
      ensures post && wired ==> r in {Busy, Started}
      ensures post && wired ==> (r == Busy <==> exists n: nat :: Job(kind, n) in Run(old(events)).live)
      ensures r == Started ==> exists n: nat :: InPhase(Run(events), Job(kind, n), InBody)
    {
      BusyIff(events, kind);
      ghost var was := events;
      events := events + [Request(kind, post, wired)];
      assert events[..|events| - 1] == was;
      if !post {
        return PostOnly;
      }
      if !wired {
        return Unavailable;
      }
      if kind in running {
        return Busy;
      }
      assert InPhase(Run(events), Job(kind, Times(Run(was).started, kind)), InBody);
      running := running + {kind};
      return Started;
    }

    /** The job function returns; the server does not see that yet. */
    ghost method BodyDone(job: Job)
      requires Valid()
      modifies this`events
      ensures Valid() && events == old(events) + [BodyReturns(job)]
      ensures InPhase(Run(old(events)), job, InBody) ==> InPhase(Run(events), job, InCleanup)
    {
      events := events + [BodyReturns(job)];
      assert events[..|events| - 1] == old(events);
    }

    /** The deferred function of the `serial`-th job of a kind: no job of the kind
        is live afterwards and the next wired POST starts one; other kinds keep
        their jobs. */
    method Cleanup(kind: string, ghost serial: nat)
      requires Valid()
      requires InPhase(Run(events), Job(kind, serial), InCleanup)
      modifies this
      ensures Valid() && events == old(events) + [CleansUp(Job(kind, serial))]
      ensures kind in old(running) && running == old(running) - {kind}
      ensures forall n: nat :: Job(kind, n) !in Run(events).live
      ensures Respond(running, kind, true, true) == Started
      ensures forall job: Job :: job.kind != kind ==> (job in Run(events).live <==> job in Run(old(events)).live)
    {
      OneJobPerKind(events, kind);
      ghost var was := events;
      events := events + [CleansUp(Job(kind, serial))];
      assert events[..|events| - 1] == was;
      OneJobPerKind(events, kind);
      running := running - {kind};
    }

    /** A request whose job, if it starts one, runs to its end before anything else
        happens: the guard is as it was. */
    method HandleToTheEnd(kind: string, post: bool, wired: bool) returns (r: Response)
      requires Valid()
      modifies this
      ensures Valid() && running == old(running)
      ensures r == Respond(running, kind, post, wired)
      ensures r == Started ==> forall n: nat :: Job(kind, n) !in Run(events).live
    {
      r := Handle(kind, post, wired);
      if r == Started {
        ghost var n: nat :| InPhase(Run(events), Job(kind, n), InBody);
        BodyDone(Job(kind, n));
        Cleanup(kind, n);
      }
    }
  }
}
