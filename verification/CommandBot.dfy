/** The Telegram long-poll protocol: the bot's offset handling against the
    documented `getUpdates` server, over every interleaving of arrivals, failed
    and successful polls, dispatches and restarts. */
module CommandBot {
  import opened Seqs

  const SKIP_BACKLOG := -1

  /** The server holds the unconfirmed updates; the bot its offset, the updates
      of the last reply still to dispatch, and what it dispatched. The other
      fields are history: every update that ever arrived, the position in it of
      the bot's first update, and the dispatches of earlier processes with the
      position they reached. */
  datatype World = World(
    queue: seq<int>,
    offset: int,
    batch: seq<int>,
    handled: seq<int>,
    arrived: seq<int>,
    start: Option<nat>,
    before: seq<int>,
    mark: nat)

  datatype Event =
    | Arrive(id: int)          // a chat message reaches the server
    | PollFails                // no request gets through
    | PollLost                 // the server serves the poll, the reply is lost
    | PollOk(limit: nat)       // at most `limit` updates come back
    | Handle                   // the bot dispatches the next update of its batch
    | Restart                  // the process dies and a new one boots

  /** `getUpdates`: a non-negative offset confirms every lower id; -1 forgets all
      but the last update. The result is what stays queued. */
  function Confirm(queue: seq<int>, offset: int): seq<int> {
    if offset == SKIP_BACKLOG then (if queue == [] then [] else [queue[|queue| - 1]])
    else FromId(queue, offset)
  }

  /** The queue without its leading ids below `offset`. */
  function FromId(queue: seq<int>, offset: int): seq<int> {
    if queue != [] && queue[0] < offset then FromId(queue[1..], offset) else queue
  }

  predicate IsLast(id: int, queue: seq<int>) {
    queue != [] && id == queue[|queue| - 1]
  }

  function Reply(queue: seq<int>, limit: nat): seq<int> {
    if |queue| <= limit then queue else queue[..limit]
  }

  /** `poll` on a reply: leaves skip-backlog mode after the first non-empty one. */
  function OffsetAfterReply(offset: int, reply: seq<int>): int {
    if offset == SKIP_BACKLOG && reply != [] then reply[|reply| - 1] + 1 else offset
  }

  /** `Run` after dispatching one update. */
  function OffsetAfterHandling(offset: int, id: int): int {
    if id >= offset then id + 1 else offset
  }

  function Step(w: World, e: Event): World {
    match e
    case Arrive(id) => w.(queue := w.queue + [id], arrived := w.arrived + [id])
    case PollFails => w
    case PollLost => if w.batch != [] then w else w.(queue := Confirm(w.queue, w.offset))
    case PollOk(limit) =>
      if w.batch != [] then w
      else
        var queue := Confirm(w.queue, w.offset);
        var reply := Reply(queue, limit);
        w.(queue := queue, batch := reply, offset := OffsetAfterReply(w.offset, reply),
           start := if w.start.None? && reply != [] && w.arrived != [] then Some(|w.arrived| - 1) else w.start)
    case Handle =>
      if w.batch == [] then w
      else
        w.(handled := w.handled + [w.batch[0]], batch := w.batch[1..],
           offset := OffsetAfterHandling(w.offset, w.batch[0]))
    case Restart =>
      w.(offset := SKIP_BACKLOG, batch := [], handled := [], start := None,
         before := w.before + w.handled,
         mark := if w.start.Some? && w.handled != [] then w.start.value + |w.handled| else w.mark)
  }

  /** Update ids are positive and grow. */
  predicate Admissible(w: World, e: Event) {
    e.Arrive? ==> 0 < e.id && (w.arrived == [] || w.arrived[|w.arrived| - 1] < e.id)
  }

  function Run(w: World, events: seq<Event>): World {
    if events == [] then w else Step(Run(w, events[..|events| - 1]), events[|events| - 1])
  }

  predicate AdmissibleRun(w: World, events: seq<Event>) {
    events == [] ||
    (AdmissibleRun(w, events[..|events| - 1]) && Admissible(Run(w, events[..|events| - 1]), events[|events| - 1]))
  }

  ghost predicate Increasing(s: seq<int>) {
    forall i, j :: 0 <= i < j < |s| ==> s[i] < s[j]
  }

  /** The first process, freshly booted, facing any backlog. */
  ghost predicate Booted(w: World) {
    && w.offset == SKIP_BACKLOG && w.batch == [] && w.handled == [] && w.start.None?
    && w.before == [] && w.mark == 0
    && ServerInv(w)
  }

  /** Ids grow and are positive; the server queues a final stretch of the arrivals. */
  ghost predicate ServerInv(w: World) {
    && Increasing(w.arrived) && (forall i :: 0 <= i < |w.arrived| ==> 0 < w.arrived[i])
    && |w.queue| <= |w.arrived| && Stretch(w.queue, w.arrived, |w.arrived| - |w.queue|)
  }

  /** `part` is the stretch of `whole` that starts at `from`. */
  ghost predicate Stretch(part: seq<int>, whole: seq<int>, from: nat) {
    from + |part| <= |whole| && forall i :: 0 <= i < |part| ==> part[i] == whole[from + i]
  }

  lemma StretchIsSlice(part: seq<int>, whole: seq<int>, from: nat)
    requires Stretch(part, whole, from)
    ensures part == whole[from..from + |part|]
  {
  }

  /** Earlier processes reached position `mark`, where their last dispatch is. */
  ghost predicate HistoryInv(w: World) {
    && w.mark <= |w.arrived|
    && (forall id :: id in w.before ==> w.mark > 0 && id <= w.arrived[w.mark - 1])
    && (w.mark > 0 ==> w.before != [] && w.before[|w.before| - 1] == w.arrived[w.mark - 1])
  }

  /** Before the first non-empty reply nothing was dispatched. After it, the
      dispatched updates are a contiguous stretch of the arrivals, the batch is
      the next stretch, the offset is just past the last dispatched update, and
      everything later is still queued. */
  ghost predicate ClientInv(w: World) {
    match w.start
    case None => w.offset == SKIP_BACKLOG && w.batch == [] && w.handled == []
    case Some(first) =>
      var next := first + |w.handled|;
      && w.mark <= first + 1
      && Stretch(w.handled, w.arrived, first) && Stretch(w.batch, w.arrived, next)
      && |w.arrived| - |w.queue| <= next
      && (w.handled == [] ==> |w.batch| == 1 && w.offset == w.batch[0] + 1)
      && (w.handled != [] ==> w.offset == w.arrived[next - 1] + 1)
  }

  /** What every step keeps. */
  ghost predicate Inv(w: World) {
    ServerInv(w) && HistoryInv(w) && ClientInv(w)
  }

  lemma {:induction false} FromIdDrops(queue: seq<int>, offset: int, n: nat)
    requires n <= |queue|
    requires forall i :: 0 <= i < |queue| ==> (queue[i] < offset <==> i < n)
    ensures FromId(queue, offset) == queue[n..]
    decreases n
  {
    if n > 0 {
      FromIdDrops(queue[1..], offset, n - 1);
    }
  }

  /** On growing ids, a non-negative offset forgets exactly the lower ones. */
  lemma {:induction false} FromIdKeeps(queue: seq<int>, offset: int)
    requires Increasing(queue)
    ensures forall id :: id in FromId(queue, offset) <==> id in queue && id >= offset
    decreases |queue|
  {
    if queue != [] && queue[0] < offset {
      FromIdKeeps(queue[1..], offset);
    }
  }

  /** Confirming everything before position `next` of the arrivals. */
  lemma ConfirmBefore(queue: seq<int>, arrived: seq<int>, next: nat, offset: int)
    requires Increasing(arrived) && |queue| <= |arrived| && Stretch(queue, arrived, |arrived| - |queue|)
    requires |arrived| - |queue| <= next <= |arrived| && next > 0 && offset == arrived[next - 1] + 1
    ensures FromId(queue, offset) == queue[next - (|arrived| - |queue|)..]
  {
    var q := |arrived| - |queue|;
    forall i | 0 <= i < |queue| ensures queue[i] < offset <==> i < next - q {
      assert queue[i] == arrived[q + i];
    }
    FromIdDrops(queue, offset, next - q);
  }

  /** What a served poll leaves in the queue once the bot has started. */
  lemma ConfirmedQueue(w: World)
    requires Inv(w) && w.batch == [] && w.start.Some?
    ensures var left := Confirm(w.queue, w.offset);
      var next := w.start.value + |w.handled|;
      |left| == |w.arrived| - next && Stretch(left, w.arrived, next) && w.offset != SKIP_BACKLOG
  {
    var next := w.start.value + |w.handled|;
    assert w.offset == w.arrived[next - 1] + 1 && w.arrived[next - 1] > 0;
    ConfirmBefore(w.queue, w.arrived, next, w.offset);
  }

  /** In skip-backlog mode it leaves the last arrival, if it is still queued. */
  lemma FirstReply(w: World)
    requires Inv(w) && w.start.None?
    ensures Confirm(w.queue, w.offset) == if w.queue == [] then [] else [w.arrived[|w.arrived| - 1]]
    ensures w.queue != [] ==> w.arrived != []
  {
  }

  /** A step that touches neither the arrivals nor earlier processes. */
  lemma HistoryUntouched(w: World, w': World)
    requires HistoryInv(w) && w'.arrived == w.arrived && w'.before == w.before && w'.mark == w.mark
    ensures HistoryInv(w')
  {
  }

  lemma FirstPollKeepsClient(w: World, limit: nat)
    requires Inv(w) && w.start.None?
    ensures ClientInv(Step(w, PollOk(limit)))
  {
    FirstReply(w);
  }

  lemma FirstPollKeepsServer(w: World, limit: nat)
    requires Inv(w) && w.start.None?
    ensures ServerInv(Step(w, PollOk(limit)))
  {
    FirstReply(w);
  }

  lemma FirstPollKeepsInv(w: World, limit: nat)
    requires Inv(w) && w.start.None?
    ensures Inv(Step(w, PollOk(limit)))
  {
    FirstPollKeepsClient(w, limit);
    FirstPollKeepsServer(w, limit);
    HistoryUntouched(w, Step(w, PollOk(limit)));
  }

  /** A later poll: only queue and batch change. */
  lemma LaterPoll(w: World, limit: nat)
    requires Inv(w) && w.batch == [] && w.start.Some?
    ensures var w' := Step(w, PollOk(limit));
      var next := w.start.value + |w.handled|;
      && w' == w.(queue := w'.queue, batch := w'.batch)
      && |w'.queue| == |w.arrived| - next && Stretch(w'.queue, w.arrived, next) && Stretch(w'.batch, w.arrived, next)
  {
    ConfirmedQueue(w);
  }

  lemma LaterPollKeepsInv(w: World, limit: nat)
    requires Inv(w) && w.batch == [] && w.start.Some?
    ensures Inv(Step(w, PollOk(limit)))
  {
    LaterPoll(w, limit);
    var w' := Step(w, PollOk(limit));
    HistoryUntouched(w, w');
    assert ServerInv(w');
  }

  lemma PollKeepsInv(w: World, limit: nat)
    requires Inv(w) && w.batch == []
    ensures Inv(Step(w, PollOk(limit)))
  {
    if w.start.None? {
      FirstPollKeepsInv(w, limit);
    } else {
      LaterPollKeepsInv(w, limit);
    }
  }

  lemma PollLostKeepsInv(w: World)
    requires Inv(w) && w.batch == []
    ensures Inv(Step(w, PollLost))
  {
    if w.start.None? {
      FirstReply(w);
    } else {
      ConfirmedQueue(w);
    }
  }

  lemma HandleKeepsInv(w: World)
    requires Inv(w) && w.batch != []
    ensures Inv(Step(w, Handle))
  {
    var next := w.start.value + |w.handled|;
    assert w.batch[0] == w.arrived[next + 0];
    assert w.handled != [] ==> w.arrived[next - 1] < w.arrived[next];
  }

  lemma HandledAt(w: World, id: int) returns (i: nat)
    requires Inv(w) && id in w.handled
    ensures w.start.Some? && w.start.value <= i < w.start.value + |w.handled| && w.arrived[i] == id
  {
    var j :| 0 <= j < |w.handled| && w.handled[j] == id;
    i := w.start.value + j;
  }

  lemma RestartKeepsInv(w: World)
    requires Inv(w)
    ensures Inv(Step(w, Restart))
  {
    RestartKeepsHistory(w);
  }

  lemma RestartKeepsHistory(w: World)
    requires Inv(w)
    ensures HistoryInv(Step(w, Restart))
  {
    var w' := Step(w, Restart);
    forall id | id in w'.before ensures w'.mark > 0 && id <= w'.arrived[w'.mark - 1] {
      if id in w.handled {
        var i := HandledAt(w, id);
        assert i <= w'.mark - 1;
      } else {
        assert id in w.before;
      }
    }
    if w.handled != [] {
      assert w.handled[|w.handled| - 1] == w.arrived[w'.mark - 1];
    }
  }

  lemma ArriveKeepsClient(w: World, id: int)
    requires ClientInv(w)
    ensures ClientInv(Step(w, Arrive(id)))
  {
  }

  lemma ArriveKeepsServer(w: World, id: int)
    requires ServerInv(w) && Admissible(w, Arrive(id))
    ensures ServerInv(Step(w, Arrive(id)))
  {
  }

  lemma ArriveKeepsInv(w: World, id: int)
    requires Inv(w) && Admissible(w, Arrive(id))
    ensures Inv(Step(w, Arrive(id)))
  {
    var w' := Step(w, Arrive(id));
    ArriveKeepsClient(w, id);
    ArriveKeepsServer(w, id);
    assert HistoryInv(w');
  }

  lemma StepKeepsInv(w: World, e: Event)
    requires Inv(w) && Admissible(w, e)
    ensures Inv(Step(w, e))
  {
    match e {
      case Arrive(id) => ArriveKeepsInv(w, id);
      case PollFails =>
      case PollLost => if w.batch == [] { PollLostKeepsInv(w); }
      case PollOk(limit) => if w.batch == [] { PollKeepsInv(w, limit); }
      case Handle => if w.batch != [] { HandleKeepsInv(w); }
      case Restart => RestartKeepsInv(w);
    }
  }

  lemma {:induction false} RunKeepsInv(w: World, events: seq<Event>)
    requires Inv(w) && AdmissibleRun(w, events)
    ensures Inv(Run(w, events))
    decreases |events|
  {
    if events != [] {
      RunKeepsInv(w, events[..|events| - 1]);
      StepKeepsInv(Run(w, events[..|events| - 1]), events[|events| - 1]);
    }
  }

  /** The arrivals the bot has neither dispatched nor fetched. */
  ghost function Waiting(w: World): seq<int>
    requires Inv(w) && w.start.Some?
  {
    w.arrived[w.start.value + |w.handled| + |w.batch|..]
  }

  lemma WaitingIsQueued(w: World, id: int)
    requires Inv(w) && w.start.Some? && id in Waiting(w)
    ensures id in w.queue
  {
    var n := w.start.value + |w.handled| + |w.batch|;
    var i :| 0 <= i < |Waiting(w)| && Waiting(w)[i] == id;
    var j := n + i - (|w.arrived| - |w.queue|);
    assert w.queue[j] == id;
  }

  lemma StretchesJoin(s: seq<int>, a: nat, b: nat, c: nat)
    requires a <= b <= c <= |s|
    ensures s[a..b] + s[b..c] + s[c..] == s[a..]
  {
  }

  /** Over every run, what one process dispatches is strictly increasing, so
      nothing is handled twice; it is a gap-free stretch of the arrivals; and all
      that arrived after its first update is dispatched, fetched or still queued. */
  lemma DispatchedOnceInOrder(w0: World, events: seq<Event>)
    requires Booted(w0) && AdmissibleRun(w0, events)
    ensures var w := Run(w0, events);
      && Inv(w)
      && Increasing(w.handled)
      && (w.start.None? ==> w.handled == [])
      && (w.start.Some? ==>
            && w.start.value <= |w.arrived|
            && w.handled + w.batch + Waiting(w) == w.arrived[w.start.value..]
            && forall id :: id in Waiting(w) ==> id in w.queue)
  {
    RunKeepsInv(w0, events);
    var w := Run(w0, events);
    HandledIncreases(w);
    if w.start.Some? {
      NothingSkipped(w);
    }
  }

  lemma NothingSkipped(w: World)
    requires Inv(w) && w.start.Some?
    ensures w.start.value <= |w.arrived|
    ensures w.handled + w.batch + Waiting(w) == w.arrived[w.start.value..]
    ensures forall id :: id in Waiting(w) ==> id in w.queue
  {
    var next := w.start.value + |w.handled|;
    StretchIsSlice(w.handled, w.arrived, w.start.value);
    StretchIsSlice(w.batch, w.arrived, next);
    StretchesJoin(w.arrived, w.start.value, next, next + |w.batch|);
    forall id | id in Waiting(w) ensures id in w.queue {
      WaitingIsQueued(w, id);
    }
  }

  lemma HandledIncreases(w: World)
    requires Inv(w)
    ensures Increasing(w.handled)
  {
  }

  // ---------- The startup backlog ----------

  /** Of the updates that had arrived at boot, no dispatch and no batch goes back
      behind the last one. */
  ghost predicate BacklogInv(backlog: seq<int>, w: World) {
    && Stretch(backlog, w.arrived, 0)
    && (w.start.Some? ==> |backlog| <= w.start.value + 1)
    && (backlog != [] ==> forall id :: id in w.before ==> backlog[|backlog| - 1] <= id)
  }

  lemma NotBehindTheBacklog(backlog: seq<int>, w: World, id: int)
    requires Inv(w) && BacklogInv(backlog, w) && backlog != [] && id in w.handled
    ensures backlog[|backlog| - 1] <= id
  {
    var i := HandledAt(w, id);
    assert w.arrived[|backlog| - 1] == backlog[|backlog| - 1];
  }

  lemma StepKeepsBacklogInv(backlog: seq<int>, w: World, e: Event)
    requires Inv(w) && BacklogInv(backlog, w)
    ensures BacklogInv(backlog, Step(w, e))
  {
    if e.Restart? && backlog != [] {
      forall id | id in Step(w, e).before ensures backlog[|backlog| - 1] <= id {
        if id in w.handled {
          NotBehindTheBacklog(backlog, w, id);
        } else {
          assert id in w.before;
        }
      }
    }
  }

  lemma {:induction false} RunKeepsBacklogInv(w0: World, events: seq<Event>)
    requires Booted(w0) && AdmissibleRun(w0, events)
    ensures BacklogInv(w0.arrived, Run(w0, events))
    decreases |events|
  {
    if events != [] {
      var init := events[..|events| - 1];
      RunKeepsBacklogInv(w0, init);
      RunKeepsInv(w0, init);
      StepKeepsBacklogInv(w0.arrived, Run(w0, init), events[|events| - 1]);
    }
  }

  /** Over every run, restarts included, the only update of the startup backlog
      that is ever dispatched is its last one. */
  lemma OnlyTheLastOfTheBacklog(w0: World, events: seq<Event>, id: int)
    requires Booted(w0) && AdmissibleRun(w0, events)
    requires id in w0.arrived
    requires id in Run(w0, events).before || id in Run(w0, events).handled
    ensures id == w0.arrived[|w0.arrived| - 1]
  {
    RunKeepsInv(w0, events);
    RunKeepsBacklogInv(w0, events);
    var w := Run(w0, events);
    if id in w.handled {
      NotBehindTheBacklog(w0.arrived, w, id);
    }
    var i :| 0 <= i < |w0.arrived| && w0.arrived[i] == id;
  }

  /** Something is queued after `w` exactly if something was at boot or arrived since. */
  ghost predicate QueueSince(w0: World, w: World) {
    && Stretch(w0.arrived, w.arrived, 0)
    && (w.queue != [] <==> w0.queue != [] || |w.arrived| > |w0.arrived|)
  }

  /** Before its first non-empty reply a process empties no queue. */
  lemma StepKeepsQueue(w0: World, w: World, e: Event)
    requires Inv(w) && QueueSince(w0, w) && w.start.None? && e != Restart
    ensures QueueSince(w0, Step(w, e))
  {
    FirstReply(w);
  }

  lemma StartsOnce(w: World, e: Event)
    requires e != Restart && w.start.Some?
    ensures Step(w, e).start.Some?
  {
  }

  lemma {:induction false} QueueBeforeTheFirstReply(w0: World, events: seq<Event>)
    requires Inv(w0) && w0.start.None? && AdmissibleRun(w0, events) && Restart !in events
    requires Run(w0, events).start.None?
    ensures QueueSince(w0, Run(w0, events))
    decreases |events|
  {
    if events != [] {
      var init, last := events[..|events| - 1], events[|events| - 1];
      assert last in events;
      if Run(w0, init).start.Some? {
        StartsOnce(Run(w0, init), last);
      } else {
        RunKeepsInv(w0, init);
        QueueBeforeTheFirstReply(w0, init);
        StepKeepsQueue(w0, Run(w0, init), last);
      }
    }
  }

  /** A poll in `w` brings at most one update, the last to have arrived, and that is
      one of the backlog `w0` had exactly when something was queued there and
      nothing arrived since. */
  ghost predicate BacklogReply(w0: World, w: World, limit: nat) {
    var batch := Step(w, PollOk(limit)).batch;
    && (batch != [] ==> w.arrived != [] && batch == [w.arrived[|w.arrived| - 1]])
    && ((exists id :: id in batch && id in w0.arrived) <==> w0.queue != [] && w.arrived == w0.arrived)
  }

  /** The first non-empty reply of a process, whatever happened before it booted in
      `w0`, is one update, the last to have arrived, and that is an update of its
      backlog exactly when something was queued at boot and nothing arrived before
      the poll. */
  lemma BacklogUpdateIff(w0: World, events: seq<Event>, limit: nat)
    requires Inv(w0) && w0.start.None? && AdmissibleRun(w0, events) && Restart !in events
    requires Run(w0, events).start.None? && limit > 0
    ensures BacklogReply(w0, Run(w0, events), limit)
  {
    RunKeepsInv(w0, events);
    QueueBeforeTheFirstReply(w0, events);
    FirstBatchOfBacklog(w0, Run(w0, events), limit);
  }

  lemma FirstBatchOfBacklog(w0: World, w: World, limit: nat)
    requires Inv(w) && w.start.None? && QueueSince(w0, w) && limit > 0
    ensures BacklogReply(w0, w, limit)
  {
    FirstReply(w);
    FirstBatch(w, limit);
    if w.queue != [] {
      InPrefix(w0.arrived, w.arrived);
      assert w.arrived[|w.arrived| - 1] in Step(w, PollOk(limit)).batch;
    }
  }

  /** The last of growing ids is in a prefix only if that is all of them. */
  lemma InPrefix(part: seq<int>, whole: seq<int>)
    requires Stretch(part, whole, 0) && Increasing(whole) && whole != []
    ensures whole[|whole| - 1] in part <==> part == whole
  {
    if |part| < |whole| {
      forall i | 0 <= i < |part| ensures part[i] != whole[|whole| - 1] {
        assert part[i] == whole[0 + i];
      }
    } else {
      assert part[|whole| - 1] == whole[|whole| - 1];
    }
  }

  /** The two sides of the condition at one boot: with ids 5 and 7 queued, a
      process that polls at once dispatches 7; if 9 arrives first, it dispatches 9
      and none of the backlog. */
  lemma BacklogBoundary(limit: nat)
    requires limit > 0
    ensures var w0 := Boot([5, 7], [5, 7]);
      && Booted(w0)
      && Run(w0, [PollOk(limit), Handle]).handled == [7]
      && Run(w0, [Arrive(9), PollOk(limit), Handle]).handled == [9]
  {
    var w0 := Boot([5, 7], [5, 7]);
    RunTwo(w0, PollOk(limit), Handle);
    RunThree(w0, Arrive(9), PollOk(limit), Handle);
  }

  lemma RunTwo(w: World, a: Event, b: Event)
    ensures Run(w, [a, b]) == Step(Step(w, a), b)
  {
    assert [a, b][..1] == [a] && [a][..0] == [];
    assert Run(w, [a]) == Step(w, a);
  }

  lemma RunThree(w: World, a: Event, b: Event, c: Event)
    ensures Run(w, [a, b, c]) == Step(Step(Step(w, a), b), c)
  {
    assert [a, b, c][..2] == [a, b];
    RunTwo(w, a, b);
  }

  /** `n` consecutive dispatches. */
  function HandleMany(w: World, n: nat): World
    decreases n
  {
    if n == 0 then w else HandleMany(Step(w, Handle), n - 1)
  }

  lemma {:induction false} HandleWholeBatch(w: World)
    ensures var w' := HandleMany(w, |w.batch|);
      w'.batch == [] && w'.handled == w.handled + w.batch && w'.arrived == w.arrived && w'.start == w.start
    decreases |w.batch|
  {
    if w.batch != [] {
      var w1 := Step(w, Handle);
      HandleWholeBatch(w1);
      assert w.handled + [w.batch[0]] + w.batch[1..] == w.handled + w.batch;
    }
  }

  /** How many arrivals from the first dispatched one on are not dispatched yet. */
  ghost function Outstanding(w: World): nat
    requires Inv(w) && w.start.Some?
  {
    |w.arrived| - w.start.value - |w.handled|
  }

  /** One served poll and its dispatches handle as many more updates as the limit
      and what is outstanding allow. */
  lemma PollProgress(w: World, limit: nat)
    requires Inv(w) && w.start.Some? && w.batch == []
    ensures var polled := Step(w, PollOk(limit));
      var w' := HandleMany(polled, |polled.batch|);
      && Inv(w') && w'.batch == [] && w'.start == w.start && w'.arrived == w.arrived
      && |w'.handled| == |w.handled| + (if limit < Outstanding(w) then limit else Outstanding(w))
  {
    var polled := Step(w, PollOk(limit));
    ConfirmedQueue(w);
    LaterPollKeepsInv(w, limit);
    HandleWholeBatch(polled);
    HandleManyKeepsInv(polled, |polled.batch|);
  }

  /** With nothing outstanding, every arrival since the first dispatched one is
      handled, in order. */
  lemma DrainedIsAll(w: World)
    requires Inv(w) && w.start.Some? && Outstanding(w) == 0
    ensures w.handled == w.arrived[w.start.value..]
  {
    StretchIsSlice(w.handled, w.arrived, w.start.value);
  }

  /** Across restarts dispatches never go back in time, but the boundary can
      repeat: earlier processes' ids are at most this process's ids. */
  lemma RestartsDoNotGoBack(w0: World, events: seq<Event>)
    requires Booted(w0) && AdmissibleRun(w0, events)
    ensures var w := Run(w0, events);
      forall earlier, later :: earlier in w.before && later in w.handled ==> earlier <= later
  {
    RunKeepsInv(w0, events);
    var w := Run(w0, events);
    forall earlier, later | earlier in w.before && later in w.handled ensures earlier <= later {
      EarlierAtMost(w, earlier, later);
    }
  }

  lemma EarlierAtMost(w: World, earlier: int, later: int)
    requires Inv(w) && earlier in w.before && later in w.handled
    ensures earlier <= later
  {
    var i := HandledAt(w, later);
    assert w.mark - 1 <= i;
  }

  /** The first non-empty reply of any process, after any run, brings back an
      update that an earlier process dispatched exactly when the last update those
      dispatched is still queued and nothing arrived after it. */
  lemma RestartRepeatsIff(w0: World, events: seq<Event>, limit: nat)
    requires Booted(w0) && AdmissibleRun(w0, events)
    requires Run(w0, events).start.None? && limit > 0
    ensures var w := Run(w0, events);
      (exists id :: id in Step(w, PollOk(limit)).batch && id in w.before)
      <==> w.queue != [] && w.before != [] && w.queue[|w.queue| - 1] == w.before[|w.before| - 1]
  {
    RunKeepsInv(w0, events);
    var w := Run(w0, events);
    FirstReply(w);
    FirstBatch(w, limit);
    if w.queue != [] {
      LastOfBefore(w);
      assert w.queue[|w.queue| - 1] in Step(w, PollOk(limit)).batch;
    }
  }

  lemma FirstBatch(w: World, limit: nat)
    requires Inv(w) && w.start.None? && limit > 0
    ensures Step(w, PollOk(limit)).batch == if w.queue == [] then [] else [w.queue[|w.queue| - 1]]
  {
  }

  /** The last arrival was dispatched by an earlier process only as their last one. */
  lemma LastOfBefore(w: World)
    requires Inv(w) && w.queue != []
    ensures w.queue[|w.queue| - 1] in w.before
       <==> w.before != [] && w.queue[|w.queue| - 1] == w.before[|w.before| - 1]
  {
    var tail := w.queue[|w.queue| - 1];
    assert tail == w.arrived[|w.arrived| - 1];
    if tail in w.before {
      assert tail <= w.arrived[w.mark - 1];
    }
  }

  /** The shortest such run: one update, dispatched, and again after a restart. */
  lemma RestartRepeats(id: int, limit: nat)
    requires id > 0 && limit > 0
    ensures var w0 := Boot([], []);
      && Booted(w0)
      && AdmissibleRun(w0, [Arrive(id), PollOk(limit), Handle])
      && var w := Step(Run(w0, [Arrive(id), PollOk(limit), Handle]), Restart);
         w.before == [id] && Step(w, PollOk(limit)).batch == [id]
  {
    var w0 := Boot([], []);
    var events := [Arrive(id), PollOk(limit), Handle];
    RunThree(w0, Arrive(id), PollOk(limit), Handle);
    assert events[..2] == [Arrive(id), PollOk(limit)] && events[..2][..1] == [Arrive(id)];
    assert AdmissibleRun(w0, [Arrive(id)]) by {
      assert [Arrive(id)][..0] == [];
    }
    assert AdmissibleRun(w0, events[..2]);
  }

  // ---------- The polling loop ----------

  datatype Outcome = Fails | Lost | Served(limit: nat)

  /** One turn of the loop: what reached the server meanwhile, how the poll went. */
  datatype Turn = Turn(arrivals: seq<int>, outcome: Outcome)

  function PollEvent(o: Outcome): Event {
    match o
    case Fails => PollFails
    case Lost => PollLost
    case Served(limit) => PollOk(limit)
  }

  function Arrivals(w: World, ids: seq<int>): World {
    if ids == [] then w else Step(Arrivals(w, ids[..|ids| - 1]), Arrive(ids[|ids| - 1]))
  }

  function Round(w: World, t: Turn): World {
    var polled := Step(Arrivals(w, t.arrivals), PollEvent(t.outcome));
    HandleMany(polled, |polled.batch|)
  }

  function Rounds(w: World, turns: seq<Turn>): World {
    if turns == [] then w else Round(Rounds(w, turns[..|turns| - 1]), turns[|turns| - 1])
  }

  /** The world a new process meets. */
  function Boot(queue: seq<int>, arrived: seq<int>): World {
    World(queue, SKIP_BACKLOG, [], [], arrived, None, [], 0)
  }

  lemma {:induction false} ArrivalsOnlyQueue(w: World, ids: seq<int>)
    ensures Arrivals(w, ids) == w.(queue := w.queue + ids, arrived := w.arrived + ids)
    decreases |ids|
  {
    if ids != [] {
      ArrivalsOnlyQueue(w, ids[..|ids| - 1]);
      assert w.queue + ids == w.queue + ids[..|ids| - 1] + [ids[|ids| - 1]];
      assert w.arrived + ids == w.arrived + ids[..|ids| - 1] + [ids[|ids| - 1]];
    } else {
      assert w.queue + ids == w.queue && w.arrived + ids == w.arrived;
    }
  }

  lemma {:induction false} HandleManyLeavesQueue(w: World, n: nat)
    ensures HandleMany(w, n).queue == w.queue && HandleMany(w, n).arrived == w.arrived
    decreases n
  {
    if n > 0 {
      HandleManyLeavesQueue(Step(w, Handle), n - 1);
    }
  }

  function AllArrivals(turns: seq<Turn>): seq<int> {
    if turns == [] then [] else AllArrivals(turns[..|turns| - 1]) + turns[|turns| - 1].arrivals
  }

  ghost predicate GrowingIds(ids: seq<int>) {
    Increasing(ids) && forall i :: 0 <= i < |ids| ==> 0 < ids[i]
  }

  lemma {:induction false} ArrivalsKeepInv(w: World, ids: seq<int>)
    requires Inv(w) && GrowingIds(w.arrived + ids)
    ensures Inv(Arrivals(w, ids))
    decreases |ids|
  {
    if ids != [] {
      var init, id := ids[..|ids| - 1], ids[|ids| - 1];
      assert w.arrived + ids == w.arrived + init + [id];
      assert GrowingIds(w.arrived + init) by {
        assert w.arrived + init == (w.arrived + ids)[..|w.arrived + init|];
      }
      ArrivalsKeepInv(w, init);
      ArrivalsOnlyQueue(w, init);
      var v := Arrivals(w, init);
      assert v.arrived == (w.arrived + ids)[..|w.arrived + init|] && id == (w.arrived + ids)[|v.arrived|];
      ArriveKeepsInv(v, id);
    }
  }

  lemma {:induction false} HandleManyKeepsInv(w: World, n: nat)
    requires Inv(w)
    ensures Inv(HandleMany(w, n))
    decreases n
  {
    if n > 0 {
      StepKeepsInv(w, Handle);
      HandleManyKeepsInv(Step(w, Handle), n - 1);
    }
  }

  lemma RoundKeepsInv(w: World, t: Turn)
    requires Inv(w) && GrowingIds(w.arrived + t.arrivals)
    ensures Inv(Round(w, t)) && Round(w, t).batch == [] && Round(w, t).arrived == w.arrived + t.arrivals
  {
    ArrivalsKeepInv(w, t.arrivals);
    ArrivalsOnlyQueue(w, t.arrivals);
    var v := Arrivals(w, t.arrivals);
    StepKeepsInv(v, PollEvent(t.outcome));
    var polled := Step(v, PollEvent(t.outcome));
    HandleManyKeepsInv(polled, |polled.batch|);
    HandleWholeBatch(polled);
  }

  lemma {:induction false} RoundsKeepInv(w: World, turns: seq<Turn>)
    requires Inv(w) && w.batch == [] && GrowingIds(w.arrived + AllArrivals(turns))
    ensures Inv(Rounds(w, turns)) && Rounds(w, turns).batch == []
    ensures Rounds(w, turns).arrived == w.arrived + AllArrivals(turns)
    decreases |turns|
  {
    if turns != [] {
      var init, t := turns[..|turns| - 1], turns[|turns| - 1];
      var all := w.arrived + AllArrivals(init);
      assert w.arrived + AllArrivals(turns) == all + t.arrivals;
      assert GrowingIds(all) by {
        assert all == (all + t.arrivals)[..|all|];
      }
      RoundsKeepInv(w, init);
      RoundKeepsInv(Rounds(w, init), t);
    }
  }

  /** How many updates a poll can bring. */
  function Room(o: Outcome): nat { if o.Served? then o.limit else 0 }

  /** How many updates the polls of `turns` can bring. */
  function Capacity(turns: seq<Turn>): nat {
    if turns == [] then 0
    else Capacity(turns[..|turns| - 1]) + Room(turns[|turns| - 1].outcome)
  }

  /** How many updates stay outstanding when each turn adds its arrivals and takes
      what its poll has room for. */
  function LeftOver(outstanding: nat, turns: seq<Turn>): nat {
    if turns == [] then outstanding
    else
      var t := turns[|turns| - 1];
      var due := LeftOver(outstanding, turns[..|turns| - 1]) + |t.arrivals|;
      if Room(t.outcome) < due then due - Room(t.outcome) else 0
  }

  /** Polls take no more than they have room for, and at least that much of what
      was outstanding at first. */
  lemma {:induction false} LeftOverBounds(outstanding: nat, turns: seq<Turn>)
    ensures var due := outstanding + |AllArrivals(turns)|;
      && due - LeftOver(outstanding, turns) <= Capacity(turns)
      && due - LeftOver(outstanding, turns) >= if Capacity(turns) < outstanding then Capacity(turns) else outstanding
    decreases |turns|
  {
    if turns != [] {
      LeftOverBounds(outstanding, turns[..|turns| - 1]);
    }
  }

  lemma QuietRound(w: World, outcome: Outcome)
    requires Inv(w) && w.start.Some? && w.batch == []
    ensures var w' := Round(w, Turn([], outcome));
      && Inv(w') && w'.batch == [] && w'.start == w.start && w'.arrived == w.arrived
      && Outstanding(w') == if Room(outcome) < Outstanding(w) then Outstanding(w) - Room(outcome) else 0
  {
    match outcome {
      case Served(limit) => PollProgress(w, limit);
      case Lost => PollLostKeepsInv(w);
      case Fails =>
    }
  }

  /** The state after a turn whose poll found `due` updates outstanding. */
  ghost predicate TurnDone(w: World, t: Turn, w': World)
    requires Inv(w) && w.start.Some?
  {
    var due := Outstanding(w) + |t.arrivals|;
    && Inv(w') && w'.batch == [] && w'.start == w.start && w'.arrived == w.arrived + t.arrivals
    && Outstanding(w') == if Room(t.outcome) < due then due - Room(t.outcome) else 0
  }

  lemma RoundTakes(w: World, t: Turn)
    requires Inv(w) && w.start.Some? && w.batch == [] && GrowingIds(w.arrived + t.arrivals)
    ensures TurnDone(w, t, Round(w, t))
  {
    var v := Arrivals(w, t.arrivals);
    ArrivalsKeepInv(w, t.arrivals);
    ArrivalsOnlyQueue(w, t.arrivals);
    assert Arrivals(v, []) == v;
    QuietRound(v, t.outcome);
  }

  /** After the first non-empty reply, with any arrivals and any mix of served, lost
      and failed polls. */
  lemma {:induction false} RoundsTake(w: World, turns: seq<Turn>)
    requires Inv(w) && w.start.Some? && w.batch == [] && GrowingIds(w.arrived + AllArrivals(turns))
    ensures var w' := Rounds(w, turns);
      && Inv(w') && w'.batch == [] && w'.start == w.start && w'.arrived == w.arrived + AllArrivals(turns)
      && Outstanding(w') == LeftOver(Outstanding(w), turns)
    decreases |turns|
  {
    if turns != [] {
      var init, t := turns[..|turns| - 1], turns[|turns| - 1];
      var all := w.arrived + AllArrivals(init);
      assert w.arrived + AllArrivals(turns) == all + t.arrivals;
      assert GrowingIds(all) by {
        assert all == (all + t.arrivals)[..|all|];
      }
      RoundsTake(w, init);
      RoundTakes(Rounds(w, init), t);
    } else {
      assert w.arrived + [] == w.arrived;
    }
  }

  /** Everything that had arrived in `w` since its first update is handled in `w'`
      exactly when enough was handled. */
  lemma CoversIff(w: World, w': World, more: seq<int>)
    requires Inv(w) && w.start.Some? && Inv(w') && w'.start == w.start && w'.arrived == w.arrived + more
    ensures w.arrived[w.start.value..] <= w'.handled <==> |w'.handled| >= |w.handled| + Outstanding(w)
  {
    StretchIsSlice(w'.handled, w'.arrived, w.start.value);
    var due := w.arrived[w.start.value..];
    if |due| <= |w'.handled| {
      forall i | 0 <= i < |due| ensures due[i] == w'.handled[i] {
        assert w'.handled[i] == w'.arrived[w.start.value + i];
      }
    }
  }

  /** However updates keep arriving and polls fail: what is left outstanding follows
      from arrivals and limits alone, and everything outstanding at first is
      handled, in order, if and only if the polls had room for that many. */
  lemma PollsDrain(w: World, turns: seq<Turn>)
    requires Inv(w) && w.start.Some? && w.batch == [] && GrowingIds(w.arrived + AllArrivals(turns))
    ensures var w' := Rounds(w, turns);
      && Inv(w') && w'.batch == [] && w'.start == w.start && w'.arrived == w.arrived + AllArrivals(turns)
      && Outstanding(w') == LeftOver(Outstanding(w), turns)
      && |w'.handled| <= |w.handled| + Capacity(turns)
      && (w.arrived[w.start.value..] <= w'.handled <==> Capacity(turns) >= Outstanding(w))
  {
    RoundsTake(w, turns);
    LeftOverBounds(Outstanding(w), turns);
    CoversIff(w, Rounds(w, turns), AllArrivals(turns));
  }

  lemma {:induction false} NoArrivals(turns: seq<Turn>)
    requires forall i :: 0 <= i < |turns| ==> turns[i].arrivals == []
    ensures AllArrivals(turns) == []
    decreases |turns|
  {
    if turns != [] {
      NoArrivals(turns[..|turns| - 1]);
    }
  }

  /** When nothing more arrives, the polls leave outstanding exactly what they had
      no room for, and with room for all of it every arrival is handled. */
  lemma QuietPollsDrain(w: World, turns: seq<Turn>)
    requires Inv(w) && w.start.Some? && w.batch == []
    requires forall i :: 0 <= i < |turns| ==> turns[i].arrivals == []
    ensures var w' := Rounds(w, turns);
      && Inv(w') && w'.start == w.start && w'.arrived == w.arrived
      && Outstanding(w') == (if Capacity(turns) < Outstanding(w) then Outstanding(w) - Capacity(turns) else 0)
      && (Capacity(turns) >= Outstanding(w) ==> w'.handled == w.arrived[w.start.value..])
  {
    NoArrivals(turns);
    assert w.arrived + [] == w.arrived;
    RoundsTake(w, turns);
    LeftOverBounds(Outstanding(w), turns);
    if Capacity(turns) >= Outstanding(w) {
      DrainedIsAll(Rounds(w, turns));
    }
  }

  lemma {:induction false} CapacityAtLeast(turns: seq<Turn>)
    requires forall i :: 0 <= i < |turns| ==> turns[i].outcome.Served? && turns[i].outcome.limit > 0
    ensures Capacity(turns) >= |turns|
    decreases |turns|
  {
    if turns != [] {
      CapacityAtLeast(turns[..|turns| - 1]);
    }
  }

  /** As many served polls as updates are outstanding handle all of those, whatever
      positive limits the server applies and whatever arrives meanwhile. */
  lemma ServedPollsDrain(w: World, turns: seq<Turn>)
    requires Inv(w) && w.start.Some? && w.batch == [] && GrowingIds(w.arrived + AllArrivals(turns))
    requires forall i :: 0 <= i < |turns| ==> turns[i].outcome.Served? && turns[i].outcome.limit > 0
    requires |turns| >= Outstanding(w)
    ensures w.arrived[w.start.value..] <= Rounds(w, turns).handled
  {
    CapacityAtLeast(turns);
    PollsDrain(w, turns);
  }

  /** `handled` is the stretch of the arrivals from `first` on, and all the later
      arrivals are still queued. */
  ghost predicate NoneSkipped(handled: seq<int>, arrived: seq<int>, queue: seq<int>, first: nat) {
    && Stretch(handled, arrived, first)
    && forall i :: first + |handled| <= i < |arrived| ==> arrived[i] in queue
  }

  lemma QueuedBeyond(w: World)
    requires Inv(w) && w.batch == [] && w.start.Some?
    ensures NoneSkipped(w.handled, w.arrived, w.queue, w.start.value)
  {
    forall i | w.start.value + |w.handled| <= i < |w.arrived| ensures w.arrived[i] in w.queue {
      assert w.queue[i - (|w.arrived| - |w.queue|)] == w.arrived[i];
    }
  }

  lemma RunIsExact(boot: World, turns: seq<Turn>)
    requires Booted(boot) && GrowingIds(boot.arrived + AllArrivals(turns))
    ensures var w := Rounds(boot, turns);
      && w.arrived == boot.arrived + AllArrivals(turns)
      && Increasing(w.handled)
      && (w.handled != [] ==> exists first: nat :: NoneSkipped(w.handled, w.arrived, w.queue, first))
  {
    RoundsKeepInv(boot, turns);
    var w := Rounds(boot, turns);
    HandledIncreases(w);
    if w.start.Some? {
      QueuedBeyond(w);
    }
  }

  class Server {
    var queue: seq<int>
    ghost var arrived: seq<int>

    method Receive(ids: seq<int>)
      modifies this
      ensures queue == old(queue) + ids && arrived == old(arrived) + ids
    {
      queue, arrived := queue + ids, arrived + ids;
    }

    method GetUpdates(offset: int, limit: nat) returns (reply: seq<int>)
      modifies this`queue
      ensures queue == Confirm(old(queue), offset) && reply == Reply(queue, limit)
      ensures offset >= 0 && Increasing(old(queue)) ==>
        forall id :: id in queue <==> id in old(queue) && id >= offset
      ensures offset == SKIP_BACKLOG ==> |queue| <= 1 && forall id :: id in queue <==> IsLast(id, old(queue))
      ensures reply <= queue && (|reply| == |queue| || |reply| == limit < |queue|)
    {
      if Increasing(queue) {
        FromIdKeeps(queue, offset);
      }
      queue := Confirm(queue, offset);
      reply := Reply(queue, limit);
    }
  }

  class CommandBot {
    var offset: int

    /** `None` is an error: nothing got through, or the reply was lost. */
    method Poll(server: Server, outcome: Outcome) returns (updates: Option<seq<int>>)
      modifies this, server`queue
      ensures server.queue == if outcome.Fails? then old(server.queue) else Confirm(old(server.queue), old(offset))
      ensures updates == if outcome.Served? then Some(Reply(server.queue, outcome.limit)) else None
      ensures offset == if outcome.Served? then OffsetAfterReply(old(offset), updates.value) else old(offset)
    {
      match outcome {
        case Fails =>
          updates := None;
        case Lost =>
          var _ := server.GetUpdates(offset, 0);
          updates := None;
        case Served(limit) =>
          var reply := server.GetUpdates(offset, limit);
          if offset == -1 && |reply| > 0 {
            offset := reply[|reply| - 1] + 1;
          }
          updates := Some(reply);
      }
    }

    /** The dispatch loop of `Run` over one reply. */
    method Dispatch(updates: seq<int>, handled0: seq<int>, ghost w0: World) returns (handled: seq<int>)
      requires w0.batch == updates && w0.handled == handled0 && w0.offset == offset
      modifies this
      ensures var w := HandleMany(w0, |updates|); handled == w.handled && offset == w.offset && w.batch == []
    {
      handled := handled0;
      ghost var w := w0;
      var j := 0;
      while j < |updates|
        invariant 0 <= j <= |updates| && w.batch == updates[j..]
        invariant HandleMany(w, |updates| - j) == HandleMany(w0, |updates|)
        invariant handled == w.handled && offset == w.offset
      {
        handled := handled + [updates[j]];
        if updates[j] >= offset {
          offset := updates[j] + 1;
        }
        w := Step(w, Handle);
        j := j + 1;
      }
    }

    /** What bot, server and dispatch log share with a world between turns. */
    ghost predicate Mirrors(server: Server, handled: seq<int>, w: World)
      reads this, server
    {
      && w.batch == [] && handled == w.handled && offset == w.offset
      && server.queue == w.queue && server.arrived == w.arrived
    }

    /** One iteration of the loop of `Run`. */
    method RunTurn(server: Server, turn: Turn, handled0: seq<int>, ghost w: World) returns (handled: seq<int>)
      requires Mirrors(server, handled0, w)
      modifies this, server
      ensures Mirrors(server, handled, Round(w, turn))
    {
      ArrivalsOnlyQueue(w, turn.arrivals);
      server.Receive(turn.arrivals);
      ghost var polled := Step(Arrivals(w, turn.arrivals), PollEvent(turn.outcome));
      var updates := Poll(server, turn.outcome);
      HandleManyLeavesQueue(polled, |polled.batch|);
      handled := handled0;
      if updates.Some? {
        handled := Dispatch(updates.value, handled0, polled);
      }
    }

    /** `Run` over any schedule of turns, from whatever backlog the server holds:
        the updates handled follow the protocol's steps, strictly increase, and
        are the arrivals from the first one handled on, up to what is still queued. */
    method Run(server: Server, turns: seq<Turn>) returns (handled: seq<int>)
      requires ServerInv(Boot(server.queue, server.arrived)) && GrowingIds(server.arrived + AllArrivals(turns))
      modifies this, server
      ensures handled == Rounds(Boot(old(server.queue), old(server.arrived)), turns).handled
      ensures server.arrived == old(server.arrived) + AllArrivals(turns)
      ensures Increasing(handled)
      ensures handled != [] ==> exists first: nat :: NoneSkipped(handled, server.arrived, server.queue, first)
    {
      ghost var boot := Boot(server.queue, server.arrived);
      ghost var w := boot;
      offset := -1;
      handled := [];
      var i := 0;
      while i < |turns|
        invariant 0 <= i <= |turns| && w == Rounds(boot, turns[..i])
        invariant Mirrors(server, handled, w)
      {
        assert turns[..i + 1][..i] == turns[..i];
        handled := RunTurn(server, turns[i], handled, w);
        w := Round(w, turns[i]);
        i := i + 1;
      }
      assert turns[..i] == turns;
      RunIsExact(boot, turns);
    }
  }
}
