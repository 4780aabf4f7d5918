/** Whole runs of a live stream: the recording thread pushes and captures states, the sender drains
    and posts, the network loses, delays and repeats requests and loses replies, and the server
    appends a batch by its sequence number and ignores a repeat. */
module StreamRuns {
  import opened Bytes
  import opened Stream

  /** One POST as it may reach the server, at any time and any number of times. */
  datatype Request = Request(sequence: nat, payload: seq<byte>)

  datatype Server = Server(log: seq<byte>, seen: set<nat>, refused: set<nat>)

  /** The sender thread is between turns, or has just read the ended flag. */
  datatype Phase = Idle | Sampled(ended: bool)

  /** `pushed` lists every record handed over; `kept` the indices into it of those not dropped by the
      full queue, of which the first `drained` left in batches and the others are queued; `settled` is
      the value of `drained` before the last batch was composed. */
  datatype World = World(session: Session, queue: seq<seq<byte>>, bytesEnqueued: int, phase: Phase,
                         server: Server, inFlight: set<Request>,
                         pushed: seq<seq<byte>>, kept: seq<nat>, drained: nat, settled: nat,
                         batches: seq<seq<byte>>)

  datatype Event =
    | Push(record: seq<byte>)
    | End
    | SampleEnded
    | ComposeBatch
    | PostPending
    | Arrive(request: Request, refuse: bool)
    | Reply(result: PostResult)

  function Start(header: seq<byte>): World {
    World(Session(true, false, 0, header, None), [], HEADER_SIZE, Idle, Server([], {}, {}), {}, [], [], 0, 0, [])
  }

  /** A reply reports what the server did: 2xx only for a batch it has; a refusal is for good. */
  ghost predicate Allowed(w: World, e: Event) {
    match e
    case Push(record) => 0 < |record| <= RECORD_MAX
    case SampleEnded => w.phase.Idle? && w.session.active && w.session.pending.None?
    case ComposeBatch => w.phase.Sampled?
    case PostPending => w.session.pending.Some?
    case Arrive(request, _) => request in w.inFlight
    case Reply(PostDelivered) => w.session.pending.Some? && w.session.sequence in w.server.seen
    case Reply(PostRefused) => w.session.pending.Some? && w.session.sequence !in w.server.seen
    case _ => true
  }

  function Received(s: Server, request: Request, refuse: bool): Server {
    if request.sequence in s.seen || request.sequence in s.refused then s
    else if refuse then s.(refused := s.refused + {request.sequence})
    else s.(log := s.log + request.payload, seen := s.seen + {request.sequence})
  }

  function Pushed(w: World, record: seq<byte>): World {
    if !w.session.active || w.session.ended then w
    else
      var queue := Enqueued(w.queue, record);
      var kept := if |w.queue| == QUEUE_CAP && w.drained < |w.kept|
                  then w.kept[..w.drained] + w.kept[w.drained + 1..] else w.kept;
      w.(queue := queue, pushed := w.pushed + [Truncated(record)], kept := kept + [|w.pushed|],
         bytesEnqueued := w.bytesEnqueued + |Flatten(queue)| - |Flatten(w.queue)|)
  }

  function Drained(w: World): World
    requires w.phase.Sampled?
  {
    var n := DrainCount(w.queue, BATCH_MAX);
    var s := Composed(w.session, Flatten(w.queue[..n]), w.phase.ended);
    w.(session := s, queue := w.queue[n..], drained := w.drained + n, phase := Idle,
       settled := if s.pending.Some? then w.drained else w.settled,
       batches := if s.pending.Some? then w.batches + [s.pending.value.payload] else w.batches)
  }

  function Step(w: World, e: Event): World {
    match e
    case Push(record) => Pushed(w, record)
    case End => if w.session.active then w.(session := w.session.(ended := true)) else w
    case SampleEnded => w.(phase := Sampled(w.session.ended))
    case ComposeBatch => if w.phase.Sampled? then Drained(w) else w
    case PostPending =>
      if w.session.pending.None? then w
      else w.(inFlight := w.inFlight + {Request(w.session.sequence, w.session.pending.value.payload)})
    case Arrive(request, refuse) => w.(server := Received(w.server, request, refuse))
    case Reply(result) =>
      var s := if result.PostRefused? then w.server.(refused := w.server.refused + {w.session.sequence}) else w.server;
      w.(session := Settled(w.session, result), server := s)
  }

  ghost predicate Next(w: World, e: Event, w': World) {
    Allowed(w, e) && w' == Step(w, e)
  }

  ghost predicate IsRun(ws: seq<World>, es: seq<Event>, header: seq<byte>) {
    && |ws| == |es| + 1 && |header| == HEADER_SIZE && ws[0] == Start(header)
    && forall i :: 0 <= i < |es| ==> NextAt(ws, es, i)
  }

  ghost predicate NextAt(ws: seq<World>, es: seq<Event>, i: nat)
    requires |ws| == |es| + 1 && i < |es|
  {
    Next(ws[i], es[i], ws[i + 1])
  }

  // ----- the invariant -----

  ghost predicate Increasing(ids: seq<nat>, bound: nat) {
    && (forall i, j :: 0 <= i < j < |ids| ==> ids[i] < ids[j])
    && (forall i :: 0 <= i < |ids| ==> ids[i] < bound)
  }

  /** The records with the given indices, in that order. */
  function Pick(pushed: seq<seq<byte>>, ids: seq<nat>): (r: seq<seq<byte>>)
    requires forall i :: 0 <= i < |ids| ==> ids[i] < |pushed|
    ensures |r| == |ids|
    ensures forall i :: 0 <= i < |ids| ==> r[i] == pushed[ids[i]]
  {
    seq(|ids|, i requires 0 <= i < |ids| => pushed[ids[i]])
  }

  ghost predicate QueueOk(w: World) {
    && Increasing(w.kept, |w.pushed|)
    && w.drained + |w.queue| == |w.kept| && |w.queue| <= QUEUE_CAP
    && w.queue == Pick(w.pushed, w.kept)[w.drained..]
    && (forall i :: 0 <= i < |w.pushed| ==> 0 < |w.pushed[i]| <= RECORD_MAX)
  }

  /** Everything kept, as the server would see it: the header and the records in order. */
  ghost function KeptStream(w: World): seq<byte>
    requires QueueOk(w)
  {
    w.session.header + Flatten(Pick(w.pushed, w.kept))
  }

  ghost predicate CounterOk(w: World) {
    QueueOk(w) && |w.session.header| == HEADER_SIZE && w.bytesEnqueued == |KeptStream(w)|
  }

  ghost predicate BatchesOk(w: World) {
    && QueueOk(w)
    && |w.batches| == w.session.sequence + (if w.session.pending.Some? then 1 else 0)
    && (w.session.pending.Some? ==> w.phase.Idle? && w.batches[w.session.sequence] == w.session.pending.value.payload)
    && Flatten(w.batches) == (if w.batches == [] then [] else w.session.header)
                             + Flatten(Pick(w.pushed, w.kept)[..w.drained])
    && (w.batches == [] ==> w.drained == 0)
    && w.settled <= w.drained
    && (w.session.pending.Some? ==>
          Flatten(w.batches[..w.session.sequence]) ==
          (if w.session.sequence == 0 then [] else w.session.header)
          + Flatten(Pick(w.pushed, w.kept)[..w.settled])
          && (w.session.sequence == 0 ==> w.settled == 0))
  }

  /** The accepted batches among the first n, in order. */
  function LogOf(batches: seq<seq<byte>>, seen: set<nat>, n: nat): seq<byte>
    requires n <= |batches|
  {
    if n == 0 then []
    else LogOf(batches, seen, n - 1) + if n - 1 in seen then batches[n - 1] else []
  }

  ghost predicate ServerOk(w: World) {
    && |w.batches| >= w.session.sequence
    && w.server.seen !! w.server.refused
    && (forall s :: s in w.server.seen || s in w.server.refused ==> s < |w.batches|)
    && (forall s :: 0 <= s < w.session.sequence ==> s in w.server.seen || s in w.server.refused)
    && (forall q :: q in w.inFlight ==> q.sequence < |w.batches| && q.payload == w.batches[q.sequence])
    && w.server.log == LogOf(w.batches, w.server.seen, |w.batches|)
  }

  /** Once the last batch is composed the session is over: nothing is pushed any more. */
  ghost predicate EndOk(w: World) {
    && (w.session.pending.Some? && w.session.pending.value.last ==> w.session.ended)
    && (w.phase.Sampled? && w.phase.ended ==> w.session.ended)
    && (!w.session.active ==> w.session.ended && w.session.pending.None? && w.phase.Idle? && w.session.sequence > 0)
    && (w.phase.Sampled? ==> w.session.pending.None?)
  }

  ghost predicate Inv(w: World) {
    CounterOk(w) && BatchesOk(w) && ServerOk(w) && EndOk(w)
  }

  // ----- every step keeps the invariant -----

  lemma StreamSplits(w: World)
    requires QueueOk(w)
    ensures var all := Pick(w.pushed, w.kept);
            && Flatten(all) == Flatten(all[..w.drained]) + Flatten(w.queue)
            && |KeptStream(w)| == |w.session.header| + |Flatten(all[..w.drained])| + |Flatten(w.queue)|
  {
    var all := Pick(w.pushed, w.kept);
    FlattenConcat(all[..w.drained], all[w.drained..]);
    assert all == all[..w.drained] + all[w.drained..];
  }

  lemma IncreasingAfterPush(kept: seq<nat>, at: nat, bound: nat)
    requires Increasing(kept, bound)
    ensures Increasing(kept + [bound], bound + 1)
    ensures at < |kept| ==> Increasing(kept[..at] + kept[at + 1..] + [bound], bound + 1)
  {
    if at < |kept| {
      var rest := kept[..at] + kept[at + 1..];
      forall i, j | 0 <= i < j < |rest|
        ensures rest[i] < rest[j]
      {
        assert rest[i] == kept[if i < at then i else i + 1] && rest[j] == kept[if j < at then j else j + 1];
      }
      assert Increasing(rest, bound);
    }
  }

  /** Dropping the oldest queued record keeps the indices in order and the drained part as it was. */
  lemma PushKeepsOrder(w: World, record: seq<byte>)
    requires QueueOk(w) && record != [] && w.session.active && !w.session.ended
    ensures var w' := Pushed(w, record);
            && Increasing(w'.kept, |w'.pushed|)
            && w.drained + |w'.queue| == |w'.kept|
            && w'.kept[..w.drained] == w.kept[..w.drained]
  {
    IncreasingAfterPush(w.kept, w.drained, |w.pushed|);
  }

  lemma PickAppended(pushed: seq<seq<byte>>, record: seq<byte>, kept: seq<nat>)
    requires forall i :: 0 <= i < |kept| ==> kept[i] < |pushed|
    ensures Pick(pushed + [record], kept + [|pushed|]) == Pick(pushed, kept) + [record]
  {
  }

  lemma PickWithout(pushed: seq<seq<byte>>, kept: seq<nat>, at: nat)
    requires (forall i :: 0 <= i < |kept| ==> kept[i] < |pushed|) && at < |kept|
    ensures var all := Pick(pushed, kept);
            Pick(pushed, kept[..at] + kept[at + 1..]) == all[..at] + all[at + 1..]
  {
  }

  /** The part behind `at` loses its first record, or none, and gains the pushed one. */
  lemma QueueAfterPush(all: seq<seq<byte>>, at: nat, record: seq<byte>)
    requires at <= |all|
    ensures (all + [record])[at..] == all[at..] + [record] && (all + [record])[..at] == all[..at]
    ensures at < |all| ==>
              var all' := all[..at] + all[at + 1..] + [record];
              all'[at..] == all[at..][1..] + [record] && all'[..at] == all[..at]
  {
  }

  /** What is kept after a push: the oldest queued record is gone if the queue was full. */
  lemma PushedPick(w: World, record: seq<byte>, all: seq<seq<byte>>)
    requires QueueOk(w) && 0 < |record| <= RECORD_MAX && w.session.active && !w.session.ended
             && all == Pick(w.pushed, w.kept)
    ensures Pick(Pushed(w, record).pushed, Pushed(w, record).kept) ==
            (if |w.queue| == QUEUE_CAP then all[..w.drained] + all[w.drained + 1..] else all) + [record]
  {
    assert Truncated(record) == record;
    var kept := w.kept;
    if |w.queue| == QUEUE_CAP {
      PickWithout(w.pushed, w.kept, w.drained);
      kept := w.kept[..w.drained] + w.kept[w.drained + 1..];
    }
    PickAppended(w.pushed, record, kept);
    assert Pushed(w, record).kept == kept + [|w.pushed|];
  }

  lemma PushKeepsQueue(w: World, record: seq<byte>)
    requires QueueOk(w) && 0 < |record| <= RECORD_MAX && w.session.active && !w.session.ended
    ensures var w' := Pushed(w, record);
            && QueueOk(w')
            && Pick(w'.pushed, w'.kept)[..w.drained] == Pick(w.pushed, w.kept)[..w.drained]
  {
    PushKeepsOrder(w, record);
    PushedPick(w, record, Pick(w.pushed, w.kept));
    QueueAfterPush(Pick(w.pushed, w.kept), w.drained, record);
  }

  lemma PushKeepsCounter(w: World, record: seq<byte>)
    requires CounterOk(w) && 0 < |record| <= RECORD_MAX && w.session.active && !w.session.ended
    ensures CounterOk(Pushed(w, record))
  {
    PushKeepsQueue(w, record);
    StreamSplits(w);
    StreamSplits(Pushed(w, record));
  }

  lemma PushKeepsInv(w: World, record: seq<byte>)
    requires Inv(w) && 0 < |record| <= RECORD_MAX
    ensures Inv(Pushed(w, record))
  {
    if w.session.active && !w.session.ended {
      var w' := Pushed(w, record);
      PushKeepsQueue(w, record);
      PushKeepsCounter(w, record);
      var all, all' := Pick(w.pushed, w.kept), Pick(w'.pushed, w'.kept);
      assert all'[..w.settled] == all'[..w.drained][..w.settled] == all[..w.drained][..w.settled] == all[..w.settled];
    }
  }

  lemma {:induction false} LogIgnoresLater(batches: seq<seq<byte>>, seen: set<nat>, s: nat, n: nat)
    requires n <= |batches| && n <= s
    ensures LogOf(batches, seen + {s}, n) == LogOf(batches, seen, n)
  {
    if n > 0 {
      LogIgnoresLater(batches, seen, s, n - 1);
    }
  }

  lemma {:induction false} LogIgnoresUnposted(batches: seq<seq<byte>>, payload: seq<byte>, seen: set<nat>, n: nat)
    requires n <= |batches|
    ensures LogOf(batches + [payload], seen, n) == LogOf(batches, seen, n)
  {
    if n > 0 {
      LogIgnoresUnposted(batches, payload, seen, n - 1);
    }
  }

  lemma DrainKeepsQueue(w: World)
    requires QueueOk(w) && w.phase.Sampled?
    ensures var w' := Drained(w);
            var n := DrainCount(w.queue, BATCH_MAX);
            var all := Pick(w.pushed, w.kept);
            && QueueOk(w') && KeptStream(w') == KeptStream(w)
            && Flatten(all[..w'.drained]) == Flatten(all[..w.drained]) + Flatten(w.queue[..n])
  {
    TakenFromTheQueue(Pick(w.pushed, w.kept), w.drained, DrainCount(w.queue, BATCH_MAX));
  }

  lemma TakenFromTheQueue(all: seq<seq<byte>>, drained: nat, n: nat)
    requires drained + n <= |all|
    ensures all[drained..][n..] == all[drained + n..]
    ensures Flatten(all[..drained + n]) == Flatten(all[..drained]) + Flatten(all[drained..][..n])
  {
    assert all[..drained + n] == all[..drained] + all[drained..][..n];
    FlattenConcat(all[..drained], all[drained..][..n]);
  }

  lemma ComposeKeepsBatches(w: World)
    requires Inv(w) && w.phase.Sampled?
    ensures BatchesOk(Drained(w)) && CounterOk(Drained(w))
  {
    var w' := Drained(w);
    var n := DrainCount(w.queue, BATCH_MAX);
    var all := Pick(w.pushed, w.kept);
    DrainKeepsQueue(w);
    assert w.batches == [] ==> all[..w.drained] == [];
    if w'.session.pending.Some? {
      BatchAppended(w.batches, w.session.header, Flatten(all[..w.drained]), Flatten(w.queue[..n]),
                    w'.session.pending.value.payload);
    } else if n > 0 {
      DrainYieldsBytes(w, n);
    }
  }

  /** The first batch leads with the header; every other just continues. */
  lemma BatchAppended(batches: seq<seq<byte>>, header: seq<byte>, before: seq<byte>, drained: seq<byte>,
                      payload: seq<byte>)
    requires Flatten(batches) == (if batches == [] then [] else header) + before
    requires batches == [] ==> before == []
    requires payload == if batches == [] then header + drained else drained
    ensures Flatten(batches + [payload]) == header + (before + drained)
    ensures (batches + [payload])[..|batches|] == batches
  {
    FlattenSnoc(batches, payload);
    Regrouped(header, before, drained);
  }

  /** A drain that takes a record yields bytes. */
  lemma DrainYieldsBytes(w: World, n: nat)
    requires QueueOk(w) && 0 < n <= |w.queue|
    ensures Flatten(w.queue[..n]) != []
  {
    assert w.queue[0] == Pick(w.pushed, w.kept)[w.drained] == w.pushed[w.kept[w.drained]];
    assert w.queue[..n][0] == w.queue[0];
  }

  lemma ComposeKeepsServer(w: World)
    requires ServerOk(w) && w.phase.Sampled? && w.session.pending.None? && |w.batches| == w.session.sequence
    ensures ServerOk(Drained(w))
  {
    var w' := Drained(w);
    if w'.session.pending.Some? {
      LogIgnoresUnposted(w.batches, w'.session.pending.value.payload, w.server.seen, |w.batches|);
    }
  }

  lemma ComposeKeepsEnd(w: World)
    requires EndOk(w) && w.phase.Sampled?
    ensures EndOk(Drained(w))
  {
  }

  lemma ComposeKeepsInv(w: World)
    requires Inv(w) && w.phase.Sampled?
    ensures Inv(Drained(w))
  {
    ComposeKeepsBatches(w);
    ComposeKeepsServer(w);
    ComposeKeepsEnd(w);
  }

  lemma ArriveKeepsInv(w: World, request: Request, refuse: bool)
    requires Inv(w) && request in w.inFlight
    ensures Inv(w.(server := Received(w.server, request, refuse)))
  {
    var s := request.sequence;
    if s !in w.server.seen && s !in w.server.refused {
      assert s == w.session.sequence == |w.batches| - 1;
      LogIgnoresLater(w.batches, w.server.seen, s, s);
    }
  }

  lemma ReplyKeepsInv(w: World, result: PostResult)
    requires Inv(w) && Allowed(w, Reply(result))
    ensures Inv(Step(w, Reply(result)))
  {
  }

  lemma StepKeepsInv(w: World, e: Event)
    requires Inv(w) && Allowed(w, e)
    ensures Inv(Step(w, e))
  {
    match e
    case Push(record) => PushKeepsInv(w, record);
    case ComposeBatch => ComposeKeepsInv(w);
    case Arrive(request, refuse) => ArriveKeepsInv(w, request, refuse);
    case Reply(result) => ReplyKeepsInv(w, result);
    case End =>
    case SampleEnded =>
    case PostPending =>
  }

  lemma StartInv(header: seq<byte>)
    requires |header| == HEADER_SIZE
    ensures Inv(Start(header))
  {
    var w := Start(header);
    assert w.queue == [] && Pick(w.pushed, w.kept) == [] && Flatten<byte>([]) == [];
  }

  lemma NextKeepsInv(w: World, e: Event, w': World)
    requires Inv(w) && Next(w, e, w')
    ensures Inv(w')
  {
    StepKeepsInv(w, e);
  }

  lemma {:induction false} RunKeepsInv(ws: seq<World>, es: seq<Event>, header: seq<byte>, i: nat)
    requires IsRun(ws, es, header) && i <= |es|
    ensures Inv(ws[i])
  {
    if i == 0 {
      StartInv(header);
    } else {
      RunKeepsInv(ws, es, header, i - 1);
      assert NextAt(ws, es, i - 1);
      NextKeepsInv(ws[i - 1], es[i - 1], ws[i]);
    }
  }

  /** Some run, with any schedule, ends in w. */
  ghost predicate Reachable(w: World) {
    exists ws, es, header :: IsRun(ws, es, header) && ws[|es|] == w
  }

  /** Some run passes through w0 and later through w. */
  ghost predicate Later(w0: World, w: World) {
    exists ws, es, header, i, j :: IsRun(ws, es, header) && 0 <= i <= j <= |es| && ws[i] == w0 && ws[j] == w
  }

  lemma ReachableInv(w: World)
    requires Reachable(w)
    ensures Inv(w)
  {
    var ws, es, header :| IsRun(ws, es, header) && ws[|es|] == w;
    RunKeepsInv(ws, es, header, |es|);
  }

  // ----- what every run guarantees -----

  /** The counter is always the exact length of the header, what was drained and what is queued,
      whatever was pushed, dropped and drained in between. */
  lemma CounterIsExact(w: World)
    requires Reachable(w)
    ensures QueueOk(w)
    ensures w.bytesEnqueued == HEADER_SIZE + |Flatten(Pick(w.pushed, w.kept)[..w.drained])| + |Flatten(w.queue)|
  {
    ReachableInv(w);
    StreamSplits(w);
  }

  lemma {:induction false} LogWithoutRefusals(batches: seq<seq<byte>>, seen: set<nat>, m: nat, n: nat)
    requires n <= |batches| && forall s :: 0 <= s < n ==> (s in seen <==> s < m)
    ensures LogOf(batches, seen, n) == Flatten(batches[..Min(m, n)])
  {
    if n == 0 {
    } else {
      LogWithoutRefusals(batches, seen, m, n - 1);
      if n - 1 < m {
        FlattenSnoc(batches[..n - 1], batches[n - 1]);
        assert batches[..n - 1] + [batches[n - 1]] == batches[..n];
      }
    }
  }

  /** How many records the server has, as far as the sender's batches tell. */
  ghost function Stored(w: World): nat {
    if w.session.pending.Some? && w.session.sequence !in w.server.seen then w.settled else w.drained
  }

  /** With requests and replies lost, delayed and repeated at will, and as long as no batch is
      refused, the server's log is empty or the header followed by a run of whole records from the
      first one on, in order and each exactly once: all that was drained, or all but the pending batch. */
  lemma LogIsHeaderAndWholeRecords(w: World)
    requires Reachable(w) && w.server.refused == {}
    ensures QueueOk(w) && Stored(w) <= |w.kept|
    ensures w.server.log == [] || w.server.log == w.session.header + Flatten(Pick(w.pushed, w.kept)[..Stored(w)])
    ensures w.server.log == [] ==> w.session.sequence == 0
  {
    ReachableInv(w);
    var pending := w.session.pending.Some? && w.session.sequence !in w.server.seen;
    var m := if pending then w.session.sequence else |w.batches|;
    LogWithoutRefusals(w.batches, w.server.seen, m, |w.batches|);
    assert w.batches[..|w.batches|] == w.batches;
  }

  lemma LogLeadsStream(w: World)
    requires Reachable(w) && w.server.refused == {}
    ensures QueueOk(w) && w.server.log <= KeptStream(w)
  {
    LogIsHeaderAndWholeRecords(w);
    PrefixOfStream(w.session.header, Pick(w.pushed, w.kept), Stored(w));
  }

  lemma PrefixOfStream(header: seq<byte>, all: seq<seq<byte>>, k: nat)
    requires k <= |all|
    ensures header + Flatten(all[..k]) <= header + Flatten(all)
  {
    FlattenConcat(all[..k], all[k..]);
    assert all == all[..k] + all[k..];
    Regrouped(header, Flatten(all[..k]), Flatten(all[k..]));
  }

  /** Batches the server refused are exactly what its log lacks: every settled sequence number is
      either stored once or refused for good, and the log is the stored batches in order. */
  lemma RefusedBatchesAreWhatIsMissing(w: World)
    requires Reachable(w)
    ensures QueueOk(w) && w.server.log == LogOf(w.batches, w.server.seen, |w.batches|)
    ensures forall s :: 0 <= s < w.session.sequence ==> (s in w.server.seen <==> s !in w.server.refused)
    ensures |w.batches| > 0 ==>
              Flatten(w.batches) == w.session.header + Flatten(Pick(w.pushed, w.kept)[..w.drained])
  {
    ReachableInv(w);
  }

  /** A turn of the sender makes a batch exactly if there is something to send: the header, which leads the first, a
      queued record, or the news that the session has ended. */
  lemma BatchIsMadeWhenDue(w: World)
    requires Reachable(w) && w.phase.Sampled?
    ensures Drained(w).session.pending.Some? <==> w.phase.ended || w.session.sequence == 0 || w.queue != []
    ensures w.queue != [] ==> |Drained(w).queue| < |w.queue|
  {
    ReachableInv(w);
    if w.queue != [] {
      DrainTakesTheFirst(w);
      DrainYieldsBytes(w, DrainCount(w.queue, BATCH_MAX));
    }
  }

  lemma DrainTakesTheFirst(w: World)
    requires QueueOk(w) && w.queue != []
    ensures DrainCount(w.queue, BATCH_MAX) > 0
  {
    assert w.queue[0] == Pick(w.pushed, w.kept)[w.drained] == w.pushed[w.kept[w.drained]];
  }

  /** Once the session is over the log holds every record that was not dropped, except those still
      queued; and the last drain leaves none exactly when all that was queued fits one batch. */
  lemma FinishedLogIsComplete(w: World)
    requires Reachable(w) && !w.session.active && w.server.refused == {}
    ensures QueueOk(w) && w.server.log == w.session.header + Flatten(Pick(w.pushed, w.kept)[..w.drained])
    ensures w.queue == [] ==> w.server.log == KeptStream(w)
  {
    ReachableInv(w);
    LogIsHeaderAndWholeRecords(w);
    assert w.drained == |w.kept| ==> Pick(w.pushed, w.kept)[..w.drained] == Pick(w.pushed, w.kept);
  }

  lemma LastDrainTakesAllThatFits(w: World)
    requires Reachable(w) && w.phase.Sampled? && w.phase.ended
    ensures var w' := Drained(w);
            && w'.session.pending.Some? && w'.session.pending.value.last
            && (w'.queue == [] <==> |Flatten(w.queue)| <= BATCH_MAX)
  {
    ReachableInv(w);
    DrainTakesAllThatFits(w.queue, BATCH_MAX);
  }

  // ----- the end of a session -----

  /** The answer to a post either leaves everything for another try, or settles the batch: the next one takes the
      next sequence number, and behind the last one there is none, the session is over. */
  lemma ReplySettles(w: World, result: PostResult)
    requires Reachable(w) && w.session.pending.Some?
    ensures var s := Step(w, Reply(result)).session;
            && s.ended == w.session.ended && s.header == w.session.header
            && (result.PostRetry? ==> s == w.session)
            && (!result.PostRetry? ==> s.pending.None? && s.sequence == w.session.sequence + 1)
            && (!result.PostRetry? ==> (s.active <==> !w.session.pending.value.last))
  {
    ReachableInv(w);
  }

  function After(w: World, es: seq<Event>): World
    decreases |es|
  {
    if es == [] then w else After(Step(w, es[0]), es[1..])
  }

  /** The events can happen one after the other. */
  ghost predicate CanHappen(w: World, es: seq<Event>)
    decreases |es|
  {
    es != [] ==> Allowed(w, es[0]) && CanHappen(Step(w, es[0]), es[1..])
  }

  lemma {:induction false} HappenInTurn(w: World, es: seq<Event>, more: seq<Event>)
    requires CanHappen(w, es) && CanHappen(After(w, es), more)
    ensures CanHappen(w, es + more) && After(w, es + more) == After(After(w, es), more)
    decreases |es|
  {
    if es == [] {
      assert es + more == more;
    } else {
      HappenInTurn(Step(w, es[0]), es[1..], more);
      assert (es + more)[0] == es[0] && (es + more)[1..] == es[1..] + more;
    }
  }

  lemma HappensFirst(w: World, e: Event, more: seq<Event>)
    requires Allowed(w, e) && CanHappen(Step(w, e), more)
    ensures CanHappen(w, [e] + more) && After(w, [e] + more) == After(Step(w, e), more)
  {
    assert ([e] + more)[1..] == more;
  }

  lemma ThreeSteps(w: World, e: Event, w1: World, e1: Event, w2: World, e2: Event, w3: World)
    requires Next(w, e, w1) && Next(w1, e1, w2) && Next(w2, e2, w3)
    ensures CanHappen(w, [e, e1, e2]) && After(w, [e, e1, e2]) == w3
  {
    assert CanHappen(w3, []);
    HappensFirst(w2, e2, []);
    HappensFirst(w1, e1, [e2]);
    HappensFirst(w, e, [e1, e2]);
    assert [e2] + [] == [e2] && [e1] + [e2] == [e1, e2] && [e] + [e1, e2] == [e, e1, e2];
  }

  /** A pending batch that is posted and arrives is answered accordingly. */
  lemma ArrivedIsAnswered(w: World, request: Request, w2: World, reply: Event)
    requires w.session.pending.Some? && request == Request(w.session.sequence, w.session.pending.value.payload)
    requires w2 == Step(Step(w, PostPending), Arrive(request, false))
    requires reply == Reply(if w.session.sequence in w2.server.seen then PostDelivered else PostRefused)
    ensures Allowed(Step(w, PostPending), Arrive(request, false)) && Allowed(w2, reply)
    ensures Step(w2, reply).session == Settled(w.session, PostDelivered) && Step(w2, reply).phase == w.phase
    ensures Step(w2, reply).server.refused == w.server.refused
  {
  }

  /** A pending batch can be posted, arrive and be answered. */
  lemma PendingCanSettle(w: World) returns (es: seq<Event>)
    requires Inv(w) && w.session.pending.Some?
    ensures CanHappen(w, es) && Inv(After(w, es)) && After(w, es).server.refused == w.server.refused
    ensures After(w, es).session == Settled(w.session, PostDelivered) && After(w, es).phase == w.phase
  {
    var request := Request(w.session.sequence, w.session.pending.value.payload);
    var w1 := Step(w, PostPending);
    var w2 := Step(w1, Arrive(request, false));
    var reply := Reply(if w.session.sequence in w2.server.seen then PostDelivered else PostRefused);
    ArrivedIsAnswered(w, request, w2, reply);
    NextKeepsInv(w, PostPending, w1);
    NextKeepsInv(w1, Arrive(request, false), w2);
    NextKeepsInv(w2, reply, Step(w2, reply));
    ThreeSteps(w, PostPending, w1, Arrive(request, false), w2, reply, Step(w2, reply));
    es := [PostPending, Arrive(request, false), reply];
  }

  /** How many turns of the sender, at most, an ended session still takes. */
  function TurnsLeft(w: World): nat {
    if !w.session.active then 0
    else if w.session.pending.Some? then (if w.session.pending.value.last then 1 else 4)
    else if w.phase == Sampled(true) then 2
    else if w.phase.Idle? then 3
    else 5
  }

  lemma TurnHelps(w: World, e: Event)
    requires w.session.ended && w.session.active && w.session.pending.None?
    requires w.phase.Sampled? && w.phase.ended ==> w.session.ended
    requires e == if w.phase.Idle? then SampleEnded else ComposeBatch
    ensures Allowed(w, e) && Step(w, e).session.ended && TurnsLeft(Step(w, e)) < TurnsLeft(w)
  {
  }

  lemma OneStep(w: World, e: Event)
    requires Allowed(w, e)
    ensures CanHappen(w, [e]) && After(w, [e]) == Step(w, e)
  {
    assert CanHappen(Step(w, e), []);
    HappensFirst(w, e, []);
    assert [e] + [] == [e];
  }

  lemma SenderCanGoOn(w: World, e: Event, w': World)
    requires Inv(w) && w.session.ended && w.session.active && w.session.pending.None?
    requires e == (if w.phase.Idle? then SampleEnded else ComposeBatch) && w' == Step(w, e)
    ensures CanHappen(w, [e]) && After(w, [e]) == w' && Inv(w') && w'.session.ended && TurnsLeft(w') < TurnsLeft(w)
    ensures w'.server == w.server
  {
    TurnHelps(w, e);
    OneStep(w, e);
    NextKeepsInv(w, e, w');
  }

  /** From every state in which the session was ended, some continuation in which nothing is refused that was not
      already finishes it: the sender leaves its loop. */
  lemma {:induction false} EndedSessionCanFinish(w: World) returns (es: seq<Event>)
    requires Inv(w) && w.session.ended
    ensures CanHappen(w, es) && !After(w, es).session.active && After(w, es).server.refused == w.server.refused
    decreases TurnsLeft(w)
  {
    es := [];
    if w.session.active {
      var first;
      if w.session.pending.Some? {
        first := PendingCanSettle(w);
      } else {
        var e := if w.phase.Idle? then SampleEnded else ComposeBatch;
        SenderCanGoOn(w, e, Step(w, e));
        first := [e];
      }
      var rest := EndedSessionCanFinish(After(w, first));
      HappenInTurn(w, first, rest);
      es := first + rest;
    }
  }

  /** And from every state whatever the session can be ended and finished. */
  lemma EverySessionCanFinish(w: World) returns (es: seq<Event>)
    requires Reachable(w)
    ensures CanHappen(w, es) && !After(w, es).session.active && After(w, es).server.refused == w.server.refused
  {
    ReachableInv(w);
    StepKeepsInv(w, End);
    var rest: seq<Event> := [];
    if w.session.active {
      rest := EndedSessionCanFinish(Step(w, End));
    }
    HappensFirst(w, End, rest);
    es := [End] + rest;
  }

  // ----- captured offsets -----

  /** The bytes of those of the given records that were pushed before the p-th, and of the others. */
  function OldBytes(pushed: seq<seq<byte>>, ids: seq<nat>, p: nat): nat
    requires forall i :: 0 <= i < |ids| ==> ids[i] < |pushed|
  {
    if ids == [] then 0
    else (if ids[0] < p then |pushed[ids[0]]| else 0) + OldBytes(pushed, ids[1..], p)
  }

  function NewBytes(pushed: seq<seq<byte>>, ids: seq<nat>, p: nat): nat
    requires forall i :: 0 <= i < |ids| ==> ids[i] < |pushed|
  {
    if ids == [] then 0
    else (if ids[0] < p then 0 else |pushed[ids[0]]|) + NewBytes(pushed, ids[1..], p)
  }

  lemma {:induction false} BytesOfPick(pushed: seq<seq<byte>>, ids: seq<nat>, p: nat)
    requires forall i :: 0 <= i < |ids| ==> ids[i] < |pushed|
    ensures |Flatten(Pick(pushed, ids))| == OldBytes(pushed, ids, p) + NewBytes(pushed, ids, p)
    ensures (forall i :: 0 <= i < |ids| ==> ids[i] < p) ==> NewBytes(pushed, ids, p) == 0
    ensures (forall i :: 0 <= i < |ids| ==> ids[i] >= p) ==> OldBytes(pushed, ids, p) == 0
  {
    if ids == [] {
    } else {
      BytesOfPick(pushed, ids[1..], p);
      assert Pick(pushed, ids)[1..] == Pick(pushed, ids[1..]);
    }
  }

  lemma {:induction false} BytesOfConcat(pushed: seq<seq<byte>>, a: seq<nat>, b: seq<nat>, p: nat)
    requires forall i :: 0 <= i < |a| ==> a[i] < |pushed|
    requires forall i :: 0 <= i < |b| ==> b[i] < |pushed|
    ensures OldBytes(pushed, a + b, p) == OldBytes(pushed, a, p) + OldBytes(pushed, b, p)
    ensures NewBytes(pushed, a + b, p) == NewBytes(pushed, a, p) + NewBytes(pushed, b, p)
  {
    if a == [] {
      assert a + b == b;
    } else {
      assert (a + b)[1..] == a[1..] + b;
      BytesOfConcat(pushed, a[1..], b, p);
    }
  }

  lemma {:induction false} BytesIgnoreLater(pushed: seq<seq<byte>>, more: seq<seq<byte>>, ids: seq<nat>, p: nat)
    requires forall i :: 0 <= i < |ids| ==> ids[i] < |pushed|
    ensures OldBytes(pushed + more, ids, p) == OldBytes(pushed, ids, p)
  {
    if ids != [] {
      BytesIgnoreLater(pushed, more, ids[1..], p);
    }
  }

  /** What relates a later state w to the state w0 of a capture: nothing old is ever added, and either
      all that was kept then still leads the stream, or the old part has become shorter. */
  ghost predicate Since(w0: World, w: World) {
    var p := |w0.pushed|;
    && QueueOk(w0) && QueueOk(w)
    && w0.pushed <= w.pushed && w.session.header == w0.session.header
    && (forall i :: 0 <= i < |w.kept| && w.kept[i] < p ==> w.kept[i] in w0.kept)
    && OldBytes(w.pushed, w.kept, p) <= OldBytes(w0.pushed, w0.kept, p)
    && (w0.kept <= w.kept || OldBytes(w.pushed, w.kept, p) < OldBytes(w0.pushed, w0.kept, p))
  }

  /** What a push does to the old bytes: nothing, unless it drops an old record. */
  lemma OldBytesAfterPush(pushed: seq<seq<byte>>, record: seq<byte>, kept: seq<nat>, p: nat)
    requires (forall i :: 0 <= i < |kept| ==> kept[i] < |pushed|) && p <= |pushed|
    ensures OldBytes(pushed + [record], kept + [|pushed|], p) == OldBytes(pushed, kept, p)
  {
    BytesIgnoreLater(pushed, [record], kept, p);
    BytesOfConcat(pushed + [record], kept, [|pushed|], p);
  }

  lemma OldBytesAfterDrop(pushed: seq<seq<byte>>, kept: seq<nat>, at: nat, p: nat)
    requires (forall i :: 0 <= i < |kept| ==> kept[i] < |pushed|) && at < |kept|
    ensures var rest := kept[..at] + kept[at + 1..];
            forall i :: 0 <= i < |rest| ==> rest[i] < |pushed|
    ensures OldBytes(pushed, kept[..at] + kept[at + 1..], p) ==
            OldBytes(pushed, kept, p) - if kept[at] < p then |pushed[kept[at]]| else 0
  {
    var a, b := kept[..at], kept[at + 1..];
    BytesOfConcat(pushed, a, b, p);
    BytesOfConcat(pushed, a, kept[at..], p);
    assert kept[at..][1..] == b;
    assert kept == a + kept[at..];
  }

  lemma PushKeepsMembers(w0: World, w: World, record: seq<byte>)
    requires Since(w0, w) && 0 < |record| && w.session.active && !w.session.ended
    ensures var w' := Pushed(w, record);
            forall i :: 0 <= i < |w'.kept| && w'.kept[i] < |w0.pushed| ==> w'.kept[i] in w0.kept
  {
    var w' := Pushed(w, record);
    forall i | 0 <= i < |w'.kept| && w'.kept[i] < |w0.pushed|
      ensures w'.kept[i] in w0.kept
    {
      assert w'.kept[i] in w.kept;
    }
  }

  /** The drop of one record, oldest first in the queue, and the push of a new one. */
  lemma PushKeepsSince(w0: World, w: World, record: seq<byte>)
    requires Since(w0, w) && 0 < |record| <= RECORD_MAX
    ensures Since(w0, Pushed(w, record))
  {
    if w.session.active && !w.session.ended {
      var p, d := |w0.pushed|, w.drained;
      PushKeepsQueue(w, record);
      PushKeepsMembers(w0, w, record);
      if |w.queue| == QUEUE_CAP {
        DropKeepsOld(w.pushed, Truncated(record), w0.kept, w.kept, d, p);
      } else {
        OldBytesAfterPush(w.pushed, Truncated(record), w.kept, p);
      }
    }
  }

  /** A drop takes an old record, and with it old bytes, or leaves all old records leading the stream. */
  lemma DropKeepsOld(pushed: seq<seq<byte>>, record: seq<byte>, kept0: seq<nat>, kept: seq<nat>, at: nat, p: nat)
    requires (forall i :: 0 <= i < |kept| ==> kept[i] < |pushed|) && at < |kept| && p <= |pushed|
    requires (forall i :: 0 <= i < |kept0| ==> kept0[i] < p) && forall i :: 0 <= i < |pushed| ==> |pushed[i]| > 0
    ensures var kept' := kept[..at] + kept[at + 1..] + [|pushed|];
            && (forall i :: 0 <= i < |kept'| ==> kept'[i] < |pushed + [record]|)
            && OldBytes(pushed + [record], kept', p) <= OldBytes(pushed, kept, p)
            && (kept0 <= kept ==> kept0 <= kept' || OldBytes(pushed + [record], kept', p) < OldBytes(pushed, kept, p))
  {
    OldBytesAfterDrop(pushed, kept, at, p);
    OldBytesAfterPush(pushed, record, kept[..at] + kept[at + 1..], p);
    if kept0 <= kept {
      DropAndPrefix(kept0, kept, at, |pushed|);
    }
  }

  lemma DropAndPrefix(kept0: seq<nat>, kept: seq<nat>, at: nat, new_: nat)
    requires kept0 <= kept && at < |kept|
    ensures at < |kept0| ==> kept[at] == kept0[at]
    ensures at >= |kept0| ==> kept0 <= kept[..at] + kept[at + 1..] + [new_]
  {
  }

  /** Steps that leave the kept records alone. */
  lemma SinceStays(w0: World, w: World, w': World)
    requires Since(w0, w) && QueueOk(w')
    requires w'.pushed == w.pushed && w'.kept == w.kept && w'.session.header == w.session.header
    ensures Since(w0, w')
  {
  }

  lemma OtherStepsKeepQueue(w: World, e: Event)
    requires QueueOk(w) && !e.Push? && !e.ComposeBatch?
    ensures var w' := Step(w, e);
            QueueOk(w') && w'.pushed == w.pushed && w'.kept == w.kept && w'.session.header == w.session.header
  {
  }

  lemma NextKeepsSince(w0: World, w: World, e: Event, w': World)
    requires Since(w0, w) && Inv(w) && Next(w, e, w')
    ensures Since(w0, w')
  {
    match e
    case Push(record) => PushKeepsSince(w0, w, record);
    case ComposeBatch =>
      DrainKeepsQueue(w);
      SinceStays(w0, w, w');
    case _ =>
      OtherStepsKeepQueue(w, e);
      SinceStays(w0, w, w');
  }

  lemma SinceItself(w: World)
    requires QueueOk(w)
    ensures Since(w, w)
  {
    forall i | 0 <= i < |w.kept|
      ensures w.kept[i] in w.kept
    {
    }
  }

  lemma {:induction false} RunKeepsSince(ws: seq<World>, es: seq<Event>, header: seq<byte>, i: nat, j: nat)
    requires IsRun(ws, es, header) && i <= j <= |es|
    ensures Since(ws[i], ws[j])
    decreases j
  {
    if i == j {
      RunKeepsInv(ws, es, header, j);
      SinceItself(ws[i]);
    } else {
      RunKeepsSince(ws, es, header, i, j - 1);
      RunKeepsInv(ws, es, header, j - 1);
      assert NextAt(ws, es, j - 1);
      NextKeepsSince(ws[i], ws[j - 1], es[j - 1], ws[j]);
    }
  }

  lemma LaterIsSince(w0: World, w: World)
    requires Later(w0, w)
    ensures Inv(w0) && Inv(w) && Since(w0, w) && Reachable(w)
  {
    var ws, es, header, i, j :| IsRun(ws, es, header) && 0 <= i <= j <= |es| && ws[i] == w0 && ws[j] == w;
    RunKeepsInv(ws, es, header, i);
    RunKeepsInv(ws, es, header, j);
    RunKeepsSince(ws, es, header, i, j);
    var ws', es' := ws[..j + 1], es[..j];
    forall k | 0 <= k < |es'|
      ensures NextAt(ws', es', k)
    {
      assert NextAt(ws, es, k);
    }
    assert IsRun(ws', es', header) && ws'[|es'|] == w;
  }

  lemma KeptLaterWasPushedLater(w0: World, w: World, k: nat)
    requires Since(w0, w) && w0.kept <= w.kept && |w0.kept| <= k < |w.kept|
    ensures w.kept[k] >= |w0.pushed|
  {
  }

  lemma KeptPrefixSplits(w0: World, w: World)
    requires Since(w0, w) && w0.kept <= w.kept
    ensures forall k :: |w0.kept| <= k < |w.kept| ==> w.kept[k] >= |w0.pushed|
    ensures KeptStream(w) == KeptStream(w0) + Flatten(Pick(w.pushed, w.kept[|w0.kept|..]))
    ensures |Flatten(Pick(w.pushed, w.kept[|w0.kept|..]))| == NewBytes(w.pushed, w.kept, |w0.pushed|)
  {
    forall k | |w0.kept| <= k < |w.kept|
      ensures w.kept[k] >= |w0.pushed|
    {
      KeptLaterWasPushedLater(w0, w, k);
    }
    assert w.kept == w0.kept + w.kept[|w0.kept|..];
    PickSplits(w0.pushed, w.pushed, w0.kept, w.kept[|w0.kept|..], |w0.pushed|);
    var a, b := Pick(w0.pushed, w0.kept), Pick(w.pushed, w.kept[|w0.kept|..]);
    Regrouped(w.session.header, Flatten(a), Flatten(b));
  }

  lemma PickSplits(pushed0: seq<seq<byte>>, pushed: seq<seq<byte>>, ids0: seq<nat>, ids: seq<nat>, p: nat)
    requires pushed0 <= pushed && p == |pushed0|
    requires (forall i :: 0 <= i < |ids0| ==> ids0[i] < p) && (forall i :: 0 <= i < |ids| ==> p <= ids[i] < |pushed|)
    ensures Flatten(Pick(pushed, ids0 + ids)) == Flatten(Pick(pushed0, ids0)) + Flatten(Pick(pushed, ids))
    ensures |Flatten(Pick(pushed, ids))| == NewBytes(pushed, ids0 + ids, p)
  {
    assert Pick(pushed, ids0 + ids) == Pick(pushed0, ids0) + Pick(pushed, ids);
    FlattenConcat(Pick(pushed0, ids0), Pick(pushed, ids));
    BytesOfConcat(pushed, ids0, ids, p);
    BytesOfPick(pushed, ids, p);
    BytesOfPick(pushed, ids0, p);
  }

  lemma ShortenedStream(w0: World, w: World)
    requires Since(w0, w) && !(w0.kept <= w.kept)
    ensures |KeptStream(w0)| + NewBytes(w.pushed, w.kept, |w0.pushed|) > |KeptStream(w)|
  {
    BytesOfPick(w0.pushed, w0.kept, |w0.pushed|);
    BytesOfPick(w.pushed, w.kept, |w0.pushed|);
  }

  /** A state captured in w0 is tagged with the offset `w0.bytesEnqueued`. In any later state w, that
      offset splits the stream exactly between what was pushed before and after the capture, if and only
      if no record that was kept at the capture has been dropped since; otherwise it lies too far on.
      Records pushed later may be dropped freely. */
  lemma OffsetIsExactUnlessADropHitsIt(w0: World, w: World)
    requires Later(w0, w)
    ensures QueueOk(w0) && QueueOk(w) && w0.bytesEnqueued == |KeptStream(w0)|
    ensures w0.kept <= w.kept <==>
              w0.bytesEnqueued + NewBytes(w.pushed, w.kept, |w0.pushed|) == |KeptStream(w)|
    ensures w0.kept <= w.kept ==>
              && KeptStream(w) == KeptStream(w0) + Flatten(Pick(w.pushed, w.kept[|w0.kept|..]))
              && forall k :: |w0.kept| <= k < |w.kept| ==> w.kept[k] >= |w0.pushed|
  {
    LaterIsSince(w0, w);
    if w0.kept <= w.kept {
      KeptPrefixSplits(w0, w);
    } else {
      ShortenedStream(w0, w);
    }
  }

  /** So, with no batch refused and none of the records kept at the capture dropped, whatever of the
      server's log lies beyond the captured offset is a prefix of the records pushed after the capture,
      and once the session has finished with an empty queue it is all of those that were kept. */
  lemma SpectatorStartsWithTheNextRecord(w0: World, w: World)
    requires Later(w0, w) && w.server.refused == {} && w0.kept <= w.kept
    ensures QueueOk(w) && 0 <= w0.bytesEnqueued
    ensures var offset := w0.bytesEnqueued;
            var later := Flatten(Pick(w.pushed, w.kept[|w0.kept|..]));
            && (offset <= |w.server.log| ==> w.server.log[offset..] <= later)
            && (!w.session.active && w.queue == [] ==> offset <= |w.server.log| && w.server.log[offset..] == later)
  {
    LaterIsSince(w0, w);
    OffsetIsExactUnlessADropHitsIt(w0, w);
    LogLeadsStream(w);
    var later := Flatten(Pick(w.pushed, w.kept[|w0.kept|..]));
    if w0.bytesEnqueued <= |w.server.log| {
      PrefixFrom(w.server.log, KeptStream(w0), later);
    }
    if !w.session.active {
      FinishedLogIsComplete(w);
    }
  }

  lemma PrefixFrom(a: seq<byte>, b: seq<byte>, c: seq<byte>)
    requires a <= b + c && |b| <= |a|
    ensures a[|b|..] <= c
  {
    assert (b + c)[|b|..] == c;
  }

  // ----- the session behind a run -----

  ghost predicate Plays(host: StreamSession, w: World)
    reads host, host.queue, host.queue.ring
  {
    && host.Valid() && host.State() == w.session
    && host.queue.Contents() == w.queue && host.queue.bytesEnqueued == w.bytesEnqueued
  }

  method PerformPush(host: StreamSession, w: World, record: seq<byte>)
    requires Plays(host, w) && 0 < |record| <= RECORD_MAX
    modifies host.queue, host.queue.ring
    ensures Plays(host, Pushed(w, record))
  {
    host.Push(record);
  }

  method PerformCompose(host: StreamSession, w: World)
    requires Plays(host, w) && w.phase.Sampled? && w.session.pending.None?
    modifies host, host.queue
    ensures Plays(host, Drained(w))
  {
    host.Compose(w.phase.ended);
  }

  method PerformReply(host: StreamSession, w: World, result: PostResult)
    requires Plays(host, w)
    modifies host
    ensures Plays(host, w.(session := Settled(w.session, result)))
  {
    if host.pending.Some? {
      host.Settle(result);
    }
  }

  /** What the step of a run says is what the host's session does; a state captured then is tagged with the run's
      offset. (Requests and their arrival are the network's and the server's.) */
  method Perform(host: StreamSession, w: World, e: Event) returns (offset: int)
    requires Plays(host, w) && EndOk(w) && Allowed(w, e)
    modifies host, host.queue, host.queue.ring
    ensures Plays(host, Step(w, e)) && offset == Step(w, e).bytesEnqueued
  {
    match e {
      case Push(record) => PerformPush(host, w, record);
      case End => host.EndSession();
      case ComposeBatch => PerformCompose(host, w);
      case Reply(result) => PerformReply(host, w, result);
      case SampleEnded =>
      case PostPending =>
      case Arrive(_, _) =>
    }
    offset := host.CaptureOffset();
  }
}
