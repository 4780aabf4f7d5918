/** The spectator's fetch side (common/n02_watch.cpp): a thread that fetches the session's bytes from a
    running offset into a buffer, and a puller that drains that buffer. */
module Watch {
  import opened Bytes

  class PrefetchBuffer {
    var data: seq<byte>
    var finished: bool
    var offset: nat

    constructor ()
      ensures data == [] && !finished && offset == 0
    {
      data, finished, offset := [], false, 0;
    }

    /** n02_watch_start, with 0, and n02_watch_restart_from_offset, once the previous thread has stopped. */
    method Restart(byteOffset: nat)
      modifies this
      ensures data == [] && !finished && offset == byteOffset
    {
      data, finished, offset := [], false, byteOffset;
    }

    /** One turn of the fetching thread: `chunk` is what the server sends from the offset on, `over` whether it
        calls the session finished. The offset advances also past a chunk that was lost. */
    method FetchTurn(chunk: seq<byte>, over: bool, granted: bool)
      requires !finished
      modifies this
      ensures data == old(data) + (if granted then chunk else []) && offset == old(offset) + |chunk|
      ensures finished <==> over && chunk == []
    {
      if |chunk| > 0 {
        Append(chunk, granted);
        offset := offset + |chunk|;
      }
      if over && |chunk| <= 0 {
        finished := true;
      }
    }

    /** `granted` is false when the buffer could not be grown: the chunk is then lost. */
    method Append(chunk: seq<byte>, granted: bool)
      modifies this`data
      ensures data == old(data) + if granted then chunk else []
    {
      if |chunk| <= 0 {
        return;
      }
      if granted {
        data := data + chunk;
      }
    }

    /** One attempt of n02_watch_pull: at most outCap bytes off the front, and whether the stream is
        known to have ended with nothing left. */
    method Pull(outCap: nat) returns (out: seq<byte>, ended: bool)
      modifies this`data
      ensures out + data == old(data) && |out| == Min(|old(data)|, outCap)
      ensures ended <==> finished && data == []
    {
      var n := |data|;
      if n > outCap {
        n := outCap;
      }
      out := data[..n];
      data := data[n..];
      ended := finished && data == [];
    }
  }

  /** The fetching thread, the puller and the server's log, which only grows. `start` is where the
      thread was last started, `lost` counts bytes of chunks the buffer had no room for. */
  datatype World = World(log: seq<byte>, over: bool, start: nat, offset: nat, data: seq<byte>,
                         finished: bool, pulled: seq<byte>, lost: nat)

  datatype Event =
    | Grow(more: seq<byte>, over: bool)
    | Fetch(n: nat, granted: bool)
    | Pull(outCap: nat)
    | Restart(byteOffset: nat)

  ghost predicate Allowed(w: World, e: Event) {
    match e
    case Grow(more, _) => w.over ==> more == []
    case Fetch(n, _) => if n == 0 then w.offset >= |w.log| else w.offset + n <= |w.log|
    case Pull(_) => true
    case Restart(_) => true
  }

  function Step(w: World, e: Event): World {
    match e
    case Grow(more, over) => w.(log := w.log + more, over := w.over || over)
    case Fetch(n, granted) =>
      if n == 0 then w.(finished := w.finished || w.over)
      else if w.offset + n > |w.log| then w
      else
        var chunk := w.log[w.offset..w.offset + n];
        w.(offset := w.offset + n, data := w.data + (if granted then chunk else []),
           lost := w.lost + (if granted then 0 else n))
    case Pull(outCap) =>
      var n := Min(|w.data|, outCap);
      w.(data := w.data[n..], pulled := w.pulled + w.data[..n])
    case Restart(byteOffset) =>
      w.(start := byteOffset, offset := byteOffset, data := [], finished := false, pulled := [], lost := 0)
  }

  function Run(w: World, es: seq<Event>): World
    decreases |es|
  {
    if es == [] then w else Run(Step(w, es[0]), es[1..])
  }

  ghost predicate AllAllowed(w: World, es: seq<Event>)
    decreases |es|
  {
    es == [] || (Allowed(w, es[0]) && AllAllowed(Step(w, es[0]), es[1..]))
  }

  const START := World([], false, 0, 0, [], false, [], 0)

  /** Some run, with any chunks and any schedule, ends in w. */
  ghost predicate Reachable(w: World) {
    exists es :: AllAllowed(START, es) && w == Run(START, es)
  }

  lemma {:induction false} RunGoesOn(w: World, es: seq<Event>, e: Event)
    requires AllAllowed(w, es) && Allowed(Run(w, es), e)
    ensures AllAllowed(w, es + [e]) && Run(w, es + [e]) == Step(Run(w, es), e)
    decreases |es|
  {
    if es == [] {
      assert es + [e] == [e];
    } else {
      RunGoesOn(Step(w, es[0]), es[1..], e);
      assert (es + [e])[0] == es[0] && (es + [e])[1..] == es[1..] + [e];
    }
  }

  /** Every allowed step leads on from a reachable state to a reachable state. */
  lemma ReachableGoesOn(w: World, e: Event)
    requires Reachable(w) && Allowed(w, e)
    ensures Reachable(Step(w, e))
  {
    var es :| AllAllowed(START, es) && w == Run(START, es);
    RunGoesOn(START, es, e);
  }

  /** The part of the log between the last (re)start and the offset; none while the log has not come as far
      as a start ahead of it. */
  function Requested(w: World): seq<byte> {
    if w.start <= w.offset <= |w.log| then w.log[w.start..w.offset] else []
  }

  ghost predicate Inv(w: World) {
    && w.start <= w.offset && (w.offset > |w.log| ==> w.offset == w.start)
    && |w.pulled| + |w.data| + w.lost == w.offset - w.start
    && (w.lost == 0 ==> w.pulled + w.data == Requested(w))
    && (w.finished ==> w.over && w.offset >= |w.log|)
  }

  lemma GrowKeepsInv(w: World, more: seq<byte>, over: bool)
    requires Inv(w) && Allowed(w, Grow(more, over))
    ensures Inv(Step(w, Grow(more, over)))
  {
    if w.offset <= |w.log| {
      assert (w.log + more)[w.start..w.offset] == w.log[w.start..w.offset];
    }
  }

  lemma FetchKeepsInv(w: World, n: nat, granted: bool)
    requires Inv(w) && Allowed(w, Fetch(n, granted))
    ensures Inv(Step(w, Fetch(n, granted)))
  {
    if n > 0 {
      assert w.log[w.start..w.offset + n] == w.log[w.start..w.offset] + w.log[w.offset..w.offset + n];
      Regrouped(w.pulled, w.data, w.log[w.offset..w.offset + n]);
    }
  }

  lemma PullKeepsInv(w: World, outCap: nat)
    requires Inv(w)
    ensures Inv(Step(w, Pull(outCap)))
  {
    var n := Min(|w.data|, outCap);
    assert w.data == w.data[..n] + w.data[n..];
    Regrouped(w.pulled, w.data[..n], w.data[n..]);
  }

  lemma StepKeepsInv(w: World, e: Event)
    requires Inv(w) && Allowed(w, e)
    ensures Inv(Step(w, e))
  {
    match e
    case Grow(more, over) => GrowKeepsInv(w, more, over);
    case Fetch(n, granted) => FetchKeepsInv(w, n, granted);
    case Pull(outCap) => PullKeepsInv(w, outCap);
    case Restart(_) =>
  }

  lemma {:induction false} RunKeepsInv(w: World, es: seq<Event>)
    requires Inv(w) && AllAllowed(w, es)
    ensures Inv(Run(w, es))
    decreases |es|
  {
    if es == [] {
    } else {
      StepKeepsInv(w, es[0]);
      RunKeepsInv(Step(w, es[0]), es[1..]);
    }
  }

  /** For any chunking of the fetched bytes, any interleaving with the pulls and any restart, also ahead of
      the log, what was pulled since the last (re)start followed by what is buffered is the log from that
      start on, if and only if no chunk was lost for want of memory: the offset advances past a lost chunk
      all the same. And when the puller is told that the stream has ended, it has pulled all of it. */
  lemma PullsAreTheLog(w: World)
    requires Reachable(w)
    ensures w.offset > |w.log| ==> w.offset == w.start && w.pulled == w.data == []
    ensures w.pulled + w.data == Requested(w) <==> w.lost == 0
    ensures w.finished && w.data == [] && w.lost == 0 ==>
              w.over && w.pulled == if w.start <= |w.log| then w.log[w.start..] else []
  {
    var es :| AllAllowed(START, es) && w == Run(START, es);
    RunKeepsInv(START, es);
    assert w.offset == |w.log| ==> w.log[w.start..w.offset] == w.log[w.start..];
  }

  // ----- the buffer behind a run -----

  ghost predicate Plays(b: PrefetchBuffer, w: World)
    reads b
  {
    b.data == w.data && b.finished == w.finished && b.offset == w.offset
  }

  /** What the server answers to a request from the offset on for n bytes of its log. */
  function Answered(w: World, n: nat): seq<byte> {
    if w.offset + n <= |w.log| then w.log[w.offset..w.offset + n] else []
  }

  /** What the step of a run says is what the buffer and its thread do; the thread that was told of the end has
      left its loop. A pull yields what the run lists as pulled. */
  method Perform(b: PrefetchBuffer, w: World, e: Event) returns (out: seq<byte>, ended: bool)
    requires Plays(b, w) && Allowed(w, e) && (e.Fetch? ==> !w.finished)
    modifies b
    ensures Plays(b, Step(w, e))
    ensures e.Pull? ==> Step(w, e).pulled == w.pulled + out && (ended <==> b.finished && b.data == [])
  {
    out, ended := [], false;
    match e {
      case Grow(_, _) =>
      case Fetch(n, granted) =>
        var chunk := if n == 0 then [] else Answered(w, n);
        b.FetchTurn(chunk, w.over, granted);
      case Pull(outCap) =>
        out, ended := b.Pull(outCap);
        assert w.data == out + b.data;
      case Restart(byteOffset) =>
        b.Restart(byteOffset);
    }
  }
}
