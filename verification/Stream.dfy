/** The host's side of a live stream (common/n02_stream.cpp): the drop-oldest ring of records with
    its byte-offset counter, the records themselves, and one turn of the sender thread. */
module Stream {
  import opened Bytes

  const RECORD_MAX := 512
  const QUEUE_CAP := 8192
  const HEADER_SIZE := 400
  const BATCH_MAX := 0x1_0000

  // ----- the queue, as a list -----

  function Truncated(bytes: seq<byte>): (r: seq<byte>)
    ensures |r| <= RECORD_MAX && r <= bytes
  {
    if |bytes| > RECORD_MAX then bytes[..RECORD_MAX] else bytes
  }

  function Enqueued(q: seq<seq<byte>>, bytes: seq<byte>): seq<seq<byte>> {
    if bytes == [] then q
    else (if |q| == QUEUE_CAP then q[1..] else q) + [Truncated(bytes)]
  }

  /** How many records, oldest first, fit into cap bytes. */
  function DrainCount(q: seq<seq<byte>>, cap: int): (n: nat)
    ensures n <= |q|
  {
    if q == [] || |q[0]| > cap then 0 else 1 + DrainCount(q[1..], cap - |q[0]|)
  }

  /** After k records the copying loop holds them all, and is to stop after n. */
  ghost predicate Draining(q: seq<seq<byte>>, cap: int, n: nat, k: nat, out: seq<byte>) {
    k <= n <= |q| && out == Flatten(q[..k]) && |out| <= cap && n == k + DrainCount(q[k..], cap - |out|)
  }

  /** One turn of the copying loop. */
  lemma DrainStep(q: seq<seq<byte>>, cap: int, n: nat, k: nat, out: seq<byte>, rec: seq<byte>)
    requires Draining(q, cap, n, k, out) && k < |q| && rec == q[k]
    ensures |out| + |rec| > cap ==> n == k
    ensures |out| + |rec| <= cap ==> Draining(q, cap, n, k + 1, out + rec)
  {
    FlattenSnoc(q[..k], q[k]);
    assert q[..k] + [q[k]] == q[..k + 1];
    assert q[k..][1..] == q[k + 1..];
  }

  lemma DrainingStarts(q: seq<seq<byte>>, cap: nat)
    ensures Draining(q, cap, DrainCount(q, cap), 0, [])
  {
    assert q[0..] == q && q[..0] == [];
  }

  /** A drain takes the longest run of whole records that fits. */
  lemma {:induction false} DrainTakesAllThatFits(q: seq<seq<byte>>, cap: int)
    ensures var n := DrainCount(q, cap);
            && (n > 0 ==> |Flatten(q[..n])| <= cap)
            && (n < |q| ==> |Flatten(q[..n])| + |q[n]| > cap)
            && (n == |q| <==> q == [] || |Flatten(q)| <= cap)
  {
    var n := DrainCount(q, cap);
    if n == 0 {
      assert q[..n] == [];
    } else {
      DrainTakesAllThatFits(q[1..], cap - |q[0]|);
      assert q[..n][1..] == q[1..][..n - 1];
      assert q[..n][0] == q[0];
    }
  }

  lemma RingIndex(head: nat, count: nat, i: nat)
    requires head < QUEUE_CAP && i < count <= QUEUE_CAP
    ensures ((head - count + QUEUE_CAP) % QUEUE_CAP + i) % QUEUE_CAP == (head - count + i) % QUEUE_CAP
  {
  }

  // ----- the ring array behind it -----

  /** The count records that end just before `head` in a ring of cells, oldest first. */
  function View(cells: seq<seq<byte>>, head: nat, count: nat): (q: seq<seq<byte>>)
    requires |cells| == QUEUE_CAP && count <= QUEUE_CAP
    ensures |q| == count
    ensures forall i :: 0 <= i < count ==> q[i] == cells[(head - count + i) % QUEUE_CAP]
  {
    seq(count, i requires 0 <= i < count => cells[(head - count + i) % QUEUE_CAP])
  }

  lemma ViewSuffix(cells: seq<seq<byte>>, head: nat, count: nat, k: nat)
    requires |cells| == QUEUE_CAP && k <= count <= QUEUE_CAP
    ensures View(cells, head, count - k) == View(cells, head, count)[k..]
  {
  }

  /** One write at the head of the ring appends the record, over the oldest one when full. */
  lemma RingWrite(cells: seq<seq<byte>>, head: nat, count: nat, rec: seq<byte>)
    requires |cells| == QUEUE_CAP && head < QUEUE_CAP && count <= QUEUE_CAP
    ensures var q := View(cells, head, count);
            var kept := if count == QUEUE_CAP then q[1..] else q;
            && View(cells[head := rec], (head + 1) % QUEUE_CAP, |kept| + 1) == kept + [rec]
            && (count == QUEUE_CAP ==> q[0] == cells[head])
  {
    var q := View(cells, head, count);
    var kept := if count == QUEUE_CAP then q[1..] else q;
    var n := |kept| + 1;
    var q' := View(cells[head := rec], (head + 1) % QUEUE_CAP, n);
    forall i | 0 <= i < n
      ensures q'[i] == (kept + [rec])[i]
    {
      var at := ((head + 1) % QUEUE_CAP - n + i) % QUEUE_CAP;
      assert at == (head - |kept| + i) % QUEUE_CAP;
      if i < |kept| {
        assert at != head;
        assert kept[i] == q[i + count - |kept|];
      } else {
        assert at == head;
      }
    }
  }

  class RecordQueue {
    const ring: array<seq<byte>>
    var head: nat
    var count: nat
    var bytesEnqueued: int

    ghost predicate Valid()
      reads this
    {
      ring.Length == QUEUE_CAP && head < QUEUE_CAP && count <= QUEUE_CAP
    }

    /** The queued records, oldest first. */
    ghost function Contents(): (q: seq<seq<byte>>)
      requires Valid()
      reads this, ring
    {
      View(ring[..], head, count)
    }

    constructor ()
      ensures Valid() && fresh(ring)
      ensures Contents() == [] && bytesEnqueued == HEADER_SIZE
    {
      ring := new seq<byte>[QUEUE_CAP](_ => []);
      head, count, bytesEnqueued := 0, 0, HEADER_SIZE;
    }

    method Enqueue(bytes: seq<byte>)
      requires Valid()
      modifies this, ring
      ensures Valid()
      ensures Contents() == Enqueued(old(Contents()), bytes)
      ensures bytes == [] ==> Contents() == old(Contents())
      ensures bytesEnqueued == old(bytesEnqueued) + |Flatten(Contents())| - |Flatten(old(Contents()))|
    {
      if bytes == [] {
        return;
      }
      var rec := if |bytes| > RECORD_MAX then bytes[..RECORD_MAX] else bytes;
      ghost var q := Contents();
      var slot := head % QUEUE_CAP;
      RingWrite(ring[..], head, count, rec);
      ghost var cells := ring[..];
      if count == QUEUE_CAP {
        bytesEnqueued := bytesEnqueued - |ring[slot]|;
      }
      ring[slot] := rec;
      assert ring[..] == cells[head := rec];
      bytesEnqueued := bytesEnqueued + |rec|;
      head := (head + 1) % QUEUE_CAP;
      if count < QUEUE_CAP {
        count := count + 1;
      }
      ghost var kept := if |q| == QUEUE_CAP then q[1..] else q;
      assert Contents() == kept + [rec] == Enqueued(q, bytes);
      FlattenSnoc(kept, rec);
    }

    /** Copies out whole records, oldest first, as many as fit. */
    method Drain(outCap: nat) returns (out: seq<byte>)
      requires Valid()
      modifies this`count
      ensures Valid()
      ensures var n := DrainCount(old(Contents()), outCap);
              Contents() == old(Contents())[n..] && out == Flatten(old(Contents())[..n])
    {
      var total := count;
      var tail := (head - total + QUEUE_CAP) % QUEUE_CAP;
      out := [];
      var consumed: nat := 0;
      ghost var q := Contents();
      ghost var n := DrainCount(q, outCap);
      DrainingStarts(q, outCap);
      while consumed < total
        invariant consumed <= total == count && q == Contents() && Draining(q, outCap, n, consumed, out)
      {
        var rec := ring[(tail + consumed) % QUEUE_CAP];
        RingIndex(head, total, consumed);
        DrainStep(q, outCap, n, consumed, out, rec);
        if |out| + |rec| > outCap {
          break;
        }
        out := out + rec;
        consumed := consumed + 1;
      }
      count := count - consumed;
      ViewSuffix(ring[..], head, total, n);
    }
  }

  // ----- the records -----

  /** A C string copied into at most cap bytes, its NUL included. */
  function BoundedCString(s: seq<byte>, cap: int): (r: seq<byte>)
    ensures |r| <= if cap > 0 then cap else 0
  {
    if cap <= 0 then [] else s[..Min(|s|, cap - 1)] + [0]
  }

  function FrameRecord(values: seq<byte>): (r: seq<byte>)
    ensures 0 < |r| <= RECORD_MAX
  {
    var v := values[..Min(|values|, RECORD_MAX - 3)];
    [0x12] + Le16(|v|) + v
  }

  function ChatRecord(nick: seq<byte>, text: seq<byte>): (r: seq<byte>)
    ensures 0 < |r| <= RECORD_MAX
  {
    var head := [0x08] + BoundedCString(nick, RECORD_MAX - 1);
    head + BoundedCString(text, RECORD_MAX - |head|)
  }

  function DropRecord(nick: seq<byte>, player: u32): (r: seq<byte>)
    ensures 0 < |r| <= RECORD_MAX
  {
    var head := [0x14] + BoundedCString(nick, RECORD_MAX - 1);
    if |head| + 4 <= RECORD_MAX then head + Le32(player) else head
  }

  // ----- the session and its sender thread -----

  /** A batch that was composed and not yet settled; it is posted again under the same sequence
      number until the server takes or refuses it. */
  datatype Batch = Batch(payload: seq<byte>, last: bool)

  datatype PostResult = PostDelivered | PostRefused | PostRetry

  datatype Session = Session(active: bool, ended: bool, sequence: nat, header: seq<byte>, pending: Option<Batch>)

  /** What the sender makes of one drain; the very first batch leads with the header. */
  function Composed(s: Session, drained: seq<byte>, ended: bool): Session {
    var payload := if s.sequence == 0 then s.header + drained else drained;
    if payload == [] && !ended then s else s.(pending := Some(Batch(payload, ended)))
  }

  function Settled(s: Session, r: PostResult): Session {
    if s.pending.None? || r.PostRetry? then s
    else s.(sequence := s.sequence + 1, pending := None, active := s.active && !s.pending.value.last)
  }

  class StreamSession {
    const queue: RecordQueue
    var active: bool
    var ended: bool
    var sequence: nat
    var header: seq<byte>
    var pending: Option<Batch>

    ghost predicate Valid()
      reads this, queue
    {
      queue.Valid() && |header| == HEADER_SIZE
    }

    ghost function State(): Session
      reads this
    {
      Session(active, ended, sequence, header, pending)
    }

    /** n02_stream_start_session, once the previous session's threads have stopped. */
    constructor (header: seq<byte>)
      requires |header| == HEADER_SIZE
      ensures Valid() && fresh(queue) && fresh(queue.ring)
      ensures State() == Session(true, false, 0, header, None)
      ensures queue.Contents() == [] && queue.bytesEnqueued == HEADER_SIZE
    {
      queue := new RecordQueue();
      active, ended, sequence := true, false, 0;
      this.header, pending := header, None;
    }

    method Push(record: seq<byte>)
      requires Valid()
      modifies queue, queue.ring
      ensures Valid()
      ensures queue.Contents() ==
              if active && !ended then Enqueued(old(queue.Contents()), record) else old(queue.Contents())
      ensures queue.bytesEnqueued == old(queue.bytesEnqueued)
                                     + |Flatten(queue.Contents())| - |Flatten(old(queue.Contents()))|
    {
      if !active || ended {
        return;
      }
      queue.Enqueue(record);
    }

    method EndSession()
      modifies this`ended
      ensures ended == (old(ended) || active)
    {
      if active {
        ended := true;
      }
    }

    /** The first half of a turn: with nothing pending, drains the queue into the next batch. */
    method Compose(endedSeen: bool)
      requires Valid() && pending.None?
      modifies this`pending, queue`count
      ensures Valid()
      ensures var n := DrainCount(old(queue.Contents()), BATCH_MAX);
              && queue.Contents() == old(queue.Contents())[n..]
              && State() == Composed(old(State()), Flatten(old(queue.Contents())[..n]), endedSeen)
    {
      var drained := queue.Drain(BATCH_MAX);
      var payload := drained;
      if sequence == 0 {
        payload := header + drained;
      }
      if |payload| <= 0 && !endedSeen {
        return;
      }
      pending := Some(Batch(payload, endedSeen));
    }

    /** The second half: what the answer to the post of the pending batch leads to. */
    method Settle(result: PostResult)
      requires Valid() && pending.Some?
      modifies this
      ensures Valid() && queue.Contents() == old(queue.Contents())
      ensures State() == Settled(old(State()), result)
    {
      if result.PostRetry? {
        return;
      }
      sequence := sequence + 1;
      var last := pending.value.last;
      pending := None;
      if last {
        active := false;
      }
    }

    /** The byte offset an uploaded state is tagged with. */
    method CaptureOffset() returns (byteOffset: int)
      ensures byteOffset == queue.bytesEnqueued
    {
      byteOffset := queue.bytesEnqueued;
    }
  }
}
