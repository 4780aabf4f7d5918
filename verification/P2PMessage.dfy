/** The reliable-UDP endpoint of the peer-to-peer client (core/p2p_message.h): 8-bit serials, bundles of
    recent messages, and a receiver that appends slots for the serials a bundle newly covers. */
module P2PMessage {
  import opened Bundles
  import opened Bytes

  const CACHE_SIZE := 32
  const BUNDLE_LIMIT := 15
  const HEAD_SIZE := 2

  datatype Msg = Msg(serial: byte, body: seq<byte>)

  /** One entry of in_cache; a slot whose message was not in the bundle has an empty body. */
  datatype Receiver = Receiver(lastProcessed: byte, lastCached: byte, inCache: seq<Msg>)

  const HOLE := Msg(0, [])

  /** What is sent of an instruction of up to 256 bytes: the length is a byte, so that 256 count as none. */
  function Carried(body: seq<byte>): (r: seq<byte>)
    ensures |r| < 0x100 && (|body| < 0x100 ==> r == body) && (|body| == 0x100 ==> r == [])
  {
    body[..|body| % 0x100]
  }

  function Ahead(latest: byte, from: byte): byte {
    (latest - from) % 0x100
  }

  // ----- the wire format -----

  function EncodeMsg(m: Msg): (s: seq<byte>)
    ensures |s| == HEAD_SIZE + |m.body|
  {
    [m.serial, |m.body| % 0x100] + m.body
  }

  /** The messages the receiver reads off s: at most n, up to the first that is cut off or bears the
      serial it already has. */
  function Readable(s: seq<byte>, n: nat, last: byte): (r: seq<Msg>)
    ensures |r| <= n
    decreases n
  {
    if n == 0 || |s| < HEAD_SIZE || s[0] == last || |s| - HEAD_SIZE < s[1] then []
    else [Msg(s[0], s[2..2 + s[1]])] + Readable(s[2 + s[1]..], n - 1, last)
  }

  // ----- what one call does to the receiver -----

  /** The slot for a serial among the last tx ones. */
  function Fill(q: seq<Msg>, tx: nat, last: byte, m: Msg): (q': seq<Msg>)
    requires tx <= |q|
    ensures |q'| == |q|
  {
    var cix := Ahead(m.serial, last);
    if cix == 0 || cix > tx then q else q[|q| - tx + cix - 1 := m]
  }

  function FillAll(q: seq<Msg>, tx: nat, last: byte, ms: seq<Msg>): (q': seq<Msg>)
    requires tx <= |q|
    ensures |q'| == |q|
    decreases |ms|
  {
    if ms == [] then q else FillAll(Fill(q, tx, last, ms[0]), tx, last, ms[1..])
  }

  /** Where filling from what can still be read of d at ptr leads. */
  ghost predicate FillsTo(q: seq<Msg>, tx: nat, last: byte, d: seq<byte>, ptr: nat, n: nat, goal: seq<Msg>) {
    tx <= |q| && ptr <= |d| && FillAll(q, tx, last, Readable(d[ptr..], n, last)) == goal
  }

  lemma HeadOf(d: seq<byte>, ptr: nat, l: nat)
    requires ptr + HEAD_SIZE + l <= |d|
    ensures d[ptr..][2..2 + l] == d[ptr + 2..ptr + 2 + l] && d[ptr..][2 + l..] == d[ptr + 2 + l..]
  {
  }

  /** The loop that reads a bundle's messages ends at one that is cut off or bears the serial already held. */
  lemma FillStops(q: seq<Msg>, tx: nat, last: byte, d: seq<byte>, ptr: nat, n: nat, goal: seq<Msg>)
    requires FillsTo(q, tx, last, d, ptr, n, goal) && n > 0
    requires |d| < ptr + HEAD_SIZE || d[ptr] == last || |d| < ptr + HEAD_SIZE + d[ptr + 1]
    ensures q == goal
  {
  }

  /** And goes on behind any other. */
  lemma FillGoesOn(q: seq<Msg>, tx: nat, last: byte, d: seq<byte>, ptr: nat, n: nat, goal: seq<Msg>, m: Msg, next: nat)
    requires FillsTo(q, tx, last, d, ptr, n, goal) && n > 0
    requires |d| >= ptr + HEAD_SIZE && d[ptr] != last && next == ptr + HEAD_SIZE + d[ptr + 1] <= |d|
    requires m == Msg(d[ptr], d[ptr + HEAD_SIZE..next])
    ensures FillsTo(Fill(q, tx, last, m), tx, last, d, next, n - 1, goal)
  {
    HeadOf(d, ptr, d[ptr + 1]);
  }

  lemma NothingLeft(q: seq<Msg>, tx: nat, last: byte, d: seq<byte>, ptr: nat, goal: seq<Msg>)
    requires FillsTo(q, tx, last, d, ptr, 0, goal)
    ensures q == goal
  {
  }

  function HolesOf(n: nat): (s: seq<Msg>)
    ensures |s| == n && forall i :: 0 <= i < n ==> s[i] == HOLE
  {
    seq(n, _ => HOLE)
  }

  /** Room for tx more slots; all that is queued is thrown away if they would not fit. */
  function Widened(q: seq<Msg>, tx: nat): seq<Msg> {
    (if |q| + tx > CACHE_SIZE then [] else q) + HolesOf(tx)
  }

  predicate Wellformed(d: seq<byte>) {
    |d| >= 1 + HEAD_SIZE && 0 < d[0] < BUNDLE_LIMIT
  }

  /** What a datagram from the peer does to the window. */
  function Received(r: Receiver, d: seq<byte>): Receiver {
    if !Wellformed(d) then r
    else
      var tx := Ahead(d[1], r.lastCached);
      if 0 < tx < BUNDLE_LIMIT then
        r.(inCache := FillAll(Widened(r.inCache, tx), tx, r.lastCached, Readable(d[1..], d[0], r.lastCached)),
           lastCached := d[1])
      else r
  }

  predicate CanOffer(r: Receiver, cap: int) {
    r.inCache != [] && cap > 0 && |r.inCache[0].body| <= cap
  }

  function AfterOffer(r: Receiver, cap: int, leaveInQueue: bool): Receiver {
    if CanOffer(r, cap) && !leaveInQueue then r.(lastProcessed := r.inCache[0].serial, inCache := r.inCache[1..])
    else r
  }

  /** A datagram whose count byte is 0, from the meeting server or a waiting peer, with its sender's address. */
  datatype SideNote = SideNote(sender: nat, payload: seq<byte>)

  function SideNotes(d: seq<byte>, sender: nat): seq<SideNote> {
    if |d| > 5 && d[0] == 0 then [SideNote(sender, d[1..])] else []
  }

  const SSRV_MAX := 999

  /** send_ssrv: what the meeting server and a waiting peer put into a datagram. */
  function ServerDatagram(payload: seq<byte>): Option<seq<byte>> {
    if |payload| > SSRV_MAX then None else Some([0] + payload)
  }

  /** Such a datagram is set aside with exactly the payload it was sent with, if that has five bytes or more, and
      never taken for messages; and no datagram that carries messages is set aside. */
  lemma SideNoteComesBack(payload: seq<byte>, sender: nat, r: Receiver, d: seq<byte>)
    ensures ServerDatagram(payload).Some? <==> |payload| <= SSRV_MAX
    ensures |payload| <= SSRV_MAX ==>
            var sent := ServerDatagram(payload).value;
            && SideNotes(sent, sender) == (if |payload| >= 5 then [SideNote(sender, payload)] else [])
            && Received(r, sent) == r
    ensures Received(r, d) != r ==> SideNotes(d, sender) == []
  {
    assert ([0] + payload)[1..] == payload;
  }

  // ----- the endpoint itself -----

  class P2PEndpoint {
    var lastSent: byte
    var outCache: seq<Msg>
    var lastProcessed: byte
    var lastCached: byte
    var inCache: seq<Msg>
    var hasDataWaiting: bool
    var sideNotes: seq<SideNote>

    ghost function Rx(): Receiver
      reads this
    {
      Receiver(lastProcessed, lastCached, inCache)
    }

    ghost predicate Valid()
      reads this
    {
      |outCache| < CACHE_SIZE && |inCache| <= CACHE_SIZE
    }

    constructor ()
      ensures Valid() && outCache == [] && lastSent == 0 && Rx() == Receiver(0, 0xFF, []) && !hasDataWaiting
              && sideNotes == []
    {
      lastSent, lastProcessed, lastCached := 0, 0, 0xFF;
      outCache, inCache, hasDataWaiting, sideNotes := [], [], false, [];
    }

    /** Queues one message, dropping the oldest once 31 are kept, and transmits. */
    method Send(body: seq<byte>, ipm: int) returns (packet: seq<byte>)
      requires Valid() && 0 < |body| <= 0x100
      modifies this`lastSent, this`outCache
      ensures Valid()
      ensures outCache == (if |old(outCache)| == CACHE_SIZE - 1 then old(outCache)[1..] else old(outCache))
                          + [Msg(old(lastSent), Carried(body))]
      ensures lastSent == (old(lastSent) + 1) % 0x100
      ensures packet == Transmission(EncodeMsg, outCache, ipm)
    {
      var vx := lastSent;
      lastSent := (lastSent + 1) % 0x100;
      if |outCache| == CACHE_SIZE - 1 {
        outCache := outCache[1..];
      }
      outCache := outCache + [Msg(vx, Carried(body))];
      packet := SendMessage(ipm);
    }

    method SendMessage(limit: int) returns (packet: seq<byte>)
      requires Valid()
      ensures packet == Transmission(EncodeMsg, outCache, limit)
    {
      var sent, payload := PackNewest(EncodeMsg, outCache, limit);
      packet := [sent] + payload;
    }

    /** The part of check_recv and check_recvx that digests one datagram from the peer. */
    method Digest(d: seq<byte>)
      requires Valid()
      modifies this`inCache, this`lastCached
      ensures Valid() && Rx() == Received(old(Rx()), d)
    {
      if |d| < 1 + HEAD_SIZE || d[0] == 0 || d[0] >= BUNDLE_LIMIT {
        return;
      }
      var tx := Ahead(d[1], lastCached);
      if 0 < tx < BUNDLE_LIMIT {
        if |inCache| + tx > CACHE_SIZE {
          inCache := [];
        }
        inCache := inCache + HolesOf(tx);
        FillFrom(d, tx);
        lastCached := d[1];
      }
    }

    /** Stores a message in the slot its serial calls for, if there is one. */
    method FillSlot(m: Msg, tx: nat)
      requires tx <= |inCache|
      modifies this`inCache
      ensures inCache == Fill(old(inCache), tx, lastCached, m)
    {
      var cix := Ahead(m.serial, lastCached);
      if cix == 0 || cix > tx {
        return;
      }
      inCache := inCache[|inCache| - tx + cix - 1 := m];
    }

    /** One turn of the loop: the message at ptr goes to its slot, or ends the reading. */
    method FillNext(d: seq<byte>, ptr: nat, tx: nat, ghost left: nat, ghost goal: seq<Msg>)
      returns (more: bool, next: nat)
      requires left > 0 && FillsTo(inCache, tx, lastCached, d, ptr, left, goal)
      modifies this`inCache
      ensures |inCache| == |old(inCache)|
      ensures if more then ptr <= next && FillsTo(inCache, tx, lastCached, d, next, left - 1, goal) else inCache == goal
    {
      more, next := false, ptr;
      if |d| - ptr < HEAD_SIZE || d[ptr] == lastCached || |d| < ptr + HEAD_SIZE + d[ptr + 1] {
        FillStops(inCache, tx, lastCached, d, ptr, left, goal);
        return;
      }
      more, next := true, ptr + HEAD_SIZE + d[ptr + 1];
      var m := Msg(d[ptr], d[ptr + HEAD_SIZE..next]);
      FillGoesOn(inCache, tx, lastCached, d, ptr, left, goal, m, next);
      FillSlot(m, tx);
    }

    method FillFrom(d: seq<byte>, tx: nat)
      requires Valid() && |d| > 0 && tx <= |inCache|
      modifies this`inCache
      ensures Valid() && inCache == FillAll(old(inCache), tx, lastCached, Readable(d[1..], d[0], lastCached))
    {
      var ptr, u := 1, 0;
      ghost var left: nat, goal := d[0], FillAll(inCache, tx, lastCached, Readable(d[1..], d[0], lastCached));
      while u < d[0]
        invariant 0 <= u <= d[0] && 1 <= ptr && left == d[0] - u && |inCache| == |old(inCache)|
        invariant FillsTo(inCache, tx, lastCached, d, ptr, left, goal)
      {
        var more, next := FillNext(d, ptr, tx, left, goal);
        if !more {
          return;
        }
        ptr, u, left := next, u + 1, left - 1;
      }
      NothingLeft(inCache, tx, lastCached, d, ptr, goal);
    }

    /** Hands over the head of the queue. */
    method TakeHead(cap: int, leaveInQueue: bool) returns (result: Option<seq<byte>>)
      requires Valid()
      modifies this`inCache, this`lastProcessed
      ensures Valid() && Rx() == AfterOffer(old(Rx()), cap, leaveInQueue)
      ensures result == if CanOffer(old(Rx()), cap) then Some(old(inCache)[0].body) else None
    {
      if inCache == [] || cap <= 0 || |inCache[0].body| > cap {
        return None;
      }
      result := Some(inCache[0].body);
      if !leaveInQueue {
        lastProcessed := inCache[0].serial;
        inCache := inCache[1..];
      }
    }

    /** `read` is what the socket yields, with its sender's address, when it is flagged as ready; `fromPeer`
        whether that is the peer's address, or no address is set yet. */
    method CheckRecv(read: Option<seq<byte>>, sender: nat, fromPeer: bool, cap: int, leaveInQueue: bool)
      returns (result: Option<seq<byte>>)
      requires Valid()
      modifies this`inCache, this`lastCached, this`lastProcessed, this`hasDataWaiting, this`sideNotes
      ensures Valid() && !hasDataWaiting
      ensures var d := if old(hasDataWaiting) && read.Some? then read.value else [];
              var r := if fromPeer then Received(old(Rx()), d) else old(Rx());
              && Rx() == AfterOffer(r, cap, leaveInQueue)
              && result == (if CanOffer(r, cap) then Some(r.inCache[0].body) else None)
              && sideNotes == old(sideNotes) + SideNotes(d, sender)
    {
      if hasDataWaiting {
        hasDataWaiting := false;
        if read.Some? {
          var d := read.value;
          if |d| > 5 && d[0] == 0 {
            sideNotes := sideNotes + [SideNote(sender, d[1..])];
          } else if fromPeer {
            Digest(d);
          }
        }
      }
      result := TakeHead(cap, leaveInQueue);
    }

    /** The same during a game, when only the peer is listened to. */
    method CheckRecvX(read: Option<seq<byte>>, fromPeer: bool, cap: int) returns (result: Option<seq<byte>>)
      requires Valid()
      modifies this`inCache, this`lastCached, this`lastProcessed, this`hasDataWaiting
      ensures Valid() && !hasDataWaiting
      ensures var d := if old(hasDataWaiting) && fromPeer && read.Some? then read.value else [];
              var r := Received(old(Rx()), d);
              && Rx() == AfterOffer(r, cap, false)
              && result == (if CanOffer(r, cap) then Some(r.inCache[0].body) else None)
    {
      if hasDataWaiting {
        hasDataWaiting := false;
        if read.Some? && fromPeer {
          Digest(read.value);
        }
      }
      result := TakeHead(cap, false);
    }

    /** The oldest of the side notes. */
    method ReceiveSideNote() returns (note: Option<SideNote>)
      modifies this`sideNotes
      ensures if old(sideNotes) == [] then note.None? && sideNotes == []
              else note.Some? && [note.value] + sideNotes == old(sideNotes)
    {
      if sideNotes == [] {
        return None;
      }
      note := Some(sideNotes[0]);
      sideNotes := sideNotes[1..];
    }

    /** A datagram waits to be read, or a caller with room enough would be handed an instruction. */
    method HasData() returns (b: bool)
      ensures b <==> hasDataWaiting || exists cap :: CanOffer(Rx(), cap)
    {
      b := inCache != [] || hasDataWaiting;
      assert inCache != [] ==> CanOffer(Rx(), 1 + |inCache[0].body|);
    }
  }
}
