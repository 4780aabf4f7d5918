/** The reliable-UDP endpoint of the Kaillera client (kcore/k_message.h): the sender's ring of
    recent messages, the bundle format, and the receiver's window of slots. */
module KMessage {
  import opened Bundles
  import opened Bytes

  const CACHE_SIZE := 16
  const HOLE_SKIP_MS := 250
  const BODY_MAX := 0x4E20
  const HEAD_SIZE := 4

  datatype Msg = Msg(serial: u16, body: seq<byte>)

  /** A parsed datagram: the serial its first head names, and the messages that could be read. */
  datatype Bundle = Bundle(latest: u16, count: byte, msgs: seq<Msg>)

  /** One entry of in_cache; a slot whose message has not arrived is a Hole. */
  datatype Slot = Hole(serial: u16) | Filled(serial: u16, body: seq<byte>)

  datatype Receiver = Receiver(lastProcessed: u16, lastCached: u16, inCache: seq<Slot>,
                               holePending: bool, holeSince: u32, holesSkipped: nat)

  function Ahead(latest: u16, from: u16): u16 {
    (latest - from) % 0x1_0000
  }

  // ----- the wire format -----

  function EncodeMsg(m: Msg): (s: seq<byte>)
    ensures |s| == HEAD_SIZE + |m.body|
  {
    Le16(m.serial) + Le16(|m.body| % 0x1_0000) + m.body
  }

  /** Reads at most n messages off the front of s, stopping at the first malformed one. */
  function ParseMsgs(s: seq<byte>, n: nat): (r: seq<Msg>)
    ensures |r| <= n
    decreases n
  {
    if n == 0 || |s| < HEAD_SIZE then []
    else
      var length := FromLe16(s[2..4]);
      if length == 0 || length > BODY_MAX || |s| - HEAD_SIZE < length then []
      else [Msg(FromLe16(s[..2]), s[4..4 + length])] + ParseMsgs(s[4 + length..], n - 1)
  }

  function ParseBundle(d: seq<byte>): Option<Bundle> {
    if |d| < 1 + HEAD_SIZE || d[0] == 0 then None
    else Some(Bundle(FromLe16(d[1..3]), d[0], ParseMsgs(d[1..], d[0])))
  }

  // ----- what one call does to the receiver -----

  function Freed(r: Receiver): Receiver {
    r.(inCache := [], holePending := false)
  }

  /** Ten or more serials ahead: everything in between is given up and the window restarts just
      below the messages this bundle can carry. */
  function Resynced(r: Receiver, latest: u16, count: byte): Receiver {
    if 10 <= Ahead(latest, r.lastCached) < 0x8000 then
      Freed(r).(lastCached := (latest - Min(count, 9)) % 0x1_0000)
    else r
  }

  function Holes(from: u16, n: nat): (s: seq<Slot>)
    ensures |s| == n
    ensures forall i :: 0 <= i < n ==> s[i] == Hole((from + 1 + i) % 0x1_0000)
  {
    seq(n, i requires 0 <= i < n => Hole((from + 1 + i) % 0x1_0000))
  }

  /** Fewer than ten serials ahead: that many empty slots are appended. */
  function Extended(r: Receiver, latest: u16): Receiver {
    var tx := Ahead(latest, r.lastCached);
    if 0 < tx < 10 then
      var r0 := if |r.inCache| + tx > CACHE_SIZE then Freed(r) else r;
      r0.(inCache := r0.inCache + Holes(r.lastCached, tx), lastCached := latest)
    else r
  }

  function Fill(r: Receiver, m: Msg): (r': Receiver)
    ensures |r'.inCache| == |r.inCache| && r' == r.(inCache := r'.inCache)
  {
    var n := |r.inCache|;
    var back := Ahead(r.lastCached, m.serial);
    if back >= n || r.inCache[n - 1 - back].Filled? then r
    else r.(inCache := r.inCache[n - 1 - back := Filled(m.serial, m.body)])
  }

  function FillAll(r: Receiver, ms: seq<Msg>): (r': Receiver)
    ensures |r'.inCache| == |r.inCache| && r' == r.(inCache := r'.inCache)
    decreases |ms|
  {
    if ms == [] then r else FillAll(Fill(r, ms[0]), ms[1..])
  }

  /** Where filling from the n messages that can still be read of d at ptr leads. */
  ghost predicate FillsTo(r: Receiver, d: seq<byte>, ptr: nat, n: nat, goal: Receiver) {
    ptr <= |d| && FillAll(r, ParseMsgs(d[ptr..], n)) == goal
  }

  function Accept(r: Receiver, b: Bundle): Receiver {
    FillAll(Extended(Resynced(r, b.latest, b.count), b.latest), b.msgs)
  }

  /** How many holes stand at the head of the queue. */
  function LeadingHoles(q: seq<Slot>): (n: nat)
    ensures n <= |q|
    ensures forall i :: 0 <= i < n ==> q[i].Hole?
    ensures n < |q| ==> q[n].Filled?
  {
    if q == [] || q[0].Filled? then 0 else 1 + LeadingHoles(q[1..])
  }

  predicate HoleExpired(r: Receiver, now: u32) {
    r.inCache != [] && r.inCache[0].Hole? && r.holePending &&
    (now - r.holeSince) % 0x1_0000_0000 >= HOLE_SKIP_MS
  }

  function SkipStale(r: Receiver, now: u32): Receiver {
    if r.inCache == [] || r.inCache[0].Filled? then r.(holePending := false)
    else if !r.holePending then r.(holePending := true, holeSince := now)
    else if !HoleExpired(r, now) then r
    else
      var k := LeadingHoles(r.inCache);
      r.(lastProcessed := r.inCache[k - 1].serial, inCache := r.inCache[k..],
         holePending := false, holesSkipped := r.holesSkipped + k)
  }

  datatype Taken = Nothing | TooLarge | Got(body: seq<byte>)

  /** What the caller is handed from the head of the queue. */
  function Offer(r: Receiver, cap: int): Taken {
    if r.inCache == [] || r.inCache[0].Hole? || cap <= 0 then Nothing
    else if |r.inCache[0].body| > cap then TooLarge
    else Got(r.inCache[0].body)
  }

  function AfterOffer(r: Receiver, cap: int, leaveInQueue: bool): Receiver {
    if leaveInQueue then r
    else match Offer(r, cap)
      case Nothing => r
      case TooLarge => r.(inCache := r.inCache[1..])
      case Got(_) => r.(lastProcessed := r.inCache[0].serial, inCache := r.inCache[1..])
  }

  /** The whole of check_recv once a datagram was (or was not) read from the socket. */
  function Received(r: Receiver, d: Option<seq<byte>>): Receiver {
    if d.Some? && ParseBundle(d.value).Some? then Accept(r, ParseBundle(d.value).value) else r
  }

  lemma HeadOf(d: seq<byte>, ptr: nat, length: nat)
    requires ptr + HEAD_SIZE <= |d|
    ensures d[ptr..][..2] == d[ptr..ptr + 2] && d[ptr..][2..4] == d[ptr + 2..ptr + 4]
    ensures ptr + HEAD_SIZE + length <= |d| ==>
              && d[ptr..][4..4 + length] == d[ptr + 4..ptr + 4 + length]
              && d[ptr..][4 + length..] == d[ptr + 4 + length..]
  {
  }

  /** The loop that reads a bundle's messages ends at the first that is malformed or cut off. */
  lemma FillStops(r: Receiver, d: seq<byte>, ptr: nat, n: nat, goal: Receiver)
    requires FillsTo(r, d, ptr, n, goal)
    requires n > 0 && |d| - ptr >= HEAD_SIZE ==>
               var length := FromLe16(d[ptr + 2..ptr + 4]);
               length == 0 || length > BODY_MAX || |d| < ptr + HEAD_SIZE + length
    ensures r == goal
  {
    if n > 0 && |d| - ptr >= HEAD_SIZE {
      HeadOf(d, ptr, FromLe16(d[ptr + 2..ptr + 4]));
    }
  }

  /** And goes on behind any other. */
  lemma FillGoesOn(r: Receiver, d: seq<byte>, ptr: nat, n: nat, goal: Receiver, m: Msg, next: nat)
    requires FillsTo(r, d, ptr, n, goal) && n > 0 && |d| - ptr >= HEAD_SIZE
    requires 0 < FromLe16(d[ptr + 2..ptr + 4]) <= BODY_MAX
             && next == ptr + HEAD_SIZE + FromLe16(d[ptr + 2..ptr + 4]) <= |d|
    requires m == Msg(FromLe16(d[ptr..ptr + 2]), d[ptr + HEAD_SIZE..next])
    ensures FillsTo(Fill(r, m), d, next, n - 1, goal)
  {
    HeadOf(d, ptr, FromLe16(d[ptr + 2..ptr + 4]));
  }

  // ----- the endpoint itself -----

  class Endpoint {
    var lastSent: u16
    var outCache: seq<Msg>
    var lastProcessed: u16
    var lastCached: u16
    var inCache: seq<Slot>
    var holePending: bool
    var holeSince: u32
    var holesSkipped: nat
    var hasDataWaiting: bool

    ghost function Rx(): Receiver
      reads this
    {
      Receiver(lastProcessed, lastCached, inCache, holePending, holeSince, holesSkipped)
    }

    ghost predicate Valid()
      reads this
    {
      && |outCache| < CACHE_SIZE
      && |inCache| <= CACHE_SIZE
      && forall i :: 0 <= i < |outCache| ==> 0 < |outCache[i].body| < 0x1_0000
    }

    constructor ()
      ensures Valid() && outCache == [] && lastSent == 0 && !hasDataWaiting
      ensures Rx() == Receiver(0, 0xFFFF, [], false, 0, 0)
    {
      lastSent, lastProcessed, lastCached := 0, 0, 0xFFFF;
      outCache, inCache := [], [];
      holePending, holeSince, holesSkipped, hasDataWaiting := false, 0, 0, false;
    }

    /** Queues one message, dropping the oldest once 15 are kept, and transmits. */
    method Send(body: seq<byte>, ipm: int) returns (packet: seq<byte>)
      requires Valid() && 0 < |body| < 0x1_0000
      modifies this
      ensures Valid()
      ensures outCache == (if |old(outCache)| == CACHE_SIZE - 1 then old(outCache)[1..] else old(outCache))
                          + [Msg(old(lastSent), body)]
      ensures lastSent == (old(lastSent) + 1) % 0x1_0000
      ensures Rx() == old(Rx()) && hasDataWaiting == old(hasDataWaiting)
      ensures packet == Transmission(EncodeMsg, outCache, ipm)
    {
      var vx := lastSent;
      lastSent := (lastSent + 1) % 0x1_0000;
      if |outCache| == CACHE_SIZE - 1 {
        outCache := outCache[1..];
      }
      outCache := outCache + [Msg(vx, body)];
      packet := SendMessage(ipm);
    }

    /** Bundles the newest messages, as many as `limit` and the 4096-byte buffer allow. */
    method SendMessage(limit: int) returns (packet: seq<byte>)
      requires Valid()
      ensures packet == Transmission(EncodeMsg, outCache, limit)
    {
      var sent, payload := PackNewest(EncodeMsg, outCache, limit);
      packet := [sent] + payload;
    }

    /** Stores a message in its slot if that slot is still empty. */
    method FillSlot(serial: u16, body: seq<byte>)
      modifies this`inCache
      ensures Rx() == Fill(old(Rx()), Msg(serial, body))
    {
      var back := Ahead(lastCached, serial);
      var n := |inCache|;
      if back >= n || inCache[n - 1 - back].Filled? {
        return;
      }
      inCache := inCache[n - 1 - back := Filled(serial, body)];
    }

    method FreeInCache()
      modifies this`inCache, this`holePending
      ensures Rx() == Freed(old(Rx()))
    {
      inCache := [];
      holePending := false;
    }

    method SkipStaleHoles(now: u32)
      modifies this
      ensures Rx() == SkipStale(old(Rx()), now)
      ensures |inCache| <= |old(inCache)|
      ensures outCache == old(outCache) && lastSent == old(lastSent) && hasDataWaiting == old(hasDataWaiting)
    {
      if inCache == [] || inCache[0].Filled? {
        holePending := false;
        return;
      }
      if !holePending {
        holePending, holeSince := true, now;
        return;
      }
      if (now - holeSince) % 0x1_0000_0000 < HOLE_SKIP_MS {
        return;
      }
      ghost var q := inCache;
      ghost var k := LeadingHoles(q);
      ghost var done := 0;
      while |inCache| > 0 && inCache[0].Hole?
        invariant 0 <= done <= k && inCache == q[done..]
        invariant holesSkipped == old(holesSkipped) + done
        invariant lastProcessed == if done == 0 then old(lastProcessed) else q[done - 1].serial
        invariant lastCached == old(lastCached) && holeSince == old(holeSince)
        invariant outCache == old(outCache) && lastSent == old(lastSent) && hasDataWaiting == old(hasDataWaiting)
        decreases |inCache|
      {
        lastProcessed := inCache[0].serial;
        inCache := inCache[1..];
        holesSkipped := holesSkipped + 1;
        done := done + 1;
      }
      holePending := false;
    }

    /** Makes the window reach `latest`: resynchronises after a big jump, appends empty slots after
        a small one. */
    method OpenWindow(latest: u16, count: byte)
      requires Valid()
      modifies this`inCache, this`lastCached, this`holePending
      ensures Valid()
      ensures Rx() == Extended(Resynced(old(Rx()), latest, count), latest)
    {
      var tx := Resync(latest, count);
      ExtendBy(latest, tx);
    }

    method Resync(latest: u16, count: byte) returns (tx: nat)
      requires Valid()
      modifies this`inCache, this`lastCached, this`holePending
      ensures Valid() && Rx() == Resynced(old(Rx()), latest, count) && tx == Ahead(latest, lastCached)
    {
      tx := Ahead(latest, lastCached);
      if 10 <= tx < 0x8000 {
        var k := Min(count, 9);
        FreeInCache();
        lastCached := (latest - k) % 0x1_0000;
        tx := k;
      }
    }

    method ExtendBy(latest: u16, tx: nat)
      requires Valid() && tx == Ahead(latest, lastCached)
      modifies this`inCache, this`lastCached, this`holePending
      ensures Valid() && Rx() == Extended(old(Rx()), latest)
    {
      if 0 < tx < 10 {
        ghost var r := Rx();
        if |inCache| + tx > CACHE_SIZE {
          FreeInCache();
        }
        var i := 0;
        ghost var kept := Rx();
        while i < tx
          invariant 0 <= i <= tx
          invariant Rx() == kept.(inCache := kept.inCache + Holes(r.lastCached, tx)[..i])
        {
          inCache := inCache + [Hole((lastCached + 1 + i) % 0x1_0000)];
          i := i + 1;
        }
        assert Holes(r.lastCached, tx)[..i] == Holes(r.lastCached, tx);
        lastCached := latest;
      }
    }

    /** One turn of the loop: the message at ptr fills its slot, or ends the reading. */
    method FillNext(d: seq<byte>, ptr: nat, ghost left: nat, ghost goal: Receiver) returns (more: bool, next: nat)
      requires left > 0 && FillsTo(Rx(), d, ptr, left, goal)
      modifies this`inCache
      ensures |inCache| == |old(inCache)|
      ensures if more then ptr <= next && FillsTo(Rx(), d, next, left - 1, goal) else Rx() == goal
    {
      more, next := false, ptr;
      if |d| - ptr < HEAD_SIZE {
        FillStops(Rx(), d, ptr, left, goal);
        return;
      }
      var length := FromLe16(d[ptr + 2..ptr + 4]);
      if length == 0 || length > BODY_MAX || |d| < ptr + HEAD_SIZE + length {
        FillStops(Rx(), d, ptr, left, goal);
        return;
      }
      more, next := true, ptr + HEAD_SIZE + length;
      var m := Msg(FromLe16(d[ptr..ptr + 2]), d[ptr + HEAD_SIZE..next]);
      FillGoesOn(Rx(), d, ptr, left, goal, m, next);
      FillSlot(m.serial, m.body);
    }

    /** Lets each message that can be read from d fill the slot it belongs to. */
    method FillFrom(d: seq<byte>)
      requires Valid() && |d| > 0
      modifies this`inCache
      ensures Valid()
      ensures Rx() == FillAll(old(Rx()), ParseMsgs(d[1..], d[0]))
    {
      var ptr, u := 1, 0;
      ghost var left: nat, goal := d[0], FillAll(Rx(), ParseMsgs(d[1..], d[0]));
      while u < d[0]
        invariant 0 <= u <= d[0] && 1 <= ptr && left == d[0] - u && |inCache| == |old(inCache)|
        invariant FillsTo(Rx(), d, ptr, left, goal)
      {
        var more, next := FillNext(d, ptr, left, goal);
        if !more {
          return;
        }
        ptr, u, left := next, u + 1, left - 1;
      }
      FillStops(Rx(), d, ptr, left, goal);
    }

    /** The part of check_recv that digests one datagram from the connected peer. */
    method Digest(d: seq<byte>)
      requires Valid()
      modifies this`inCache, this`lastCached, this`holePending
      ensures Valid()
      ensures Rx() == Received(old(Rx()), Some(d))
    {
      if |d| < 1 + HEAD_SIZE || d[0] == 0 {
        return;
      }
      OpenWindow(FromLe16(d[1..3]), d[0]);
      FillFrom(d);
    }

    /** check_recv: `read` is what the socket yields when it was flagged as ready (None when the read
        fails), `fromPeer` whether it came from the connected address. */
    method CheckRecv(read: Option<seq<byte>>, fromPeer: bool, cap: int, leaveInQueue: bool, now: u32)
      returns (result: Option<seq<byte>>)
      requires Valid()
      modifies this
      ensures Valid() && !hasDataWaiting
      ensures outCache == old(outCache) && lastSent == old(lastSent)
      ensures var d := if old(hasDataWaiting) && fromPeer then read else None;
              var r := SkipStale(Received(old(Rx()), d), now);
              Rx() == AfterOffer(r, cap, leaveInQueue) &&
              result == (if Offer(r, cap).Got? then Some(Offer(r, cap).body) else None)
    {
      result := None;
      if hasDataWaiting {
        hasDataWaiting := false;
        if read.Some? && fromPeer {
          Digest(read.value);
        }
      }
      SkipStaleHoles(now);
      if |inCache| > 0 {
        if inCache[0].Hole? || cap <= 0 {
          return;
        }
        if |inCache[0].body| > cap {
          if !leaveInQueue {
            inCache := inCache[1..];
          }
          return;
        }
        result := Some(inCache[0].body);
        if !leaveInQueue {
          lastProcessed := inCache[0].serial;
          inCache := inCache[1..];
        }
      }
    }

    /** True only when a message can be delivered or a datagram waits to be read. */
    method HasData(now: u32) returns (b: bool)
      requires Valid()
      modifies this
      ensures Valid()
      ensures Rx() == SkipStale(old(Rx()), now)
      ensures outCache == old(outCache) && lastSent == old(lastSent) && hasDataWaiting == old(hasDataWaiting)
      ensures b <==> (hasDataWaiting || (inCache != [] && inCache[0].Filled?))
    {
      SkipStaleHoles(now);
      if |inCache| > 0 && inCache[0].Filled? {
        return true;
      }
      return hasDataWaiting;
    }
  }
}
