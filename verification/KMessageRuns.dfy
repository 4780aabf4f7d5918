/** Whole runs of a Kaillera message link: one sender, one receiver, and a network that may lose,
    duplicate and reorder every datagram it was ever given. */
module KMessageRuns {
  import opened Bundles
  import opened Bytes
  import opened KMessage

  /** A datagram in the network, with the unwrapped serial of the newest message it could carry. */
  datatype Packet = Packet(newest: int, data: seq<byte>)

  /** What became of a serial that has left the receiver's window. */
  datatype Fate = Delivered | Skipped | Abandoned | Oversized

  /** `cached` is last_cached_instruction without the 16-bit wrap; `fate` has one entry for every
      serial below the window. `holeAt` is the serial of the pending hole at the head of the window and
      `seen` the real time at which it was first found there. */
  datatype World = World(sent: seq<seq<byte>>, lastSent: u16, outCache: seq<Msg>, net: seq<Packet>,
                         rx: Receiver, cached: int, fate: seq<Fate>, delivered: seq<(nat, seq<byte>)>,
                         time: nat, seen: nat, holeAt: nat)

  datatype Event =
    | Send(body: seq<byte>, ipm: int)
    | Resend(limit: int)
    | Receive(packet: Option<nat>, cap: int, leaveInQueue: bool)
    | Poll
    | Wait(ms: nat)

  const START := World([], 0, [], [], Receiver(0, 0xFFFF, [], false, 0, 0), -1, [], [], 0, 0, 0)

  function Tick(time: nat): u32 {
    time % 0x1_0000_0000
  }

  /** The receiver still classifies this datagram correctly: it is at most 2^15 serials behind the
      newest one seen, and less than a whole turn of the counter ahead. */
  predicate InWindow(p: Packet, cached: int) {
    ParseBundle(p.data).Some? ==> -0x8000 <= p.newest - cached <= 0x1_0000 - CACHE_SIZE
  }

  ghost predicate Allowed(w: World, e: Event) {
    match e
    case Send(body, _) => 0 < |body| < 0x1_0000
    case Receive(Some(i), _, _) => i < |w.net| && InWindow(w.net[i], w.cached)
    case _ => true
  }

  function Transmitted(w: World, limit: int): World
    requires |w.outCache| < CACHE_SIZE
  {
    w.(net := w.net + [Packet(|w.sent| - 1, Transmission(EncodeMsg, w.outCache, limit))])
  }

  function Sent(w: World, body: seq<byte>): World {
    var kept := if |w.outCache| == CACHE_SIZE - 1 then w.outCache[1..] else w.outCache;
    w.(sent := w.sent + [body], outCache := kept + [Msg(w.lastSent, body)],
       lastSent := (w.lastSent + 1) % 0x1_0000)
  }

  function Repeat(f: Fate, n: int): seq<Fate> {
    if n <= 0 then [] else seq(n, _ => f)
  }

  /** Reading one datagram: serials the window moved past were abandoned. */
  function Digested(w: World, p: Packet): World {
    var rx := Received(w.rx, Some(p.data));
    var moved := ParseBundle(p.data).Some? && 0 < Ahead(ParseBundle(p.data).value.latest, w.rx.lastCached) < 0x8000;
    var cached := if moved then p.newest else w.cached;
    w.(rx := rx, cached := cached,
       fate := w.fate + Repeat(Abandoned, cached + 1 - |rx.inCache| - |w.fate|))
  }

  function Swept(w: World): World {
    var rx := SkipStale(w.rx, Tick(w.time));
    var found := rx.holePending && !w.rx.holePending;
    w.(rx := rx, fate := w.fate + Repeat(Skipped, |w.rx.inCache| - |rx.inCache|),
       seen := if found then w.time else w.seen, holeAt := if found then |w.fate| else w.holeAt)
  }

  function Handed(w: World, cap: int, leaveInQueue: bool): World {
    if leaveInQueue then w
    else
      var rx := AfterOffer(w.rx, cap, false);
      match Offer(w.rx, cap)
      case Nothing => w
      case TooLarge => w.(rx := rx, fate := w.fate + [Oversized])
      case Got(body) => w.(rx := rx, fate := w.fate + [Delivered], delivered := w.delivered + [(|w.fate|, body)])
  }

  function Step(w: World, e: Event): World
    requires |w.outCache| < CACHE_SIZE
  {
    match e
    case Send(body, ipm) => Transmitted(Sent(w, body), ipm)
    case Resend(limit) => Transmitted(w, limit)
    case Receive(packet, cap, leave) =>
      var w1 := if packet.Some? && packet.value < |w.net| then Digested(w, w.net[packet.value]) else w;
      Handed(Swept(w1), cap, leave)
    case Poll => Swept(w)
    case Wait(ms) => w.(time := w.time + ms)
  }

  // ----- the invariant -----

  ghost predicate SenderOk(w: World) {
    var n, base := |w.outCache|, |w.sent| - |w.outCache|;
    && w.lastSent == |w.sent| % 0x1_0000
    && n < CACHE_SIZE && base >= 0
    && (forall i :: 0 <= i < n ==> w.outCache[i] == Msg((base + i) % 0x1_0000, w.sent[base + i]))
    && (forall i :: 0 <= i < |w.sent| ==> 0 < |w.sent[i]| < 0x1_0000)
  }

  /** A bundle carries consecutive messages exactly as they were sent, newest first. */
  ghost predicate BundleOk(b: Bundle, newest: int, sent: seq<seq<byte>>) {
    && 0 <= newest < |sent|
    && 0 < b.count == |b.msgs| < CACHE_SIZE && b.count <= newest + 1
    && b.latest == newest % 0x1_0000
    && (forall j :: 0 <= j < |b.msgs| ==> b.msgs[j] == Msg((newest - j) % 0x1_0000, sent[newest - j]))
  }

  ghost predicate PacketOk(p: Packet, sent: seq<seq<byte>>) {
    ParseBundle(p.data).Some? ==> BundleOk(ParseBundle(p.data).value, p.newest, sent)
  }

  ghost predicate SlotOk(s: Slot, u: int, sent: seq<seq<byte>>) {
    && 0 <= u < |sent|
    && s.serial == u % 0x1_0000
    && (s.Filled? ==> s.body == sent[u])
  }

  /** The window is the contiguous run of serials that ends at `cached`. */
  ghost predicate WindowOk(r: Receiver, cached: int, sent: seq<seq<byte>>) {
    var n := |r.inCache|;
    && -1 <= cached < |sent|
    && r.lastCached == cached % 0x1_0000
    && n <= CACHE_SIZE && n <= cached + 1
    && (forall i :: 0 <= i < n ==> SlotOk(r.inCache[i], cached + 1 - n + i, sent))
  }

  function DeliveredOf(fate: seq<Fate>, sent: seq<seq<byte>>): seq<(nat, seq<byte>)>
    requires |fate| <= |sent|
  {
    if fate == [] then []
    else
      var n := |fate| - 1;
      DeliveredOf(fate[..n], sent) + if fate[n] == Delivered then [(n, sent[n])] else []
  }

  ghost predicate LedgerOk(w: World) {
    && |w.fate| + |w.rx.inCache| == w.cached + 1 <= |w.sent|
    && w.delivered == DeliveredOf(w.fate, w.sent)
  }

  /** The recorded tick is that of the moment the hole now at the head was first found there. */
  ghost predicate TimerOk(w: World) {
    w.rx.holePending ==>
      w.rx.inCache != [] && w.holeAt == |w.fate| && w.seen <= w.time && w.rx.holeSince == Tick(w.seen)
  }

  ghost predicate ClockOk(w: World) {
    TimerOk(w) && (w.rx.holePending ==> w.rx.inCache[0].Hole?)
  }

  ghost predicate Inv(w: World) {
    && SenderOk(w)
    && (forall p :: p in w.net ==> PacketOk(p, w.sent))
    && WindowOk(w.rx, w.cached, w.sent)
    && LedgerOk(w)
    && ClockOk(w)
  }

  // ----- bundles survive the wire -----

  lemma EncodeMsgParses(m: Msg, tail: seq<byte>, n: nat)
    requires n > 0 && 0 < |m.body| <= BODY_MAX
    ensures ParseMsgs(EncodeMsg(m) + tail, n) == [m] + ParseMsgs(tail, n - 1)
  {
    var s := EncodeMsg(m) + tail;
    Le16RoundTrip(m.serial);
    Le16RoundTrip(|m.body|);
    assert s[..2] == Le16(m.serial) && s[2..4] == Le16(|m.body|);
    assert s[4..4 + |m.body|] == m.body && s[4 + |m.body|..] == tail;
  }

  lemma {:induction false} EncodeAllParses(ms: seq<Msg>)
    requires forall i :: 0 <= i < |ms| ==> 0 < |ms[i].body| <= BODY_MAX
    ensures ParseMsgs(EncodeAll(EncodeMsg, ms), |ms|) == ms
  {
    if ms == [] {
    } else {
      EncodeMsgParses(ms[0], EncodeAll(EncodeMsg, ms[1..]), |ms|);
      EncodeAllParses(ms[1..]);
    }
  }

  /** Parsing a transmission gives back exactly the messages it packed. */
  lemma TransmissionParses(out: seq<Msg>, limit: int)
    requires |out| < CACHE_SIZE
    requires forall i :: 0 <= i < |out| ==> 0 < |out[i].body|
    ensures var ms := Packed(EncodeMsg, out, limit, PACKET_MAX - 1);
            ParseBundle(Transmission(EncodeMsg, out, limit)) ==
            if ms == [] then None else Some(Bundle(ms[0].serial, |ms|, ms))
  {
    var ms := Packed(EncodeMsg, out, limit, PACKET_MAX - 1);
    PackedIsNewestFirst(EncodeMsg, out, limit, PACKET_MAX - 1);
    forall i | 0 <= i < |ms|
      ensures 0 < |ms[i].body| <= BODY_MAX
    {
      assert ms[i] == out[|out| - 1 - i];
    }
    EncodeAllParses(ms);
    var d := Transmission(EncodeMsg, out, limit);
    assert d[1..] == EncodeAll(EncodeMsg, ms);
    if ms != [] {
      assert EncodeAll(EncodeMsg, ms) == EncodeMsg(ms[0]) + EncodeAll(EncodeMsg, ms[1..]);
      assert d[1..3] == EncodeAll(EncodeMsg, ms)[..2] == Le16(ms[0].serial);
      Le16RoundTrip(ms[0].serial);
    }
  }

  lemma TransmissionOk(w: World, limit: int)
    requires SenderOk(w)
    ensures PacketOk(Packet(|w.sent| - 1, Transmission(EncodeMsg, w.outCache, limit)), w.sent)
  {
    var ms := Packed(EncodeMsg, w.outCache, limit, PACKET_MAX - 1);
    TransmissionParses(w.outCache, limit);
    PackedIsNewestFirst(EncodeMsg, w.outCache, limit, PACKET_MAX - 1);
    if ms != [] {
      NewestAreAsSent(w, ms);
    }
  }

  lemma NewestAreAsSent(w: World, ms: seq<Msg>)
    requires SenderOk(w) && ms != [] && NewestFirst(EncodeMsg, ms, w.outCache, PACKET_MAX - 1)
    ensures BundleOk(Bundle(ms[0].serial, |ms|, ms), |w.sent| - 1, w.sent)
  {
    forall j | 0 <= j < |ms|
      ensures ms[j] == Msg((|w.sent| - 1 - j) % 0x1_0000, w.sent[|w.sent| - 1 - j])
    {
      assert ms[j] == w.outCache[|w.outCache| - 1 - j];
    }
  }

  lemma {:induction false} DeliveredOfGrows(fate: seq<Fate>, sent: seq<seq<byte>>, more: seq<seq<byte>>)
    requires |fate| <= |sent|
    ensures DeliveredOf(fate, sent + more) == DeliveredOf(fate, sent)
    decreases |fate|
  {
    if fate == [] {
    } else {
      DeliveredOfGrows(fate[..|fate| - 1], sent, more);
    }
  }

  lemma {:induction false} DeliveredOfRepeat(fate: seq<Fate>, f: Fate, n: int, sent: seq<seq<byte>>)
    requires f != Delivered && |fate| + |Repeat(f, n)| <= |sent|
    ensures DeliveredOf(fate + Repeat(f, n), sent) == DeliveredOf(fate, sent)
    decreases n
  {
    if n <= 0 {
      assert fate + Repeat(f, n) == fate;
    } else {
      DeliveredOfRepeat(fate, f, n - 1, sent);
      assert (fate + Repeat(f, n))[..|fate| + n - 1] == fate + Repeat(f, n - 1);
    }
  }

  lemma DeliveredOfSnoc(fate: seq<Fate>, f: Fate, sent: seq<seq<byte>>)
    requires |fate| < |sent|
    ensures DeliveredOf(fate + [f], sent) ==
            DeliveredOf(fate, sent) + if f == Delivered then [(|fate|, sent[|fate|])] else []
  {
    assert (fate + [f])[..|fate|] == fate;
  }

  // ----- every step keeps the invariant -----

  lemma SendKeepsSender(w: World, body: seq<byte>)
    requires SenderOk(w) && 0 < |body| < 0x1_0000
    ensures SenderOk(Sent(w, body))
  {
    NextSerial(|w.sent|);
  }

  lemma NextSerial(n: nat)
    ensures (n % 0x1_0000 + 1) % 0x1_0000 == (n + 1) % 0x1_0000
  {
  }

  lemma WindowStays(r: Receiver, cached: int, sent: seq<seq<byte>>, body: seq<byte>)
    requires WindowOk(r, cached, sent)
    ensures WindowOk(r, cached, sent + [body])
  {
    var n := |r.inCache|;
    forall i | 0 <= i < n
      ensures SlotOk(r.inCache[i], cached + 1 - n + i, sent + [body])
    {
      assert SlotOk(r.inCache[i], cached + 1 - n + i, sent);
    }
  }

  lemma SendKeepsInv(w: World, body: seq<byte>)
    requires Inv(w) && 0 < |body| < 0x1_0000
    ensures Inv(Sent(w, body))
  {
    var w' := Sent(w, body);
    SendKeepsSender(w, body);
    WindowStays(w.rx, w.cached, w.sent, body);
    DeliveredOfGrows(w.fate, w.sent, [body]);
    forall p | p in w'.net
      ensures PacketOk(p, w'.sent)
    {
      assert PacketOk(p, w.sent);
    }
  }

  /** A message fills a slot only if it is the message that slot stands for. */
  lemma FillKeepsWindow(r: Receiver, m: Msg, u: int, cached: int, sent: seq<seq<byte>>)
    requires WindowOk(r, cached, sent)
    requires 0 <= u < |sent| && m == Msg(u % 0x1_0000, sent[u])
    requires -0x1_0000 < u - cached <= 0x1_0000 - CACHE_SIZE
    ensures WindowOk(Fill(r, m), cached, sent)
  {
    BackOf(cached, u);
    var n, back := |r.inCache|, Ahead(r.lastCached, m.serial);
    if back < n && r.inCache[n - 1 - back].Hole? {
      SlotFilled(r.inCache, n - 1 - back, m, cached + 1 - n, sent);
    }
  }

  lemma BackOf(cached: int, u: int)
    requires -0x1_0000 < u - cached <= 0x1_0000 - CACHE_SIZE
    ensures Ahead(cached % 0x1_0000, u % 0x1_0000) < CACHE_SIZE ==> Ahead(cached % 0x1_0000, u % 0x1_0000) == cached - u
  {
    assert Ahead(cached % 0x1_0000, u % 0x1_0000) == (cached - u) % 0x1_0000;
  }

  lemma SlotFilled(q: seq<Slot>, at: nat, m: Msg, base: int, sent: seq<seq<byte>>)
    requires at < |q| && forall i :: 0 <= i < |q| ==> SlotOk(q[i], base + i, sent)
    requires SlotOk(Filled(m.serial, m.body), base + at, sent)
    ensures var q' := q[at := Filled(m.serial, m.body)];
            forall i :: 0 <= i < |q'| ==> SlotOk(q'[i], base + i, sent)
  {
  }

  lemma {:induction false} FillAllKeepsWindow(r: Receiver, ms: seq<Msg>, newest: int, cached: int, sent: seq<seq<byte>>)
    requires WindowOk(r, cached, sent)
    requires |ms| < CACHE_SIZE && -0x1_0000 + CACHE_SIZE <= newest - cached <= 0x1_0000 - CACHE_SIZE
    requires newest < |sent| && |ms| <= newest + 1
    requires forall j :: 0 <= j < |ms| ==> ms[j] == Msg((newest - j) % 0x1_0000, sent[newest - j])
    ensures WindowOk(FillAll(r, ms), cached, sent)
    decreases |ms|
  {
    FillAllKeepsWindowFrom(r, ms, 0, newest, cached, sent);
  }

  lemma {:induction false} FillAllKeepsWindowFrom(r: Receiver, ms: seq<Msg>, k: nat, newest: int, cached: int,
                                                  sent: seq<seq<byte>>)
    requires WindowOk(r, cached, sent)
    requires |ms| + k < CACHE_SIZE && -0x1_0000 + CACHE_SIZE <= newest - cached <= 0x1_0000 - CACHE_SIZE
    requires newest < |sent| && k + |ms| <= newest + 1
    requires forall j :: 0 <= j < |ms| ==> ms[j] == Msg((newest - k - j) % 0x1_0000, sent[newest - k - j])
    ensures WindowOk(FillAll(r, ms), cached, sent)
    decreases |ms|
  {
    if ms == [] {
    } else {
      FillKeepsWindow(r, ms[0], newest - k, cached, sent);
      FillAllKeepsWindowFrom(Fill(r, ms[0]), ms[1..], k + 1, newest, cached, sent);
    }
  }

  lemma AheadOf(u: int, v: int)
    requires 0 <= u - v < 0x1_0000
    ensures Ahead(u % 0x1_0000, v % 0x1_0000) == u - v
  {
  }

  lemma HolesOk(from: u16, u: int, n: nat, sent: seq<seq<byte>>)
    requires from == u % 0x1_0000 && -1 <= u && u + n < |sent|
    ensures forall i :: 0 <= i < n ==> SlotOk(Holes(from, n)[i], u + 1 + i, sent)
  {
    forall i | 0 <= i < n
      ensures SlotOk(Holes(from, n)[i], u + 1 + i, sent)
    {
      assert (from + 1 + i) % 0x1_0000 == (u + 1 + i) % 0x1_0000;
    }
  }

  /** The window r' covers at least what r did, and a hole still pending is the one that was. */
  ghost predicate WindowMoved(r: Receiver, cached: int, r': Receiver, cached': int) {
    && cached + 1 - |r.inCache| <= cached' + 1 - |r'.inCache|
    && r'.holeSince == r.holeSince
    && (r'.holePending ==> r.holePending && |r.inCache| <= |r'.inCache| &&
                           cached + 1 - |r.inCache| == cached' + 1 - |r'.inCache|)
  }

  lemma ResyncMovesWindow(r: Receiver, b: Bundle, newest: int, cached: int, sent: seq<seq<byte>>)
    requires WindowOk(r, cached, sent) && BundleOk(b, newest, sent) && 10 <= newest - cached < 0x8000
    ensures var r' := Extended(Resynced(r, b.latest, b.count), b.latest);
            WindowOk(r', newest, sent) && WindowMoved(r, cached, r', newest)
  {
    var k := Min(b.count, 9);
    var from := (newest - k) % 0x1_0000;
    ResyncLaw(r, b.latest, b.count, newest, cached);
    HolesOk(from, newest - k, k, sent);
  }

  lemma ResyncLaw(r: Receiver, latest: u16, count: byte, newest: int, cached: int)
    requires latest == newest % 0x1_0000 && r.lastCached == cached % 0x1_0000
    requires 10 <= newest - cached < 0x8000 && count > 0
    ensures var k := Min(count, 9);
            Extended(Resynced(r, latest, count), latest) ==
            Freed(r).(inCache := Holes((newest - k) % 0x1_0000, k), lastCached := latest)
  {
    var k := Min(count, 9);
    AheadOf(newest, cached);
    SameSerial(newest, k);
    EmptyExtends(Resynced(r, latest, count), latest, newest, k);
  }

  lemma EmptyExtends(r: Receiver, latest: u16, newest: int, k: nat)
    requires latest == newest % 0x1_0000 && r.lastCached == (newest - k) % 0x1_0000 && r.inCache == [] && 0 < k < 10
    ensures Extended(r, latest) == r.(inCache := Holes(r.lastCached, k), lastCached := latest)
  {
    AheadOf(newest, newest - k);
    assert [] + Holes(r.lastCached, k) == Holes(r.lastCached, k);
  }

  lemma SameSerial(latest: int, j: int)
    ensures (latest - j) % 0x1_0000 == (latest % 0x1_0000 - j) % 0x1_0000
  {
  }

  lemma GrowMovesWindow(r: Receiver, b: Bundle, newest: int, cached: int, sent: seq<seq<byte>>)
    requires WindowOk(r, cached, sent) && BundleOk(b, newest, sent) && 0 < newest - cached < 10
    ensures var r' := Extended(Resynced(r, b.latest, b.count), b.latest);
            WindowOk(r', newest, sent) && WindowMoved(r, cached, r', newest)
  {
    var tx := newest - cached;
    AheadOf(newest, cached);
    HolesOk(r.lastCached, cached, tx, sent);
    var r0 := if |r.inCache| + tx > CACHE_SIZE then Freed(r) else r;
    var r' := Extended(r, b.latest);
    assert r' == r0.(inCache := r0.inCache + Holes(r.lastCached, tx), lastCached := b.latest);
    var n := |r0.inCache|;
    forall i | 0 <= i < |r'.inCache|
      ensures SlotOk(r'.inCache[i], newest + 1 - |r'.inCache| + i, sent)
    {
      if i < n {
        assert SlotOk(r.inCache[i], cached + 1 - n + i, sent);
      } else {
        assert SlotOk(Holes(r.lastCached, tx)[i - n], cached + 1 + (i - n), sent);
      }
    }
  }

  /** Opening the window for a bundle, before any slot is filled. */
  lemma OpenMovesWindow(r: Receiver, b: Bundle, newest: int, cached: int, sent: seq<seq<byte>>)
    requires WindowOk(r, cached, sent) && BundleOk(b, newest, sent)
    requires -0x8000 <= newest - cached <= 0x1_0000 - CACHE_SIZE
    ensures 0 < Ahead(b.latest, r.lastCached) < 0x8000 <==> 0 < newest - cached < 0x8000
    ensures var r' := Extended(Resynced(r, b.latest, b.count), b.latest);
            var cached' := if 0 < newest - cached < 0x8000 then newest else cached;
            WindowOk(r', cached', sent) && WindowMoved(r, cached, r', cached')
  {
    var d := newest - cached;
    assert Ahead(b.latest, r.lastCached) == d % 0x1_0000;
    if 10 <= d < 0x8000 {
      ResyncMovesWindow(r, b, newest, cached, sent);
    } else if 0 < d < 10 {
      GrowMovesWindow(r, b, newest, cached, sent);
    } else {
      assert Extended(Resynced(r, b.latest, b.count), b.latest) == r;
    }
  }

  /** What holds between reading a datagram and sweeping the holes: everything but the head. */
  ghost predicate MidInv(w: World) {
    && SenderOk(w)
    && (forall p :: p in w.net ==> PacketOk(p, w.sent))
    && WindowOk(w.rx, w.cached, w.sent)
    && LedgerOk(w)
    && TimerOk(w)
  }

  /** A bundle of the window's network moves the window on, or leaves it where it is. */
  lemma AcceptMovesWindow(r: Receiver, b: Bundle, newest: int, cached: int, sent: seq<seq<byte>>, r': Receiver,
                          cached': int)
    requires WindowOk(r, cached, sent) && BundleOk(b, newest, sent)
    requires -0x8000 <= newest - cached <= 0x1_0000 - CACHE_SIZE
    requires r' == Accept(r, b) && cached' == if 0 < Ahead(b.latest, r.lastCached) < 0x8000 then newest else cached
    ensures WindowOk(r', cached', sent) && WindowMoved(r, cached, r', cached')
  {
    OpenMovesWindow(r, b, newest, cached, sent);
    FillAllKeepsWindow(Extended(Resynced(r, b.latest, b.count), b.latest), b.msgs, newest, cached', sent);
  }

  lemma DigestKeepsInv(w: World, p: Packet)
    requires Inv(w) && p in w.net && InWindow(p, w.cached)
    ensures MidInv(Digested(w, p))
    ensures Digested(w, p).rx.holePending ==> w.rx.holePending && Digested(w, p).fate == w.fate
  {
    if ParseBundle(p.data).Some? {
      var b, w' := ParseBundle(p.data).value, Digested(w, p);
      assert PacketOk(p, w.sent);
      AcceptMovesWindow(w.rx, b, p.newest, w.cached, w.sent, w'.rx, w'.cached);
      AbandonKeepsLedger(w, w', w'.cached + 1 - |w'.rx.inCache| - |w.fate|);
    } else {
      assert w.fate + [] == w.fate;
    }
  }

  lemma AbandonKeepsLedger(w: World, w': World, n: int)
    requires LedgerOk(w) && w'.sent == w.sent && w'.delivered == w.delivered && w'.cached < |w.sent|
    requires n == w'.cached + 1 - |w'.rx.inCache| - |w.fate| >= 0 && w'.fate == w.fate + Repeat(Abandoned, n)
    ensures LedgerOk(w') && (n == 0 ==> w'.fate == w.fate)
  {
    DeliveredOfRepeat(w.fate, Abandoned, n, w.sent);
  }

  /** Sweeping removes holes and nothing else, only once the head hole has expired, and then all the
      holes at the head at once; a message that arrived is never discarded. */
  lemma SkipStaleLaw(r: Receiver, now: u32)
    ensures var r' := SkipStale(r, now);
            var k := |r.inCache| - |r'.inCache|;
            && 0 <= k && r.inCache[k..] == r'.inCache
            && (forall i :: 0 <= i < k ==> r.inCache[i].Hole?)
            && (k > 0 <==> HoleExpired(r, now))
            && (k > 0 ==> r'.inCache == [] || r'.inCache[0].Filled?)
            && r'.lastCached == r.lastCached
            && (r'.holePending <==> r.inCache != [] && r.inCache[0].Hole? && !HoleExpired(r, now))
            && (r'.holePending ==> r'.holeSince == if r.holePending then r.holeSince else now)
            && r'.holesSkipped == r.holesSkipped + k
            && r'.lastProcessed == if k > 0 then r.inCache[k - 1].serial else r.lastProcessed
  {
  }

  lemma SweepKeepsInv(w: World)
    requires MidInv(w)
    ensures Inv(Swept(w))
  {
    var w' := Swept(w);
    var k := |w.rx.inCache| - |w'.rx.inCache|;
    SkipStaleLaw(w.rx, Tick(w.time));
    DeliveredOfRepeat(w.fate, Skipped, k, w.sent);
    SuffixKeepsWindow(w.rx, w'.rx, k, w.cached, w.sent);
    assert k == 0 ==> w'.fate == w.fate;
  }

  lemma SuffixKeepsWindow(r: Receiver, r': Receiver, k: nat, cached: int, sent: seq<seq<byte>>)
    requires WindowOk(r, cached, sent)
    requires k <= |r.inCache| && r'.inCache == r.inCache[k..] && r'.lastCached == r.lastCached
    ensures WindowOk(r', cached, sent)
  {
    var n := |r'.inCache|;
    forall i | 0 <= i < n
      ensures SlotOk(r'.inCache[i], cached + 1 - n + i, sent)
    {
      assert SlotOk(r.inCache[k + i], cached + 1 - |r.inCache| + (k + i), sent);
    }
  }

  lemma HandKeepsInv(w: World, cap: int, leaveInQueue: bool)
    requires Inv(w)
    ensures Inv(Handed(w, cap, leaveInQueue))
  {
    var w' := Handed(w, cap, leaveInQueue);
    if w' != w {
      assert SlotOk(w.rx.inCache[0], |w.fate|, w.sent);
      DeliveredOfSnoc(w.fate, Delivered, w.sent);
      DeliveredOfSnoc(w.fate, Oversized, w.sent);
      SuffixKeepsWindow(w.rx, w'.rx, 1, w.cached, w.sent);
    }
  }

  lemma TransmitKeepsInv(w: World, limit: int)
    requires Inv(w)
    ensures Inv(Transmitted(w, limit))
  {
    TransmissionOk(w, limit);
  }

  lemma ReceiveKeepsInv(w: World, packet: Option<nat>, cap: int, leaveInQueue: bool)
    requires Inv(w) && Allowed(w, Receive(packet, cap, leaveInQueue))
    ensures Inv(Step(w, Receive(packet, cap, leaveInQueue)))
  {
    var w1 := w;
    if packet.Some? {
      w1 := Digested(w, w.net[packet.value]);
      DigestKeepsInv(w, w.net[packet.value]);
    }
    SweepKeepsInv(w1);
    HandKeepsInv(Swept(w1), cap, leaveInQueue);
  }

  lemma StepKeepsInv(w: World, e: Event)
    requires Inv(w) && Allowed(w, e)
    ensures Inv(Step(w, e))
  {
    match e
    case Send(body, ipm) =>
      SendKeepsInv(w, body);
      TransmitKeepsInv(Sent(w, body), ipm);
    case Resend(limit) =>
      TransmitKeepsInv(w, limit);
    case Receive(packet, cap, leave) =>
      ReceiveKeepsInv(w, packet, cap, leave);
    case Poll =>
      SweepKeepsInv(w);
    case Wait(ms) =>
  }

  // ----- whole runs -----

  ghost predicate IsRun(ws: seq<World>, es: seq<Event>) {
    && |ws| == |es| + 1 && ws[0] == START
    && forall i :: 0 <= i < |es| ==> Next(ws[i], es[i], ws[i + 1])
  }

  ghost predicate Next(w: World, e: Event, w': World) {
    |w.outCache| < CACHE_SIZE && Allowed(w, e) && w' == Step(w, e)
  }

  /** Some run, of any length and with any schedule, ends in w. */
  ghost predicate Reachable(w: World) {
    exists ws, es :: IsRun(ws, es) && ws[|es|] == w
  }

  lemma {:induction false} RunKeepsInv(ws: seq<World>, es: seq<Event>, i: nat)
    requires IsRun(ws, es) && i <= |es|
    ensures Inv(ws[i])
  {
    if i == 0 {
    } else {
      RunKeepsInv(ws, es, i - 1);
      assert Next(ws[i - 1], es[i - 1], ws[i]);
      StepKeepsInv(ws[i - 1], es[i - 1]);
    }
  }

  lemma ReachableInv(w: World)
    requires Reachable(w)
    ensures Inv(w)
  {
    var ws, es :| IsRun(ws, es) && ws[|es|] == w;
    RunKeepsInv(ws, es, |es|);
  }

  ghost predicate Increasing(d: seq<(nat, seq<byte>)>) {
    forall i, j :: 0 <= i < j < |d| ==> d[i].0 < d[j].0
  }

  ghost predicate Faithful(d: seq<(nat, seq<byte>)>, bound: nat, sent: seq<seq<byte>>) {
    Increasing(d) && forall i :: 0 <= i < |d| ==> d[i].0 < bound <= |sent| && d[i].1 == sent[d[i].0]
  }

  lemma FaithfulSnoc(d: seq<(nat, seq<byte>)>, n: nat, sent: seq<seq<byte>>)
    requires Faithful(d, n, sent) && n < |sent|
    ensures Faithful(d, n + 1, sent) && Faithful(d + [(n, sent[n])], n + 1, sent)
  {
  }

  lemma {:induction false} DeliveredOfIsSorted(fate: seq<Fate>, sent: seq<seq<byte>>)
    requires |fate| <= |sent|
    ensures Faithful(DeliveredOf(fate, sent), |fate|, sent)
    decreases |fate|
  {
    if fate != [] {
      var n := |fate| - 1;
      DeliveredOfIsSorted(fate[..n], sent);
      FaithfulSnoc(DeliveredOf(fate[..n], sent), n, sent);
    }
  }

  ghost predicate Among(d: seq<(nat, seq<byte>)>, s: nat) {
    exists b :: (s, b) in d
  }

  lemma AmongSnoc(d: seq<(nat, seq<byte>)>, n: nat, body: seq<byte>, s: nat)
    ensures Among(d + [(n, body)], s) <==> Among(d, s) || s == n
  {
    var more := d + [(n, body)];
    if b :| (s, b) in d {
      assert (s, b) in more;
    }
    if s == n {
      assert (s, body) in more;
    }
  }

  /** In every run, across both the 16-bit wrap and every resynchronisation, messages are handed over
      in strictly increasing order of their unwrapped serials, each with the body that was sent under
      that serial, and hence never twice. */
  lemma DeliveryIsOrderedAndFaithful(w: World)
    requires Reachable(w)
    ensures Increasing(w.delivered)
    ensures (forall i :: 0 <= i < |w.delivered| ==>
                  w.delivered[i].0 < |w.sent| && w.delivered[i].1 == w.sent[w.delivered[i].0])
  {
    ReachableInv(w);
    DeliveredOfIsSorted(w.fate, w.sent);
  }

  /** Every serial up to last_cached_instruction has exactly one fate or is still queued, under its
      own serial and with its own body if it arrived; and those fated Delivered are those handed over. */
  lemma EverySerialIsAccountedFor(w: World, s: nat)
    requires Reachable(w) && s <= w.cached
    ensures var base := |w.fate|;
            && base + |w.rx.inCache| == w.cached + 1 <= |w.sent|
            && w.rx.lastCached == w.cached % 0x1_0000
            && (s < base ==> (w.fate[s] == Delivered <==> exists b :: (s, b) in w.delivered))
            && (s >= base ==> SlotOk(w.rx.inCache[s - base], s, w.sent) && forall b :: (s, b) !in w.delivered)
  {
    ReachableInv(w);
    Accounted(w.fate, w.sent, s);
    QueuedIsItself(w.rx, w.cached, w.sent, s - |w.fate|);
  }

  lemma {:induction false} Accounted(fate: seq<Fate>, sent: seq<seq<byte>>, s: nat)
    requires |fate| <= |sent|
    ensures s < |fate| && fate[s] == Delivered <==> Among(DeliveredOf(fate, sent), s)
    decreases |fate|
  {
    if fate != [] {
      var n := |fate| - 1;
      Accounted(fate[..n], sent, s);
      AmongSnoc(DeliveredOf(fate[..n], sent), n, sent[n], s);
    }
  }

  lemma QueuedIsItself(r: Receiver, cached: int, sent: seq<seq<byte>>, i: int)
    requires WindowOk(r, cached, sent)
    ensures 0 <= i < |r.inCache| ==> SlotOk(r.inCache[i], cached + 1 - |r.inCache| + i, sent)
  {
  }

  /** The hole at the head of the window was first found there at least 250 ms ago. */
  ghost predicate WaitedOut(w: World) {
    w.rx.holePending && w.holeAt == |w.fate| && w.time - w.seen >= HOLE_SKIP_MS
  }

  ghost predicate NewlySkipped(fate: seq<Fate>, fate': seq<Fate>, s: nat) {
    |fate| <= s < |fate'| && fate'[s] == Skipped
  }

  lemma SweepSkips(w: World, s: nat)
    requires MidInv(w) && NewlySkipped(w.fate, Swept(w).fate, s)
    ensures WaitedOut(w)
  {
    SkipStaleLaw(w.rx, Tick(w.time));
    if w.rx.holePending {
      ExpiryIsTheWait(w.rx, w.time, w.seen);
    }
  }

  lemma ReceiveSkips(w: World, p: Packet, cap: int, leaveInQueue: bool, s: nat)
    requires Inv(w) && p in w.net && InWindow(p, w.cached)
    requires NewlySkipped(w.fate, Handed(Swept(Digested(w, p)), cap, leaveInQueue).fate, s)
    ensures WaitedOut(w)
  {
    var w1 := Digested(w, p);
    DigestKeepsInv(w, p);
    if NewlySkipped(w1.fate, Swept(w1).fate, s) {
      SweepSkips(w1, s);
    }
  }

  lemma PollSkips(w: World, cap: int, leaveInQueue: bool, s: nat)
    requires Inv(w) && NewlySkipped(w.fate, Handed(Swept(w), cap, leaveInQueue).fate, s)
    ensures WaitedOut(w)
  {
    assert NewlySkipped(w.fate, Swept(w).fate, s);
    SweepSkips(w, s);
  }

  lemma StepSkips(w: World, e: Event, w': World, s: nat)
    requires Inv(w) && Allowed(w, e) && w' == Step(w, e) && NewlySkipped(w.fate, w'.fate, s)
    ensures WaitedOut(w)
  {
    match e
    case Receive(Some(i), cap, leave) => ReceiveSkips(w, w.net[i], cap, leave, s);
    case Receive(None, cap, leave) => PollSkips(w, cap, leave, s);
    case Poll => SweepSkips(w, s);
    case _ =>
  }

  lemma HeadHoleIsGivenUp(w: World)
    requires Inv(w) && w.rx.holePending && HOLE_SKIP_MS <= w.time - w.seen < 0x1_0000_0000
    ensures Swept(w).rx.inCache == [] || Swept(w).rx.inCache[0].Filled?
  {
    ExpiryIsTheWait(w.rx, w.time, w.seen);
    SkipStaleLaw(w.rx, Tick(w.time));
  }

  /** Whatever the step, a missing message is given up only after it has stood at the head for 250 ms; and
      no head hole outlives a poll made between 250 ms and one turn of the tick counter after it was first
      seen. */
  lemma HoleIsGivenUpAfterTheWait(w: World, e: Event, w': World, s: nat)
    requires Reachable(w) && Next(w, e, w')
    ensures NewlySkipped(w.fate, w'.fate, s) ==> WaitedOut(w)
    ensures w.rx.holePending && HOLE_SKIP_MS <= w.time - w.seen < 0x1_0000_0000 ==>
              Swept(w).rx.inCache == [] || Swept(w).rx.inCache[0].Filled?
  {
    ReachableInv(w);
    if NewlySkipped(w.fate, w'.fate, s) {
      StepSkips(w, e, w', s);
    }
    if w.rx.holePending && HOLE_SKIP_MS <= w.time - w.seen < 0x1_0000_0000 {
      HeadHoleIsGivenUp(w);
    }
  }

  lemma ExpiryIsTheWait(r: Receiver, time: nat, seen: nat)
    requires r.holePending && seen <= time && r.holeSince == Tick(seen)
    ensures HoleExpired(r, Tick(time)) ==> time - seen >= HOLE_SKIP_MS
    ensures HOLE_SKIP_MS <= time - seen < 0x1_0000_0000 && r.inCache != [] && r.inCache[0].Hole? ==>
              HoleExpired(r, Tick(time))
  {
    TickDifference(time, seen);
  }

  lemma TickDifference(t: nat, since: nat)
    requires since <= t
    ensures var d := (Tick(t) - Tick(since)) % 0x1_0000_0000;
            0 <= d <= t - since && (t - since < 0x1_0000_0000 ==> d == t - since)
  {
    assert (Tick(t) - Tick(since)) % 0x1_0000_0000 == (t - since) % 0x1_0000_0000;
  }

  // ----- how late is too late -----

  ghost predicate SerialsFrom(ms: seq<Msg>, latest: int) {
    forall j :: 0 <= j < |ms| ==> ms[j].serial == (latest - j) % 0x1_0000
  }

  /** Slots that had their message still have it, and there are no others. */
  ghost predicate OnlyHolesFilled(r: Receiver, r': Receiver) {
    && r' == r.(inCache := r'.inCache) && |r'.inCache| == |r.inCache|
    && forall i :: 0 <= i < |r.inCache| && r.inCache[i].Filled? ==> r'.inCache[i] == r.inCache[i]
  }

  /** The j-th slot from the end after a bundle was taken for new. */
  function SlotFor(b: Bundle, j: nat): Slot {
    if j < |b.msgs| then Filled(b.msgs[j].serial, b.msgs[j].body) else Hole((b.latest - j) % 0x1_0000)
  }

  /** The newest tx slots are the bundle's, each with its message if the bundle has it. */
  ghost predicate EndsWithBundle(r: Receiver, b: Bundle, tx: nat) {
    r.lastCached == b.latest && EndsWithSlots(r.inCache, b, tx)
  }

  ghost predicate EndsWithSlots(q: seq<Slot>, b: Bundle, tx: nat) {
    tx <= |q| && forall i :: |q| - tx <= i < |q| ==> q[i] == SlotFor(b, |q| - 1 - i)
  }

  /** The newest tx slots are empty, and stand for the serials up to latest. */
  ghost predicate EndsWithHoles(q: seq<Slot>, tx: nat, latest: int) {
    tx <= |q| && forall i :: |q| - tx <= i < |q| ==> q[i] == Hole((latest + 1 - |q| + i) % 0x1_0000)
  }

  lemma {:induction false} FillAllFillsHoles(r: Receiver, ms: seq<Msg>)
    ensures OnlyHolesFilled(r, FillAll(r, ms))
    decreases |ms|
  {
    if ms != [] {
      FillAllFillsHoles(Fill(r, ms[0]), ms[1..]);
    }
  }

  /** From the k-th place from the end on, the messages fill what were holes. */
  ghost predicate FilledBack(q: seq<Slot>, q': seq<Slot>, ms: seq<Msg>, k: nat) {
    && |q'| == |q|
    && forall i :: 0 <= i < |q| ==> q'[i] == FilledSlot(q[i], ms, |q| - 1 - i - k)
  }

  function FilledSlot(s: Slot, ms: seq<Msg>, j: int): Slot {
    if 0 <= j < |ms| && s.Hole? then Filled(ms[j].serial, ms[j].body) else s
  }

  function FilledAt(q: seq<Slot>, k: nat, m: Msg): (q': seq<Slot>)
    ensures |q'| == |q|
  {
    if k >= |q| || q[|q| - 1 - k].Filled? then q else q[|q| - 1 - k := Filled(m.serial, m.body)]
  }

  lemma FilledBackJoins(q: seq<Slot>, q': seq<Slot>, ms: seq<Msg>, k: nat)
    requires ms != [] && FilledBack(FilledAt(q, k, ms[0]), q', ms[1..], k + 1)
    ensures FilledBack(q, q', ms, k)
  {
  }

  lemma FillIsAt(r: Receiver, m: Msg, k: nat, latest: int)
    requires r.lastCached == latest % 0x1_0000 && m.serial == (latest - k) % 0x1_0000 && k < 0x1_0000
    ensures Fill(r, m) == r.(inCache := FilledAt(r.inCache, k, m))
  {
    AheadOf(latest, latest - k);
  }

  /** The messages of a bundle go to the places from the end on, as far as these are holes. */
  lemma {:induction false} FillAllFromTheEnd(r: Receiver, ms: seq<Msg>, k: nat, latest: int, from: int, r': Receiver)
    requires r.lastCached == latest % 0x1_0000 && from == latest - k && SerialsFrom(ms, from) && k + |ms| < 0x1_0000
    requires r' == FillAll(r, ms)
    ensures FilledBack(r.inCache, r'.inCache, ms, k)
    decreases |ms|
  {
    if ms != [] {
      assert ms[0].serial == (from - 0) % 0x1_0000;
      FillIsAt(r, ms[0], k, latest);
      SerialsBehind(ms, from);
      FillAllFromTheEnd(Fill(r, ms[0]), ms[1..], k + 1, latest, from - 1, r');
      FilledBackJoins(r.inCache, r'.inCache, ms, k);
    }
  }

  lemma SerialsBehind(ms: seq<Msg>, latest: int)
    requires ms != [] && SerialsFrom(ms, latest)
    ensures SerialsFrom(ms[1..], latest - 1)
  {
    forall j | 0 <= j < |ms| - 1
      ensures ms[1..][j].serial == (latest - 1 - j) % 0x1_0000
    {
      assert ms[1..][j] == ms[j + 1];
    }
  }

  lemma HolesEnd(q: seq<Slot>, from: int, tx: nat, latest: u16)
    requires latest == (from + tx) % 0x1_0000
    ensures EndsWithHoles(q + Holes(from % 0x1_0000, tx), tx, latest)
  {
    var all := q + Holes(from % 0x1_0000, tx);
    forall i | |q| <= i < |all|
      ensures all[i] == Hole((latest + 1 - |all| + i) % 0x1_0000)
    {
      HoleSerial(from, i - |q|, tx, latest);
    }
  }

  lemma HoleSerial(from: int, i: int, tx: int, latest: u16)
    requires latest == (from + tx) % 0x1_0000
    ensures (from % 0x1_0000 + 1 + i) % 0x1_0000 == (latest + 1 - tx + i) % 0x1_0000
  {
  }

  /** What opening the window for a jump of `ahead` serials leaves at its end. */
  lemma JumpOpensSlots(r: Receiver, latest: u16, count: byte, ahead: int, cached: int, tx: nat, r': Receiver)
    requires r.lastCached == cached % 0x1_0000 && latest == (cached + ahead) % 0x1_0000
    requires 0 < ahead < 0x8000 && count > 0 && tx == if ahead < 10 then ahead else Min(count, 9)
    requires r' == Extended(Resynced(r, latest, count), latest)
    ensures tx > 0 && r'.lastCached == latest && EndsWithHoles(r'.inCache, tx, latest)
  {
    AheadOf(cached + ahead, cached);
    if ahead < 10 {
      HolesEnd(if |r.inCache| + tx > CACHE_SIZE then [] else r.inCache, cached, tx, latest);
    } else {
      ResyncLaw(r, latest, count, cached + ahead, cached);
      HolesEnd([], cached + ahead - tx, tx, latest);
      assert [] + Holes((cached + ahead - tx) % 0x1_0000, tx) == r'.inCache;
    }
  }

  lemma LateLooksAhead(cached: int, late: nat)
    ensures Ahead((cached - late) % 0x1_0000, cached % 0x1_0000) ==
              (if late % 0x1_0000 == 0 then 0 else 0x1_0000 - late % 0x1_0000)
    ensures (cached - late) % 0x1_0000 == (cached + (0x1_0000 - late % 0x1_0000)) % 0x1_0000
  {
  }

  /** The limit on lateness is exact. Whatever the window and however many messages the bundle has, one
      that is `late` serials behind the newest seen is mistaken for a jump ahead if and only if `late`,
      counted modulo 2^16, is more than 2^15. Its newest message is then queued once more, with those
      behind it, although the receiver may be long past them; else at most holes are filled. */
  lemma TooLateIsRedelivered(r: Receiver, b: Bundle, cached: int, late: nat)
    requires r.lastCached == cached % 0x1_0000 && b.latest == (cached - late) % 0x1_0000
    requires 0 < b.count == |b.msgs| < CACHE_SIZE && SerialsFrom(b.msgs, b.latest)
    ensures Accept(r, b).lastCached != r.lastCached <==> late % 0x1_0000 > 0x8000
    ensures late % 0x1_0000 > 0x8000 ==>
              var ahead := 0x1_0000 - late % 0x1_0000;
              EndsWithBundle(Accept(r, b), b, if ahead < 10 then ahead else Min(b.count, 9))
    ensures late % 0x1_0000 <= 0x8000 ==> OnlyHolesFilled(r, Accept(r, b))
  {
    var wide := Extended(Resynced(r, b.latest, b.count), b.latest);
    LateLooksAhead(cached, late);
    if late % 0x1_0000 > 0x8000 {
      var ahead := 0x1_0000 - late % 0x1_0000;
      var tx := if ahead < 10 then ahead else Min(b.count, 9);
      JumpOpensSlots(r, b.latest, b.count, ahead, cached, tx, wide);
      BundleFillsItsSlots(wide, b, tx, Accept(r, b));
      assert b.latest != r.lastCached;
    } else {
      assert wide == r;
      FillAllFillsHoles(r, b.msgs);
    }
  }

  lemma BundleFillsItsSlots(r: Receiver, b: Bundle, tx: nat, r': Receiver)
    requires |b.msgs| < CACHE_SIZE && SerialsFrom(b.msgs, b.latest) && r.lastCached == b.latest
    requires EndsWithHoles(r.inCache, tx, b.latest) && r' == FillAll(r, b.msgs)
    ensures EndsWithBundle(r', b, tx)
  {
    FillAllFromTheLast(r, b.msgs, b.latest, r');
    SlotsAreTheBundles(r.inCache, r'.inCache, b, tx);
  }

  lemma FillAllFromTheLast(r: Receiver, ms: seq<Msg>, latest: u16, r': Receiver)
    requires r.lastCached == latest && SerialsFrom(ms, latest) && |ms| < CACHE_SIZE && r' == FillAll(r, ms)
    ensures FilledBack(r.inCache, r'.inCache, ms, 0) && r'.lastCached == latest
  {
    FillAllFromTheEnd(r, ms, 0, latest, latest, r');
  }

  lemma SlotsAreTheBundles(q: seq<Slot>, q': seq<Slot>, b: Bundle, tx: nat)
    requires EndsWithHoles(q, tx, b.latest) && FilledBack(q, q', b.msgs, 0)
    ensures EndsWithSlots(q', b, tx)
  {
    forall i | |q'| - tx <= i < |q'|
      ensures q'[i] == SlotFor(b, |q'| - 1 - i)
    {
      assert q'[i] == FilledSlot(q[i], b.msgs, |q| - 1 - i);
    }
  }

  // ----- what reading one transmission does -----

  /** The j-th newest slot after the `packed` newest messages of the sender's cache were read. */
  function NewestSlot(out: seq<Msg>, packed: nat, j: int): Slot
    requires out != []
  {
    if 0 <= j < packed && j < |out| then Filled(out[|out| - 1 - j].serial, out[|out| - 1 - j].body)
    else Hole((out[|out| - 1].serial - j) % 0x1_0000)
  }

  ghost predicate EndsWithPacked(q: seq<Slot>, out: seq<Msg>, packed: nat, tx: nat)
    requires out != []
  {
    tx <= |q| && forall i :: |q| - tx <= i < |q| ==> q[i] == NewestSlot(out, packed, |q| - 1 - i)
  }

  /** What the sender's cache always is: messages under consecutive serials. */
  ghost predicate CacheOk(out: seq<Msg>) {
    && 0 < |out| < CACHE_SIZE
    && forall i :: 0 <= i < |out| ==>
         0 < |out[i].body| && out[i].serial == (out[|out| - 1].serial + 1 - |out| + i) % 0x1_0000
  }

  lemma SenderCacheIsOk(w: World)
    requires SenderOk(w)
    ensures w.outCache != [] ==> CacheOk(w.outCache)
  {
    var n, base := |w.outCache|, |w.sent| - |w.outCache|;
    forall i | 0 <= i < n
      ensures w.outCache[i].serial == (w.outCache[n - 1].serial + 1 - n + i) % 0x1_0000
    {
      assert w.outCache[n - 1] == Msg((base + n - 1) % 0x1_0000, w.sent[base + n - 1]);
      SameSerial(base + n - 1, n - 1 - i);
    }
  }

  /** The new places at the end of the window: one for each serial, or after a jump for the bundle's messages. */
  function NewPlaces(ahead: int, packed: nat): nat {
    if 0 <= ahead < 10 then ahead else Min(packed, 9)
  }

  /** The places that stay: after a jump, or when the window is full, none. */
  function PlacesKept(r: Receiver, ahead: int): nat {
    if ahead < 10 && |r.inCache| + ahead <= CACHE_SIZE then |r.inCache| else 0
  }

  /** What is read of a transmission that is ahead of the window, by however much: its newest message ends the
      window, the slots behind it hold what the transmission packed, and unless the jump is of ten serials or more
      or the window is full, what was queued stays in front of them, as it was except for holes now filled. */
  lemma TransmissionIsQueued(r: Receiver, out: seq<Msg>, limit: int, ahead: int, packed: nat, r': Receiver)
    requires CacheOk(out) && packed == |Packed(EncodeMsg, out, limit, PACKET_MAX - 1)| > 0
    requires ahead == Ahead(out[|out| - 1].serial, r.lastCached) && 0 < ahead < 0x8000
    requires r' == Received(r, Some(Transmission(EncodeMsg, out, limit)))
    ensures r'.lastCached == out[|out| - 1].serial
    ensures |r'.inCache| == PlacesKept(r, ahead) + NewPlaces(ahead, packed)
    ensures EndsWithPacked(r'.inCache, out, packed, NewPlaces(ahead, packed))
    ensures forall i :: 0 <= i < PlacesKept(r, ahead) && r.inCache[i].Filled? ==> r'.inCache[i] == r.inCache[i]
  {
    var ms := Packed(EncodeMsg, out, limit, PACKET_MAX - 1);
    TransmissionParses(out, limit);
    PackedIsNewestFirst(EncodeMsg, out, limit, PACKET_MAX - 1);
    PackedSerials(out, ms, PACKET_MAX - 1);
    BundleIsQueued(r, Bundle(ms[0].serial, |ms|, ms), ahead, r');
    SlotsArePacked(r'.inCache, out, ms, PACKET_MAX - 1, NewPlaces(ahead, packed));
  }

  lemma PackedSerials(out: seq<Msg>, ms: seq<Msg>, room: nat)
    requires CacheOk(out) && ms != [] && NewestFirst(EncodeMsg, ms, out, room)
    ensures ms[0].serial == out[|out| - 1].serial && SerialsFrom(ms, ms[0].serial)
  {
    forall j | 0 <= j < |ms|
      ensures ms[j].serial == (ms[0].serial - j) % 0x1_0000
    {
      assert ms[j] == out[|out| - 1 - j] && ms[0] == out[|out| - 1];
    }
  }

  lemma SlotsArePacked(q: seq<Slot>, out: seq<Msg>, ms: seq<Msg>, room: nat, tx: nat)
    requires out != [] && ms != [] && NewestFirst(EncodeMsg, ms, out, room) && ms[0].serial == out[|out| - 1].serial
    requires EndsWithSlots(q, Bundle(ms[0].serial, |ms| % 0x100, ms), tx)
    ensures EndsWithPacked(q, out, |ms|, tx)
  {
    forall i | |q| - tx <= i < |q|
      ensures q[i] == NewestSlot(out, |ms|, |q| - 1 - i)
    {
      assert q[i] == SlotFor(Bundle(ms[0].serial, |ms| % 0x100, ms), |q| - 1 - i);
    }
  }

  lemma LatestIsAhead(latest: u16, from: u16)
    ensures latest == (from + Ahead(latest, from)) % 0x1_0000 && from == from % 0x1_0000
  {
  }

  lemma SlotsOpened(r: Receiver, latest: u16, count: byte, ahead: int, wide: Receiver)
    requires ahead == Ahead(latest, r.lastCached) && 0 < ahead < 0x8000 && count > 0
    requires wide == Extended(Resynced(r, latest, count), latest)
    ensures wide.lastCached == latest && EndsWithHoles(wide.inCache, NewPlaces(ahead, count), latest)
  {
    LatestIsAhead(latest, r.lastCached);
    JumpOpensSlots(r, latest, count, ahead, r.lastCached, NewPlaces(ahead, count), wide);
  }

  /** Opening the window keeps or gives up what was queued. */
  lemma PlacesOpened(r: Receiver, latest: u16, count: byte, ahead: int, wide: Receiver)
    requires ahead == Ahead(latest, r.lastCached) && 0 < ahead < 0x8000 && count > 0
    requires wide == Extended(Resynced(r, latest, count), latest)
    ensures |wide.inCache| == PlacesKept(r, ahead) + NewPlaces(ahead, count)
    ensures wide.inCache[..PlacesKept(r, ahead)] == r.inCache[..PlacesKept(r, ahead)]
  {
    if ahead >= 10 {
      assert latest == (r.lastCached + ahead) % 0x1_0000;
      ResyncLaw(r, latest, count, r.lastCached + ahead, r.lastCached);
    }
  }

  lemma KeptSlotsStay(q: seq<Slot>, wide: Receiver, r': Receiver, kept: nat)
    requires OnlyHolesFilled(wide, r') && kept <= |q| && kept <= |wide.inCache| && wide.inCache[..kept] == q[..kept]
    ensures forall i :: 0 <= i < kept && q[i].Filled? ==> r'.inCache[i] == q[i]
  {
    forall i | 0 <= i < kept && q[i].Filled?
      ensures r'.inCache[i] == q[i]
    {
      assert wide.inCache[i] == wide.inCache[..kept][i] == q[..kept][i];
    }
  }

  lemma BundleIsQueued(r: Receiver, b: Bundle, ahead: int, r': Receiver)
    requires 0 < b.count == |b.msgs| < CACHE_SIZE && SerialsFrom(b.msgs, b.latest)
    requires ahead == Ahead(b.latest, r.lastCached) && 0 < ahead < 0x8000 && r' == Accept(r, b)
    ensures |r'.inCache| == PlacesKept(r, ahead) + NewPlaces(ahead, b.count)
    ensures EndsWithBundle(r', b, NewPlaces(ahead, b.count))
    ensures forall i :: 0 <= i < PlacesKept(r, ahead) && r.inCache[i].Filled? ==> r'.inCache[i] == r.inCache[i]
  {
    var wide := Extended(Resynced(r, b.latest, b.count), b.latest);
    SlotsOpened(r, b.latest, b.count, ahead, wide);
    PlacesOpened(r, b.latest, b.count, ahead, wide);
    BundleFillsWide(r, wide, b, ahead, r');
  }

  lemma BundleFillsWide(r: Receiver, wide: Receiver, b: Bundle, ahead: int, r': Receiver)
    requires |b.msgs| < CACHE_SIZE && SerialsFrom(b.msgs, b.latest) && wide.lastCached == b.latest
    requires EndsWithHoles(wide.inCache, NewPlaces(ahead, b.count), b.latest) && r' == FillAll(wide, b.msgs)
    requires PlacesKept(r, ahead) <= |wide.inCache|
             && wide.inCache[..PlacesKept(r, ahead)] == r.inCache[..PlacesKept(r, ahead)]
    ensures |r'.inCache| == |wide.inCache| && EndsWithBundle(r', b, NewPlaces(ahead, b.count))
    ensures forall i :: 0 <= i < PlacesKept(r, ahead) && r.inCache[i].Filled? ==> r'.inCache[i] == r.inCache[i]
  {
    BundleFillsItsSlots(wide, b, NewPlaces(ahead, b.count), r');
    FillAllFillsHoles(wide, b.msgs);
    KeptSlotsStay(r.inCache, wide, r', PlacesKept(r, ahead));
  }

  /** With nothing queued before, or everything given up, the next call hands over the oldest message of a
      transmission that reaches back far enough, at once. */
  lemma OldestIsHandedOver(r: Receiver, out: seq<Msg>, limit: int, ahead: int, packed: nat, now: u32, cap: int,
                           swept: Receiver, oldest: nat)
    requires CacheOk(out) && packed == |Packed(EncodeMsg, out, limit, PACKET_MAX - 1)| > 0
    requires ahead == Ahead(out[|out| - 1].serial, r.lastCached) && 0 < ahead < 0x8000
    requires PlacesKept(r, ahead) == 0 && oldest == NewPlaces(ahead, packed) <= packed
    requires swept == SkipStale(Received(r, Some(Transmission(EncodeMsg, out, limit))), now)
    ensures oldest <= |out| && |swept.inCache| == oldest
    ensures |out[|out| - oldest].body| <= cap ==>
              && Offer(swept, cap) == Got(out[|out| - oldest].body)
              && AfterOffer(swept, cap, false).lastProcessed == out[|out| - oldest].serial
  {
    TransmissionIsQueued(r, out, limit, ahead, packed, Received(r, Some(Transmission(EncodeMsg, out, limit))));
    var q := Received(r, Some(Transmission(EncodeMsg, out, limit))).inCache;
    assert q[0] == NewestSlot(out, packed, oldest - 1);
  }

  /** What a receiver that is polled after each of these waits, and gets no more datagrams, hands over. */
  function HandedOver(r: Receiver, time: nat, waits: seq<nat>): seq<seq<byte>>
    decreases |waits|
  {
    if waits == [] then []
    else
      var swept := SkipStale(r, Tick(time + waits[0]));
      var offer := Offer(swept, BODY_MAX);
      (if offer.Got? then [offer.body] else [])
      + HandedOver(AfterOffer(swept, BODY_MAX, false), time + waits[0], waits[1..])
  }

  /** One poll after `wait` hands over `out` and leaves the receiver in `next`. */
  ghost predicate Polled(r: Receiver, time: nat, wait: nat, out: seq<seq<byte>>, next: Receiver) {
    forall rest: seq<nat> :: HandedOver(r, time, [wait] + rest) == out + HandedOver(next, time + wait, rest)
  }

  lemma PollOnce(r: Receiver, time: nat, wait: nat, swept: Receiver)
    requires swept == SkipStale(r, Tick(time + wait))
    ensures var offer := Offer(swept, BODY_MAX);
            Polled(r, time, wait, if offer.Got? then [offer.body] else [], AfterOffer(swept, BODY_MAX, false))
  {
    forall rest: seq<nat>
      ensures var offer := Offer(swept, BODY_MAX);
              HandedOver(r, time, [wait] + rest) ==
              (if offer.Got? then [offer.body] else [])
              + HandedOver(AfterOffer(swept, BODY_MAX, false), time + wait, rest)
    {
      assert ([wait] + rest)[1..] == rest;
    }
  }

  /** A sweep once the head hole, if it has begun to wait, is due: it begins to wait or is given up. */
  lemma SweepWhenDue(r: Receiver, i: nat, now: u32, swept: Receiver, k: int)
    requires i < |r.inCache| && r.inCache[i].Filled?
    requires r.holePending ==> (now - r.holeSince) % 0x1_0000_0000 >= HOLE_SKIP_MS
    requires swept == SkipStale(r, now) && k == |r.inCache| - |swept.inCache|
    ensures 0 <= k <= i && swept.inCache == r.inCache[k..]
    ensures swept.inCache[0].Filled? || (k == 0 && !r.holePending && swept.holePending)
  {
    SkipStaleLaw(r, now);
  }

  /** A sweep at the right moment. */
  lemma RightSweep(r: Receiver, i: nat, time: nat) returns (wait: nat, swept: Receiver, k: nat)
    requires i < |r.inCache| && r.inCache[i].Filled?
    ensures swept == SkipStale(r, Tick(time + wait)) && k <= i && swept.inCache == r.inCache[k..]
    ensures swept.inCache[0].Filled? || (k == 0 && !r.holePending && swept.holePending)
  {
    wait := if r.holePending then (r.holeSince + HOLE_SKIP_MS - time) % 0x1_0000_0000 else 0;
    WaitReaches(time, r.holeSince);
    swept := SkipStale(r, Tick(time + wait));
    SweepWhenDue(r, i, Tick(time + wait), swept, |r.inCache| - |swept.inCache|);
    k := |r.inCache| - |swept.inCache|;
  }

  ghost predicate StillQueued(r: Receiver, i: nat, slot: Slot) {
    i < |r.inCache| && r.inCache[i] == slot
  }

  /** A poll at the right moment hands over the slot in question, or brings it nearer. */
  lemma RightPoll(r: Receiver, i: nat, time: nat, slot: Slot)
    returns (wait: nat, out: seq<seq<byte>>, next: Receiver, i': nat)
    requires StillQueued(r, i, slot) && slot.Filled? && |slot.body| <= BODY_MAX
    ensures Polled(r, time, wait, out, next)
    ensures slot.body in out || StillQueued(next, i', slot)
    ensures |next.inCache| < |r.inCache| || (|next.inCache| == |r.inCache| && !r.holePending && next.holePending)
  {
    var swept, k;
    wait, swept, k := RightSweep(r, i, time);
    PollOnce(r, time, wait, swept);
    out := if Offer(swept, BODY_MAX).Got? then [Offer(swept, BODY_MAX).body] else [];
    next := AfterOffer(swept, BODY_MAX, false);
    i' := if swept.inCache[0].Filled? && i > k then i - k - 1 else i - k;
  }

  /** Whatever is queued is handed over in the end, whichever holes stand before it. */
  lemma {:induction false} QueuedIsHandedOver(r: Receiver, i: nat, time: nat, slot: Slot) returns (waits: seq<nat>)
    requires StillQueued(r, i, slot) && slot.Filled? && |slot.body| <= BODY_MAX
    ensures slot.body in HandedOver(r, time, waits)
    decreases |r.inCache|, if r.holePending then 0 else 1
  {
    var wait, out, next, i' := RightPoll(r, i, time, slot);
    var rest: seq<nat> := [];
    if slot.body !in out {
      rest := QueuedIsHandedOver(next, i', time + wait, slot);
    }
    waits := [wait] + rest;
  }

  lemma WaitReaches(time: nat, since: u32)
    ensures (Tick(time + (since + HOLE_SKIP_MS - time) % 0x1_0000_0000) - since) % 0x1_0000_0000 == HOLE_SKIP_MS
  {
  }

  // ----- gap-free runs -----

  ghost predicate AllFilled(q: seq<Slot>) {
    forall i :: 0 <= i < |q| ==> q[i].Filled?
  }

  /** The bundle reaches back to the newest message already held, and the window has room for it. */
  ghost predicate Covers(b: Bundle, r: Receiver) {
    var tx := Ahead(b.latest, r.lastCached);
    0 < tx < 0x8000 ==> tx < 10 && tx <= b.count && |r.inCache| + tx <= CACHE_SIZE
  }

  ghost predicate Gapless(w: World, e: Event) {
    match e
    case Receive(Some(i), cap, _) =>
      && (i < |w.net| && ParseBundle(w.net[i].data).Some? ==> Covers(ParseBundle(w.net[i].data).value, w.rx))
      && cap >= BODY_MAX
    case Receive(None, cap, _) => cap >= BODY_MAX
    case _ => true
  }

  ghost predicate IsGaplessRun(ws: seq<World>, es: seq<Event>) {
    IsRun(ws, es) && forall i :: 0 <= i < |es| ==> Gapless(ws[i], es[i])
  }

  ghost predicate GaplessReachable(w: World) {
    exists ws, es :: IsGaplessRun(ws, es) && ws[|es|] == w
  }

  ghost predicate Deliverable(q: seq<Slot>) {
    forall i :: 0 <= i < |q| ==> q[i].Filled? && |q[i].body| <= BODY_MAX
  }

  ghost predicate AllDelivered(fate: seq<Fate>) {
    forall i :: 0 <= i < |fate| ==> fate[i] == Delivered
  }

  ghost predicate Seamless(w: World) {
    Inv(w) && Deliverable(w.rx.inCache) && AllDelivered(w.fate)
  }

  ghost predicate Small(ms: seq<Msg>) {
    forall i :: 0 <= i < |ms| ==> |ms[i].body| <= BODY_MAX
  }

  lemma {:induction false} ParsedIsSmall(s: seq<byte>, n: nat)
    ensures Small(ParseMsgs(s, n))
    decreases n
  {
    var ms := ParseMsgs(s, n);
    if ms == [] {
    } else {
      ParsedIsSmall(s[4 + FromLe16(s[2..4])..], n - 1);
    }
  }

  lemma {:induction false} FillAllLeavesFilled(r: Receiver, ms: seq<Msg>)
    requires Deliverable(r.inCache)
    ensures FillAll(r, ms) == r
    decreases |ms|
  {
    if ms == [] {
    } else {
      assert Fill(r, ms[0]) == r;
      FillAllLeavesFilled(r, ms[1..]);
    }
  }

  /** k messages of the bundle are in; only the |ms| slots below them may still be holes. */
  lemma {:induction false} FillAllClosesHoles(r: Receiver, ms: seq<Msg>, k: nat, newest: int)
    requires r.lastCached == newest % 0x1_0000 && |r.inCache| <= CACHE_SIZE && k + |ms| < CACHE_SIZE
    requires Small(ms) && forall j :: 0 <= j < |ms| ==> ms[j].serial == (newest - k - j) % 0x1_0000
    requires forall i :: 0 <= i < |r.inCache| && (i < |r.inCache| - k - |ms| || i >= |r.inCache| - k) ==>
               r.inCache[i].Filled? && |r.inCache[i].body| <= BODY_MAX
    requires forall i :: 0 <= i < |r.inCache| && r.inCache[i].Filled? ==> |r.inCache[i].body| <= BODY_MAX
    ensures Deliverable(FillAll(r, ms).inCache)
    decreases |ms|
  {
    if ms == [] {
    } else {
      AheadOf(newest, newest - k);
      assert Ahead(r.lastCached, ms[0].serial) == k;
      forall j | 0 <= j < |ms[1..]|
        ensures ms[1..][j].serial == (newest - (k + 1) - j) % 0x1_0000
      {
        assert ms[1..][j] == ms[j + 1];
      }
      FillAllClosesHoles(Fill(r, ms[0]), ms[1..], k + 1, newest);
    }
  }

  lemma GaplessDigest(w: World, p: Packet)
    requires Seamless(w) && p in w.net && InWindow(p, w.cached)
    requires ParseBundle(p.data).Some? ==> Covers(ParseBundle(p.data).value, w.rx)
    ensures var w' := Digested(w, p);
            Deliverable(w'.rx.inCache) && w'.fate == w.fate
  {
    if ParseBundle(p.data).Some? {
      var b := ParseBundle(p.data).value;
      assert PacketOk(p, w.sent);
      OpenMovesWindow(w.rx, b, p.newest, w.cached, w.sent);
      ParsedIsSmall(p.data[1..], p.data[0]);
      var d := p.newest - w.cached;
      if 0 < d < 0x8000 {
        AheadOf(p.newest, w.cached);
        var r := Extended(w.rx, b.latest);
        assert r.inCache == w.rx.inCache + Holes(w.rx.lastCached, d);
        FillAllClosesHoles(r, b.msgs, 0, p.newest);
      } else {
        assert Extended(Resynced(w.rx, b.latest, b.count), b.latest) == w.rx;
        FillAllLeavesFilled(w.rx, b.msgs);
      }
      assert w.fate + [] == w.fate;
    }
  }

  lemma GaplessStep(w: World, e: Event)
    requires Seamless(w) && Allowed(w, e) && Gapless(w, e)
    ensures Seamless(Step(w, e))
  {
    StepKeepsInv(w, e);
    match e
    case Receive(packet, cap, leave) =>
      var w1 := w;
      if packet.Some? {
        w1 := Digested(w, w.net[packet.value]);
        GaplessDigest(w, w.net[packet.value]);
      }
      GaplessRest(w1, cap, leave);
    case Poll =>
      GaplessRest(w, BODY_MAX, true);
    case _ =>
  }

  lemma GaplessRest(w: World, cap: int, leaveInQueue: bool)
    requires Deliverable(w.rx.inCache) && AllDelivered(w.fate) && cap >= BODY_MAX
    ensures var w' := Handed(Swept(w), cap, leaveInQueue);
            Deliverable(w'.rx.inCache) && AllDelivered(w'.fate)
  {
    assert Swept(w).fate == w.fate;
  }

  lemma {:induction false} GaplessRunIsSeamless(ws: seq<World>, es: seq<Event>, i: nat)
    requires IsGaplessRun(ws, es) && i <= |es|
    ensures Seamless(ws[i])
  {
    if i == 0 {
    } else {
      GaplessRunIsSeamless(ws, es, i - 1);
      assert Next(ws[i - 1], es[i - 1], ws[i]) && Gapless(ws[i - 1], es[i - 1]);
      GaplessStep(ws[i - 1], es[i - 1]);
    }
  }

  lemma {:induction false} DeliveredOfAll(fate: seq<Fate>, sent: seq<seq<byte>>)
    requires |fate| <= |sent| && AllDelivered(fate)
    ensures var d := DeliveredOf(fate, sent);
            |d| == |fate| && forall i :: 0 <= i < |d| ==> d[i] == (i, sent[i])
    decreases |fate|
  {
    if fate == [] {
    } else {
      DeliveredOfAll(fate[..|fate| - 1], sent);
    }
  }

  /** If every bundle that is read reaches back to what the receiver holds and fits its window, the
      window never has a hole, and what was handed over is a prefix of what was sent: message 0,
      message 1, and so on, without gap or repeat; the queue holds the next messages of that list. */
  lemma GaplessDeliveryIsAPrefix(w: World)
    requires GaplessReachable(w)
    ensures AllFilled(w.rx.inCache)
    ensures |w.delivered| + |w.rx.inCache| == w.cached + 1 <= |w.sent|
    ensures forall i :: 0 <= i < |w.delivered| ==> w.delivered[i] == (i, w.sent[i])
    ensures forall i :: 0 <= i < |w.rx.inCache| ==> w.rx.inCache[i].body == w.sent[|w.delivered| + i]
  {
    var ws, es :| IsGaplessRun(ws, es) && ws[|es|] == w;
    GaplessRunIsSeamless(ws, es, |es|);
    DeliveredOfAll(w.fate, w.sent);
    forall i | 0 <= i < |w.rx.inCache|
      ensures w.rx.inCache[i].body == w.sent[|w.delivered| + i]
    {
      QueuedIsItself(w.rx, w.cached, w.sent, i);
    }
  }

  // ----- the endpoints behind a run -----

  /** One endpoint that sends and one that receives, in the state of a run. */
  ghost predicate Plays(sender: Endpoint, receiver: Endpoint, w: World)
    reads sender, receiver
  {
    && sender != receiver && sender.Valid() && receiver.Valid()
    && sender.outCache == w.outCache && sender.lastSent == w.lastSent && receiver.Rx() == w.rx
  }

  /** One datagram of the network, or none, at the receiver. */
  method PerformReceive(receiver: Endpoint, w: World, waiting: Option<nat>, cap: int, leave: bool)
    returns (handed: Option<seq<byte>>)
    requires receiver.Valid() && receiver.Rx() == w.rx && (waiting.Some? ==> waiting.value < |w.net|)
    requires |w.outCache| < CACHE_SIZE
    modifies receiver
    ensures receiver.Valid() && receiver.Rx() == Step(w, Receive(waiting, cap, leave)).rx
    ensures !leave ==>
              var w' := Step(w, Receive(waiting, cap, leave));
              w'.delivered == w.delivered + if handed.Some? then [(|w'.fate| - 1, handed.value)] else []
  {
    receiver.hasDataWaiting := waiting.Some?;
    var read := if waiting.Some? then Some(w.net[waiting.value].data) else None;
    handed := receiver.CheckRecv(read, true, cap, leave, Tick(w.time));
    ghost var w1 := if waiting.Some? then Digested(w, w.net[waiting.value]) else w;
    assert Step(w, Receive(waiting, cap, leave)) == Handed(Swept(w1), cap, leave);
  }

  /** One transmission, of a new message or of the last ones again. */
  method PerformSend(sender: Endpoint, w: World, e: Event) returns (packet: seq<byte>)
    requires sender.Valid() && sender.outCache == w.outCache && sender.lastSent == w.lastSent
    requires (e.Send? || e.Resend?) && Allowed(w, e) && |w.outCache| < CACHE_SIZE
    modifies sender
    ensures sender.Valid() && sender.outCache == Step(w, e).outCache && sender.lastSent == Step(w, e).lastSent
    ensures Step(w, e).net == w.net + [Packet(|Step(w, e).sent| - 1, packet)] && Step(w, e).rx == w.rx
  {
    match e {
      case Send(body, ipm) => packet := sender.Send(body, ipm);
      case Resend(limit) => packet := sender.SendMessage(limit);
    }
  }

  /** What the step of a run says is what the two endpoints do: the datagram sent is the one now in the network,
      and what the caller is handed is what was delivered. */
  method Perform(sender: Endpoint, receiver: Endpoint, w: World, e: Event)
    returns (packet: Option<seq<byte>>, handed: Option<seq<byte>>)
    requires Plays(sender, receiver, w) && Allowed(w, e) && |w.outCache| < CACHE_SIZE
    modifies sender, receiver
    ensures Plays(sender, receiver, Step(w, e))
    ensures packet.Some? <==> e.Send? || e.Resend?
    ensures packet.Some? ==> Step(w, e).net == w.net + [Packet(|Step(w, e).sent| - 1, packet.value)]
    ensures e.Receive? && !e.leaveInQueue ==>
              Step(w, e).delivered == w.delivered +
                if handed.Some? then [(|Step(w, e).fate| - 1, handed.value)] else []
  {
    packet, handed := None, None;
    match e {
      case Send(_, _) =>
        var sent := PerformSend(sender, w, e);
        packet := Some(sent);
      case Resend(_) =>
        var sent := PerformSend(sender, w, e);
        packet := Some(sent);
      case Receive(waiting, cap, leave) =>
        handed := PerformReceive(receiver, w, waiting, cap, leave);
      case Poll =>
        var more := receiver.HasData(Tick(w.time));
      case Wait(_) =>
    }
  }

  // ----- the caller's loop -----

  /** The messages that arrived among some slots. */
  function Arrived(q: seq<Slot>): seq<seq<byte>> {
    if q == [] then []
    else Arrived(q[..|q| - 1]) + if q[|q| - 1].Filled? && |q[|q| - 1].body| <= BODY_MAX then [q[|q| - 1].body] else []
  }

  lemma ArrivedSnoc(q: seq<Slot>, k: nat)
    requires k < |q|
    ensures Arrived(q[..k + 1]) ==
            Arrived(q[..k]) + if q[k].Filled? && |q[k].body| <= BODY_MAX then [q[k].body] else []
  {
    assert q[..k + 1][..k] == q[..k];
  }

  /** Of the slots q the first k are dealt with: what had arrived in them was handed over, in order. */
  ghost predicate Dealt(q: seq<Slot>, k: nat, handed: seq<seq<byte>>, left: seq<Slot>) {
    k <= |q| && handed == Arrived(q[..k]) && left == q[k..]
  }

  /** A sweep deals with holes only. */
  lemma SweepDeals(q: seq<Slot>, k: nat, handed: seq<seq<byte>>, r: Receiver, now: u32) returns (k': nat)
    requires Dealt(q, k, handed, r.inCache)
    ensures k' >= k && Dealt(q, k', handed, SkipStale(r, now).inCache)
    ensures r.inCache != [] && r.inCache[0].Filled? ==> k' == k
  {
    SkipStaleLaw(r, now);
    k' := k + |r.inCache| - |SkipStale(r, now).inCache|;
    HolesDeal(q, k, k');
    assert q[k..][k' - k..] == q[k'..];
  }

  lemma {:induction false} HolesDeal(q: seq<Slot>, k: nat, k': nat)
    requires k <= k' <= |q| && forall i :: k <= i < k' ==> q[i].Hole?
    ensures Arrived(q[..k']) == Arrived(q[..k])
    decreases k'
  {
    if k < k' {
      HolesDeal(q, k, k' - 1);
      ArrivedSnoc(q, k' - 1);
    }
  }

  /** And a call with the head of the queue. */
  lemma OfferDeals(q: seq<Slot>, k: nat, handed: seq<seq<byte>>, r: Receiver)
    requires Dealt(q, k, handed, r.inCache)
    ensures var offer := Offer(r, BODY_MAX);
            Dealt(q, if r.inCache == [] || r.inCache[0].Hole? then k else k + 1,
                  handed + (if offer.Got? then [offer.body] else []), AfterOffer(r, BODY_MAX, false).inCache)
  {
    if r.inCache != [] && r.inCache[0].Filled? {
      ArrivedSnoc(q, k);
      assert q[k..][0] == q[k] && q[k..][1..] == q[k + 1..];
    }
  }

  /** "while (has_data()) receive_instruction()": at most one datagram is read, because the readiness
      flag is only set again outside the loop; the loop ends, hands over in order all that arrived among the
      slots it deals with, and leaves a hole, or nothing, at the head: these are the slots queued once the datagram
      was read, which a first sweep precedes. `clock` is what the readings of the tick
      counter give. */
  method ReceiveAll(ep: Endpoint, read: Option<seq<byte>>, fromPeer: bool, clock: nat -> u32)
    returns (handed: seq<seq<byte>>, ghost k: nat)
    requires ep.Valid()
    modifies ep
    ensures ep.Valid() && !ep.hasDataWaiting
    ensures ep.inCache == [] || ep.inCache[0].Hole?
    ensures var d := if old(ep.hasDataWaiting) && fromPeer then read else None;
            Dealt(Received(SkipStale(old(ep.Rx()), clock(0)), d).inCache, k, handed, ep.inCache)
  {
    handed, k := [], 0;
    var ticks := 1;
    var more := ep.HasData(clock(0));
    ghost var d := if ep.hasDataWaiting && fromPeer then read else None;
    ghost var q := Received(SkipStale(old(ep.Rx()), clock(0)), d).inCache;
    while more
      invariant ep.Valid()
      invariant more <==> ep.hasDataWaiting || (ep.inCache != [] && ep.inCache[0].Filled?)
      invariant if ep.hasDataWaiting then ep.Rx() == SkipStale(old(ep.Rx()), clock(0)) && k == 0 && handed == []
                else Dealt(q, k, handed, ep.inCache)
      invariant d == if old(ep.hasDataWaiting) && fromPeer then read else None
      invariant !old(ep.hasDataWaiting) ==> !ep.hasDataWaiting
      decreases ep.hasDataWaiting, |ep.inCache|
    {
      ghost var r := if ep.hasDataWaiting then Received(ep.Rx(), d) else ep.Rx();
      k := SweepDeals(q, k, handed, r, clock(ticks));
      OfferDeals(q, k, handed, SkipStale(r, clock(ticks)));
      var body := ep.CheckRecv(read, fromPeer, BODY_MAX, false, clock(ticks));
      k := if ep.inCache == q[k..] then k else k + 1;
      if body.Some? {
        handed := handed + [body.value];
      }
      ghost var r1 := ep.Rx();
      k := SweepDeals(q, k, handed, r1, clock(ticks + 1));
      more := ep.HasData(clock(ticks + 1));
      ticks := ticks + 2;
    }
  }
}
