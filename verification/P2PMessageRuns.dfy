/** Whole runs of a peer-to-peer message link: one sender, one receiver, and a network that may lose,
    duplicate and reorder every datagram it was ever given. */
module P2PMessageRuns {
  import opened Bundles
  import opened Bytes
  import opened P2PMessage

  /** A datagram in the network, with the unwrapped serial of its newest message. */
  datatype Packet = Packet(newest: int, msgs: seq<Msg>, data: seq<byte>)

  /** What became of a serial that has left the window: handed over as it was sent, handed over as an
      empty instruction, or thrown away when the window overflowed. */
  datatype Fate = Got | Empty | Cleared

  /** `cached` is last_cached_instruction without the 8-bit wrap; `fate` has one entry for every serial
      below the window. */
  datatype World = World(sent: seq<seq<byte>>, lastSent: byte, outCache: seq<Msg>, net: seq<Packet>,
                         rx: Receiver, cached: int, fate: seq<Fate>, handed: seq<(nat, seq<byte>)>)

  datatype Event =
    | Send(body: seq<byte>, ipm: int)
    | Resend(limit: int)
    | Receive(packet: Option<nat>, cap: int, leaveInQueue: bool)

  const START := World([], 0, [], [], Receiver(0, 0xFF, []), -1, [], [])

  /** The receiver still tells an old datagram from a new one. */
  predicate InWindow(p: Packet, cached: int) {
    Wellformed(p.data) ==> -241 <= p.newest - cached <= 0x100
  }

  ghost predicate Allowed(w: World, e: Event) {
    match e
    case Send(body, _) => 0 < |body| <= 0x100
    case Resend(_) => true
    case Receive(packet, _, _) => packet.Some? ==> packet.value < |w.net| && InWindow(w.net[packet.value], w.cached)
  }

  function Transmitted(w: World, limit: int): World
    requires |w.outCache| < CACHE_SIZE
  {
    var ms := Packed(EncodeMsg, w.outCache, limit, PACKET_MAX - 1);
    w.(net := w.net + [Packet(|w.sent| - 1, ms, Transmission(EncodeMsg, w.outCache, limit))])
  }

  function Sent(w: World, body: seq<byte>): World {
    var kept := if |w.outCache| == CACHE_SIZE - 1 then w.outCache[1..] else w.outCache;
    w.(sent := w.sent + [Carried(body)], outCache := kept + [Msg(w.lastSent, Carried(body))],
       lastSent := (w.lastSent + 1) % 0x100)
  }

  function Thrown(n: int): seq<Fate> {
    if n <= 0 then [] else seq(n, _ => Cleared)
  }

  predicate TakenForNew(r: Receiver, d: seq<byte>) {
    Wellformed(d) && 0 < Ahead(d[1], r.lastCached) < BUNDLE_LIMIT
  }

  function Digested(w: World, p: Packet): World {
    if !TakenForNew(w.rx, p.data) then w
    else
      var rx := Received(w.rx, p.data);
      w.(rx := rx, cached := p.newest, fate := w.fate + Thrown(p.newest + 1 - |rx.inCache| - |w.fate|))
  }

  function Handed(w: World, cap: int, leaveInQueue: bool): World {
    if leaveInQueue || !CanOffer(w.rx, cap) then w
    else
      var body := w.rx.inCache[0].body;
      w.(rx := AfterOffer(w.rx, cap, false), fate := w.fate + [if body == [] then Empty else Got],
         handed := w.handed + [(|w.fate|, body)])
  }

  function Step(w: World, e: Event): World
    requires |w.outCache| < CACHE_SIZE
  {
    match e
    case Send(body, ipm) => Transmitted(Sent(w, body), ipm)
    case Resend(limit) => Transmitted(w, limit)
    case Receive(packet, cap, leave) =>
      Handed(if packet.Some? && packet.value < |w.net| then Digested(w, w.net[packet.value]) else w, cap, leave)
  }

  // ----- the invariant -----

  ghost predicate SenderOk(w: World) {
    var n, base := |w.outCache|, |w.sent| - |w.outCache|;
    && w.lastSent == |w.sent| % 0x100 && n < CACHE_SIZE && base >= 0
    && (forall i :: 0 <= i < n ==> w.outCache[i] == Msg((base + i) % 0x100, w.sent[base + i]))
    && (forall i :: 0 <= i < |w.sent| ==> |w.sent[i]| < 0x100)
  }

  /** Consecutive messages as they were sent, newest first. */
  ghost predicate Consecutive(ms: seq<Msg>, newest: int, sent: seq<seq<byte>>) {
    && |ms| < CACHE_SIZE && |ms| <= newest + 1 <= |sent|
    && forall j :: 0 <= j < |ms| ==> ms[j] == Msg((newest - j) % 0x100, sent[newest - j]) && |ms[j].body| < 0x100
  }

  ghost predicate PacketOk(p: Packet, sent: seq<seq<byte>>) {
    Consecutive(p.msgs, p.newest, sent) && p.data == [|p.msgs|] + EncodeAll(EncodeMsg, p.msgs)
  }

  ghost predicate SlotOk(s: Msg, u: int, sent: seq<seq<byte>>) {
    0 <= u < |sent| && (s == HOLE || s == Msg(u % 0x100, sent[u]))
  }

  /** The window is the contiguous run of serials that ends at `cached`. */
  ghost predicate WindowOk(r: Receiver, cached: int, sent: seq<seq<byte>>) {
    var n := |r.inCache|;
    && -1 <= cached < |sent| && r.lastCached == cached % 0x100 && n <= CACHE_SIZE && n <= cached + 1
    && forall i :: 0 <= i < n ==> SlotOk(r.inCache[i], cached + 1 - n + i, sent)
  }

  function HandedOf(fate: seq<Fate>, sent: seq<seq<byte>>): seq<(nat, seq<byte>)>
    requires |fate| <= |sent|
  {
    if fate == [] then []
    else
      var n := |fate| - 1;
      HandedOf(fate[..n], sent) + match fate[n] case Got => [(n, sent[n])] case Empty => [(n, [])] case Cleared => []
  }

  ghost predicate LedgerOk(w: World) {
    |w.fate| + |w.rx.inCache| == w.cached + 1 <= |w.sent| && w.handed == HandedOf(w.fate, w.sent)
  }

  ghost predicate Inv(w: World) {
    && SenderOk(w)
    && (forall p :: p in w.net ==> PacketOk(p, w.sent))
    && WindowOk(w.rx, w.cached, w.sent)
    && LedgerOk(w)
  }

  // ----- bundles survive the wire -----

  function Until(ms: seq<Msg>, last: byte): seq<Msg> {
    if ms == [] || ms[0].serial == last then [] else [ms[0]] + Until(ms[1..], last)
  }

  /** What the receiver reads off a bundle: its messages, up to the one it already has. */
  lemma {:induction false} BundleReads(ms: seq<Msg>, last: byte)
    requires forall j :: 0 <= j < |ms| ==> |ms[j].body| < 0x100
    ensures Readable(EncodeAll(EncodeMsg, ms), |ms|, last) == Until(ms, last)
  {
    if ms != [] {
      var m, tail := ms[0], EncodeAll(EncodeMsg, ms[1..]);
      var s := EncodeMsg(m) + tail;
      assert s[0] == m.serial && s[1] == |m.body| && s[2..2 + |m.body|] == m.body && s[2 + |m.body|..] == tail;
      BundleReads(ms[1..], last);
    }
  }

  lemma TransmissionOk(w: World, limit: int)
    requires SenderOk(w)
    ensures var ms := Packed(EncodeMsg, w.outCache, limit, PACKET_MAX - 1);
            PacketOk(Packet(|w.sent| - 1, ms, Transmission(EncodeMsg, w.outCache, limit)), w.sent)
  {
    PackedIsNewestFirst(EncodeMsg, w.outCache, limit, PACKET_MAX - 1);
    NewestAreAsSent(w, Packed(EncodeMsg, w.outCache, limit, PACKET_MAX - 1));
  }

  lemma NewestAreAsSent(w: World, ms: seq<Msg>)
    requires SenderOk(w) && NewestFirst(EncodeMsg, ms, w.outCache, PACKET_MAX - 1)
    ensures Consecutive(ms, |w.sent| - 1, w.sent)
  {
    forall j | 0 <= j < |ms|
      ensures ms[j] == Msg((|w.sent| - 1 - j) % 0x100, w.sent[|w.sent| - 1 - j])
    {
      assert ms[j] == w.outCache[|w.outCache| - 1 - j];
    }
  }

  // ----- a bundle fills the window from its end -----

  lemma AheadOf(u: int, v: int)
    ensures Ahead(u % 0x100, v % 0x100) == (u - v) % 0x100
  {
  }

  ghost predicate FilledBack(q: seq<Msg>, q': seq<Msg>, ms: seq<Msg>, from: nat, to: nat) {
    && |q'| == |q| && to <= |q|
    && forall i :: 0 <= i < |q| ==>
         q'[i] == if from <= |q| - 1 - i < to && |q| - 1 - i < |ms| then ms[|q| - 1 - i] else q[i]
  }

  lemma FilledBackJoins(q: seq<Msg>, q': seq<Msg>, ms: seq<Msg>, j: nat, to: nat)
    requires j < |ms| && j < to <= |q| && FilledBack(q[|q| - 1 - j := ms[j]], q', ms, j + 1, to)
    ensures FilledBack(q, q', ms, j, to)
  {
  }

  lemma FilledBackNothing(q: seq<Msg>, ms: seq<Msg>, j: nat, to: nat)
    requires to <= |q| && (j >= |ms| || j >= to)
    ensures FilledBack(q, q, ms, j, to)
  {
  }

  /** The j-th message of a bundle belongs j slots from the end of the tx new ones. */
  lemma PlaceOf(q: seq<Msg>, tx: nat, last: byte, m: Msg, j: nat, newest: int)
    requires j <= tx < BUNDLE_LIMIT && tx <= |q| && last == (newest - tx) % 0x100 && m.serial == (newest - j) % 0x100
    ensures m.serial == last <==> j == tx
    ensures j < tx ==> Fill(q, tx, last, m) == q[|q| - 1 - j := m]
  {
    AheadOf(newest - j, newest - tx);
    assert Ahead(m.serial, last) == (tx - j) % 0x100 == tx - j;
  }

  lemma FillAllStep(q: seq<Msg>, tx: nat, last: byte, ms: seq<Msg>, j: nat)
    requires tx <= |q| && j < |ms|
    ensures FillAll(q, tx, last, Until(ms[j..], last)) ==
            if ms[j].serial == last then q else FillAll(Fill(q, tx, last, ms[j]), tx, last, Until(ms[j + 1..], last))
  {
    assert ms[j..][1..] == ms[j + 1..];
  }

  /** A bundle fills the new slots from the end, and reading stops at the serial that precedes them. */
  lemma {:induction false} FillsFromTheEnd(q: seq<Msg>, tx: nat, last: byte, ms: seq<Msg>, j: nat, newest: int,
                                           sent: seq<seq<byte>>)
    requires Consecutive(ms, newest, sent) && j <= |ms| && j <= tx < BUNDLE_LIMIT && tx <= |q|
             && last == (newest - tx) % 0x100
    ensures FilledBack(q, FillAll(q, tx, last, Until(ms[j..], last)), ms, j, tx)
    decreases |ms| - j
  {
    if j == |ms| {
      FilledBackNothing(q, ms, j, tx);
    } else {
      PlaceOf(q, tx, last, ms[j], j, newest);
      FillAllStep(q, tx, last, ms, j);
      if j == tx {
        FilledBackNothing(q, ms, j, tx);
      } else {
        var q1 := q[|q| - 1 - j := ms[j]];
        FillsFromTheEnd(q1, tx, last, ms, j + 1, newest, sent);
        FilledBackJoins(q, FillAll(q1, tx, last, Until(ms[j + 1..], last)), ms, j, tx);
      }
    }
  }

  lemma BundleFills(q: seq<Msg>, q': seq<Msg>, tx: nat, last: byte, ms: seq<Msg>, newest: int, sent: seq<seq<byte>>)
    requires Consecutive(ms, newest, sent) && tx < BUNDLE_LIMIT && tx <= |q| && last == (newest - tx) % 0x100
    requires q' == FillAll(q, tx, last, Until(ms, last))
    ensures FilledBack(q, q', ms, 0, tx)
  {
    assert ms[0..] == ms;
    FillsFromTheEnd(q, tx, last, ms, 0, newest, sent);
  }

  /** What a bundle that is taken for new does to a window it extends by tx slots. */
  lemma TakenFills(r: Receiver, p: Packet, tx: nat, sent: seq<seq<byte>>)
    requires PacketOk(p, sent) && TakenForNew(r, p.data) && r.lastCached == (p.newest - tx) % 0x100 && tx < BUNDLE_LIMIT
    ensures var r' := Received(r, p.data);
            && r'.lastCached == p.newest % 0x100
            && FilledBack(Widened(r.inCache, tx), r'.inCache, p.msgs, 0, tx)
  {
    FirstSerial(p, sent);
    TakenTx(p.newest, tx);
    TakenReads(r, p, tx);
    BundleFills(Widened(r.inCache, tx), Received(r, p.data).inCache, tx, r.lastCached, p.msgs, p.newest, sent);
  }

  lemma TakenTx(newest: int, tx: nat)
    requires tx < BUNDLE_LIMIT
    ensures Ahead(newest % 0x100, (newest - tx) % 0x100) == tx
  {
    AheadOf(newest, newest - tx);
  }

  lemma TakenReads(r: Receiver, p: Packet, tx: nat)
    requires TakenForNew(r, p.data) && tx == Ahead(p.data[1], r.lastCached)
    requires p.data == [|p.msgs|] + EncodeAll(EncodeMsg, p.msgs)
    requires forall j :: 0 <= j < |p.msgs| ==> |p.msgs[j].body| < 0x100
    ensures Received(r, p.data) ==
              r.(inCache := FillAll(Widened(r.inCache, tx), tx, r.lastCached, Until(p.msgs, r.lastCached)),
                 lastCached := p.data[1])
  {
    assert p.data[1..] == EncodeAll(EncodeMsg, p.msgs);
    BundleReads(p.msgs, r.lastCached);
  }

  lemma FirstSerial(p: Packet, sent: seq<seq<byte>>)
    requires PacketOk(p, sent) && Wellformed(p.data)
    ensures p.msgs != [] && p.data[1] == p.newest % 0x100
  {
    assert EncodeAll(EncodeMsg, p.msgs)[0] == p.msgs[0].serial;
  }

  /** Which transmissions are taken, by a receiver whose newest serial is `cached`: those of 1 to 14 messages that
      are 1 to 14 serials ahead. Their newest message ends the window, the new slots hold, from the end, the messages
      packed, and those before stay if there is room. All others are ignored. */
  lemma WhatIsTaken(w: World, limit: int, r: Receiver, cached: int, ms: seq<Msg>, d: seq<byte>)
    requires SenderOk(w) && ms == Packed(EncodeMsg, w.outCache, limit, PACKET_MAX - 1)
    requires d == Transmission(EncodeMsg, w.outCache, limit)
    requires r.lastCached == cached % 0x100 && cached < |w.sent| <= cached + 0x100
    ensures var tx := |w.sent| - 1 - cached;
            if 0 < |ms| < BUNDLE_LIMIT && 0 < tx < BUNDLE_LIMIT then
              && Received(r, d).lastCached == (|w.sent| - 1) % 0x100
              && FilledBack(Widened(r.inCache, tx), Received(r, d).inCache, ms, 0, tx)
            else Received(r, d) == r
  {
    var p := Packet(|w.sent| - 1, ms, d);
    var tx := |w.sent| - 1 - cached;
    TransmissionOk(w, limit);
    SentIsWellformed(ms, d);
    if 0 < |ms| < BUNDLE_LIMIT {
      FirstSerial(p, w.sent);
      TakenTxIff(p.newest, cached);
      if 0 < tx < BUNDLE_LIMIT {
        TakenFills(r, p, tx, w.sent);
      }
    }
  }

  /** A sent bundle is well formed exactly if it has 1 to 14 messages. */
  lemma SentIsWellformed(ms: seq<Msg>, d: seq<byte>)
    requires |ms| < 0x100 && d == [|ms|] + EncodeAll(EncodeMsg, ms)
    ensures Wellformed(d) <==> 0 < |ms| < BUNDLE_LIMIT
  {
  }

  lemma TakenTxIff(newest: int, cached: int)
    requires cached <= newest < cached + 0x100
    ensures Ahead(newest % 0x100, cached % 0x100) == newest - cached
  {
    AheadOf(newest, cached);
  }

  lemma AcceptedFills(r: Receiver, p: Packet, cached: int, sent: seq<seq<byte>>)
    requires r.lastCached == cached % 0x100 && PacketOk(p, sent) && InWindow(p, cached) && TakenForNew(r, p.data)
    ensures var tx := p.newest - cached;
            && 0 < tx < BUNDLE_LIMIT && Received(r, p.data).lastCached == p.newest % 0x100
            && FilledBack(Widened(r.inCache, tx), Received(r, p.data).inCache, p.msgs, 0, tx)
  {
    FirstSerial(p, sent);
    TakenIsAhead(p.newest, cached);
    TakenFills(r, p, p.newest - cached, sent);
  }

  /** In the window, what looks 1 to 14 serials ahead is. */
  lemma TakenIsAhead(newest: int, cached: int)
    requires -241 <= newest - cached <= 0x100 && 0 < Ahead(newest % 0x100, cached % 0x100) < BUNDLE_LIMIT
    ensures 0 < newest - cached < BUNDLE_LIMIT
  {
    AheadOf(newest, cached);
  }

  lemma FilledWindowOk(r: Receiver, r': Receiver, tx: nat, ms: seq<Msg>, cached: int, sent: seq<seq<byte>>)
    requires WindowOk(r, cached, sent) && 0 < tx < BUNDLE_LIMIT && Consecutive(ms, cached + tx, sent)
    requires r'.lastCached == (cached + tx) % 0x100 && FilledBack(Widened(r.inCache, tx), r'.inCache, ms, 0, tx)
    ensures WindowOk(r', cached + tx, sent)
  {
    var q, q' := Widened(r.inCache, tx), r'.inCache;
    var n := |q|;
    forall i | 0 <= i < n
      ensures SlotOk(q'[i], cached + tx + 1 - n + i, sent)
    {
      var b := n - 1 - i;
      assert q'[i] == if b < tx && b < |ms| then ms[b] else q[i];
      if b >= tx {
        assert q[i] == r.inCache[i];
        assert SlotOk(r.inCache[i], cached + 1 - |r.inCache| + i, sent);
      }
    }
  }

  // ----- every step keeps the invariant -----

  lemma {:induction false} HandedOfGrows(fate: seq<Fate>, sent: seq<seq<byte>>, more: seq<seq<byte>>)
    requires |fate| <= |sent|
    ensures HandedOf(fate, sent + more) == HandedOf(fate, sent)
    decreases |fate|
  {
    if fate != [] {
      HandedOfGrows(fate[..|fate| - 1], sent, more);
    }
  }

  lemma {:induction false} HandedOfThrown(fate: seq<Fate>, n: int, sent: seq<seq<byte>>)
    requires |fate| + |Thrown(n)| <= |sent|
    ensures HandedOf(fate + Thrown(n), sent) == HandedOf(fate, sent)
    decreases n
  {
    if n <= 0 {
      assert fate + Thrown(n) == fate;
    } else {
      HandedOfThrown(fate, n - 1, sent);
      assert (fate + Thrown(n))[..|fate| + n - 1] == fate + Thrown(n - 1);
    }
  }

  lemma NextSerial(n: nat)
    ensures (n % 0x100 + 1) % 0x100 == (n + 1) % 0x100
  {
  }

  /** The newest of the kept messages are still what was sent last, before the new one. */
  lemma KeptAreNewest(out: seq<Msg>, sent: seq<seq<byte>>, body: seq<byte>, drop: nat)
    requires drop <= |out| <= |sent|
    requires forall i :: 0 <= i < |out| ==> out[i] == Msg((|sent| - |out| + i) % 0x100, sent[|sent| - |out| + i])
    ensures var kept := out[drop..] + [Msg(|sent| % 0x100, body)];
            forall i :: 0 <= i < |kept| ==>
              kept[i] == Msg((|sent| + 1 - |kept| + i) % 0x100, (sent + [body])[|sent| + 1 - |kept| + i])
  {
  }

  lemma SendKeepsSender(w: World, body: seq<byte>)
    requires SenderOk(w) && 0 < |body| <= 0x100
    ensures SenderOk(Sent(w, body))
  {
    var drop := if |w.outCache| == CACHE_SIZE - 1 then 1 else 0;
    KeptAreNewest(w.outCache, w.sent, Carried(body), drop);
    NextSerial(|w.sent|);
    assert Sent(w, body).outCache == w.outCache[drop..] + [Msg(|w.sent| % 0x100, Carried(body))];
  }

  lemma SendKeepsInv(w: World, body: seq<byte>)
    requires Inv(w) && 0 < |body| <= 0x100
    ensures Inv(Sent(w, body))
  {
    var w' := Sent(w, body);
    SendKeepsSender(w, body);
    HandedOfGrows(w.fate, w.sent, [Carried(body)]);
    forall p | p in w'.net
      ensures PacketOk(p, w'.sent)
    {
      assert PacketOk(p, w.sent);
    }
    forall i | 0 <= i < |w.rx.inCache|
      ensures SlotOk(w.rx.inCache[i], w.cached + 1 - |w.rx.inCache| + i, w'.sent)
    {
      assert SlotOk(w.rx.inCache[i], w.cached + 1 - |w.rx.inCache| + i, w.sent);
    }
  }

  lemma TransmitKeepsInv(w: World, limit: int)
    requires Inv(w)
    ensures Inv(Transmitted(w, limit))
  {
    TransmissionOk(w, limit);
  }

  lemma DigestKeepsInv(w: World, p: Packet)
    requires Inv(w) && p in w.net && InWindow(p, w.cached)
    ensures Inv(Digested(w, p))
  {
    if TakenForNew(w.rx, p.data) {
      var r' := Received(w.rx, p.data);
      AcceptedMovesWindow(w.rx, p, w.cached, w.sent, r');
      ThrownKeepsLedger(w, Digested(w, p), |r'.inCache|, p.newest);
    }
  }

  lemma AcceptedMovesWindow(r: Receiver, p: Packet, cached: int, sent: seq<seq<byte>>, r': Receiver)
    requires WindowOk(r, cached, sent) && PacketOk(p, sent) && InWindow(p, cached) && TakenForNew(r, p.data)
    requires r' == Received(r, p.data)
    ensures WindowOk(r', p.newest, sent) && p.newest > cached
    ensures cached + 1 - |r.inCache| <= p.newest + 1 - |r'.inCache|
  {
    ExtendedMovesWindow(r, r', p.newest - cached, p.msgs, cached, sent);
    AcceptedFills(r, p, cached, sent);
  }

  lemma ExtendedMovesWindow(r: Receiver, r': Receiver, tx: int, ms: seq<Msg>, cached: int, sent: seq<seq<byte>>)
    requires WindowOk(r, cached, sent) && Consecutive(ms, cached + tx, sent)
    ensures 0 < tx < BUNDLE_LIMIT && r'.lastCached == (cached + tx) % 0x100
            && FilledBack(Widened(r.inCache, tx), r'.inCache, ms, 0, tx) ==>
              WindowOk(r', cached + tx, sent) && |r'.inCache| <= |r.inCache| + tx
  {
    if 0 < tx < BUNDLE_LIMIT && r'.lastCached == (cached + tx) % 0x100 {
      if FilledBack(Widened(r.inCache, tx), r'.inCache, ms, 0, tx) {
        FilledWindowOk(r, r', tx, ms, cached, sent);
      }
    }
  }

  lemma ThrownKeepsLedger(w: World, w': World, queued: nat, newest: int)
    requires LedgerOk(w) && w'.sent == w.sent && w'.handed == w.handed && w'.cached == newest < |w.sent|
    requires |w'.rx.inCache| == queued && |w.fate| + queued <= newest + 1
    requires w'.fate == w.fate + Thrown(newest + 1 - queued - |w.fate|)
    ensures LedgerOk(w')
  {
    HandedOfThrown(w.fate, newest + 1 - queued - |w.fate|, w.sent);
  }

  lemma HandKeepsInv(w: World, cap: int, leaveInQueue: bool)
    requires Inv(w)
    ensures Inv(Handed(w, cap, leaveInQueue))
  {
    if CanOffer(w.rx, cap) && !leaveInQueue {
      var w' := Handed(w, cap, leaveInQueue);
      assert w'.fate[..|w.fate|] == w.fate;
      assert SlotOk(w.rx.inCache[0], |w.fate|, w.sent);
      forall i | 0 <= i < |w'.rx.inCache|
        ensures SlotOk(w'.rx.inCache[i], w.cached + 1 - |w'.rx.inCache| + i, w.sent)
      {
        assert SlotOk(w.rx.inCache[i + 1], w.cached + 1 - |w.rx.inCache| + (i + 1), w.sent);
      }
    }
  }

  lemma StepKeepsInv(w: World, e: Event)
    requires Inv(w) && Allowed(w, e)
    ensures Inv(Step(w, e))
  {
    match e
    case Send(body, ipm) =>
      SendKeepsInv(w, body);
      TransmitKeepsInv(Sent(w, body), ipm);
    case Resend(limit) =>
      TransmitKeepsInv(w, limit);
    case Receive(packet, cap, leave) =>
      if packet.Some? {
        DigestKeepsInv(w, w.net[packet.value]);
        HandKeepsInv(Digested(w, w.net[packet.value]), cap, leave);
      } else {
        HandKeepsInv(w, cap, leave);
      }
  }

  // ----- whole runs -----

  ghost predicate Next(w: World, e: Event, w': World) {
    |w.outCache| < CACHE_SIZE && Allowed(w, e) && w' == Step(w, e)
  }

  ghost predicate IsRun(ws: seq<World>, es: seq<Event>) {
    |ws| == |es| + 1 && ws[0] == START && forall i :: 0 <= i < |es| ==> Next(ws[i], es[i], ws[i + 1])
  }

  /** Some run, of any length and with any schedule, ends in w. */
  ghost predicate Reachable(w: World) {
    exists ws, es :: IsRun(ws, es) && ws[|es|] == w
  }

  lemma {:induction false} RunKeepsInv(ws: seq<World>, es: seq<Event>, i: nat)
    requires IsRun(ws, es) && i <= |es|
    ensures Inv(ws[i])
  {
    if i > 0 {
      RunKeepsInv(ws, es, i - 1);
      assert Next(ws[i - 1], es[i - 1], ws[i]);
      StepKeepsInv(ws[i - 1], es[i - 1]);
    }
  }

  lemma ReachableInv(w: World)
    requires Reachable(w)
    ensures Inv(w)
  {
    var ws, es :| IsRun(ws, es) && ws[|es|] == w;
    RunKeepsInv(ws, es, |es|);
  }

  ghost predicate Ordered(h: seq<(nat, seq<byte>)>, bound: nat) {
    && (forall i, j :: 0 <= i < j < |h| ==> h[i].0 < h[j].0)
    && (forall i :: 0 <= i < |h| ==> h[i].0 < bound)
  }

  /** In order, and each as it was sent or empty. */
  ghost predicate Faithful(h: seq<(nat, seq<byte>)>, bound: nat, sent: seq<seq<byte>>) {
    bound <= |sent| && Ordered(h, bound) && forall i :: 0 <= i < |h| ==> h[i].1 == [] || h[i].1 == sent[h[i].0]
  }

  lemma FaithfulSnoc(h: seq<(nat, seq<byte>)>, n: nat, sent: seq<seq<byte>>)
    requires Faithful(h, n, sent) && n < |sent|
    ensures Faithful(h, n + 1, sent)
    ensures Faithful(h + [(n, sent[n])], n + 1, sent) && Faithful(h + [(n, [])], n + 1, sent)
  {
  }

  lemma {:induction false} HandedOfIsOrdered(fate: seq<Fate>, sent: seq<seq<byte>>)
    requires |fate| <= |sent|
    ensures Faithful(HandedOf(fate, sent), |fate|, sent)
    decreases |fate|
  {
    if fate != [] {
      var n := |fate| - 1;
      HandedOfIsOrdered(fate[..n], sent);
      FaithfulSnoc(HandedOf(fate[..n], sent), n, sent);
      assert HandedOf(fate[..n], sent) + [] == HandedOf(fate[..n], sent);
    }
  }

  /** With datagrams lost, repeated and reordered, as long as none is more than 241 serials late, what is
      handed over has strictly increasing serials, across any number of turns of the 8-bit counter, and
      each is the message sent under that serial or, for a message that was lost, an empty one. */
  lemma HandedInOrder(w: World)
    requires Reachable(w)
    ensures Ordered(w.handed, |w.sent|)
    ensures forall i :: 0 <= i < |w.handed| ==> w.handed[i].1 == [] || w.handed[i].1 == w.sent[w.handed[i].0]
  {
    ReachableInv(w);
    HandedOfIsOrdered(w.fate, w.sent);
  }

  // ----- bundles that reach back far enough -----

  /** The bundle, if it is taken, has all the messages that the receiver is missing up to its newest,
      and the window has room for them. */
  ghost predicate Covers(w: World, e: Event) {
    match e
    case Receive(packet, _, _) =>
      packet.Some? && packet.value < |w.net| && TakenForNew(w.rx, w.net[packet.value].data) ==>
        var p := w.net[packet.value];
        |p.msgs| >= p.newest - w.cached && |w.rx.inCache| + p.newest - w.cached <= CACHE_SIZE
    case _ => true
  }

  ghost predicate IsCoveringRun(ws: seq<World>, es: seq<Event>) {
    IsRun(ws, es) && forall i :: 0 <= i < |es| ==> Covers(ws[i], es[i])
  }

  ghost predicate CoveringReachable(w: World) {
    exists ws, es :: IsCoveringRun(ws, es) && ws[|es|] == w
  }

  /** Every slot of the window holds the message sent under its serial. */
  ghost predicate AllHeld(q: seq<Msg>, cached: int, sent: seq<seq<byte>>) {
    |q| <= cached + 1 <= |sent| && forall i :: 0 <= i < |q| ==> q[i].body == sent[cached + 1 - |q| + i]
  }

  /** Everything that left the window was handed over as it was sent. */
  ghost predicate AsSent(fate: seq<Fate>, sent: seq<seq<byte>>) {
    |fate| <= |sent| && forall i :: 0 <= i < |fate| ==> fate[i] == Got || (fate[i] == Empty && sent[i] == [])
  }

  lemma CoveringDigest(w: World, p: Packet)
    requires Inv(w) && AllHeld(w.rx.inCache, w.cached, w.sent) && p in w.net && InWindow(p, w.cached)
    requires TakenForNew(w.rx, p.data) ==>
               |p.msgs| >= p.newest - w.cached && |w.rx.inCache| + p.newest - w.cached <= CACHE_SIZE
    ensures var w' := Digested(w, p);
            AllHeld(w'.rx.inCache, w'.cached, w.sent) && w'.fate == w.fate
  {
    if TakenForNew(w.rx, p.data) {
      AcceptedFills(w.rx, p, w.cached, w.sent);
      CoveredIsHeld(w.rx.inCache, Received(w.rx, p.data).inCache, p.msgs, w.cached, p.newest - w.cached, w.sent);
      assert w.fate + Thrown(0) == w.fate;
    }
  }

  lemma CoveredIsHeld(q: seq<Msg>, q': seq<Msg>, ms: seq<Msg>, cached: int, tx: nat, sent: seq<seq<byte>>)
    requires AllHeld(q, cached, sent) && Consecutive(ms, cached + tx, sent) && tx <= |ms| && |q| + tx <= CACHE_SIZE
    requires FilledBack(Widened(q, tx), q', ms, 0, tx)
    ensures AllHeld(q', cached + tx, sent)
  {
    var wide := Widened(q, tx);
    forall i | 0 <= i < |q'|
      ensures q'[i].body == sent[cached + tx + 1 - |q'| + i]
    {
      var b := |wide| - 1 - i;
      assert q'[i] == if b < tx then ms[b] else wide[i];
      if b >= tx {
        assert wide[i] == q[i];
      }
    }
  }

  /** In covering runs nothing is missing. */
  ghost predicate Complete(w: World) {
    AllHeld(w.rx.inCache, w.cached, w.sent) && AsSent(w.fate, w.sent)
  }

  lemma CoveringSend(w: World, body: seq<byte>)
    requires Inv(w) && Complete(w)
    ensures Complete(Sent(w, body))
  {
  }

  lemma CoveringHand(w: World, cap: int, leaveInQueue: bool)
    requires Inv(w) && Complete(w)
    ensures Complete(Handed(w, cap, leaveInQueue))
  {
    if CanOffer(w.rx, cap) && !leaveInQueue {
      assert w.rx.inCache[0].body == w.sent[|w.fate|];
    }
  }

  lemma CoveringStep(w: World, e: Event)
    requires Inv(w) && Allowed(w, e) && Covers(w, e) && Complete(w)
    ensures Complete(Step(w, e))
  {
    match e
    case Send(body, _) => CoveringSend(w, body);
    case Resend(_) =>
    case Receive(packet, cap, leave) =>
      if packet.Some? {
        var p := w.net[packet.value];
        DigestKeepsInv(w, p);
        CoveringDigest(w, p);
        CoveringHand(Digested(w, p), cap, leave);
      } else {
        CoveringHand(w, cap, leave);
      }
  }

  lemma {:induction false} CoveringRun(ws: seq<World>, es: seq<Event>, i: nat)
    requires IsCoveringRun(ws, es) && i <= |es|
    ensures Inv(ws[i]) && Complete(ws[i])
  {
    RunKeepsInv(ws, es, i);
    if i > 0 {
      CoveringRun(ws, es, i - 1);
      RunKeepsInv(ws, es, i - 1);
      assert Next(ws[i - 1], es[i - 1], ws[i]) && Covers(ws[i - 1], es[i - 1]);
      CoveringStep(ws[i - 1], es[i - 1]);
    }
  }

  lemma {:induction false} HandedAsSent(fate: seq<Fate>, sent: seq<seq<byte>>)
    requires AsSent(fate, sent)
    ensures var h := HandedOf(fate, sent);
            |h| == |fate| && forall i :: 0 <= i < |h| ==> h[i] == (i, sent[i])
    decreases |fate|
  {
    if fate != [] {
      HandedAsSent(fate[..|fate| - 1], sent);
    }
  }

  /** If every bundle that is taken reaches back to what the receiver holds and fits its window, what is
      handed over is exactly the sent sequence, from message 0 on, without gap or repeat, and the queue
      holds the messages that come next. */
  lemma CoveredDeliveryIsTheSentSequence(w: World)
    requires CoveringReachable(w)
    ensures |w.handed| + |w.rx.inCache| == w.cached + 1 <= |w.sent|
    ensures forall i :: 0 <= i < |w.handed| ==> w.handed[i] == (i, w.sent[i])
    ensures forall i :: 0 <= i < |w.rx.inCache| ==> w.rx.inCache[i].body == w.sent[|w.handed| + i]
  {
    CoveringIsComplete(w);
    HandedAsSent(w.fate, w.sent);
  }

  lemma CoveringIsComplete(w: World)
    requires CoveringReachable(w)
    ensures LedgerOk(w) && Complete(w)
  {
    var ws, es :| IsCoveringRun(ws, es) && ws[|es|] == w;
    CoveringRun(ws, es, |es|);
  }

  // ----- what is queued is handed over -----

  /** A call hands over the head of the queue exactly if there is one and it fits the caller's buffer; whatever it
      finds too large stays. */
  lemma HeadIsHandedOver(w: World, cap: int, w': World)
    requires |w.outCache| < CACHE_SIZE && w' == Step(w, Receive(None, cap, false))
    ensures var q := w.rx.inCache;
            if q != [] && cap > 0 && cap >= |q[0].body| then
              w'.handed == w.handed + [(|w.fate|, q[0].body)] && w'.rx.inCache == q[1..]
              && w'.rx.lastProcessed == q[0].serial
            else w' == w
  {
  }

  /** What n calls in a row lead to. */
  function CalledTimes(w: World, n: nat): World
    requires |w.outCache| < CACHE_SIZE
    decreases n
  {
    if n == 0 then w else CalledTimes(Step(w, Receive(None, 0x100, false)), n - 1)
  }

  function NumberedBodies(q: seq<Msg>, from: nat): (h: seq<(nat, seq<byte>)>)
    ensures |h| == |q| && forall i :: 0 <= i < |q| ==> h[i] == (from + i, q[i].body)
  {
    seq(|q|, i requires 0 <= i < |q| => (from + i, q[i].body))
  }

  lemma NumberedCons(q: seq<Msg>, from: nat)
    requires q != []
    ensures NumberedBodies(q, from) == [(from, q[0].body)] + NumberedBodies(q[1..], from + 1)
  {
  }

  lemma CallOnce(w: World, q: seq<Msg>, next: World)
    requires |w.outCache| < CACHE_SIZE && q != [] && q == w.rx.inCache && |q[0].body| <= 0x100
    requires next == Step(w, Receive(None, 0x100, false))
    ensures CalledTimes(w, |q|) == CalledTimes(next, |q| - 1) && next.outCache == w.outCache
    ensures next.rx.inCache == q[1..] && |next.fate| == |w.fate| + 1
    ensures next.handed == w.handed + [(|w.fate|, q[0].body)]
  {
    HeadIsHandedOver(w, 0x100, next);
  }

  ghost predicate AllFit(q: seq<Msg>) {
    forall i :: 0 <= i < |q| ==> |q[i].body| <= 0x100
  }

  lemma HandedInTurn(handed: seq<(nat, seq<byte>)>, q: seq<Msg>, from: nat)
    requires q != []
    ensures handed + [(from, q[0].body)] + NumberedBodies(q[1..], from + 1) == handed + NumberedBodies(q, from)
  {
    NumberedCons(q, from);
  }

  /** As many calls as messages are queued hand over all of them, in order. */
  lemma {:induction false} QueueIsHandedOver(w: World, q: seq<Msg>, w': World)
    requires |w.outCache| < CACHE_SIZE && q == w.rx.inCache && AllFit(q) && w' == CalledTimes(w, |q|)
    ensures w'.rx.inCache == [] && w'.handed == w.handed + NumberedBodies(q, |w.fate|)
    decreases |q|
  {
    if q != [] {
      var next := Step(w, Receive(None, 0x100, false));
      CallOnce(w, q, next);
      QueueIsHandedOver(next, q[1..], w');
      HandedInTurn(w.handed, q, |w.fate|);
    } else {
      assert NumberedBodies(q, |w.fate|) == [];
    }
  }

  // ----- how late is too late -----

  /** A datagram that is late is recognised as old if and only if its lateness, counted modulo 2^8, is at
      most 241. A later one is taken for 1 to 14 new serials, whatever the window: its messages, though the
      receiver is past them, fill that many new slots, the newest in the last. */
  lemma TooLateIsTakenForNew(r: Receiver, p: Packet, cached: int, late: nat, sent: seq<seq<byte>>)
    requires r.lastCached == cached % 0x100 && PacketOk(p, sent) && Wellformed(p.data) && late == cached - p.newest
    ensures Received(r, p.data) == r <==> late % 0x100 <= 241
    ensures late % 0x100 > 241 ==>
              var tx, r' := 0x100 - late % 0x100, Received(r, p.data);
              && r'.lastCached == p.newest % 0x100 && FilledBack(Widened(r.inCache, tx), r'.inCache, p.msgs, 0, tx)
              && r'.inCache[|r'.inCache| - 1].body == sent[p.newest]
  {
    FirstSerial(p, sent);
    Lateness(p.newest, cached, late);
    if late % 0x100 > 241 {
      WidenedIsOther(r, p.data);
      NewestIsLast(r, p, 0x100 - late % 0x100, sent);
    }
  }

  lemma Lateness(newest: int, cached: int, late: nat)
    requires late == cached - newest
    ensures 0 < Ahead(newest % 0x100, cached % 0x100) < BUNDLE_LIMIT <==> late % 0x100 > 241
    ensures cached % 0x100 == (newest - (0x100 - late % 0x100)) % 0x100
  {
    AheadOf(newest, cached);
    Negated(late);
    FullTurn(newest, late);
  }

  lemma Negated(late: int)
    ensures (-late) % 0x100 == if late % 0x100 == 0 then 0 else 0x100 - late % 0x100
  {
  }

  lemma FullTurn(newest: int, late: nat)
    ensures (newest + late) % 0x100 == (newest - (0x100 - late % 0x100)) % 0x100
  {
  }

  lemma NewestIsLast(r: Receiver, p: Packet, tx: nat, sent: seq<seq<byte>>)
    requires PacketOk(p, sent) && TakenForNew(r, p.data) && r.lastCached == (p.newest - tx) % 0x100
             && 0 < tx < BUNDLE_LIMIT
    ensures var r' := Received(r, p.data);
            && r'.lastCached == p.newest % 0x100 && FilledBack(Widened(r.inCache, tx), r'.inCache, p.msgs, 0, tx)
            && r'.inCache != [] && r'.inCache[|r'.inCache| - 1].body == sent[p.newest]
  {
    FirstSerial(p, sent);
    TakenFills(r, p, tx, sent);
  }

  /** A bundle that is taken moves last_cached_instruction. */
  lemma WidenedIsOther(r: Receiver, d: seq<byte>)
    requires TakenForNew(r, d)
    ensures Received(r, d) != r
  {
    assert Received(r, d).lastCached == d[1];
  }

  // ----- the endpoints behind a run -----

  /** One endpoint that sends and one that receives, in the state of a run. */
  ghost predicate Plays(sender: P2PEndpoint, receiver: P2PEndpoint, w: World)
    reads sender, receiver
  {
    && sender != receiver && sender.Valid() && receiver.Valid()
    && sender.outCache == w.outCache && sender.lastSent == w.lastSent && receiver.Rx() == w.rx
  }

  /** One datagram of the network, or none, at the receiver; during a game (inGame) through check_recvx. */
  method PerformReceive(receiver: P2PEndpoint, w: World, waiting: Option<nat>, cap: int, leave: bool, inGame: bool)
    returns (handed: Option<seq<byte>>)
    requires receiver.Valid() && receiver.Rx() == w.rx && |w.outCache| < CACHE_SIZE
    requires (waiting.Some? ==> waiting.value < |w.net|) && (inGame ==> !leave)
    modifies receiver
    ensures receiver.Valid() && receiver.Rx() == Step(w, Receive(waiting, cap, leave)).rx
    ensures !leave ==>
              var w' := Step(w, Receive(waiting, cap, leave));
              w'.handed == w.handed + if handed.Some? then [(|w'.fate| - 1, handed.value)] else []
  {
    receiver.hasDataWaiting := waiting.Some?;
    var read := if waiting.Some? then Some(w.net[waiting.value].data) else None;
    if inGame {
      handed := receiver.CheckRecvX(read, true, cap);
    } else {
      handed := receiver.CheckRecv(read, 0, true, cap, leave);
    }
    ghost var w1 := if waiting.Some? then Digested(w, w.net[waiting.value]) else w;
    assert waiting.None? ==> Received(w.rx, []) == w.rx;
    assert Step(w, Receive(waiting, cap, leave)) == Handed(w1, cap, leave);
  }

  /** What the step of a run says is what the two endpoints do: the datagram sent is the one now in the network,
      and what the caller is handed is what the run lists. */
  method Perform(sender: P2PEndpoint, receiver: P2PEndpoint, w: World, e: Event, inGame: bool)
    returns (packet: Option<seq<byte>>, handed: Option<seq<byte>>)
    requires Plays(sender, receiver, w) && Allowed(w, e) && |w.outCache| < CACHE_SIZE
    requires e.Receive? && inGame ==> !e.leaveInQueue
    modifies sender, receiver
    ensures Plays(sender, receiver, Step(w, e))
    ensures packet.Some? <==> e.Send? || e.Resend?
    ensures packet.Some? ==>
              |Step(w, e).net| == |w.net| + 1 && Step(w, e).net[|w.net|].data == packet.value
    ensures e.Receive? && !e.leaveInQueue ==>
              Step(w, e).handed == w.handed +
                if handed.Some? then [(|Step(w, e).fate| - 1, handed.value)] else []
  {
    packet, handed := None, None;
    match e {
      case Send(body, ipm) =>
        var sent := sender.Send(body, ipm);
        packet := Some(sent);
      case Resend(limit) =>
        var sent := sender.SendMessage(limit);
        packet := Some(sent);
      case Receive(waiting, cap, leave) =>
        handed := PerformReceive(receiver, w, waiting, cap, leave, inGame);
    }
  }
}
