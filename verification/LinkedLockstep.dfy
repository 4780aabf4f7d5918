/** The lockstep over the real link: two peers of core/p2p_core.cpp whose instructions travel in the bundles of
    core/p2p_message.h, with datagrams lost, repeated and reordered. */
module LinkedLockstep {
  import opened Bytes
  import B = Bundles
  import P2PInstruction
  import L = Lockstep
  import M = P2PMessage
  import P = P2PMessageRuns

  const DATA := 7
  const DROP := 8
  const DATALEN_MAX := 32
  const CAP := 1024

  /** What ProcessGameStuff makes of a message that was handed over: DATA and DROP count, an empty message reads
      as type 0 and is passed over like a chat. */
  function Decode(body: seq<byte>, datalen: nat): L.Message {
    var v := P2PInstruction.ReadOff(body);
    if v.head % 16 == DATA then L.Data(v.body[..Min(|v.body|, datalen)])
    else if v.head % 16 == DROP then L.Drop
    else L.Chat
  }

  function Decoded(bodies: seq<seq<byte>>, datalen: nat): (ms: seq<L.Message>)
    ensures |ms| == |bodies| && forall i :: 0 <= i < |bodies| ==> ms[i] == Decode(bodies[i], datalen)
  {
    seq(|bodies|, i requires 0 <= i < |bodies| => Decode(bodies[i], datalen))
  }

  function FrameOf(m: L.Message): seq<seq<byte>> {
    if m.Data? then [m.bytes] else []
  }

  /** The frames among the first u messages that were sent. */
  function FramesUpTo(sent: seq<seq<byte>>, u: nat, datalen: nat): seq<seq<byte>>
    requires u <= |sent|
  {
    L.Frames(Decoded(sent[..u], datalen))
  }

  function Bodies(handed: seq<(nat, seq<byte>)>): (bs: seq<seq<byte>>)
    ensures |bs| == |handed| && forall i :: 0 <= i < |handed| ==> bs[i] == handed[i].1
  {
    seq(|handed|, i requires 0 <= i < |handed| => handed[i].1)
  }

  /** The frames that were handed over. */
  function Got(l: P.World, datalen: nat): seq<seq<byte>> {
    L.Frames(Decoded(Bodies(l.handed), datalen))
  }

  /** The sending half of p2p_modify_play_values: an input becomes a DATA instruction and is sent. */
  method SendInput(ep: M.P2PEndpoint, values: seq<byte>, ipm: int) returns (packet: seq<byte>)
    requires ep.Valid() && 0 < |values| <= DATALEN_MAX
    modifies ep`lastSent, ep`outCache
    ensures ep.Valid() && packet == B.Transmission(M.EncodeMsg, ep.outCache, ipm)
    ensures ep.outCache == (if |old(ep.outCache)| == M.CACHE_SIZE - 1 then old(ep.outCache)[1..] else old(ep.outCache))
                           + [M.Msg(old(ep.lastSent), M.Carried([DATA] + values))]
  {
    var ki := new P2PInstruction.Instruction(DATA);
    ki.StoreBytes(values);
    var msg := ki.WriteToMessage();
    assert [] + values[..|values|] == values;
    packet := ep.Send(msg, ipm);
  }

  // ----- the two peers and their two links -----

  datatype Net = Net(sides: L.World, toHost: P.World, toGuest: P.World)

  datatype Event =
    | Enter(asHost: bool, values: seq<byte>, ipm: int)
    | Say(asHost: bool, body: seq<byte>, ipm: int)
    | DropGame(asHost: bool, ipm: int)
    | Resend(asHost: bool, limit: int)
    | Take(asHost: bool, packet: Option<nat>)
    | Leave(asHost: bool)

  const START := Net(L.World(L.Fresh(), L.Fresh()), P.START, P.START)

  /** The link that ends at a side. */
  function Into(n: Net, asHost: bool): P.World {
    if asHost then n.toHost else n.toGuest
  }

  function Side(n: Net, asHost: bool): L.Side {
    L.Own(n.sides, asHost)
  }

  function WithInto(n: Net, asHost: bool, l: P.World): Net {
    if asHost then n.(toHost := l) else n.(toGuest := l)
  }

  function WithSide(n: Net, asHost: bool, x: L.Side): Net {
    n.(sides := L.With(x, L.Other(n.sides, asHost), asHost))
  }

  /** A side sends a message to the other. */
  function Posted(n: Net, asHost: bool, body: seq<byte>, ipm: int): Net
    requires |Into(n, !asHost).outCache| < M.CACHE_SIZE
  {
    WithInto(n, !asHost, P.Step(Into(n, !asHost), P.Send(body, ipm)))
  }

  function Receiving(packet: Option<nat>): P.Event {
    P.Receive(packet, CAP, false)
  }

  /** A side digests the message that was just handed over to it, if there was one. */
  function Digested(x: L.Side, l: P.World, l': P.World, datalen: nat): L.Side {
    if |l'.handed| <= |l.handed| then x else L.Received(L.Posted(x, Decode(l'.handed[|l'.handed| - 1].1, datalen)))
  }

  ghost predicate Allowed(n: Net, e: Event, datalen: nat) {
    var x := Side(n, e.asHost);
    match e
    case Enter(_, values, _) => x.peer.status == L.Playing && !x.peer.waiting && |values| == datalen
    case Say(_, body, _) => x.peer.status == L.Playing && 0 < |body| <= 0x100 && Decode(body, datalen).Chat?
    case DropGame(_, _) => x.peer.status == L.Playing
    case Resend(_, _) => true
    case Take(asHost, packet) =>
      x.peer.status == L.Playing && x.peer.waiting && P.Allowed(Into(n, asHost), Receiving(packet))
    case Leave(_) => x.peer.status == L.Playing && x.peer.waiting && |x.peer.peerData| >= datalen
  }

  function Step(n: Net, e: Event, throughput: nat, datalen: nat): Net
    requires |n.toHost.outCache| < M.CACHE_SIZE && |n.toGuest.outCache| < M.CACHE_SIZE
  {
    var x := Side(n, e.asHost);
    match e
    case Enter(asHost, values, ipm) =>
      var x' := x.(peer := L.Entered(x.peer, values, throughput), inputs := x.inputs + [values]);
      Posted(WithSide(n, asHost, x'), asHost, [DATA] + values, ipm)
    case Say(asHost, body, ipm) => Posted(n, asHost, body, ipm)
    case DropGame(asHost, ipm) =>
      Posted(WithSide(n, asHost, x.(peer := x.peer.(status := L.Lobby, waiting := false))), asHost, [DROP], ipm)
    case Resend(asHost, limit) => WithInto(n, !asHost, P.Step(Into(n, !asHost), P.Resend(limit)))
    case Take(asHost, packet) =>
      var l := Into(n, asHost);
      var l' := P.Step(l, Receiving(packet));
      WithInto(WithSide(n, asHost, Digested(x, l, l', datalen)), asHost, l')
    case Leave(asHost) =>
      if |x.peer.userData| < datalen || |x.peer.peerData| < datalen then n
      else
        var result := L.Combine(x.peer, asHost, datalen);
        WithSide(n, asHost, x.(peer := L.Left(x.peer, datalen), results := x.results + [result]))
  }

  // ----- the invariant -----

  /** The link carries what the sender was fed: its DATA messages are the sender's inputs, in order. */
  ghost predicate LinkOk(l: P.World, inputs: seq<seq<byte>>, datalen: nat) {
    P.Inv(l) && FramesUpTo(l.sent, |l.sent|, datalen) == inputs
  }

  /** The receiver's FIFOs and results are those of the frames that were handed over to it. */
  ghost predicate EndOk(x: L.Side, l: P.World, asHost: bool, throughput: nat, datalen: nat) {
    x.inbox == [] && L.SideOk(x, Got(l, datalen), asHost, throughput, datalen)
  }

  ghost predicate DirectionOk(n: Net, asHost: bool, throughput: nat, datalen: nat) {
    && LinkOk(Into(n, asHost), Side(n, !asHost).inputs, datalen)
    && EndOk(Side(n, asHost), Into(n, asHost), asHost, throughput, datalen)
  }

  ghost predicate Inv(n: Net, throughput: nat, datalen: nat) {
    && 0 < datalen <= DATALEN_MAX
    && DirectionOk(n, true, throughput, datalen) && DirectionOk(n, false, throughput, datalen)
  }

  lemma FramesUpToSnoc(sent: seq<seq<byte>>, body: seq<byte>, datalen: nat)
    ensures FramesUpTo(sent + [body], |sent| + 1, datalen) ==
              FramesUpTo(sent, |sent|, datalen) + FrameOf(Decode(body, datalen))
  {
    var ms := Decoded(sent, datalen);
    assert (sent + [body])[..|sent| + 1] == sent + [body] && sent[..|sent|] == sent;
    assert Decoded(sent + [body], datalen) == ms + [Decode(body, datalen)];
    L.FramesSnoc(ms, Decode(body, datalen));
  }

  lemma SendKeepsLink(l: P.World, inputs: seq<seq<byte>>, body: seq<byte>, ipm: int, datalen: nat)
    requires LinkOk(l, inputs, datalen) && 0 < |body| <= 0x100
    ensures var l' := P.Step(l, P.Send(body, ipm));
            && LinkOk(l', inputs + FrameOf(Decode(M.Carried(body), datalen)), datalen)
            && l'.handed == l.handed
  {
    P.StepKeepsInv(l, P.Send(body, ipm));
    FramesUpToSnoc(l.sent, M.Carried(body), datalen);
  }

  lemma DecodeData(values: seq<byte>, datalen: nat)
    requires |values| == datalen <= DATALEN_MAX
    ensures Decode(M.Carried([DATA] + values), datalen) == L.Data(values)
  {
    var body := [DATA] + values;
    assert body[1..1 + |values|] == values && values[..datalen] == values;
  }

  lemma DecodeOther(body: seq<byte>, datalen: nat)
    requires 0 < |body| <= 0x100 && !Decode(body, datalen).Data?
    ensures !Decode(M.Carried(body), datalen).Data?
  {
  }

  /** What a message does to the side it is handed over to. */
  lemma HandKeepsEnd(x: L.Side, got: seq<seq<byte>>, m: L.Message, asHost: bool, throughput: nat, datalen: nat)
    requires x.inbox == [] && x.peer.waiting && L.SideOk(x, got, asHost, throughput, datalen)
    ensures var x' := L.Received(L.Posted(x, m));
            x'.inbox == [] && x'.inputs == x.inputs && L.SideOk(x', got + FrameOf(m), asHost, throughput, datalen)
  {
    var y := L.Posted(x, m);
    assert y.inbox == [m] && y.inbox[1..] == [];
    if m.Data? {
      L.EnterOtherSide(x, got, asHost, m.bytes, throughput, datalen);
    } else {
      L.FramesSnoc(x.inbox, m);
      assert got + [] == got;
    }
    L.ReceiveOwnSide(y, got + FrameOf(m), asHost, throughput, datalen);
  }

  /** A receive step hands over one message, or none. */
  lemma TakeHands(l: P.World, packet: Option<nat>, l': P.World)
    requires |l.outCache| < M.CACHE_SIZE && l' == P.Step(l, Receiving(packet))
    ensures l'.sent == l.sent && |l.handed| <= |l'.handed| <= |l.handed| + 1 && l'.handed[..|l.handed|] == l.handed
  {
  }

  lemma TakeKeepsEnd(x: L.Side, l: P.World, packet: Option<nat>, l': P.World, asHost: bool, throughput: nat,
                     datalen: nat)
    requires |l.outCache| < M.CACHE_SIZE && l' == P.Step(l, Receiving(packet))
    requires EndOk(x, l, asHost, throughput, datalen) && x.peer.waiting
    ensures EndOk(Digested(x, l, l', datalen), l', asHost, throughput, datalen)
            && Digested(x, l, l', datalen).inputs == x.inputs
  {
    TakeHands(l, packet, l');
    if |l'.handed| > |l.handed| {
      var last := l'.handed[|l.handed|];
      assert l'.handed == l.handed + [last];
      BodiesSnoc(l.handed, last, datalen);
      HandKeepsEnd(x, Got(l, datalen), Decode(last.1, datalen), asHost, throughput, datalen);
    } else {
      assert l'.handed == l.handed;
    }
  }

  lemma TakeKeepsLink(l: P.World, inputs: seq<seq<byte>>, packet: Option<nat>, l': P.World, datalen: nat)
    requires LinkOk(l, inputs, datalen) && P.Allowed(l, Receiving(packet)) && l' == P.Step(l, Receiving(packet))
    ensures LinkOk(l', inputs, datalen)
  {
    P.StepKeepsInv(l, Receiving(packet));
    TakeHands(l, packet, l');
  }

  lemma LeaveKeepsEnd(x: L.Side, l: P.World, inputs: seq<seq<byte>>, asHost: bool, throughput: nat, datalen: nat)
    requires EndOk(x, l, asHost, throughput, datalen) && L.AllSized(Got(l, datalen), datalen) && datalen > 0
    requires x.peer.waiting && |x.peer.peerData| >= datalen
    ensures |x.peer.userData| >= datalen
    ensures EndOk(x.(peer := L.Left(x.peer, datalen), results := x.results + [L.Combine(x.peer, asHost, datalen)]), l,
                  asHost, throughput, datalen)
  {
    L.LeaveOwnSide(x, Got(l, datalen), asHost, throughput, datalen);
  }

  // ----- every step keeps the invariant -----

  /** A side sends one message, and itself may change so that its inputs are one frame more. */
  lemma SendKeepsInv(n: Net, asHost: bool, x': L.Side, body: seq<byte>, ipm: int, throughput: nat, datalen: nat)
    requires Inv(n, throughput, datalen) && 0 < |body| <= 0x100
    requires EndOk(x', Into(n, asHost), asHost, throughput, datalen)
    requires x'.inputs == Side(n, asHost).inputs + FrameOf(Decode(M.Carried(body), datalen))
    ensures Inv(Posted(WithSide(n, asHost, x'), asHost, body, ipm), throughput, datalen)
  {
    SendKeepsLink(Into(n, !asHost), Side(n, asHost).inputs, body, ipm, datalen);
    var l := Into(n, !asHost);
    EndStays(Side(n, !asHost), l, P.Step(l, P.Send(body, ipm)), !asHost, throughput, datalen);
  }

  lemma EndStays(x: L.Side, l: P.World, l': P.World, asHost: bool, throughput: nat, datalen: nat)
    requires EndOk(x, l, asHost, throughput, datalen) && l'.handed == l.handed
    ensures EndOk(x, l', asHost, throughput, datalen)
  {
  }

  lemma EnterKeepsInv(n: Net, asHost: bool, values: seq<byte>, ipm: int, throughput: nat, datalen: nat)
    requires Inv(n, throughput, datalen) && Allowed(n, Enter(asHost, values, ipm), datalen)
    ensures Inv(Step(n, Enter(asHost, values, ipm), throughput, datalen), throughput, datalen)
  {
    var x := Side(n, asHost);
    var x' := x.(peer := L.Entered(x.peer, values, throughput), inputs := x.inputs + [values]);
    DecodeData(values, datalen);
    L.EnterOwnSide(x, Got(Into(n, asHost), datalen), asHost, values, throughput, datalen);
    SendKeepsInv(n, asHost, x', [DATA] + values, ipm, throughput, datalen);
  }

  lemma SayKeepsInv(n: Net, asHost: bool, body: seq<byte>, ipm: int, throughput: nat, datalen: nat)
    requires Inv(n, throughput, datalen) && Allowed(n, Say(asHost, body, ipm), datalen)
    ensures Inv(Step(n, Say(asHost, body, ipm), throughput, datalen), throughput, datalen)
  {
    SameSide(n, asHost);
    NoFrame(body, Side(n, asHost).inputs, datalen);
    SendKeepsInv(n, asHost, Side(n, asHost), body, ipm, throughput, datalen);
  }

  lemma SameSide(n: Net, asHost: bool)
    ensures WithSide(n, asHost, Side(n, asHost)) == n
  {
  }

  lemma NoFrame(body: seq<byte>, inputs: seq<seq<byte>>, datalen: nat)
    requires 0 < |body| <= 0x100 && !Decode(body, datalen).Data?
    ensures inputs == inputs + FrameOf(Decode(M.Carried(body), datalen))
  {
    DecodeOther(body, datalen);
  }

  lemma DropKeepsInv(n: Net, asHost: bool, ipm: int, throughput: nat, datalen: nat)
    requires Inv(n, throughput, datalen)
    ensures Inv(Step(n, DropGame(asHost, ipm), throughput, datalen), throughput, datalen)
  {
    var x := Side(n, asHost);
    var x' := x.(peer := x.peer.(status := L.Lobby, waiting := false));
    DropIsNoData(datalen);
    LobbyKeepsEnd(x, x', Into(n, asHost), asHost, throughput, datalen);
    SendKeepsInv(n, asHost, x', [DROP], ipm, throughput, datalen);
  }

  lemma DropIsNoData(datalen: nat)
    ensures Decode(M.Carried([DROP]), datalen) == L.Drop
  {
  }

  lemma LobbyKeepsEnd(x: L.Side, x': L.Side, l: P.World, asHost: bool, throughput: nat, datalen: nat)
    requires EndOk(x, l, asHost, throughput, datalen) && x' == x.(peer := x.peer.(status := L.Lobby, waiting := false))
    ensures EndOk(x', l, asHost, throughput, datalen) && x'.inputs == x.inputs + []
  {
  }

  lemma ResendKeepsInv(n: Net, asHost: bool, limit: int, throughput: nat, datalen: nat)
    requires Inv(n, throughput, datalen)
    ensures Inv(Step(n, Resend(asHost, limit), throughput, datalen), throughput, datalen)
  {
    var l := Into(n, !asHost);
    P.StepKeepsInv(l, P.Resend(limit));
    EndStays(Side(n, !asHost), l, P.Step(l, P.Resend(limit)), !asHost, throughput, datalen);
  }

  lemma TakeKeepsInv(n: Net, asHost: bool, packet: Option<nat>, throughput: nat, datalen: nat)
    requires Inv(n, throughput, datalen) && Allowed(n, Take(asHost, packet), datalen)
    ensures Inv(Step(n, Take(asHost, packet), throughput, datalen), throughput, datalen)
  {
    var l := Into(n, asHost);
    var l' := P.Step(l, Receiving(packet));
    TakeKeepsLink(l, Side(n, !asHost).inputs, packet, l', datalen);
    TakeKeepsEnd(Side(n, asHost), l, packet, l', asHost, throughput, datalen);
  }

  lemma LeaveKeepsInv(n: Net, asHost: bool, throughput: nat, datalen: nat)
    requires Inv(n, throughput, datalen) && Allowed(n, Leave(asHost), datalen)
    ensures Inv(Step(n, Leave(asHost), throughput, datalen), throughput, datalen)
  {
    var l := Into(n, asHost);
    GotIsSized(l, Side(n, !asHost).inputs, datalen);
    LeaveKeepsEnd(Side(n, asHost), l, Side(n, !asHost).inputs, asHost, throughput, datalen);
  }

  lemma StepKeepsInv(n: Net, e: Event, throughput: nat, datalen: nat)
    requires Inv(n, throughput, datalen) && Allowed(n, e, datalen)
    ensures Inv(Step(n, e, throughput, datalen), throughput, datalen)
  {
    match e
    case Enter(asHost, values, ipm) => EnterKeepsInv(n, asHost, values, ipm, throughput, datalen);
    case Say(asHost, body, ipm) => SayKeepsInv(n, asHost, body, ipm, throughput, datalen);
    case DropGame(asHost, ipm) => DropKeepsInv(n, asHost, ipm, throughput, datalen);
    case Resend(asHost, limit) => ResendKeepsInv(n, asHost, limit, throughput, datalen);
    case Take(asHost, packet) => TakeKeepsInv(n, asHost, packet, throughput, datalen);
    case Leave(asHost) => LeaveKeepsInv(n, asHost, throughput, datalen);
  }

  // ----- whole runs -----

  ghost predicate Next(n: Net, e: Event, n': Net, throughput: nat, datalen: nat) {
    && |n.toHost.outCache| < M.CACHE_SIZE && |n.toGuest.outCache| < M.CACHE_SIZE
    && Allowed(n, e, datalen) && n' == Step(n, e, throughput, datalen)
  }

  ghost predicate NextAt(ns: seq<Net>, es: seq<Event>, i: nat, throughput: nat, datalen: nat)
    requires |ns| == |es| + 1 && i < |es|
  {
    Next(ns[i], es[i], ns[i + 1], throughput, datalen)
  }

  ghost predicate IsRun(ns: seq<Net>, es: seq<Event>, throughput: nat, datalen: nat) {
    && |ns| == |es| + 1 && ns[0] == START && 0 < datalen <= DATALEN_MAX
    && forall i :: 0 <= i < |es| ==> NextAt(ns, es, i, throughput, datalen)
  }

  /** Some run, of any length and with any schedule, ends in n. */
  ghost predicate Reachable(n: Net, throughput: nat, datalen: nat) {
    exists ns, es :: IsRun(ns, es, throughput, datalen) && ns[|es|] == n
  }

  lemma StartInv(throughput: nat, datalen: nat)
    requires 0 < datalen <= DATALEN_MAX
    ensures Inv(START, throughput, datalen)
  {
    assert Decoded([][..0], datalen) == [] && Decoded(Bodies([]), datalen) == [];
  }

  lemma {:induction false} RunKeepsInv(ns: seq<Net>, es: seq<Event>, throughput: nat, datalen: nat, i: nat, n: Net)
    requires IsRun(ns, es, throughput, datalen) && i <= |es| && n == ns[i]
    ensures Inv(n, throughput, datalen)
  {
    if i == 0 {
      StartInv(throughput, datalen);
    } else {
      RunKeepsInv(ns, es, throughput, datalen, i - 1, ns[i - 1]);
      assert NextAt(ns, es, i - 1, throughput, datalen);
      StepKeepsInv(ns[i - 1], es[i - 1], throughput, datalen);
    }
  }

  lemma ReachableInv(n: Net, throughput: nat, datalen: nat)
    requires Reachable(n, throughput, datalen)
    ensures Inv(n, throughput, datalen)
  {
    var ns, es :| IsRun(ns, es, throughput, datalen) && ns[|es|] == n;
    RunKeepsInv(ns, es, throughput, datalen, |es|, n);
  }

  // ----- which inputs were handed over -----

  /** The numbers, among the inputs that were sent, of the frames that were handed over. */
  function Numbers(handed: seq<(nat, seq<byte>)>, sent: seq<seq<byte>>, datalen: nat): seq<nat>
    requires P.Ordered(handed, |sent|)
  {
    if handed == [] then []
    else
      var last := handed[|handed| - 1];
      Numbers(handed[..|handed| - 1], sent, datalen)
      + if Decode(last.1, datalen).Data? then [|FramesUpTo(sent, last.0, datalen)|] else []
  }

  /** In order, and each as it was sent or empty. */
  ghost predicate Faithful(handed: seq<(nat, seq<byte>)>, sent: seq<seq<byte>>) {
    && P.Ordered(handed, |sent|)
    && forall i :: 0 <= i < |handed| ==> handed[i].1 == [] || handed[i].1 == sent[handed[i].0]
  }

  ghost predicate Increasing(nums: seq<nat>, bound: nat) {
    (forall i, j :: 0 <= i < j < |nums| ==> nums[i] < nums[j]) && forall i :: 0 <= i < |nums| ==> nums[i] < bound
  }

  /** The k-th frame is the input whose number stands there. */
  ghost predicate Numbered(got: seq<seq<byte>>, nums: seq<nat>, inputs: seq<seq<byte>>, bound: nat) {
    && |nums| == |got| && bound <= |inputs| && Increasing(nums, bound)
    && forall k :: 0 <= k < |got| ==> got[k] == inputs[nums[k]]
  }

  lemma {:induction false} FramesPrefix(sent: seq<seq<byte>>, u: nat, v: nat, datalen: nat)
    requires u <= v <= |sent|
    ensures FramesUpTo(sent, u, datalen) <= FramesUpTo(sent, v, datalen)
    decreases v
  {
    if u < v {
      FramesPrefix(sent, u, v - 1, datalen);
      FramesUpToNext(sent, v - 1, datalen);
    }
  }

  lemma FramesUpToNext(sent: seq<seq<byte>>, u: nat, datalen: nat)
    requires u < |sent|
    ensures FramesUpTo(sent, u + 1, datalen) == FramesUpTo(sent, u, datalen) + FrameOf(Decode(sent[u], datalen))
  {
    var ms := Decoded(sent[..u], datalen);
    assert Decoded(sent[..u + 1], datalen) == ms + [Decode(sent[u], datalen)];
    L.FramesSnoc(ms, Decode(sent[u], datalen));
  }

  lemma NumberedSnoc(got: seq<seq<byte>>, nums: seq<nat>, inputs: seq<seq<byte>>, number: nat, bytes: seq<byte>)
    requires Numbered(got, nums, inputs, number) && number < |inputs| && inputs[number] == bytes
    ensures Numbered(got + [bytes], nums + [number], inputs, number + 1)
  {
  }

  lemma NumberedUpTo(got: seq<seq<byte>>, nums: seq<nat>, inputs: seq<seq<byte>>, bound: nat, bound': nat)
    requires Numbered(got, nums, inputs, bound) && bound <= bound' <= |inputs|
    ensures Numbered(got, nums, inputs, bound')
  {
  }

  lemma BodiesSnoc(init: seq<(nat, seq<byte>)>, last: (nat, seq<byte>), datalen: nat)
    ensures L.Frames(Decoded(Bodies(init + [last]), datalen)) ==
              L.Frames(Decoded(Bodies(init), datalen)) + FrameOf(Decode(last.1, datalen))
  {
    var ms := Decoded(Bodies(init), datalen);
    assert Decoded(Bodies(init + [last]), datalen) == ms + [Decode(last.1, datalen)];
    L.FramesSnoc(ms, Decode(last.1, datalen));
  }

  function NumberOf(m: L.Message, number: nat): seq<nat> {
    if m.Data? then [number] else []
  }

  lemma NumbersSnoc(init: seq<(nat, seq<byte>)>, last: (nat, seq<byte>), sent: seq<seq<byte>>, datalen: nat)
    requires P.Ordered(init + [last], |sent|) && P.Ordered(init, |sent|) && last.0 < |sent|
    ensures Numbers(init + [last], sent, datalen) ==
            Numbers(init, sent, datalen) + NumberOf(Decode(last.1, datalen), |FramesUpTo(sent, last.0, datalen)|)
  {
    assert (init + [last])[..|init|] == init;
  }

  /** Where the frame of the v-th message stands among the inputs, if it has one. */
  ghost predicate StandsAt(inputs: seq<seq<byte>>, m: L.Message, number: nat, bound: nat) {
    number <= bound <= |inputs| && (m.Data? ==> number < bound && inputs[number] == m.bytes)
  }

  lemma FrameStands(sent: seq<seq<byte>>, v: nat, u: nat, datalen: nat)
    requires v < u <= |sent|
    ensures StandsAt(FramesUpTo(sent, |sent|, datalen), Decode(sent[v], datalen), |FramesUpTo(sent, v, datalen)|,
                     |FramesUpTo(sent, u, datalen)|)
  {
    FramesUpToNext(sent, v, datalen);
    FramesPrefix(sent, v + 1, u, datalen);
    FramesPrefix(sent, u, |sent|, datalen);
  }

  lemma NothingIsNoData(datalen: nat)
    ensures Decode([], datalen) == L.Chat
  {
  }

  lemma OneMoreNumbered(got: seq<seq<byte>>, nums: seq<nat>, inputs: seq<seq<byte>>, m: L.Message, number: nat,
                        bound: nat)
    requires Numbered(got, nums, inputs, number) && StandsAt(inputs, m, number, bound)
    ensures Numbered(got + FrameOf(m), nums + NumberOf(m, number), inputs, bound)
  {
    if m.Data? {
      NumberedSnoc(got, nums, inputs, number, m.bytes);
      NumberedUpTo(got + [m.bytes], nums + [number], inputs, number + 1, bound);
    } else {
      assert got + [] == got && nums + [] == nums;
      NumberedUpTo(got, nums, inputs, number, bound);
    }
  }

  /** What is handed over are inputs that were sent, under increasing numbers. */
  lemma {:induction false} HandedAreNumbered(handed: seq<(nat, seq<byte>)>, sent: seq<seq<byte>>, u: nat, datalen: nat,
                                             got: seq<seq<byte>>, nums: seq<nat>, inputs: seq<seq<byte>>, bound: nat)
    requires Faithful(handed, sent) && P.Ordered(handed, u) && u <= |sent|
    requires got == L.Frames(Decoded(Bodies(handed), datalen)) && nums == Numbers(handed, sent, datalen)
    requires inputs == FramesUpTo(sent, |sent|, datalen) && bound == |FramesUpTo(sent, u, datalen)|
    ensures Numbered(got, nums, inputs, bound)
    decreases |handed|
  {
    if handed == [] {
      assert Decoded(Bodies(handed), datalen) == [];
      FramesPrefix(sent, u, |sent|, datalen);
    } else {
      var n := |handed| - 1;
      var init, last := handed[..n], handed[n];
      assert init + [last] == handed;
      var got0, nums0 := L.Frames(Decoded(Bodies(init), datalen)), Numbers(init, sent, datalen);
      var number, m := |FramesUpTo(sent, last.0, datalen)|, Decode(last.1, datalen);
      HandedAreNumbered(init, sent, last.0, datalen, got0, nums0, inputs, number);
      BodiesSnoc(init, last, datalen);
      NumbersSnoc(init, last, sent, datalen);
      FrameStands(sent, last.0, u, datalen);
      NothingIsNoData(datalen);
      OneMoreNumbered(got0, nums0, inputs, m, number, bound);
    }
  }

  lemma LinkIsFaithful(l: P.World)
    requires P.Inv(l)
    ensures Faithful(l.handed, l.sent)
  {
    P.HandedOfIsOrdered(l.fate, l.sent);
  }

  function NumbersOf(l: P.World, datalen: nat): seq<nat>
    requires Faithful(l.handed, l.sent)
  {
    Numbers(l.handed, l.sent, datalen)
  }

  lemma GotIsNumbered(l: P.World, inputs: seq<seq<byte>>, datalen: nat)
    requires LinkOk(l, inputs, datalen)
    ensures Faithful(l.handed, l.sent) && Numbered(Got(l, datalen), NumbersOf(l, datalen), inputs, |inputs|)
  {
    LinkIsFaithful(l);
    HandedAreNumbered(l.handed, l.sent, |l.sent|, datalen, Got(l, datalen), NumbersOf(l, datalen), inputs, |inputs|);
  }

  lemma GotIsSized(l: P.World, inputs: seq<seq<byte>>, datalen: nat)
    requires LinkOk(l, inputs, datalen) && L.AllSized(inputs, datalen)
    ensures L.AllSized(Got(l, datalen), datalen)
  {
    GotIsNumbered(l, inputs, datalen);
  }

  // ----- what the players get -----

  /** The k-th result of a side pairs its own k-th input with an input of the other side that is no earlier,
      and the numbers of these only grow: which inputs are used is a matter of which DATA were handed over. */
  lemma ResultsPairInputs(n: Net, throughput: nat, datalen: nat, asHost: bool)
    requires Reachable(n, throughput, datalen)
    ensures var x, y, l := Side(n, asHost), Side(n, !asHost), Into(n, asHost);
            && Faithful(l.handed, l.sent) && Increasing(NumbersOf(l, datalen), |y.inputs|)
            && |x.results| <= |x.inputs| && |x.results| <= |NumbersOf(l, datalen)|
            && forall k :: 0 <= k < |x.results| ==>
                 x.results[k] == L.Pair(x.inputs[k], y.inputs[NumbersOf(l, datalen)[k]], asHost)
  {
    ReachableInv(n, throughput, datalen);
    GotIsNumbered(Into(n, asHost), Side(n, !asHost).inputs, datalen);
  }

  /** Numbers that only grow are those of a list without gap up to the first that is missing, and from there on
      each is too large. */
  lemma {:induction false} MissingShifts(nums: seq<nat>, bound: nat, d: nat, k: nat)
    requires Increasing(nums, bound) && d !in nums && (forall i :: 0 <= i < d ==> i in nums) && k < |nums|
    ensures if k < d then nums[k] == k else nums[k] > k
    decreases k
  {
    NumberIsNoSmaller(nums, bound, k);
    if k < d {
      NoneMissing(nums, bound, k);
    } else if k == d {
      assert nums[k] != d;
    } else {
      MissingShifts(nums, bound, d, k - 1);
    }
  }

  lemma {:induction false} NumberIsNoSmaller(nums: seq<nat>, bound: nat, k: nat)
    requires Increasing(nums, bound) && k < |nums|
    ensures nums[k] >= k
    decreases k
  {
    if k > 0 {
      NumberIsNoSmaller(nums, bound, k - 1);
    }
  }

  lemma {:induction false} NoneMissing(nums: seq<nat>, bound: nat, k: nat)
    requires Increasing(nums, bound) && k < |nums| && forall i :: 0 <= i <= k ==> i in nums
    ensures nums[k] == k
    decreases k
  {
    NumberIsNoSmaller(nums, bound, k);
    assert k in nums;
    var i :| 0 <= i < |nums| && nums[i] == k;
    if k > 0 {
      NoneMissing(nums, bound, k - 1);
    }
  }

  /** The first input whose DATA is not handed over: the results before it pair the two sides' inputs of one
      number, and every result from it on pairs an input with a later one of the other side. */
  lemma LostDataShiftsAllThatFollows(n: Net, throughput: nat, datalen: nat, asHost: bool, d: nat, k: nat)
    requires Reachable(n, throughput, datalen) && k < |Side(n, asHost).results|
    requires Faithful(Into(n, asHost).handed, Into(n, asHost).sent)
    requires var nums := NumbersOf(Into(n, asHost), datalen); d !in nums && forall i :: 0 <= i < d ==> i in nums
    ensures var x, y, nums := Side(n, asHost), Side(n, !asHost), NumbersOf(Into(n, asHost), datalen);
            && k < |x.inputs| && k < |nums| && nums[k] < |y.inputs|
            && x.results[k] == L.Pair(x.inputs[k], y.inputs[nums[k]], asHost)
            && if k < d then nums[k] == k else nums[k] > k
  {
    ResultsPairInputs(n, throughput, datalen, asHost);
    MissingShifts(NumbersOf(Into(n, asHost), datalen), |Side(n, !asHost).inputs|, d, k);
  }

  lemma {:induction false} NumberComesFrom(handed: seq<(nat, seq<byte>)>, sent: seq<seq<byte>>, datalen: nat,
                                           number: nat)
    returns (m: nat)
    requires P.Ordered(handed, |sent|) && number in Numbers(handed, sent, datalen)
    ensures m < |handed| && Decode(handed[m].1, datalen).Data? && number == |FramesUpTo(sent, handed[m].0, datalen)|
    decreases |handed|
  {
    var n := |handed| - 1;
    if number in Numbers(handed[..n], sent, datalen) {
      m := NumberComesFrom(handed[..n], sent, datalen, number);
    } else {
      m := n;
    }
  }

  lemma DataHasItsNumber(sent: seq<seq<byte>>, u: nat, v: nat, datalen: nat)
    requires u < v < |sent| && Decode(sent[u], datalen).Data?
    ensures |FramesUpTo(sent, u, datalen)| < |FramesUpTo(sent, v, datalen)|
  {
    FramesUpToNext(sent, u, datalen);
    FramesPrefix(sent, u + 1, v, datalen);
  }

  /** A DATA that was handed over as an empty message is such a missing one. */
  lemma EmptyDataIsMissing(handed: seq<(nat, seq<byte>)>, sent: seq<seq<byte>>, datalen: nat, i: nat)
    requires Faithful(handed, sent) && i < |handed| && handed[i].1 == [] && Decode(sent[handed[i].0], datalen).Data?
    ensures |FramesUpTo(sent, handed[i].0, datalen)| !in Numbers(handed, sent, datalen)
  {
    var v := handed[i].0;
    if |FramesUpTo(sent, v, datalen)| in Numbers(handed, sent, datalen) {
      var m := NumberComesFrom(handed, sent, datalen, |FramesUpTo(sent, v, datalen)|);
      NothingIsNoData(datalen);
      if m < i {
        DataHasItsNumber(sent, handed[m].0, v, datalen);
      } else {
        DataHasItsNumber(sent, v, handed[m].0, datalen);
      }
    }
  }

  /** The k-th results of the two peers agree if and only if the inputs they were given as the other's k-th are
      the same as the other's k-th. */
  lemma PeersAgreeOnTheSameInputs(n: Net, throughput: nat, datalen: nat, k: nat)
    requires Reachable(n, throughput, datalen) && k < |n.sides.host.results| && k < |n.sides.guest.results|
    requires Faithful(n.toHost.handed, n.toHost.sent) && Faithful(n.toGuest.handed, n.toGuest.sent)
    requires k < |n.sides.host.inputs| && k < |n.sides.guest.inputs|
    ensures var i, j := NumbersOf(n.toHost, datalen), NumbersOf(n.toGuest, datalen);
            && k < |i| && k < |j| && i[k] < |n.sides.guest.inputs| && j[k] < |n.sides.host.inputs|
            && (n.sides.host.results[k] == n.sides.guest.results[k] <==>
                  n.sides.guest.inputs[i[k]] == n.sides.guest.inputs[k]
                  && n.sides.host.inputs[j[k]] == n.sides.host.inputs[k])
  {
    ReachableInv(n, throughput, datalen);
    ResultsPairInputs(n, throughput, datalen, true);
    ResultsPairInputs(n, throughput, datalen, false);
    var host, guest := n.sides.host.inputs, n.sides.guest.inputs;
    PairsAreEqual(host[k], guest[NumbersOf(n.toHost, datalen)[k]], host[NumbersOf(n.toGuest, datalen)[k]], guest[k]);
  }

  lemma PairsAreEqual(a: seq<byte>, b: seq<byte>, c: seq<byte>, d: seq<byte>)
    requires |a| == |c|
    ensures a + b == c + d <==> b == d && c == a
  {
    if a + b == c + d {
      assert (a + b)[..|a|] == a && (c + d)[..|a|] == c && (a + b)[|a|..] == b && (c + d)[|a|..] == d;
    }
  }

  // ----- when nothing is lost -----

  /** Every bundle that is taken reaches back to what the receiver holds. */
  ghost predicate Covers(n: Net, e: Event) {
    e.Take? ==> P.Covers(Into(n, e.asHost), Receiving(e.packet))
  }

  ghost predicate IsCoveringRun(ns: seq<Net>, es: seq<Event>, throughput: nat, datalen: nat) {
    IsRun(ns, es, throughput, datalen) && forall i :: 0 <= i < |es| ==> Covers(ns[i], es[i])
  }

  ghost predicate CoveringReachable(n: Net, throughput: nat, datalen: nat) {
    exists ns, es :: IsCoveringRun(ns, es, throughput, datalen) && ns[|es|] == n
  }

  ghost predicate Complete(n: Net) {
    P.Complete(n.toHost) && P.Complete(n.toGuest)
  }

  lemma CoveringStep(n: Net, e: Event, throughput: nat, datalen: nat)
    requires Inv(n, throughput, datalen) && Allowed(n, e, datalen) && Covers(n, e) && Complete(n)
    ensures Complete(Step(n, e, throughput, datalen))
  {
    match e
    case Enter(asHost, values, ipm) => P.CoveringStep(Into(n, !asHost), P.Send([DATA] + values, ipm));
    case Say(asHost, body, ipm) => P.CoveringStep(Into(n, !asHost), P.Send(body, ipm));
    case DropGame(asHost, ipm) => P.CoveringStep(Into(n, !asHost), P.Send([DROP], ipm));
    case Resend(asHost, limit) => P.CoveringStep(Into(n, !asHost), P.Resend(limit));
    case Take(asHost, packet) => P.CoveringStep(Into(n, asHost), Receiving(packet));
    case Leave(_) =>
  }

  lemma {:induction false} CoveringRun(ns: seq<Net>, es: seq<Event>, throughput: nat, datalen: nat, i: nat, n: Net)
    requires IsCoveringRun(ns, es, throughput, datalen) && i <= |es| && n == ns[i]
    ensures Inv(n, throughput, datalen) && Complete(n)
  {
    RunKeepsInv(ns, es, throughput, datalen, i, n);
    if i > 0 {
      CoveringRun(ns, es, throughput, datalen, i - 1, ns[i - 1]);
      assert NextAt(ns, es, i - 1, throughput, datalen) && Covers(ns[i - 1], es[i - 1]);
      CoveringStep(ns[i - 1], es[i - 1], throughput, datalen);
    }
  }

  /** Everything was handed over as it was sent, from the first message on. */
  ghost predicate Whole(handed: seq<(nat, seq<byte>)>, sent: seq<seq<byte>>) {
    |handed| <= |sent| && forall i :: 0 <= i < |handed| ==> handed[i] == (i, sent[i])
  }

  lemma {:induction false} WholeIsNumbered(handed: seq<(nat, seq<byte>)>, sent: seq<seq<byte>>, datalen: nat,
                                           nums: seq<nat>)
    requires Whole(handed, sent) && P.Ordered(handed, |sent|) && nums == Numbers(handed, sent, datalen)
    ensures |nums| == |FramesUpTo(sent, |handed|, datalen)| && forall k :: 0 <= k < |nums| ==> nums[k] == k
    decreases |handed|
  {
    if handed == [] {
      assert Decoded(sent[..0], datalen) == [];
    } else {
      var n := |handed| - 1;
      WholeIsNumbered(handed[..n], sent, datalen, Numbers(handed[..n], sent, datalen));
      FramesUpToNext(sent, n, datalen);
    }
  }

  lemma CoveringIsWhole(n: Net, throughput: nat, datalen: nat, asHost: bool)
    requires CoveringReachable(n, throughput, datalen)
    ensures Reachable(n, throughput, datalen) && Whole(Into(n, asHost).handed, Into(n, asHost).sent)
  {
    var ns, es :| IsCoveringRun(ns, es, throughput, datalen) && ns[|es|] == n;
    CoveringRun(ns, es, throughput, datalen, |es|, n);
    var l := Into(n, asHost);
    P.HandedAsSent(l.fate, l.sent);
  }

  /** If every bundle that is taken reaches back far enough, the two peers agree on every result: the host's
      k-th input followed by the guest's, whatever is lost, repeated and reordered. */
  lemma PeersAgreeOverTheLink(n: Net, throughput: nat, datalen: nat, asHost: bool, k: nat)
    requires CoveringReachable(n, throughput, datalen) && k < |Side(n, asHost).results|
    ensures k < |n.sides.host.inputs| && k < |n.sides.guest.inputs|
    ensures Side(n, asHost).results[k] == n.sides.host.inputs[k] + n.sides.guest.inputs[k]
  {
    var l := Into(n, asHost);
    CoveringIsWhole(n, throughput, datalen, asHost);
    ResultsPairInputs(n, throughput, datalen, asHost);
    WholeIsNumbered(l.handed, l.sent, datalen, NumbersOf(l, datalen));
    assert NumbersOf(l, datalen)[k] == k;
  }

  // ----- the peer and its endpoint behind a run -----

  /** The step of the in-order lockstep that a step over the link stands for on its own side. */
  function OwnStep(e: Event): Option<L.Event> {
    match e
    case Enter(asHost, values, _) => Some(L.Enter(asHost, values))
    case DropGame(asHost, _) => Some(L.DropGame(asHost))
    case Leave(asHost) => Some(L.Leave(asHost))
    case _ => None
  }

  /** What a side sends on the link by such a step. */
  function SentBy(e: Event): Option<P.Event> {
    match e
    case Enter(_, values, ipm) => Some(P.Send([DATA] + values, ipm))
    case DropGame(_, ipm) => Some(P.Send([DROP], ipm))
    case Say(_, body, ipm) => Some(P.Send(body, ipm))
    case Resend(_, limit) => Some(P.Resend(limit))
    case _ => None
  }

  /** Entering, leaving and dropping do to the own side what they do in the in-order lockstep, and to the other
      nothing before a datagram arrives; what they send takes the step of the link's sender, and nothing else
      changes. */
  lemma LinkedStepIsOwnStep(n: Net, e: Event, throughput: nat, datalen: nat, n': Net)
    requires |n.toHost.outCache| < M.CACHE_SIZE && |n.toGuest.outCache| < M.CACHE_SIZE && !e.Take?
    requires n' == Step(n, e, throughput, datalen)
    ensures Side(n', !e.asHost) == Side(n, !e.asHost) && Into(n', e.asHost) == Into(n, e.asHost)
    ensures Side(n', e.asHost) == match OwnStep(e)
                                  case Some(own) => L.Own(L.Step(n.sides, own, throughput, datalen), e.asHost)
                                  case None => Side(n, e.asHost)
    ensures Into(n', !e.asHost) == match SentBy(e)
                                   case Some(sent) => P.Step(Into(n, !e.asHost), sent)
                                   case None => Into(n, !e.asHost)
  {
  }

  /** What ProcessGameStuff makes of a message: a DATA of a whole frame, a DROP, or something it passes over. */
  method ReadInstruction(body: seq<byte>, datalen: nat) returns (m: L.Message)
    requires Decode(body, datalen).Data? ==> |Decode(body, datalen).bytes| == datalen
    ensures m == Decode(body, datalen)
  {
    var ki := new P2PInstruction.Instruction(0);
    ki.ReadFromMessage(body);
    if ki.head % 16 == DATA {
      var bytes := ki.LoadBytes(datalen);
      return L.Data(bytes.value);
    }
    return if ki.head % 16 == DROP then L.Drop else L.Chat;
  }

  /** A DATA that is handed over carries a whole frame. */
  lemma HandedIsWhole(n: Net, asHost: bool, packet: Option<nat>, l': P.World, body: seq<byte>, throughput: nat,
                      datalen: nat)
    requires Inv(n, throughput, datalen) && P.Allowed(Into(n, asHost), Receiving(packet))
    requires |Into(n, asHost).outCache| < M.CACHE_SIZE && l' == P.Step(Into(n, asHost), Receiving(packet))
    requires l'.handed == Into(n, asHost).handed + [(|l'.fate| - 1, body)]
    ensures Decode(body, datalen).Data? ==> |Decode(body, datalen).bytes| == datalen
  {
    var l := Into(n, asHost);
    TakeKeepsLink(l, Side(n, !asHost).inputs, packet, l', datalen);
    GotIsSized(l', Side(n, !asHost).inputs, datalen);
    BodiesSnoc(l.handed, (|l'.fate| - 1, body), datalen);
    if Decode(body, datalen).Data? {
      assert Got(l', datalen)[|Got(l, datalen)|] == Decode(body, datalen).bytes;
    }
  }

  lemma DigestedIsTook(x: L.Side, l: P.World, l': P.World, datalen: nat)
    requires x.inbox == []
    ensures l'.handed == l.handed ==> Digested(x, l, l', datalen).peer == x.peer
    ensures |l'.handed| > |l.handed| ==>
              Digested(x, l, l', datalen).peer ==
                L.TookAll(x.peer, [Decode(l'.handed[|l'.handed| - 1].1, datalen)])
  {
    if |l'.handed| > |l.handed| {
      var m := Decode(l'.handed[|l'.handed| - 1].1, datalen);
      assert L.Posted(x, m).inbox == [m] && [m][1..] == [];
    }
  }

  lemma TakeIsOneMessage(n: Net, asHost: bool, packet: Option<nat>, l': P.World, throughput: nat, datalen: nat, n': Net)
    requires |n.toHost.outCache| < M.CACHE_SIZE && |n.toGuest.outCache| < M.CACHE_SIZE
    requires l' == P.Step(Into(n, asHost), Receiving(packet))
    requires n' == Step(n, Take(asHost, packet), throughput, datalen)
    ensures Into(n', asHost) == l' && Side(n', asHost) == Digested(Side(n, asHost), Into(n, asHost), l', datalen)
  {
  }

  /** What was handed over is read and acted on. */
  method Act(core: L.P2PCore, body: seq<byte>)
    requires core.Valid() && (Decode(body, core.datalen).Data? ==> |Decode(body, core.datalen).bytes| == core.datalen)
    requires core.status == L.Playing
    modifies core`status, core.peerData, core.peerData.buffer
    ensures core.Valid()
    ensures var p := L.TookAll(old(core.State(true)), [Decode(body, core.datalen)]); core.State(p.waiting) == p
  {
    var m := ReadInstruction(body, core.datalen);
    var dropped := core.ProcessGameStuff([m]);
  }

  ghost predicate WholeFrame(body: seq<byte>, datalen: nat) {
    Decode(body, datalen).Data? ==> |Decode(body, datalen).bytes| == datalen
  }

  /** The same for a link and a side alone. */
  method TakeFromLink(core: L.P2PCore, ep: M.P2PEndpoint, l: P.World, packet: Option<nat>, ghost x: L.Side,
                      ghost l': P.World)
    requires core.Valid() && ep.Valid() && core.status == L.Playing && |l.outCache| < M.CACHE_SIZE
    requires ep.Rx() == l.rx && core.State(true) == x.peer && x.peer.waiting && x.inbox == []
    requires (packet.Some? ==> packet.value < |l.net|) && l' == P.Step(l, Receiving(packet))
    requires forall body :: l'.handed == l.handed + [(|l'.fate| - 1, body)] ==> WholeFrame(body, core.datalen)
    modifies ep, core`status, core.peerData, core.peerData.buffer
    ensures core.Valid() && ep.Valid() && ep.Rx() == l'.rx
    ensures var p := Digested(x, l, l', core.datalen).peer; core.State(p.waiting) == p
  {
    DigestedIsTook(x, l, l', core.datalen);
    var handed := P.PerformReceive(ep, l, packet, CAP, false, true);
    if handed.Some? {
      assert WholeFrame(handed.value, core.datalen);
      Act(core, handed.value);
    }
  }

  /** A turn of the loop in ProcessGameStuff, with the real endpoint and the real peer: a message is read off the
      link, if there is one, decoded, and acted on, as the step of a run says. */
  method PerformTake(core: L.P2PCore, ep: M.P2PEndpoint, n: Net, asHost: bool, packet: Option<nat>, throughput: nat)
    requires core.Valid() && ep.Valid() && Inv(n, throughput, core.datalen)
    requires |n.toHost.outCache| < M.CACHE_SIZE && |n.toGuest.outCache| < M.CACHE_SIZE
    requires Allowed(n, Take(asHost, packet), core.datalen)
    requires ep.Rx() == Into(n, asHost).rx && core.State(true) == Side(n, asHost).peer
    modifies ep, core`status, core.peerData, core.peerData.buffer
    ensures core.Valid() && ep.Valid()
    ensures var n' := Step(n, Take(asHost, packet), throughput, core.datalen);
            ep.Rx() == Into(n', asHost).rx && core.State(Side(n', asHost).peer.waiting) == Side(n', asHost).peer
  {
    ghost var l' := P.Step(Into(n, asHost), Receiving(packet));
    TakeIsOneMessage(n, asHost, packet, l', throughput, core.datalen,
                     Step(n, Take(asHost, packet), throughput, core.datalen));
    forall body | l'.handed == Into(n, asHost).handed + [(|l'.fate| - 1, body)]
      ensures WholeFrame(body, core.datalen)
    {
      HandedIsWhole(n, asHost, packet, l', body, throughput, core.datalen);
    }
    TakeFromLink(core, ep, Into(n, asHost), packet, Side(n, asHost), l');
  }
}
