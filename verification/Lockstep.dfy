/** Two peers of a P2P game in the playing state (core/p2p_core.cpp): each delays its own input by
    `throughput` frames, sends it as DATA, and waits for the other's. */
module Lockstep {
  import opened Bytes
  import opened FrameCache

  /** What travels between the peers, in order and without gaps. */
  datatype Message = Data(bytes: seq<byte>) | Chat | Drop

  datatype Status = Playing | Lobby

  /** One peer: P2PCORE's frame count, its two FIFOs, and whether it is inside a call, waiting. */
  datatype Peer = Peer(frameno: nat, userData: seq<byte>, peerData: seq<byte>, status: Status, waiting: bool)

  datatype Answer = Delayed | Combined(values: seq<byte>) | Ended

  // ----- the steps of p2p_modify_play_values -----

  /** Entry: the own input is queued and counted; the first `throughput` calls return at once. */
  function Entered(p: Peer, values: seq<byte>, throughput: nat): Peer {
    p.(userData := p.userData + values, frameno := p.frameno + 1, waiting := p.frameno >= throughput)
  }

  function Took(p: Peer, m: Message): Peer {
    match m
    case Data(bytes) => p.(peerData := p.peerData + bytes)
    case Chat => p
    case Drop => p.(status := Lobby, waiting := false)
  }

  /** Exit: one frame of each FIFO, the host's first on both sides. */
  function Combine(p: Peer, host: bool, datalen: nat): seq<byte>
    requires |p.userData| >= datalen && |p.peerData| >= datalen
  {
    if host then p.userData[..datalen] + p.peerData[..datalen]
    else p.peerData[..datalen] + p.userData[..datalen]
  }

  function Left(p: Peer, datalen: nat): Peer
    requires |p.userData| >= datalen && |p.peerData| >= datalen
  {
    p.(userData := p.userData[datalen..], peerData := p.peerData[datalen..], waiting := false)
  }

  // ----- the peer as the source keeps it -----

  class P2PCore {
    const host: bool
    const datalen: nat
    const throughput: nat
    const userData: FrameFifo
    const peerData: FrameFifo
    var frameno: nat
    var status: Status

    ghost predicate Valid()
      reads this, userData, peerData, userData.buffer, peerData.buffer
    {
      && userData != peerData && userData.Valid() && peerData.Valid()
      && (userData.buffer != null ==> userData.buffer != peerData.buffer)
      && 0 < datalen <= 32
    }

    ghost function State(waiting: bool): Peer
      requires Valid()
      reads this, userData, peerData, userData.buffer, peerData.buffer
    {
      Peer(frameno, userData.Contents(), peerData.Contents(), status, waiting)
    }

    constructor (host: bool, datalen: nat, throughput: nat)
      requires 0 < datalen <= 32
      ensures Valid() && State(false) == Peer(0, [], [], Playing, false)
      ensures this.host == host && this.datalen == datalen && this.throughput == throughput
    {
      this.host, this.datalen, this.throughput := host, datalen, throughput;
      userData := new FrameFifo();
      peerData := new FrameFifo();
      frameno, status := 0, Playing;
    }

    /** ProcessGameStuff: digests what has arrived until nothing is left or the peer dropped. */
    method ProcessGameStuff(arrived: seq<Message>) returns (dropped: bool)
      requires Valid() && forall m :: m in arrived && m.Data? ==> |m.bytes| == datalen
      modifies this`status, peerData, peerData.buffer
      ensures Valid() && userData.Contents() == old(userData.Contents())
      ensures State(!dropped) == TookAll(old(State(true)), arrived)
      ensures dropped <==> Drop in arrived
      ensures status == if dropped then Lobby else old(status)
      ensures peerData.buffer == old(peerData.buffer) || fresh(peerData.buffer)
    {
      dropped := false;
      var i := 0;
      while i < |arrived|
        invariant 0 <= i <= |arrived| && Drop !in arrived[..i]
        invariant Valid() && userData.Contents() == old(userData.Contents()) && status == old(status)
        invariant peerData.buffer == old(peerData.buffer) || fresh(peerData.buffer)
        invariant TookAll(State(true), arrived[i..]) == TookAll(old(State(true)), arrived)
      {
        match arrived[i] {
          case Data(bytes) =>
            peerData.PutData(bytes);
          case Chat =>
          case Drop =>
            status := Lobby;
            return true;
        }
        i := i + 1;
      }
    }

    /** The waiting loop. `arrivals` lists what its polls find on the socket, one batch a poll; when it
        runs out the peer has timed out and the game is dropped. */
    method WaitForPeer(arrivals: seq<seq<Message>>) returns (ok: bool)
      requires Valid() && status == Playing && AllFrames(arrivals, datalen)
      modifies this`status, peerData, peerData.buffer
      ensures Valid() && userData.Contents() == old(userData.Contents())
      ensures ok <==> status == Playing
      ensures WaitEnds(old(State(true)), arrivals, datalen, State(ok))
      ensures peerData.buffer == old(peerData.buffer) || fresh(peerData.buffer)
    {
      WaitedLaw(State(true), arrivals, datalen);
      var poll := 0;
      while peerData.pos < datalen
        invariant 0 <= poll <= |arrivals|
        invariant Valid() && userData.Contents() == old(userData.Contents()) && status == Playing
        invariant peerData.buffer == old(peerData.buffer) || fresh(peerData.buffer)
        invariant Waited(State(true), arrivals[poll..], datalen) == Waited(old(State(true)), arrivals, datalen)
        decreases |arrivals| - poll
      {
        if poll == |arrivals| {
          status := Lobby;
          return false;
        }
        assert arrivals[poll] in arrivals;
        var dropped := ProcessGameStuff(arrivals[poll]);
        poll := poll + 1;
        if dropped {
          return false;
        }
      }
      return true;
    }

    /** The playing branch of p2p_modify_play_values. */
    method ModifyPlayValues(values: seq<byte>, arrivals: seq<seq<Message>>) returns (answer: Answer, sent: Message)
      requires Valid() && status == Playing && |values| == datalen && AllFrames(arrivals, datalen)
      modifies this, userData, peerData, userData.buffer, peerData.buffer
      ensures Valid() && sent == Data(values)
      ensures Answers(old(State(false)), values, arrivals, throughput, host, datalen, answer, State(false))
    {
      userData.PutData(values);
      sent := Data(values);
      var early := frameno < throughput;
      frameno := frameno + 1;
      if early {
        return Delayed, sent;
      }
      answer := WaitAndCombine(arrivals);
      AnsweredIsAnswer(old(State(false)), values, arrivals, throughput, host, datalen, answer, State(false));
    }

    /** The rest of a call that is not delayed. */
    method WaitAndCombine(arrivals: seq<seq<Message>>) returns (answer: Answer)
      requires Valid() && status == Playing && AllFrames(arrivals, datalen) && |userData.Contents()| >= datalen
      modifies this`status, userData`pos, peerData, userData.buffer, peerData.buffer
      ensures Valid() && Answered(old(State(true)), arrivals, host, datalen, answer, State(false))
    {
      ghost var p := State(true);
      var ok := WaitForPeer(arrivals);
      if !ok {
        return Ended;
      }
      ghost var q := State(true);
      var combined := CombineFrames();
      CombinedIsAnswered(p, arrivals, host, datalen, q);
      return Combined(combined);
    }

    /** One frame of each FIFO, the host's first on both sides. */
    method CombineFrames() returns (values: seq<byte>)
      requires Valid() && |userData.Contents()| >= datalen && |peerData.Contents()| >= datalen
      modifies userData`pos, peerData`pos, userData.buffer, peerData.buffer
      ensures Valid()
      ensures values == Combine(old(State(true)), host, datalen) && State(false) == Left(old(State(true)), datalen)
    {
      ghost var u, p := userData.Contents(), peerData.Contents();
      var first, second;
      if host {
        first := userData.GetData(datalen);
        second := peerData.GetData(datalen);
        assert u == first + userData.Contents() && p == second + peerData.Contents();
      } else {
        first := peerData.GetData(datalen);
        second := userData.GetData(datalen);
        assert p == first + peerData.Contents() && u == second + userData.Contents();
      }
      values := first + second;
    }
  }

  ghost predicate AllFrames(arrivals: seq<seq<Message>>, datalen: nat) {
    forall b, m :: b in arrivals && m in b && m.Data? ==> |m.bytes| == datalen
  }

  /** A batch of messages up to a drop. */
  function TookAll(p: Peer, ms: seq<Message>): Peer
    decreases |ms|
  {
    if ms == [] then p
    else if ms[0].Drop? then Took(p, ms[0])
    else TookAll(Took(p, ms[0]), ms[1..])
  }

  /** The waiting loop over the batches the polls find; a peer that hears nothing in time ends the game. */
  function Waited(p: Peer, arrivals: seq<seq<Message>>, datalen: nat): Peer
    decreases |arrivals|
  {
    if |p.peerData| >= datalen || p.status != Playing then p
    else if arrivals == [] then p.(status := Lobby, waiting := false)
    else Waited(TookAll(p, arrivals[0]), arrivals[1..], datalen)
  }

  // ----- what a call comes to -----

  /** How many polls find nothing but chats before the first that finds something else. */
  function Idle(arrivals: seq<seq<Message>>): (at: nat)
    ensures at <= |arrivals| && forall i, m :: 0 <= i < at && m in arrivals[i] ==> m.Chat?
    ensures at < |arrivals| ==> exists m :: m in arrivals[at] && !m.Chat?
  {
    if arrivals == [] || exists m :: m in arrivals[0] && !m.Chat? then 0 else 1 + Idle(arrivals[1..])
  }

  /** The first poll that finds a frame or a drop finds a frame, and no drop with it. */
  predicate FrameComesFirst(arrivals: seq<seq<Message>>) {
    Idle(arrivals) < |arrivals| && Drop !in arrivals[Idle(arrivals)]
  }

  /** How a wait ends: at once if a frame is held; else with what the first poll to find a frame or a drop found;
      and for good if that was a drop, or no poll found either. */
  ghost predicate WaitEnds(p: Peer, arrivals: seq<seq<Message>>, datalen: nat, q: Peer) {
    if |p.peerData| >= datalen then q == p
    else if FrameComesFirst(arrivals) then
      q == p.(peerData := p.peerData + Flatten(Frames(arrivals[Idle(arrivals)]))) && |q.peerData| >= datalen
    else
      q.status == Lobby && !q.waiting && q.userData == p.userData && q.frameno == p.frameno
  }

  /** What the call answers: nothing while the own input is delayed; the oldest own frame not yet used, paired with
      the oldest of the peer's; or the end of the game. */
  ghost predicate Answers(p: Peer, values: seq<byte>, arrivals: seq<seq<Message>>, throughput: nat, host: bool,
                          datalen: nat, answer: Answer, p': Peer) {
    var user := p.userData + values;
    if p.frameno < throughput then answer == Delayed && p' == p.(userData := user, frameno := p.frameno + 1)
    else if |p.peerData| >= datalen || FrameComesFirst(arrivals) then
      var heard := p.peerData + if |p.peerData| >= datalen then [] else Flatten(Frames(arrivals[Idle(arrivals)]));
      && |user| >= datalen && |heard| >= datalen
      && answer == Combined(Pair(user[..datalen], heard[..datalen], host))
      && p' == p.(userData := user[datalen..], peerData := heard[datalen..], frameno := p.frameno + 1)
    else
      answer == Ended && p'.status == Lobby && p'.userData == user && p'.frameno == p.frameno + 1
  }

  /** The same of a peer whose own frame is queued. */
  ghost predicate Answered(p: Peer, arrivals: seq<seq<Message>>, host: bool, datalen: nat, answer: Answer, p': Peer) {
    if |p.peerData| >= datalen || FrameComesFirst(arrivals) then
      var heard := p.peerData + if |p.peerData| >= datalen then [] else Flatten(Frames(arrivals[Idle(arrivals)]));
      && |p.userData| >= datalen && |heard| >= datalen
      && answer == Combined(Pair(p.userData[..datalen], heard[..datalen], host))
      && p' == p.(userData := p.userData[datalen..], peerData := heard[datalen..], waiting := false)
    else
      answer == Ended && p'.status == Lobby && p'.userData == p.userData && p'.frameno == p.frameno
  }

  lemma CombinedIsAnswered(p: Peer, arrivals: seq<seq<Message>>, host: bool, datalen: nat, q: Peer)
    requires WaitEnds(p, arrivals, datalen, q) && p.status == Playing && q.status == Playing
    requires |p.userData| >= datalen
    ensures |q.userData| >= datalen && |q.peerData| >= datalen
    ensures Answered(p, arrivals, host, datalen, Combined(Combine(q, host, datalen)), Left(q, datalen))
  {
    assert p.peerData + [] == p.peerData;
  }

  lemma AnsweredIsAnswer(p: Peer, values: seq<byte>, arrivals: seq<seq<Message>>, throughput: nat, host: bool,
                         datalen: nat, answer: Answer, p': Peer)
    requires p.frameno >= throughput && !p.waiting
    requires Answered(Entered(p, values, throughput), arrivals, host, datalen, answer, p')
    ensures Answers(p, values, arrivals, throughput, host, datalen, answer, p')
  {
  }

  lemma {:induction false} TookAllLaw(p: Peer, ms: seq<Message>)
    ensures Drop in ms ==>
              var q := TookAll(p, ms);
              q.status == Lobby && !q.waiting && q.userData == p.userData && q.frameno == p.frameno
    ensures Drop !in ms ==> TookAll(p, ms) == p.(peerData := p.peerData + Flatten(Frames(ms)))
    decreases |ms|
  {
    if ms != [] {
      FramesHead(ms);
      TookAllLaw(Took(p, ms[0]), ms[1..]);
      assert ms[0] != Drop ==> (Drop in ms <==> Drop in ms[1..]);
      FlattenConcat(if ms[0].Data? then [ms[0].bytes] else [], Frames(ms[1..]));
    }
  }

  lemma {:induction false} NoFramesInChats(ms: seq<Message>)
    requires forall m :: m in ms ==> m.Chat?
    ensures Frames(ms) == []
    decreases |ms|
  {
    if ms != [] {
      assert ms[|ms| - 1] in ms;
      NoFramesInChats(ms[..|ms| - 1]);
    }
  }

  lemma ChatsChangeNothing(p: Peer, batch: seq<Message>)
    requires forall m :: m in batch ==> m.Chat?
    ensures TookAll(p, batch) == p
  {
    TookAllLaw(p, batch);
    NoFramesInChats(batch);
    assert p.peerData + [] == p.peerData;
  }

  lemma {:induction false} FrameIsLong(ms: seq<Message>, m: Message)
    requires m in ms && m.Data?
    ensures |Flatten(Frames(ms))| >= |m.bytes|
    decreases |ms|
  {
    var n := |ms| - 1;
    FlattenConcat(Frames(ms[..n]), if ms[n].Data? then [ms[n].bytes] else []);
    if m != ms[n] {
      FrameIsLong(ms[..n], m);
    }
  }

  /** The waiting loop, poll by poll, ends as stated. */
  lemma {:induction false} WaitedLaw(p: Peer, arrivals: seq<seq<Message>>, datalen: nat)
    requires p.status == Playing && AllFrames(arrivals, datalen)
    ensures WaitEnds(p, arrivals, datalen, Waited(p, arrivals, datalen))
    decreases |arrivals|
  {
    if |p.peerData| < datalen && arrivals != [] {
      var batch := arrivals[0];
      TookAllLaw(p, batch);
      if exists m :: m in batch && !m.Chat? {
        if Drop !in batch {
          var m :| m in batch && m.Data?;
          FrameIsLong(batch, m);
        }
      } else {
        ChatsChangeNothing(p, batch);
        assert FrameComesFirst(arrivals) <==> FrameComesFirst(arrivals[1..]);
        WaitedLaw(p, arrivals[1..], datalen);
      }
    }
  }

  // ----- two peers -----

  /** One side with the messages on their way to it, what was fed to its calls so far, the non-empty
      results they returned, and how many frames it took off its inbox. */
  datatype Side = Side(peer: Peer, inbox: seq<Message>, inputs: seq<seq<byte>>, results: seq<seq<byte>>, taken: nat)

  datatype World = World(host: Side, guest: Side)

  datatype Event =
    | Enter(asHost: bool, values: seq<byte>)
    | Receive(asHost: bool)
    | Leave(asHost: bool)
    | SayChat(asHost: bool)
    | DropGame(asHost: bool)

  function Own(w: World, asHost: bool): Side {
    if asHost then w.host else w.guest
  }

  function Other(w: World, asHost: bool): Side {
    if asHost then w.guest else w.host
  }

  function With(own: Side, other: Side, asHost: bool): World {
    if asHost then World(own, other) else World(other, own)
  }

  /** The next message of the inbox is digested. */
  function Received(x: Side): Side
    requires x.inbox != []
  {
    x.(peer := Took(x.peer, x.inbox[0]), inbox := x.inbox[1..], taken := x.taken + if x.inbox[0].Data? then 1 else 0)
  }

  function Posted(s: Side, m: Message): Side {
    s.(inbox := s.inbox + [m])
  }

  ghost predicate Allowed(w: World, e: Event, datalen: nat) {
    var x := Own(w, e.asHost);
    match e
    case Enter(_, values) => x.peer.status == Playing && !x.peer.waiting && |values| == datalen
    case Receive(_) => x.peer.status == Playing && x.peer.waiting && x.inbox != []
    case Leave(_) => x.peer.status == Playing && x.peer.waiting && |x.peer.peerData| >= datalen
    case SayChat(_) => x.peer.status == Playing
    case DropGame(_) => x.peer.status == Playing
  }

  function Step(w: World, e: Event, throughput: nat, datalen: nat): World {
    var x, y := Own(w, e.asHost), Other(w, e.asHost);
    match e
    case Enter(_, values) =>
      var x' := x.(peer := Entered(x.peer, values, throughput), inputs := x.inputs + [values]);
      With(x', Posted(y, Data(values)), e.asHost)
    case Receive(_) =>
      if x.inbox == [] then w
      else With(Received(x), y, e.asHost)
    case Leave(_) =>
      if |x.peer.userData| < datalen || |x.peer.peerData| < datalen then w
      else
        var result := Combine(x.peer, e.asHost, datalen);
        With(x.(peer := Left(x.peer, datalen), results := x.results + [result]), y, e.asHost)
    case SayChat(_) => With(x, Posted(y, Chat), e.asHost)
    case DropGame(_) => With(x.(peer := x.peer.(status := Lobby, waiting := false)), Posted(y, Drop), e.asHost)
  }

  function Fresh(): Side {
    Side(Peer(0, [], [], Playing, false), [], [], [], 0)
  }

  ghost predicate Next(w: World, e: Event, w': World, throughput: nat, datalen: nat) {
    Allowed(w, e, datalen) && w' == Step(w, e, throughput, datalen)
  }

  ghost predicate IsRun(ws: seq<World>, es: seq<Event>, throughput: nat, datalen: nat) {
    && |ws| == |es| + 1 && datalen > 0 && ws[0] == World(Fresh(), Fresh())
    && forall i, j :: 0 <= i < j < |ws| && j == i + 1 ==> Next(ws[i], es[i], ws[j], throughput, datalen)
  }

  ghost predicate Reachable(w: World, throughput: nat, datalen: nat) {
    exists ws, es :: IsRun(ws, es, throughput, datalen) && ws[|es|] == w
  }

  // ----- the invariant -----

  /** The frames still travelling in an inbox. */
  function Frames(ms: seq<Message>): seq<seq<byte>> {
    if ms == [] then []
    else Frames(ms[..|ms| - 1]) + if ms[|ms| - 1].Data? then [ms[|ms| - 1].bytes] else []
  }

  ghost predicate AllSized(fs: seq<seq<byte>>, datalen: nat) {
    forall i :: 0 <= i < |fs| ==> |fs[i]| == datalen
  }

  /** The results handed out so far pair the two sides' inputs. */
  ghost predicate ResultsOk(x: Side, theirs: seq<seq<byte>>, asHost: bool) {
    |x.results| <= |x.inputs| && |x.results| <= |theirs| &&
    forall k :: 0 <= k < |x.results| ==> x.results[k] == Pair(x.inputs[k], theirs[k], asHost)
  }

  /** A side against the opponent's inputs `theirs`: the own FIFO holds the own inputs not yet used, the
      peer FIFO the opponent's inputs taken and not yet used, and the inbox those not yet taken. */
  ghost predicate SideOk(x: Side, theirs: seq<seq<byte>>, asHost: bool, throughput: nat, datalen: nat) {
    var c, r, t := |x.inputs|, |x.results|, x.taken;
    && AllSized(x.inputs, datalen)
    && x.peer.frameno == c
    && r <= t <= |theirs| && r <= c <= r + throughput + 1
    && x.peer.userData == Flatten(x.inputs[r..])
    && x.peer.peerData == Flatten(theirs[r..t])
    && Frames(x.inbox) == theirs[t..]
    && (x.peer.waiting ==> c == r + throughput + 1)
    && (x.peer.status == Playing && !x.peer.waiting ==> c <= r + throughput && (r == 0 || c == r + throughput))
    && ResultsOk(x, theirs, asHost)
  }

  /** The host's frame first. */
  function Pair(mine: seq<byte>, theirs: seq<byte>, asHost: bool): seq<byte> {
    if asHost then mine + theirs else theirs + mine
  }

  ghost predicate Inv(w: World, throughput: nat, datalen: nat) {
    && datalen > 0
    && SideOk(w.host, w.guest.inputs, true, throughput, datalen)
    && SideOk(w.guest, w.host.inputs, false, throughput, datalen)
  }

  /** The head of a queue of equally long frames. */
  lemma FlattenHead(fs: seq<seq<byte>>, datalen: nat)
    requires AllSized(fs, datalen) && datalen > 0
    ensures |Flatten(fs)| >= datalen <==> fs != []
    ensures fs != [] ==> Flatten(fs)[..datalen] == fs[0] && Flatten(fs)[datalen..] == Flatten(fs[1..])
  {
  }

  lemma FramesSnoc(ms: seq<Message>, m: Message)
    ensures Frames(ms + [m]) == Frames(ms) + if m.Data? then [m.bytes] else []
  {
    assert (ms + [m])[..|ms|] == ms;
  }

  lemma {:induction false} FramesHead(ms: seq<Message>)
    requires ms != []
    ensures Frames(ms) == (if ms[0].Data? then [ms[0].bytes] else []) + Frames(ms[1..])
    decreases |ms|
  {
    var n := |ms| - 1;
    if n > 0 {
      FramesHead(ms[..n]);
      assert ms[..n][1..] == ms[1..][..n - 1];
    }
  }

  // ----- every step keeps the invariant -----

  lemma EnterOwnSide(x: Side, theirs: seq<seq<byte>>, asHost: bool, values: seq<byte>, throughput: nat, datalen: nat)
    requires SideOk(x, theirs, asHost, throughput, datalen) && |values| == datalen
    requires x.peer.status == Playing && !x.peer.waiting
    ensures SideOk(x.(peer := Entered(x.peer, values, throughput), inputs := x.inputs + [values]), theirs,
                   asHost, throughput, datalen)
  {
    var r := |x.results|;
    FlattenSnoc(x.inputs[r..], values);
    assert (x.inputs + [values])[r..] == x.inputs[r..] + [values];
  }

  lemma EnterOtherSide(y: Side, theirs: seq<seq<byte>>, asHost: bool, values: seq<byte>, throughput: nat, datalen: nat)
    requires SideOk(y, theirs, asHost, throughput, datalen)
    ensures SideOk(Posted(y, Data(values)), theirs + [values], asHost, throughput, datalen)
  {
    FramesSnoc(y.inbox, Data(values));
    SlicesOfLonger(theirs, values, |y.results|, y.taken);
    MoreOfTheirs(y, Posted(y, Data(values)), theirs, values, asHost);
  }

  lemma SlicesOfLonger(theirs: seq<seq<byte>>, values: seq<byte>, r: nat, t: nat)
    requires r <= t <= |theirs|
    ensures (theirs + [values])[t..] == theirs[t..] + [values] && (theirs + [values])[r..t] == theirs[r..t]
  {
  }

  lemma MoreOfTheirs(y: Side, y': Side, theirs: seq<seq<byte>>, values: seq<byte>, asHost: bool)
    requires ResultsOk(y, theirs, asHost) && y'.results == y.results && y'.inputs == y.inputs
    ensures ResultsOk(y', theirs + [values], asHost)
  {
  }

  lemma ReceiveOwnSide(x: Side, theirs: seq<seq<byte>>, asHost: bool, throughput: nat, datalen: nat)
    requires SideOk(x, theirs, asHost, throughput, datalen) && x.inbox != [] && x.peer.waiting
    ensures SideOk(Received(x), theirs, asHost, throughput, datalen) && Received(x).inputs == x.inputs
  {
    FramesHead(x.inbox);
    if x.inbox[0].Data? {
      FrameTaken(theirs, |x.results|, x.taken, x.inbox[0].bytes, Frames(x.inbox[1..]));
    } else {
      assert Frames(x.inbox[1..]) == Frames(x.inbox);
    }
  }

  /** The first of the frames still to come joins those taken. */
  lemma FrameTaken(theirs: seq<seq<byte>>, r: nat, t: nat, bytes: seq<byte>, rest: seq<seq<byte>>)
    requires r <= t <= |theirs| && theirs[t..] == [bytes] + rest
    ensures t < |theirs| && rest == theirs[t + 1..] && Flatten(theirs[r..t + 1]) == Flatten(theirs[r..t]) + bytes
  {
    assert |theirs[t..]| > 0 && bytes == theirs[t..][0] == theirs[t];
    assert rest == theirs[t..][1..] == theirs[t + 1..];
    assert theirs[r..t + 1] == theirs[r..t] + [theirs[t]];
    FlattenSnoc(theirs[r..t], theirs[t]);
  }

  lemma LeaveOwnSide(x: Side, theirs: seq<seq<byte>>, asHost: bool, throughput: nat, datalen: nat)
    requires SideOk(x, theirs, asHost, throughput, datalen) && AllSized(theirs, datalen) && datalen > 0
    requires x.peer.waiting && |x.peer.peerData| >= datalen
    ensures |x.peer.userData| >= datalen
    ensures SideOk(x.(peer := Left(x.peer, datalen), results := x.results + [Combine(x.peer, asHost, datalen)]), theirs,
                   asHost, throughput, datalen)
  {
    var r, t := |x.results|, x.taken;
    FlattenHead(x.inputs[r..], datalen);
    FlattenHead(theirs[r..t], datalen);
    assert x.inputs[r..][1..] == x.inputs[r + 1..];
    assert theirs[r..t][1..] == theirs[r + 1..t];
    assert Combine(x.peer, asHost, datalen) == Pair(x.inputs[r], theirs[r], asHost);
  }

  lemma EnterKeepsInv(w: World, e: Event, throughput: nat, datalen: nat)
    requires Inv(w, throughput, datalen) && e.Enter? && Allowed(w, e, datalen)
    ensures Inv(Step(w, e, throughput, datalen), throughput, datalen)
  {
    EnterOwnSide(Own(w, e.asHost), Other(w, e.asHost).inputs, e.asHost, e.values, throughput, datalen);
    EnterOtherSide(Other(w, e.asHost), Own(w, e.asHost).inputs, !e.asHost, e.values, throughput, datalen);
  }

  lemma ReceiveKeepsInv(w: World, e: Event, throughput: nat, datalen: nat)
    requires Inv(w, throughput, datalen) && e.Receive? && Allowed(w, e, datalen)
    ensures Inv(Step(w, e, throughput, datalen), throughput, datalen)
  {
    ReceiveOwnSide(Own(w, e.asHost), Other(w, e.asHost).inputs, e.asHost, throughput, datalen);
  }

  lemma LeaveKeepsInv(w: World, e: Event, throughput: nat, datalen: nat)
    requires Inv(w, throughput, datalen) && e.Leave? && Allowed(w, e, datalen)
    ensures Inv(Step(w, e, throughput, datalen), throughput, datalen)
  {
    LeaveOwnSide(Own(w, e.asHost), Other(w, e.asHost).inputs, e.asHost, throughput, datalen);
  }

  lemma OtherStepsKeepInv(w: World, e: Event, throughput: nat, datalen: nat)
    requires Inv(w, throughput, datalen) && (e.SayChat? || e.DropGame?)
    ensures Inv(Step(w, e, throughput, datalen), throughput, datalen)
  {
    FramesSnoc(Other(w, e.asHost).inbox, if e.SayChat? then Chat else Drop);
  }

  lemma StepKeepsInv(w: World, e: Event, w': World, throughput: nat, datalen: nat)
    requires Inv(w, throughput, datalen) && Next(w, e, w', throughput, datalen)
    ensures Inv(w', throughput, datalen)
  {
    match e
    case Enter(_, _) => EnterKeepsInv(w, e, throughput, datalen);
    case Receive(_) => ReceiveKeepsInv(w, e, throughput, datalen);
    case Leave(_) => LeaveKeepsInv(w, e, throughput, datalen);
    case SayChat(_) => OtherStepsKeepInv(w, e, throughput, datalen);
    case DropGame(_) => OtherStepsKeepInv(w, e, throughput, datalen);
  }

  lemma FreshInv(throughput: nat, datalen: nat)
    requires datalen > 0
    ensures Inv(World(Fresh(), Fresh()), throughput, datalen)
  {
  }

  lemma RunSteps(ws: seq<World>, es: seq<Event>, throughput: nat, datalen: nat, i: nat, w: World, e: Event, w': World)
    requires IsRun(ws, es, throughput, datalen) && i < |es| && w == ws[i] && e == es[i] && w' == ws[i + 1]
    ensures Next(w, e, w', throughput, datalen)
  {
  }

  lemma {:induction false} RunKeepsInv(ws: seq<World>, es: seq<Event>, throughput: nat, datalen: nat, i: nat, w: World)
    requires IsRun(ws, es, throughput, datalen) && i <= |es| && w == ws[i]
    ensures Inv(w, throughput, datalen)
  {
    if i == 0 {
      FreshInv(throughput, datalen);
    } else {
      var before, e := ws[i - 1], es[i - 1];
      RunKeepsInv(ws, es, throughput, datalen, i - 1, before);
      RunSteps(ws, es, throughput, datalen, i - 1, before, e, w);
      StepKeepsInv(before, e, w, throughput, datalen);
    }
  }

  lemma ReachableInv(w: World, throughput: nat, datalen: nat)
    requires Reachable(w, throughput, datalen)
    ensures Inv(w, throughput, datalen)
  {
    var ws, es :| IsRun(ws, es, throughput, datalen) && ws[|es|] == w;
    RunKeepsInv(ws, es, throughput, datalen, |es|, w);
  }

  // ----- what every interleaving guarantees -----

  /** The k-th non-empty result is the same on both sides: the host's k-th input followed by the guest's. */
  lemma PeersAgree(w: World, throughput: nat, datalen: nat, k: nat)
    requires Reachable(w, throughput, datalen)
    ensures k < |w.host.results| ==>
              k < |w.host.inputs| && k < |w.guest.inputs| && w.host.results[k] == w.host.inputs[k] + w.guest.inputs[k]
    ensures k < |w.guest.results| ==>
              k < |w.host.inputs| && k < |w.guest.inputs| && w.guest.results[k] == w.host.inputs[k] + w.guest.inputs[k]
  {
    ReachableInv(w, throughput, datalen);
  }

  /** Neither peer gets more than throughput + 1 calls ahead of the other, an input is used at most
      throughput + 1 calls after it was given, and the peer FIFO never holds more than 2 * throughput + 2
      frames. */
  lemma DriftIsBounded(w: World, throughput: nat, datalen: nat)
    requires Reachable(w, throughput, datalen)
    ensures |w.host.inputs| <= |w.guest.inputs| + throughput + 1
    ensures |w.guest.inputs| <= |w.host.inputs| + throughput + 1
    ensures forall asHost :: var x, y := Own(w, asHost), Other(w, asHost);
              && |x.results| <= |x.inputs| && x.peer.userData == Flatten(x.inputs[|x.results|..])
              && |x.inputs[|x.results|..]| <= throughput + 1
              && |x.results| <= x.taken <= |y.inputs| && x.peer.peerData == Flatten(y.inputs[|x.results|..x.taken])
              && x.taken - |x.results| <= 2 * throughput + 2
  {
    ReachableInv(w, throughput, datalen);
  }

  /** A peer is stuck when it waits for a frame and nothing is on its way. */
  ghost predicate Stuck(x: Side, datalen: nat) {
    x.peer.waiting && |x.peer.peerData| < datalen && x.inbox == []
  }

  /** The two peers are never both stuck, so while both play one of them can always go on. */
  lemma NeverBothStuck(w: World, throughput: nat, datalen: nat)
    requires Reachable(w, throughput, datalen)
    ensures !(Stuck(w.host, datalen) && Stuck(w.guest, datalen))
  {
    ReachableInv(w, throughput, datalen);
    if Stuck(w.host, datalen) && Stuck(w.guest, datalen) {
      StuckHasUsedAll(w.host, w.guest.inputs, true, throughput, datalen);
      StuckHasUsedAll(w.guest, w.host.inputs, false, throughput, datalen);
    }
  }

  lemma StuckHasUsedAll(x: Side, theirs: seq<seq<byte>>, asHost: bool, throughput: nat, datalen: nat)
    requires SideOk(x, theirs, asHost, throughput, datalen) && datalen > 0 && AllSized(theirs, datalen)
             && Stuck(x, datalen)
    ensures |theirs| == |x.results| && |x.inputs| == |x.results| + throughput + 1
  {
    FlattenHead(theirs[|x.results|..x.taken], datalen);
    assert theirs[x.taken..] == [];
  }

  /** A peer that waits can leave as soon as it has taken one frame more than it has used. */
  lemma WaitingPeerLeavesWithOneFrame(w: World, asHost: bool, throughput: nat, datalen: nat)
    requires Reachable(w, throughput, datalen) && Own(w, asHost).peer.waiting && Own(w, asHost).peer.status == Playing
    ensures Allowed(w, Leave(asHost), datalen) <==> Own(w, asHost).taken > |Own(w, asHost).results|
  {
    ReachableInv(w, throughput, datalen);
    var x, y := Own(w, asHost), Other(w, asHost);
    FlattenHead(y.inputs[|x.results|..x.taken], datalen);
  }
}
